# Ordering exit operation and deferred configuration events of Hibernate Shards

This project models two small parts of the Hibernate Shards federation layer in Dafny and proves properties of them.

**In-memory ordering.** A federated query concatenates the result lists of several shards. `OrderExitOperation` then restores a global order. It is driven by a list of `InMemoryOrderBy` keys: each key is a property path and a direction. A path such as `innerMyInt.value` is a chain of getter lookups. A segment `p` names the getter `"get" + capitalize(p)`, and a segment with no such getter is an error. Results are ordered lexicographically over the keys: the first key that does not tie decides, in its own direction. Integers compare numerically and strings compare like `String.compareTo`. The implementation of the operation is not part of this model. Its behaviour is taken from `OrderExitOperationTest`: the `MyInt` fixture, the property lookup of `EntityPersisterMock`, and the five ordering scenarios.

- `property_access.dfy`: the `MyInt` record with its three getters and its `equals`, the getter lookup, and path resolution. Reflection becomes an explicit table of getters.
- `order_exit_operation.dfy`: keys, the key comparator, an insertion sort used as the reference ordering, and `Apply`. `Apply` fails when some element does not resolve some key. Otherwise its output is sorted under the comparator and is a permutation of the input. The file also proves three more facts. When no two elements tie on all keys, the sorted output is unique. A key's value kind depends only on its path. On elements that carry an equal nested object, nested paths order exactly as top-level paths do.
- `order_exit_operation_test.dfy`: the five test scenarios. Each lemma states the whole output list.

**Deferred events.** Configuration requested before a shard's session or criteria exists is recorded as an event and applied when that object is created.

- `open_session_events.dfy`: `EnableFetchProfile(name)` and `DisableFetchProfile(name)`. They model the two Java classes that implement `OpenSessionEvent`. The session is abstracted to three parts: the profiles its factory defines, the profiles currently enabled, and an abstract remainder `other` for every other setting. `Effect` is the pure meaning of `onOpenSession`. A `Session` class and the method `OnOpenSession` apply it in place.
- `criteria_events.dfy`: `SetReadOnly(readOnly)`, which models `SetReadOnlyEvent`. The criteria is its read-only flag plus an abstract remainder. `Effect` is the pure meaning of `onEvent`, and `Criteria` with `OnEvent` applies it in place.

Each event is a datatype value. The name or flag given at construction is its one field. A datatype value cannot be changed, so that field is fixed for good. The Java fields behave the same way: the profile name is `final`, and the read-only flag is assigned only by the constructor. The session events and the criteria event are two separate datatypes because they target different objects, just as the Java code has two interfaces.

Properties proved across several calls:
- Firing an event twice is the same as firing it once.
- Of several events on one profile or one flag, the last one fired decides.
- Replaying one event on two sessions affects each independently.

## Model

| member | source | states |
|---|---|---|
| PropertyAccess.CapitalizeInverse | src/test/java/org/hibernate/shards/strategy/exit/OrderExitOperationTest.java:237-239 | capitalising a segment gives an upper-case-initial name exactly when the segment is that name or that name with its first letter in lower case |
| PropertyAccess.GetterNameIs | src/test/java/org/hibernate/shards/strategy/exit/OrderExitOperationTest.java:237-239 | the getter looked up for a segment is `"get" + t` exactly when the segment is `t` or `t` with a lower-case first letter |
| PropertyAccess.ValueGetter | src/test/java/org/hibernate/shards/strategy/exit/OrderExitOperationTest.java:63-65 | the segment resolves to `getValue` exactly when it is `value` or `Value` |
| PropertyAccess.NameGetter | src/test/java/org/hibernate/shards/strategy/exit/OrderExitOperationTest.java:67-69 | the segment resolves to `getName` exactly when it is `name` or `Name` |
| PropertyAccess.InnerMyIntGetter | src/test/java/org/hibernate/shards/strategy/exit/OrderExitOperationTest.java:59-61 | the segment resolves to `getInnerMyInt` exactly when it is `innerMyInt` or `InnerMyInt` |
| PropertyAccess.Capitalize | src/test/java/org/hibernate/shards/strategy/exit/OrderExitOperationTest.java:237 | only the first character changes, and only its case: a lower-case first letter becomes the same letter in upper case, and a segment starting with anything else comes back unchanged |
| PropertyAccess.GetPropertyValue | src/test/java/org/hibernate/shards/strategy/exit/OrderExitOperationTest.java:234-248 | a segment resolves to the field of its getter; any other segment is an error naming the missing getter `"get" + capitalize(segment)`, never a default value |
| PropertyAccess.PropertyValueSingle | src/test/java/org/hibernate/shards/strategy/exit/OrderExitOperationTest.java:87-88 | a key of one segment on a result element is exactly one call of `getPropertyValue` |
| PropertyAccess.ResolveAppend | src/test/java/org/hibernate/shards/strategy/exit/OrderExitOperationTest.java:116 | resolving a dotted path `p.q` resolves `p`, then `q` on the value reached; a failure within `p` is the result |
| PropertyAccess.NestedPathResolvesThroughInner | src/test/java/org/hibernate/shards/strategy/exit/OrderExitOperationTest.java:116 | a path `innerMyInt.rest` resolves on an element as `rest` resolves on its nested object |
| PropertyAccess.EqualsIsEquivalence | src/test/java/org/hibernate/shards/strategy/exit/OrderExitOperationTest.java:71-76 | `equals` is reflexive, symmetric and transitive |
| PropertyAccess.EqualsIgnoresInner | src/test/java/org/hibernate/shards/strategy/exit/OrderExitOperationTest.java:71-76 | two records with the same value and name are equal whatever their nested objects |
| OrderExitOperation.SortKeys | src/test/java/org/hibernate/shards/strategy/exit/OrderExitOperationTest.java:145-148 | an element's key list resolves exactly when every key's path resolves, and then holds each key's value in key order |
| OrderExitOperation.Insert | src/test/java/org/hibernate/shards/strategy/exit/OrderExitOperationTest.java:91-95 | inserting adds exactly the one element: nothing is dropped or duplicated |
| OrderExitOperation.Sort | src/test/java/org/hibernate/shards/strategy/exit/OrderExitOperationTest.java:91-95 | sorting is a permutation of its input |
| OrderExitOperation.FirstFailure | src/test/java/org/hibernate/shards/strategy/exit/OrderExitOperationTest.java:239-242 | no failure is reported exactly when every element resolves every key |
| OrderExitOperation.Apply | src/test/java/org/hibernate/shards/strategy/exit/OrderExitOperationTest.java:87-95 | the operation succeeds exactly when every element resolves every key; its output is then sorted under the key comparator and a permutation of the input |
| OrderExitOperation.CompareStrings | src/test/java/org/hibernate/shards/strategy/exit/OrderExitOperationTest.java:147 | the sign of `String.compareTo`: always -1, 0 or 1; a proper prefix orders first; differing first characters decide |
| OrderExitOperation.CompareStringsFirstDifference | src/test/java/org/hibernate/shards/strategy/exit/OrderExitOperationTest.java:147 | the first position at which two strings differ decides their order |
| OrderExitOperation.CompareStringsAntisymmetric | src/test/java/org/hibernate/shards/strategy/exit/OrderExitOperationTest.java:147 | string comparison is antisymmetric |
| OrderExitOperation.CompareStringsZero | src/test/java/org/hibernate/shards/strategy/exit/OrderExitOperationTest.java:147 | strings compare equal exactly when they are equal |
| OrderExitOperation.CompareStringsTransitive | src/test/java/org/hibernate/shards/strategy/exit/OrderExitOperationTest.java:147 | string comparison is transitive |
| OrderExitOperation.CompareKeysProperties | src/test/java/org/hibernate/shards/strategy/exit/OrderExitOperationTest.java:146-147 | the natural order on resolved values is antisymmetric, transitive and ties only equal values |
| OrderExitOperation.DirectedProperties | src/test/java/org/hibernate/shards/strategy/exit/OrderExitOperationTest.java:97-98 | a key compared ascending or descending keeps those laws |
| OrderExitOperation.LexCompareAntisymmetric | src/test/java/org/hibernate/shards/strategy/exit/OrderExitOperationTest.java:145-148 | the lexicographic comparison over the keys is antisymmetric |
| OrderExitOperation.LexCompareTransitive | src/test/java/org/hibernate/shards/strategy/exit/OrderExitOperationTest.java:145-148 | the lexicographic comparison over the keys is transitive |
| OrderExitOperation.PrecedesTotal | src/test/java/org/hibernate/shards/strategy/exit/OrderExitOperationTest.java:145-148 | any two resolvable elements are ordered one way or the other |
| OrderExitOperation.PrecedesTransitive | src/test/java/org/hibernate/shards/strategy/exit/OrderExitOperationTest.java:145-148 | the element order is transitive |
| OrderExitOperation.PrecedesReflexive | src/test/java/org/hibernate/shards/strategy/exit/OrderExitOperationTest.java:145-148 | a resolvable element may stand next to itself |
| OrderExitOperation.PrependSorted | src/test/java/org/hibernate/shards/strategy/exit/OrderExitOperationTest.java:91-95 | an element that precedes all of a sorted list can go in front of it |
| OrderExitOperation.InsertIsSorted | src/test/java/org/hibernate/shards/strategy/exit/OrderExitOperationTest.java:91-95 | inserting into a sorted list keeps it sorted |
| OrderExitOperation.SortIsSorted | src/test/java/org/hibernate/shards/strategy/exit/OrderExitOperationTest.java:91-95 | sorting resolvable elements gives a list sorted under the key comparator |
| OrderExitOperation.SortedTail | src/test/java/org/hibernate/shards/strategy/exit/OrderExitOperationTest.java:91-95 | the tail of a sorted list is sorted |
| OrderExitOperation.StrictlySortedTail | src/test/java/org/hibernate/shards/strategy/exit/OrderExitOperationTest.java:153-159 | the tail of a tie-free sorted list is tie-free and sorted |
| OrderExitOperation.SameFirst | src/test/java/org/hibernate/shards/strategy/exit/OrderExitOperationTest.java:153-159 | a sorted list and a tie-free sorted list with the same elements start alike |
| OrderExitOperation.SortedWithoutTiesIsUnique | src/test/java/org/hibernate/shards/strategy/exit/OrderExitOperationTest.java:153-159 | when no two elements tie on all keys there is only one sorted arrangement |
| OrderExitOperation.ApplyWithoutTies | src/test/java/org/hibernate/shards/strategy/exit/OrderExitOperationTest.java:150-159 | the operation returns the expected list whenever that list is tie-free and sorted and holds exactly the input elements |
| OrderExitOperation.ResolvedKindIsLastGetters | src/test/java/org/hibernate/shards/strategy/exit/OrderExitOperationTest.java:59-69 | a resolved path yields the kind of value its last getter returns, whatever object it starts from |
| OrderExitOperation.KeyKindDependsOnlyOnPath | src/test/java/org/hibernate/shards/strategy/exit/OrderExitOperationTest.java:63-69 | two elements never resolve one key to an integer and a string |
| OrderExitOperation.TopLevelKeys | src/test/java/org/hibernate/shards/strategy/exit/OrderExitOperationTest.java:63-69 | the keys `value` and `name` are an element's value and name |
| OrderExitOperation.EqualElementsTieOnTopLevelKeys | src/test/java/org/hibernate/shards/strategy/exit/OrderExitOperationTest.java:71-76 | elements equal under `equals` have the same value for every top-level key |
| OrderExitOperation.SameKeysSameApply | src/test/java/org/hibernate/shards/strategy/exit/OrderExitOperationTest.java:108-135 | two key lists with the same directions that give every element the same key values order any data identically |
| OrderExitOperation.NestedOrderingMatchesTopLevel | src/test/java/org/hibernate/shards/strategy/exit/OrderExitOperationTest.java:108-135 | on elements carrying an equal nested object, moving any keys under `innerMyInt` leaves the result unchanged |
| OrderExitOperationTest.ByValue | src/test/java/org/hibernate/shards/strategy/exit/OrderExitOperationTest.java:87-105 | the key `value` orders elements by value, ascending or descending |
| OrderExitOperationTest.ByValueThenNameDescending | src/test/java/org/hibernate/shards/strategy/exit/OrderExitOperationTest.java:145-148 | keys (value ascending, name descending) order by value and, among equal values, by name backwards |
| OrderExitOperationTest.ApplyByValue | src/test/java/org/hibernate/shards/strategy/exit/OrderExitOperationTest.java:87-105 | elements with strictly increasing (decreasing) values are the result of ordering any permutation of them by `value` ascending (descending) |
| OrderExitOperationTest.ApplyByValueThenNameDescending | src/test/java/org/hibernate/shards/strategy/exit/OrderExitOperationTest.java:145-160 | a tie-free list ordered by value, then name backwards, is the result of ordering any permutation of it by those keys |
| OrderExitOperationTest.ApplySingleOrderingAscending | src/test/java/org/hibernate/shards/strategy/exit/OrderExitOperationTest.java:79-95 | values {3, 1, 27, 2, 5} ascending give 1, 2, 3, 5, 27 |
| OrderExitOperationTest.ApplySingleOrderingDescending | src/test/java/org/hibernate/shards/strategy/exit/OrderExitOperationTest.java:97-105 | the same values descending give 27, 5, 3, 2, 1 |
| OrderExitOperationTest.ApplySingleNestedOrderingAscending | src/test/java/org/hibernate/shards/strategy/exit/OrderExitOperationTest.java:108-124 | ascending `innerMyInt.value` gives 1, 2, 3, 5, 27 |
| OrderExitOperationTest.ApplySingleNestedOrderingDescending | src/test/java/org/hibernate/shards/strategy/exit/OrderExitOperationTest.java:126-134 | descending `innerMyInt.value` gives 27, 5, 3, 2, 1 |
| OrderExitOperationTest.ApplyMultipleOrderings | src/test/java/org/hibernate/shards/strategy/exit/OrderExitOperationTest.java:137-160 | keys (value ascending, name descending) put "tomislav" before "maulik" among the value-2 elements |
| OrderExitOperationTest.ApplyMultipleNestedOrderings | src/test/java/org/hibernate/shards/strategy/exit/OrderExitOperationTest.java:162-185 | the same tie-break with both keys nested |
| OrderExitOperationTest.ApplyMultipleMixedOrderings | src/test/java/org/hibernate/shards/strategy/exit/OrderExitOperationTest.java:187-210 | the same tie-break with a nested first key and a top-level second key |
| OpenSessionEvents.Effect | src/main/java/org/hibernate/shards/session/EnableFetchProfileOpenSessionEvent.java:37-43 | the event succeeds exactly when the session knows the profile. A known profile ends up enabled (Enable) or disabled (Disable). Every other profile, the known set and all other settings are untouched. On failure the error is an unsupported operation with message "fetch profile <name> is unknown to one session" |
| OpenSessionEvents.EffectIdempotent | src/main/java/org/hibernate/shards/session/EnableFetchProfileOpenSessionEvent.java:39 | firing an event that succeeded once more changes nothing |
| OpenSessionEvents.SameEffectOnEverySession | src/main/java/org/hibernate/shards/session/DisableFetchProfileOpenSessionEvent.java:31-43 | on any two sessions that know the profile the event leaves it in the same status |
| OpenSessionEvents.LastEventDecides | src/main/java/org/hibernate/shards/session/DisableFetchProfileOpenSessionEvent.java:37-43 | after several events on one known profile its status is the last event's, and nothing else changed |
| OpenSessionEvents.Session.EnableFetchProfile | src/main/java/org/hibernate/shards/session/EnableFetchProfileOpenSessionEvent.java:39-40 | the session enables a profile it knows; for an unknown one it reports failure and changes nothing |
| OpenSessionEvents.Session.DisableFetchProfile | src/main/java/org/hibernate/shards/session/DisableFetchProfileOpenSessionEvent.java:39-40 | the session disables a profile it knows; for an unknown one it reports failure and changes nothing |
| OpenSessionEvents.OnOpenSession | src/main/java/org/hibernate/shards/session/DisableFetchProfileOpenSessionEvent.java:37-43 | firing changes only the session's enabled profiles, to exactly what `Effect` gives; on failure it returns that error and leaves the session as it was; a session whose enabled profiles are all known keeps that property |
| OpenSessionEvents.ReplayOnTwoSessions | src/main/java/org/hibernate/shards/session/EnableFetchProfileOpenSessionEvent.java:31-43 | one event fired on two sessions affects each as if it were the only one: each ends in the event's effect on its own old state, or unchanged with the unknown-profile error |
| CriteriaEvents.Effect | src/main/java/org/hibernate/shards/criteria/SetReadOnlyEvent.java:44-46 | the read-only flag becomes exactly the recorded value and every other setting is untouched |
| CriteriaEvents.EffectIdempotent | src/main/java/org/hibernate/shards/criteria/SetReadOnlyEvent.java:45 | firing the event twice is firing it once |
| CriteriaEvents.LastEventWins | src/main/java/org/hibernate/shards/criteria/SetReadOnlyEvent.java:45 | of several events fired in order the last one decides the flag; other settings keep their initial values |
| CriteriaEvents.Criteria.SetReadOnly | src/main/java/org/hibernate/shards/criteria/SetReadOnlyEvent.java:45 | the criteria's flag becomes the given value and nothing else of it changes |
| CriteriaEvents.OnEvent | src/main/java/org/hibernate/shards/criteria/SetReadOnlyEvent.java:40-46 | firing changes only the criteria's flag, to the value recorded at construction |
| CriteriaEvents.OnEventTwice | src/main/java/org/hibernate/shards/criteria/SetReadOnlyEvent.java:44-46 | firing the same event twice in place leaves the criteria as firing it once |

## Left out

- The implementation of `OrderExitOperation` is not part of this model. `Sort` is an insertion sort that serves as the reference ordering, and only what the tests assert is claimed of it. Stability is not claimed: no test input contains a full tie, so every test's output is fully determined (`SortedWithoutTiesIsUnique`).
- OrderExitOperation.Apply: errors are detected eagerly. The model fails when any element does not resolve any key. The Java sort looks up values only while comparing, so a one-element or empty list would never reach the failing lookup.
- OrderExitOperation.Apply: when several elements fail, the model reports the first element's first failing key. Which exception the Java code raises first is not fixed by the tests.
- Dotted paths are given already split into segments. The parsing of the dotted string held by `Order` is not modelled.
- The criteria that `InMemoryOrderBy` may carry is always null in the tests and is not modelled.
- Getters inherited from JDK classes are not modelled: `getClass` and the getters of `Integer` or `String`. A segment applied to anything other than a `MyInt` is treated as having no getter.
- `StringUtil.capitalize` is modelled for ASCII letters only. Java's Unicode case mapping is not modelled.
- String comparison in the model goes by Unicode scalar value. `String.compareTo` compares UTF-16 code units, and the two orders differ only for characters outside the Basic Multilingual Plane.
- Null names and null result elements are not modelled; the tests use neither.
- Without a nested object, the next lookup on the null object is modelled as an error. In Java the call on the null reference throws.
- The cause chained into the `UnsupportedOperationException` (Hibernate's `UnknownProfileException`) is not modelled. Only the message is.
- Hibernate's `Session` and `Criteria` are replaced by the abstract states described above. `SessionFactoryMock` and `ClassMetadataMock` are mocking glue and are left out.
- The replay queue itself and the cross-shard executor are not part of this model, and neither are the transaction coordinator, the shard strategies or the aggregate, distinct and row-limit exit operations. The two `FireInOrder` functions only state what firing several events one after another does.
- A replay failure carries only the message naming the profile; it names neither the shard nor the event.
- `ShardedTransactionDefaultMock` and `ShardResolutionStrategyDataDefaultMock` only throw `UnsupportedOperationException`. They contain no logic to model.
