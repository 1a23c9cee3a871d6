/** The ordering scenarios of the exit-operation test, as lemmas about
    `Apply`. Each fixture list has no two elements that tie on all keys, so
    the expected output is the only sorted arrangement of the input
    (`ApplyWithoutTies`); the scenario lemmas state the whole output, which
    fixes every value and name the test reads back. */
module OrderExitOperationTest {
  import opened Wrappers
  import opened PropertyAccess
  import opened OrderExitOperation

  function Flat(value: int32, name: string): MyInt {
    MyInt(value, name, None)
  }

  /** A fixture element with an equal nested object, as the nested tests build them. */
  function WithInner(value: int32, name: string): MyInt {
    MyInt(value, name, Some(Flat(value, name)))
  }

  // ---------------------------------------------------------------------------
  // Keys

  const valueAsc := [InMemoryOrderBy(["value"], Ascending)]
  const valueDesc := [InMemoryOrderBy(["value"], Descending)]
  const innerValueAsc := [InMemoryOrderBy(["innerMyInt", "value"], Ascending)]
  const innerValueDesc := [InMemoryOrderBy(["innerMyInt", "value"], Descending)]
  const valueAscNameDesc := [InMemoryOrderBy(["value"], Ascending), InMemoryOrderBy(["name"], Descending)]
  const innerValueAscInnerNameDesc :=
    [InMemoryOrderBy(["innerMyInt", "value"], Ascending), InMemoryOrderBy(["innerMyInt", "name"], Descending)]
  const innerValueAscNameDesc :=
    [InMemoryOrderBy(["innerMyInt", "value"], Ascending), InMemoryOrderBy(["name"], Descending)]

  // ---------------------------------------------------------------------------
  // Fixtures

  const singleData :=
    [Flat(3, "tomislav"), Flat(1, "bomb"), Flat(27, "max"), Flat(2, "maulik"), Flat(5, "gut")]
  const singleAscending :=
    [Flat(1, "bomb"), Flat(2, "maulik"), Flat(3, "tomislav"), Flat(5, "gut"), Flat(27, "max")]
  const singleDescending :=
    [Flat(27, "max"), Flat(5, "gut"), Flat(3, "tomislav"), Flat(2, "maulik"), Flat(1, "bomb")]

  const nestedData :=
    [WithInner(3, "tomislav"), WithInner(1, "bomb"), WithInner(27, "max"), WithInner(2, "maulik"), WithInner(5, "gut")]
  const nestedAscending :=
    [WithInner(1, "bomb"), WithInner(2, "maulik"), WithInner(3, "tomislav"), WithInner(5, "gut"), WithInner(27, "max")]
  const nestedDescending :=
    [WithInner(27, "max"), WithInner(5, "gut"), WithInner(3, "tomislav"), WithInner(2, "maulik"), WithInner(1, "bomb")]

  const multipleData :=
    [Flat(2, "tomislav"), Flat(1, "bomb"), Flat(27, "max"), Flat(2, "maulik"), Flat(5, "gut")]
  const multipleOrdered :=
    [Flat(1, "bomb"), Flat(2, "tomislav"), Flat(2, "maulik"), Flat(5, "gut"), Flat(27, "max")]

  const nestedMultipleData :=
    [WithInner(2, "tomislav"), WithInner(1, "bomb"), WithInner(27, "max"), WithInner(2, "maulik"), WithInner(5, "gut")]
  const nestedMultipleOrdered :=
    [WithInner(1, "bomb"), WithInner(2, "tomislav"), WithInner(2, "maulik"), WithInner(5, "gut"), WithInner(27, "max")]

  // ---------------------------------------------------------------------------
  // The comparators of the test's key lists

  /** Key values resolved one key at a time give the element's key list. */
  lemma KeysAre(orders: seq<InMemoryOrderBy>, m: MyInt, keys: seq<KeyValue>)
    requires |keys| == |orders|
    requires forall k :: 0 <= k < |orders| ==> SortKey(m, orders[k].path) == Ok(keys[k])
    ensures SortKeys(orders, m) == Ok(keys)
  {
    assert SortKeys(orders, m).value == keys;
  }

  lemma ByValue(d: Direction, a: MyInt, b: MyInt)
    ensures Precedes([InMemoryOrderBy(["value"], d)], a, b) <==>
              if d == Ascending then a.value <= b.value else b.value <= a.value
  {
    var o := [InMemoryOrderBy(["value"], d)];
    TopLevelKeys(a);
    TopLevelKeys(b);
    KeysAre(o, a, [IntKey(a.value)]);
    KeysAre(o, b, [IntKey(b.value)]);
    var c := Directed(d, CompareKeys(IntKey(a.value), IntKey(b.value)));
    assert LexCompare(o[1..], [], []) == 0;
    assert LexCompare(o, [IntKey(a.value)], [IntKey(b.value)]) == c;
  }

  lemma ByValueThenNameDescending(a: MyInt, b: MyInt)
    ensures Precedes(valueAscNameDesc, a, b) <==>
              a.value < b.value || (a.value == b.value && CompareStrings(b.name, a.name) <= 0)
  {
    var o := valueAscNameDesc;
    TopLevelKeys(a);
    TopLevelKeys(b);
    KeysAre(o, a, [IntKey(a.value), StrKey(a.name)]);
    KeysAre(o, b, [IntKey(b.value), StrKey(b.name)]);
    CompareStringsAntisymmetric(a.name, b.name);
    assert LexCompare(o[1..][1..], [], []) == 0;
    assert LexCompare(o[1..], [StrKey(a.name)], [StrKey(b.name)]) == -CompareStrings(a.name, b.name);
  }

  /** Elements whose values strictly increase (or decrease) are the result
      of ordering their permutations by `value` ascending (or descending). */
  lemma ApplyByValue(d: Direction, data: seq<MyInt>, expected: seq<MyInt>)
    requires forall i, j :: 0 <= i < j < |expected| ==>
               if d == Ascending then expected[i].value < expected[j].value else expected[j].value < expected[i].value
    requires multiset(expected) == multiset(data)
    ensures Apply([InMemoryOrderBy(["value"], d)], data) == Ok(expected)
  {
    var o := [InMemoryOrderBy(["value"], d)];
    forall a, b ensures Precedes(o, a, b) <==> if d == Ascending then a.value <= b.value else b.value <= a.value {
      ByValue(d, a, b);
    }
    ApplyWithoutTies(o, data, expected);
  }

  // ---------------------------------------------------------------------------
  // testApplySingleOrdering

  lemma SingleAscendingIsOrdered()
    ensures forall i, j :: 0 <= i < j < |singleAscending| ==> singleAscending[i].value < singleAscending[j].value
  {
  }

  lemma SingleDescendingIsOrdered()
    ensures forall i, j :: 0 <= i < j < |singleDescending| ==> singleDescending[j].value < singleDescending[i].value
  {
  }

  lemma NestedAscendingIsOrdered()
    ensures forall i, j :: 0 <= i < j < |nestedAscending| ==> nestedAscending[i].value < nestedAscending[j].value
  {
  }

  lemma NestedDescendingIsOrdered()
    ensures forall i, j :: 0 <= i < j < |nestedDescending| ==> nestedDescending[j].value < nestedDescending[i].value
  {
  }

  lemma SingleAscendingIsPermutation()
    ensures multiset(singleAscending) == multiset(singleData)
  {
  }

  lemma SingleDescendingIsPermutation()
    ensures multiset(singleDescending) == multiset(singleData)
  {
  }

  lemma NestedAscendingIsPermutation()
    ensures multiset(nestedAscending) == multiset(nestedData)
  {
  }

  lemma NestedDescendingIsPermutation()
    ensures multiset(nestedDescending) == multiset(nestedData)
  {
  }

  /** Values {3, 1, 27, 2, 5} ordered by `value` ascending: 1, 2, 3, 5, 27. */
  lemma ApplySingleOrderingAscending()
    ensures Apply(valueAsc, singleData) == Ok(singleAscending)
  {
    SingleAscendingIsOrdered();
    SingleAscendingIsPermutation();
    ApplyByValue(Ascending, singleData, singleAscending);
  }

  /** The same values ordered by `value` descending: 27, 5, 3, 2, 1. */
  lemma ApplySingleOrderingDescending()
    ensures Apply(valueDesc, singleData) == Ok(singleDescending)
  {
    SingleDescendingIsOrdered();
    SingleDescendingIsPermutation();
    ApplyByValue(Descending, singleData, singleDescending);
  }

  // ---------------------------------------------------------------------------
  // testApplySingleNestedOrdering

  lemma NestedFixturesAreMirrored()
    ensures forall m :: m in nestedData ==> Mirrored(m)
    ensures forall m :: m in nestedMultipleData ==> Mirrored(m)
  {
  }

  /** Each nested key list of the tests is a top-level key list with some of
      its paths moved under `innerMyInt`. */
  lemma TestKeysNestTopLevelKeys(nested: seq<InMemoryOrderBy>, orders: seq<InMemoryOrderBy>)
    requires || (nested == innerValueAsc && orders == valueAsc)
             || (nested == innerValueDesc && orders == valueDesc)
             || (nested == innerValueAscInnerNameDesc && orders == valueAscNameDesc)
             || (nested == innerValueAscNameDesc && orders == valueAscNameDesc)
    ensures NestsSomeKeys(nested, orders)
  {
  }

  lemma ApplyValueAscendingOnNested()
    ensures Apply(valueAsc, nestedData) == Ok(nestedAscending)
  {
    NestedAscendingIsOrdered();
    NestedAscendingIsPermutation();
    ApplyByValue(Ascending, nestedData, nestedAscending);
  }

  lemma ApplyValueDescendingOnNested()
    ensures Apply(valueDesc, nestedData) == Ok(nestedDescending)
  {
    NestedDescendingIsOrdered();
    NestedDescendingIsPermutation();
    ApplyByValue(Descending, nestedData, nestedDescending);
  }

  lemma ApplyValueThenNameOnNested()
    ensures Apply(valueAscNameDesc, nestedMultipleData) == Ok(nestedMultipleOrdered)
  {
    NestedMultipleIsOrdered();
    NestedMultipleIsPermutation();
    ApplyByValueThenNameDescending(nestedMultipleData, nestedMultipleOrdered);
  }

  /** `innerMyInt.value` ascending orders the nested fixtures as `value`
      ascending does. */
  lemma ApplySingleNestedOrderingAscending()
    ensures Apply(innerValueAsc, nestedData) == Ok(nestedAscending)
  {
    ApplyValueAscendingOnNested();
    NestedFixturesAreMirrored();
    TestKeysNestTopLevelKeys(innerValueAsc, valueAsc);
    NestedOrderingMatchesTopLevel(innerValueAsc, valueAsc, nestedData);
  }

  /** `innerMyInt.value` descending orders them as `value` descending does. */
  lemma ApplySingleNestedOrderingDescending()
    ensures Apply(innerValueDesc, nestedData) == Ok(nestedDescending)
  {
    ApplyValueDescendingOnNested();
    NestedFixturesAreMirrored();
    TestKeysNestTopLevelKeys(innerValueDesc, valueDesc);
    NestedOrderingMatchesTopLevel(innerValueDesc, valueDesc, nestedData);
  }

  // ---------------------------------------------------------------------------
  // testApplyMultipleOrderings, testApplyMultipleNestedOrderings,
  // testApplyMultipleMixedOrderings

  /** Elements ordered by value, and by name backwards among equal values,
      with no two equal in both, are the result of ordering their
      permutations by (value ascending, name descending). */
  lemma ApplyByValueThenNameDescending(data: seq<MyInt>, expected: seq<MyInt>)
    requires forall i, j :: 0 <= i < j < |expected| ==>
               expected[i].value < expected[j].value ||
               (expected[i].value == expected[j].value && CompareStrings(expected[j].name, expected[i].name) < 0)
    requires multiset(expected) == multiset(data)
    ensures Apply(valueAscNameDesc, data) == Ok(expected)
  {
    forall a, b ensures Precedes(valueAscNameDesc, a, b) <==>
                          a.value < b.value || (a.value == b.value && CompareStrings(b.name, a.name) <= 0) {
      ByValueThenNameDescending(a, b);
    }
    forall i, j | 0 <= i < j < |expected|
      ensures !Precedes(valueAscNameDesc, expected[j], expected[i])
    {
      CompareStringsAntisymmetric(expected[i].name, expected[j].name);
    }
    ApplyWithoutTies(valueAscNameDesc, data, expected);
  }

  lemma MultipleIsOrdered()
    ensures forall i, j :: 0 <= i < j < |multipleOrdered| ==>
              multipleOrdered[i].value < multipleOrdered[j].value ||
              (multipleOrdered[i].value == multipleOrdered[j].value && CompareStrings(multipleOrdered[j].name, multipleOrdered[i].name) < 0)
  {
    assert CompareStrings("maulik", "tomislav") == -1;
  }

  lemma NestedMultipleIsOrdered()
    ensures forall i, j :: 0 <= i < j < |nestedMultipleOrdered| ==>
              nestedMultipleOrdered[i].value < nestedMultipleOrdered[j].value ||
              (nestedMultipleOrdered[i].value == nestedMultipleOrdered[j].value && CompareStrings(nestedMultipleOrdered[j].name, nestedMultipleOrdered[i].name) < 0)
  {
    assert CompareStrings("maulik", "tomislav") == -1;
  }

  lemma MultipleIsPermutation()
    ensures multiset(multipleOrdered) == multiset(multipleData)
  {
  }

  lemma NestedMultipleIsPermutation()
    ensures multiset(nestedMultipleOrdered) == multiset(nestedMultipleData)
  {
  }

  /** Keys (value ascending, name descending): the two elements with value 2
      come out as "tomislav" then "maulik". */
  lemma ApplyMultipleOrderings()
    ensures Apply(valueAscNameDesc, multipleData) == Ok(multipleOrdered)
  {
    MultipleIsOrdered();
    MultipleIsPermutation();
    ApplyByValueThenNameDescending(multipleData, multipleOrdered);
  }

  /** The same tie-break when both keys are nested paths. */
  lemma ApplyMultipleNestedOrderings()
    ensures Apply(innerValueAscInnerNameDesc, nestedMultipleData) == Ok(nestedMultipleOrdered)
  {
    ApplyValueThenNameOnNested();
    NestedFixturesAreMirrored();
    TestKeysNestTopLevelKeys(innerValueAscInnerNameDesc, valueAscNameDesc);
    NestedOrderingMatchesTopLevel(innerValueAscInnerNameDesc, valueAscNameDesc, nestedMultipleData);
  }

  /** The same tie-break when the first key is nested and the second is not. */
  lemma ApplyMultipleMixedOrderings()
    ensures Apply(innerValueAscNameDesc, nestedMultipleData) == Ok(nestedMultipleOrdered)
  {
    ApplyValueThenNameOnNested();
    NestedFixturesAreMirrored();
    TestKeysNestTopLevelKeys(innerValueAscNameDesc, valueAscNameDesc);
    NestedOrderingMatchesTopLevel(innerValueAscNameDesc, valueAscNameDesc, nestedMultipleData);
  }
}
