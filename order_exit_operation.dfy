/** The in-memory ordering exit operation: the concatenated per-shard results
    are ordered lexicographically over a list of `InMemoryOrderBy` keys, each a
    property path with a direction. */
module OrderExitOperation {
  import opened Wrappers
  import opened PropertyAccess

  datatype Direction = Ascending | Descending

  /** One ordering key: a (possibly dotted) property path and its direction. */
  datatype InMemoryOrderBy = InMemoryOrderBy(path: seq<string>, direction: Direction)

  /** A resolved, orderable property value. */
  datatype KeyValue = IntKey(i: int32) | StrKey(s: string)

  // ---------------------------------------------------------------------------
  // Resolving keys

  /** The orderable value of one key on one element. */
  function SortKey(m: MyInt, path: seq<string>): Result<KeyValue, AccessError> {
    match PropertyValue(m, path)
    case Err(e) => Err(e)
    case Ok(IntProp(i)) => Ok(IntKey(i))
    case Ok(StrProp(s)) => Ok(StrKey(s))
    case Ok(ObjProp(_)) => Err(NotComparable)
  }

  /** The values of all keys on one element, or the first key's failure. */
  function SortKeys(orders: seq<InMemoryOrderBy>, m: MyInt): (r: Result<seq<KeyValue>, AccessError>)
    ensures r.Ok? <==> forall k :: 0 <= k < |orders| ==> SortKey(m, orders[k].path).Ok?
    ensures r.Ok? ==> |r.value| == |orders| &&
                      forall k :: 0 <= k < |orders| ==> r.value[k] == SortKey(m, orders[k].path).value
  {
    if |orders| == 0 then Ok([])
    else
      match SortKey(m, orders[0].path)
      case Err(e) => Err(e)
      case Ok(first) =>
        match SortKeys(orders[1..], m)
        case Err(e) => Err(e)
        case Ok(rest) => Ok([first] + rest)
  }

  predicate Resolves(orders: seq<InMemoryOrderBy>, m: MyInt) {
    SortKeys(orders, m).Ok?
  }

  // ---------------------------------------------------------------------------
  // Comparison

  /** Java's `String.compareTo`, by sign: character by character, and a proper
      prefix orders first. */
  function CompareStrings(a: string, b: string): (r: int)
    ensures -1 <= r <= 1
    ensures |a| < |b| && a == b[..|a|] ==> r == -1
    ensures |b| < |a| && b == a[..|b|] ==> r == 1
    ensures |a| > 0 && |b| > 0 && a[0] != b[0] ==> (r < 0 <==> a[0] < b[0])
  {
    if |a| == 0 && |b| == 0 then 0
    else if |a| == 0 then -1
    else if |b| == 0 then 1
    else if a[0] < b[0] then -1
    else if a[0] > b[0] then 1
    else
      assert |a| < |b| && a == b[..|a|] ==> a[1..] == b[1..][..|a| - 1];
      assert |b| < |a| && b == a[..|b|] ==> b[1..] == a[1..][..|b| - 1];
      CompareStrings(a[1..], b[1..])
  }

  /** The first position at which two strings differ decides their order. */
  lemma {:induction false} CompareStringsFirstDifference(a: string, b: string, k: nat)
    requires k < |a| && k < |b| && a[..k] == b[..k] && a[k] != b[k]
    ensures CompareStrings(a, b) < 0 <==> a[k] < b[k]
    decreases k
  {
    if k > 0 {
      assert a[0] == a[..k][0] == b[..k][0] == b[0];
      assert a[1..][..k - 1] == a[..k][1..] == b[..k][1..] == b[1..][..k - 1];
      CompareStringsFirstDifference(a[1..], b[1..], k - 1);
    }
  }

  /** Natural ordering of resolved values: integers numerically, strings
      lexicographically. A key of one path always resolves to values of one
      kind (`KeyKindDependsOnlyOnPath`), so the order between the two kinds is
      never consulted. */
  function CompareKeys(a: KeyValue, b: KeyValue): int {
    match (a, b)
    case (IntKey(x), IntKey(y)) => if x < y then -1 else if x > y then 1 else 0
    case (StrKey(x), StrKey(y)) => CompareStrings(x, y)
    case (IntKey(_), StrKey(_)) => -1
    case (StrKey(_), IntKey(_)) => 1
  }

  function Directed(d: Direction, c: int): int {
    if d == Ascending then c else -c
  }

  /** Lexicographic comparison over the keys: the first key that does not tie
      decides, in its own direction. */
  function LexCompare(orders: seq<InMemoryOrderBy>, a: seq<KeyValue>, b: seq<KeyValue>): int
    decreases |orders|
  {
    if |orders| == 0 || |a| == 0 || |b| == 0 then 0
    else
      var c := Directed(orders[0].direction, CompareKeys(a[0], b[0]));
      if c != 0 then c else LexCompare(orders[1..], a[1..], b[1..])
  }

  /** `a` may stand before `b` in the output. */
  predicate Precedes(orders: seq<InMemoryOrderBy>, a: MyInt, b: MyInt) {
    match (SortKeys(orders, a), SortKeys(orders, b))
    case (Ok(ka), Ok(kb)) => LexCompare(orders, ka, kb) <= 0
    case _ => false
  }

  predicate SortedBy(orders: seq<InMemoryOrderBy>, s: seq<MyInt>) {
    forall i, j :: 0 <= i < j < |s| ==> Precedes(orders, s[i], s[j])
  }

  predicate AllResolve(orders: seq<InMemoryOrderBy>, s: seq<MyInt>) {
    forall m :: m in s ==> Resolves(orders, m)
  }

  // ---------------------------------------------------------------------------
  // Sorting

  function Insert(orders: seq<InMemoryOrderBy>, x: MyInt, s: seq<MyInt>): (r: seq<MyInt>)
    ensures multiset(r) == multiset(s) + multiset{x}
    decreases |s|
  {
    if |s| == 0 then [x]
    else if Precedes(orders, x, s[0]) then [x] + s
    else
      assert s == [s[0]] + s[1..];
      [s[0]] + Insert(orders, x, s[1..])
  }

  function Sort(orders: seq<InMemoryOrderBy>, s: seq<MyInt>): (r: seq<MyInt>)
    ensures multiset(r) == multiset(s)
    decreases |s|
  {
    if |s| == 0 then []
    else
      assert s == [s[0]] + s[1..];
      Insert(orders, s[0], Sort(orders, s[1..]))
  }

  /** The error of the first element that fails to resolve a key. */
  function FirstFailure(orders: seq<InMemoryOrderBy>, data: seq<MyInt>): (r: Option<AccessError>)
    ensures r.None? <==> forall i :: 0 <= i < |data| ==> Resolves(orders, data[i])
    decreases |data|
  {
    if |data| == 0 then None
    else
      match SortKeys(orders, data[0])
      case Err(e) => Some(e)
      case Ok(_) => FirstFailure(orders, data[1..])
  }

  /** `OrderExitOperation.apply`: the results ordered by the keys. It fails
      when a key cannot be resolved on some element; otherwise the output is
      sorted under the key comparator and holds exactly the input elements. */
  function Apply(orders: seq<InMemoryOrderBy>, data: seq<MyInt>): (r: Result<seq<MyInt>, AccessError>)
    ensures r.Ok? <==> forall i :: 0 <= i < |data| ==> Resolves(orders, data[i])
    ensures r.Ok? ==> SortedBy(orders, r.value)
    ensures r.Ok? ==> multiset(r.value) == multiset(data)
  {
    match FirstFailure(orders, data)
    case Some(e) => Err(e)
    case None =>
      SortIsSorted(orders, data);
      Ok(Sort(orders, data))
  }

  // ---------------------------------------------------------------------------
  // The comparator is a total preorder

  lemma {:induction false} CompareStringsAntisymmetric(a: string, b: string)
    ensures CompareStrings(a, b) == -CompareStrings(b, a)
    decreases |a|
  {
    if |a| > 0 && |b| > 0 && a[0] == b[0] {
      CompareStringsAntisymmetric(a[1..], b[1..]);
    }
  }

  lemma {:induction false} CompareStringsZero(a: string, b: string)
    ensures CompareStrings(a, b) == 0 <==> a == b
    decreases |a|
  {
    if |a| > 0 && |b| > 0 && a[0] == b[0] {
      CompareStringsZero(a[1..], b[1..]);
      assert a == [a[0]] + a[1..] && b == [b[0]] + b[1..];
    }
  }

  lemma {:induction false} CompareStringsTransitive(a: string, b: string, c: string)
    requires CompareStrings(a, b) <= 0 && CompareStrings(b, c) <= 0
    ensures CompareStrings(a, c) <= 0
    decreases |a|
  {
    if |a| > 0 && |b| > 0 && |c| > 0 && a[0] == b[0] == c[0] {
      CompareStringsTransitive(a[1..], b[1..], c[1..]);
    }
  }

  lemma CompareKeysProperties(a: KeyValue, b: KeyValue, c: KeyValue)
    ensures CompareKeys(a, b) == -CompareKeys(b, a)
    ensures CompareKeys(a, b) == 0 <==> a == b
    ensures CompareKeys(a, b) <= 0 && CompareKeys(b, c) <= 0 ==> CompareKeys(a, c) <= 0
  {
    match (a, b, c)
    case (StrKey(x), StrKey(y), StrKey(z)) =>
      CompareStringsAntisymmetric(x, y);
      CompareStringsZero(x, y);
      if CompareStrings(x, y) <= 0 && CompareStrings(y, z) <= 0 {
        CompareStringsTransitive(x, y, z);
      }
    case (StrKey(x), StrKey(y), _) =>
      CompareStringsAntisymmetric(x, y);
      CompareStringsZero(x, y);
    case _ =>
  }

  lemma DirectedProperties(d: Direction, a: KeyValue, b: KeyValue, c: KeyValue)
    ensures Directed(d, CompareKeys(a, b)) == -Directed(d, CompareKeys(b, a))
    ensures Directed(d, CompareKeys(a, b)) == 0 <==> a == b
    ensures Directed(d, CompareKeys(a, b)) <= 0 && Directed(d, CompareKeys(b, c)) <= 0 ==>
              Directed(d, CompareKeys(a, c)) <= 0
  {
    CompareKeysProperties(a, b, c);
    CompareKeysProperties(c, b, a);
    CompareKeysProperties(a, c, b);
  }

  lemma {:induction false} LexCompareAntisymmetric(orders: seq<InMemoryOrderBy>, a: seq<KeyValue>, b: seq<KeyValue>)
    ensures LexCompare(orders, a, b) == -LexCompare(orders, b, a)
    decreases |orders|
  {
    if |orders| > 0 && |a| > 0 && |b| > 0 {
      DirectedProperties(orders[0].direction, a[0], b[0], b[0]);
      LexCompareAntisymmetric(orders[1..], a[1..], b[1..]);
    }
  }

  lemma {:induction false} LexCompareTransitive(orders: seq<InMemoryOrderBy>, a: seq<KeyValue>, b: seq<KeyValue>, c: seq<KeyValue>)
    requires |a| == |b| == |c| == |orders|
    requires LexCompare(orders, a, b) <= 0 && LexCompare(orders, b, c) <= 0
    ensures LexCompare(orders, a, c) <= 0
    decreases |orders|
  {
    if |orders| > 0 {
      var d := orders[0].direction;
      DirectedProperties(d, a[0], b[0], c[0]);
      DirectedProperties(d, b[0], a[0], c[0]);
      DirectedProperties(d, a[0], c[0], b[0]);
      if Directed(d, CompareKeys(a[0], b[0])) == 0 && Directed(d, CompareKeys(b[0], c[0])) == 0 {
        LexCompareTransitive(orders[1..], a[1..], b[1..], c[1..]);
      }
    }
  }

  /** Any two resolvable elements are ordered one way or the other. */
  lemma PrecedesTotal(orders: seq<InMemoryOrderBy>, a: MyInt, b: MyInt)
    requires Resolves(orders, a) && Resolves(orders, b)
    ensures Precedes(orders, a, b) || Precedes(orders, b, a)
  {
    LexCompareAntisymmetric(orders, SortKeys(orders, a).value, SortKeys(orders, b).value);
  }

  lemma PrecedesTransitive(orders: seq<InMemoryOrderBy>, a: MyInt, b: MyInt, c: MyInt)
    requires Precedes(orders, a, b) && Precedes(orders, b, c)
    ensures Precedes(orders, a, c)
  {
    LexCompareTransitive(orders, SortKeys(orders, a).value, SortKeys(orders, b).value, SortKeys(orders, c).value);
  }

  // ---------------------------------------------------------------------------
  // Sorting is correct

  /** An element that precedes everything in a sorted sequence can be put in
      front of it. */
  lemma PrependSorted(orders: seq<InMemoryOrderBy>, x: MyInt, s: seq<MyInt>)
    requires SortedBy(orders, s)
    requires forall m :: m in s ==> Precedes(orders, x, m)
    ensures SortedBy(orders, [x] + s)
  {
    var r := [x] + s;
    forall i, j | 0 <= i < j < |r| ensures Precedes(orders, r[i], r[j]) {
      if i == 0 {
        assert r[j] == s[j - 1] && s[j - 1] in s;
      }
    }
  }

  lemma {:induction false} InsertIsSorted(orders: seq<InMemoryOrderBy>, x: MyInt, s: seq<MyInt>)
    requires Resolves(orders, x) && AllResolve(orders, s) && SortedBy(orders, s)
    ensures SortedBy(orders, Insert(orders, x, s))
    decreases |s|
  {
    if |s| > 0 {
      if Precedes(orders, x, s[0]) {
        forall m | m in s ensures Precedes(orders, x, m) {
          var k :| 0 <= k < |s| && s[k] == m;
          if k > 0 {
            PrecedesTransitive(orders, x, s[0], m);
          }
        }
        PrependSorted(orders, x, s);
      } else {
        PrecedesTotal(orders, x, s[0]);
        var t := s[1..];
        assert AllResolve(orders, t) by {
          forall m | m in t ensures Resolves(orders, m) { assert m in s; }
        }
        assert SortedBy(orders, t) by {
          forall i, j | 0 <= i < j < |t| ensures Precedes(orders, t[i], t[j]) {
            assert t[i] == s[i + 1] && t[j] == s[j + 1];
          }
        }
        InsertIsSorted(orders, x, t);
        var u := Insert(orders, x, t);
        forall y | y in u ensures Precedes(orders, s[0], y) {
          assert y in multiset(u);
          if y != x {
            assert y in multiset(t);
            var k :| 0 <= k < |t| && t[k] == y;
            assert s[k + 1] == y;
          }
        }
        PrependSorted(orders, s[0], u);
      }
    }
  }

  lemma {:induction false} SortIsSorted(orders: seq<InMemoryOrderBy>, s: seq<MyInt>)
    requires forall i :: 0 <= i < |s| ==> Resolves(orders, s[i])
    ensures SortedBy(orders, Sort(orders, s))
    decreases |s|
  {
    if |s| > 0 {
      SortIsSorted(orders, s[1..]);
      var t := Sort(orders, s[1..]);
      forall m | m in t ensures Resolves(orders, m) {
        assert m in multiset(s[1..]);
        var k :| 0 <= k < |s[1..]| && s[1..][k] == m;
        assert s[k + 1] == m;
      }
      InsertIsSorted(orders, s[0], t);
    }
  }

  /** No two elements tie: each strictly precedes every later one. */
  predicate StrictlySortedBy(orders: seq<InMemoryOrderBy>, s: seq<MyInt>) {
    forall i, j :: 0 <= i < j < |s| ==> !Precedes(orders, s[j], s[i])
  }

  lemma PrecedesReflexive(orders: seq<InMemoryOrderBy>, a: MyInt)
    requires Resolves(orders, a)
    ensures Precedes(orders, a, a)
  {
    PrecedesTotal(orders, a, a);
  }

  lemma SortedTail(orders: seq<InMemoryOrderBy>, s: seq<MyInt>)
    requires |s| > 0 && SortedBy(orders, s)
    ensures SortedBy(orders, s[1..])
  {
    forall i, j | 0 <= i < j < |s| - 1 ensures Precedes(orders, s[1..][i], s[1..][j]) {
      assert s[1..][i] == s[i + 1] && s[1..][j] == s[j + 1];
    }
  }

  lemma StrictlySortedTail(orders: seq<InMemoryOrderBy>, t: seq<MyInt>)
    requires |t| > 0 && StrictlySortedBy(orders, t)
    ensures StrictlySortedBy(orders, t[1..])
  {
    forall i, j | 0 <= i < j < |t| - 1 ensures !Precedes(orders, t[1..][j], t[1..][i]) {
      assert t[1..][i] == t[i + 1] && t[1..][j] == t[j + 1];
    }
  }

  /** The first element of a sorted sequence is the first of any tie-free
      sequence with the same elements. */
  lemma SameFirst(orders: seq<InMemoryOrderBy>, s: seq<MyInt>, t: seq<MyInt>)
    requires |s| > 0 && SortedBy(orders, s) && StrictlySortedBy(orders, t) && multiset(s) == multiset(t)
    ensures s[0] == t[0]
  {
    assert s[0] in multiset(t) && t[0] in multiset(s);
    var k :| 0 <= k < |t| && t[k] == s[0];
    var j :| 0 <= j < |s| && s[j] == t[0];
    if k > 0 {
      assert !Precedes(orders, s[0], s[j]);
      if j == 0 {
        assert |s| == |multiset(s)| == |multiset(t)| == |t|;
        assert Precedes(orders, s[0], s[1]);
        PrecedesReflexive(orders, s[0]);
      }
      assert false;
    }
  }

  /** A sorted sequence with the same elements as one without ties is that
      sequence: when no two elements tie the order is fully determined. */
  lemma {:induction false} SortedWithoutTiesIsUnique(orders: seq<InMemoryOrderBy>, s: seq<MyInt>, t: seq<MyInt>)
    requires SortedBy(orders, s) && StrictlySortedBy(orders, t) && multiset(s) == multiset(t)
    ensures s == t
    decreases |s|
  {
    assert |s| == |multiset(s)| == |multiset(t)| == |t|;
    if |s| > 0 {
      SameFirst(orders, s, t);
      assert s == [s[0]] + s[1..] && t == [t[0]] + t[1..];
      assert multiset(s[1..]) == multiset(s) - multiset{s[0]};
      assert multiset(t[1..]) == multiset(t) - multiset{t[0]};
      assert multiset(s[1..]) == multiset(t[1..]);
      SortedTail(orders, s);
      StrictlySortedTail(orders, t);
      SortedWithoutTiesIsUnique(orders, s[1..], t[1..]);
    }
  }

  /** When the expected order has no ties and holds exactly the input
      elements, it is the result of the operation. */
  lemma ApplyWithoutTies(orders: seq<InMemoryOrderBy>, data: seq<MyInt>, expected: seq<MyInt>)
    requires forall i :: 0 <= i < |data| ==> Resolves(orders, data[i])
    requires StrictlySortedBy(orders, expected) && multiset(expected) == multiset(data)
    ensures Apply(orders, data) == Ok(expected)
  {
    SortedWithoutTiesIsUnique(orders, Apply(orders, data).value, expected);
  }

  // ---------------------------------------------------------------------------
  // Keys of nested and top-level paths

  /** Once resolved, a path of at least one segment yields the kind of value
      its last getter returns, whatever object it starts from. */
  lemma {:induction false} ResolvedKindIsLastGetters(v: Prop, w: Prop, path: seq<string>)
    requires |path| > 0 && Resolve(v, path).Ok? && Resolve(w, path).Ok?
    ensures Resolve(v, path).value.IntProp? == Resolve(w, path).value.IntProp?
    ensures Resolve(v, path).value.StrProp? == Resolve(w, path).value.StrProp?
    decreases |path|
  {
    var v', w' := Step(v, path[0]).value, Step(w, path[0]).value;
    if |path| == 1 {
      assert Resolve(v', path[1..]) == Ok(v') && Resolve(w', path[1..]) == Ok(w');
    } else {
      ResolvedKindIsLastGetters(v', w', path[1..]);
    }
  }

  /** Two elements never resolve one key to an integer and a string. */
  lemma KeyKindDependsOnlyOnPath(a: MyInt, b: MyInt, path: seq<string>)
    requires SortKey(a, path).Ok? && SortKey(b, path).Ok?
    ensures SortKey(a, path).value.IntKey? == SortKey(b, path).value.IntKey?
  {
    if |path| > 0 {
      ResolvedKindIsLastGetters(ObjProp(Some(a)), ObjProp(Some(b)), path);
    }
  }

  lemma TopLevelKeys(m: MyInt)
    ensures SortKey(m, ["value"]) == Ok(IntKey(m.value))
    ensures SortKey(m, ["name"]) == Ok(StrKey(m.name))
  {
  }

  /** Elements equal under `MyInt.equals` have the same value for every
      top-level key, so they tie on any list of such keys. */
  lemma EqualElementsTieOnTopLevelKeys(a: MyInt, b: MyInt, segment: string)
    requires Equals(a, b)
    ensures SortKey(a, [segment]) == SortKey(b, [segment])
  {
    ResolveSingle(ObjProp(Some(a)), segment);
    ResolveSingle(ObjProp(Some(b)), segment);
  }

  /** Sorting depends on the elements only through their keys. */
  lemma {:induction false} SameKeysSameInsert(o1: seq<InMemoryOrderBy>, o2: seq<InMemoryOrderBy>, x: MyInt, s: seq<MyInt>)
    requires SortKeys(o1, x) == SortKeys(o2, x)
    requires forall m :: m in s ==> SortKeys(o1, m) == SortKeys(o2, m)
    requires |o1| == |o2| && forall k :: 0 <= k < |o1| ==> o1[k].direction == o2[k].direction
    ensures Insert(o1, x, s) == Insert(o2, x, s)
    decreases |s|
  {
    if |s| > 0 {
      SameLexCompare(o1, o2, SortKeys(o1, x), SortKeys(o1, s[0]));
      SameKeysSameInsert(o1, o2, x, s[1..]);
    }
  }

  lemma {:induction false} SameDirectionsSameLex(o1: seq<InMemoryOrderBy>, o2: seq<InMemoryOrderBy>, a: seq<KeyValue>, b: seq<KeyValue>)
    requires |o1| == |o2| && forall k :: 0 <= k < |o1| ==> o1[k].direction == o2[k].direction
    ensures LexCompare(o1, a, b) == LexCompare(o2, a, b)
    decreases |o1|
  {
    if |o1| > 0 && |a| > 0 && |b| > 0 {
      SameDirectionsSameLex(o1[1..], o2[1..], a[1..], b[1..]);
    }
  }

  lemma SameLexCompare(o1: seq<InMemoryOrderBy>, o2: seq<InMemoryOrderBy>, ka: Result<seq<KeyValue>, AccessError>, kb: Result<seq<KeyValue>, AccessError>)
    requires |o1| == |o2| && forall k :: 0 <= k < |o1| ==> o1[k].direction == o2[k].direction
    ensures ka.Ok? && kb.Ok? ==> LexCompare(o1, ka.value, kb.value) == LexCompare(o2, ka.value, kb.value)
  {
    if ka.Ok? && kb.Ok? {
      SameDirectionsSameLex(o1, o2, ka.value, kb.value);
    }
  }

  lemma {:induction false} SameKeysSameSort(o1: seq<InMemoryOrderBy>, o2: seq<InMemoryOrderBy>, s: seq<MyInt>)
    requires forall m :: m in s ==> SortKeys(o1, m) == SortKeys(o2, m)
    requires |o1| == |o2| && forall k :: 0 <= k < |o1| ==> o1[k].direction == o2[k].direction
    ensures Sort(o1, s) == Sort(o2, s)
    decreases |s|
  {
    if |s| > 0 {
      SameKeysSameSort(o1, o2, s[1..]);
      var t := Sort(o1, s[1..]);
      forall m | m in t ensures SortKeys(o1, m) == SortKeys(o2, m) {
        assert m in multiset(s[1..]);
      }
      SameKeysSameInsert(o1, o2, s[0], t);
    }
  }

  /** Two key lists with the same directions that give every element the same
      key values order any data identically. */
  lemma SameKeysSameApply(o1: seq<InMemoryOrderBy>, o2: seq<InMemoryOrderBy>, data: seq<MyInt>)
    requires forall m :: m in data ==> SortKeys(o1, m) == SortKeys(o2, m)
    requires |o1| == |o2| && forall k :: 0 <= k < |o1| ==> o1[k].direction == o2[k].direction
    ensures Apply(o1, data) == Apply(o2, data)
  {
    SameKeysSameSort(o1, o2, data);
    SameFirstFailure(o1, o2, data);
  }

  lemma {:induction false} SameFirstFailure(o1: seq<InMemoryOrderBy>, o2: seq<InMemoryOrderBy>, data: seq<MyInt>)
    requires forall m :: m in data ==> SortKeys(o1, m) == SortKeys(o2, m)
    ensures FirstFailure(o1, data) == FirstFailure(o2, data)
    decreases |data|
  {
    if |data| > 0 {
      assert data[0] in data;
      SameFirstFailure(o1, o2, data[1..]);
    }
  }

  /** An element whose nested object equals it (as the nested fixtures do). */
  predicate Mirrored(m: MyInt) {
    m.inner.Some? && Equals(m.inner.value, m)
  }

  /** `nested` is `orders` with any of its one-segment paths `p` moved under
      the nested object, as `innerMyInt.p`. */
  predicate NestsSomeKeys(nested: seq<InMemoryOrderBy>, orders: seq<InMemoryOrderBy>) {
    && |nested| == |orders|
    && forall k :: 0 <= k < |orders| ==>
         && |orders[k].path| == 1
         && nested[k].direction == orders[k].direction
         && (nested[k].path == orders[k].path || nested[k].path == ["innerMyInt"] + orders[k].path)
  }

  /** On elements that carry an equal nested object, ordering by the nested
      paths `innerMyInt.p` gives exactly the order of the top-level paths `p`,
      ascending or descending, whether all keys or only some are nested. */
  lemma NestedOrderingMatchesTopLevel(nested: seq<InMemoryOrderBy>, orders: seq<InMemoryOrderBy>, data: seq<MyInt>)
    requires NestsSomeKeys(nested, orders)
    requires forall m :: m in data ==> Mirrored(m)
    ensures Apply(nested, data) == Apply(orders, data)
  {
    forall m | m in data ensures SortKeys(nested, m) == SortKeys(orders, m) {
      var n := m.inner.value;
      forall k | 0 <= k < |orders| ensures SortKey(m, nested[k].path) == SortKey(m, orders[k].path) {
        var p := orders[k].path;
        if nested[k].path != p {
          NestedPathResolvesThroughInner(m, n, p);
          assert p == [p[0]];
          EqualElementsTieOnTopLevelKeys(n, m, p[0]);
        }
      }
      SameKeysPointwise(nested, orders, m);
    }
    SameKeysSameApply(nested, orders, data);
  }

  lemma {:induction false} SameKeysPointwise(o1: seq<InMemoryOrderBy>, o2: seq<InMemoryOrderBy>, m: MyInt)
    requires |o1| == |o2|
    requires forall k :: 0 <= k < |o1| ==> SortKey(m, o1[k].path) == SortKey(m, o2[k].path)
    ensures SortKeys(o1, m) == SortKeys(o2, m)
    decreases |o1|
  {
    if |o1| > 0 {
      assert SortKey(m, o1[0].path) == SortKey(m, o2[0].path);
      SameKeysPointwise(o1[1..], o2[1..], m);
    }
  }
}
