/** Property access on the fixture entity of the ordering test.

    The test's `MyInt` is a record with three getters; a segment `p` of a
    property path is looked up as the getter named "get" + capitalize(p), and a
    dotted path is a chain of such lookups, each on the value the previous one
    returned. Reflection is replaced by an explicit table of the three getters. */
module PropertyAccess {
  import opened Wrappers

  /** Java's `int`: the constructor of `MyInt` takes one. */
  newtype int32 = x: int | -0x8000_0000 <= x < 0x8000_0000

  /** The fixture record: `getValue`, `getName` and `getInnerMyInt`; the inner
      object may be null, written `None`. */
  datatype MyInt = MyInt(value: int32, name: string, inner: Option<MyInt>)

  /** What a getter returns: a boxed integer, a string, or a (possibly null)
      nested `MyInt`. */
  datatype Prop = IntProp(i: int32) | StrProp(s: string) | ObjProp(obj: Option<MyInt>)

  datatype AccessError =
    | NoSuchGetter(getter: string)   // the reflective lookup finds no such method
    | NullTarget(getter: string)     // a getter is looked up on a null object
    | NotComparable                  // the resolved value is an object, not an orderable value

  /** `MyInt.equals`: name and value are compared, the inner object is not. */
  predicate Equals(a: MyInt, b: MyInt) {
    a.name == b.name && a.value == b.value
  }

  function UpperAscii(c: char): char {
    if 'a' <= c <= 'z' then (c as int - 32) as char else c
  }

  function LowerAscii(c: char): char {
    if 'A' <= c <= 'Z' then (c as int + 32) as char else c
  }

  /** `StringUtil.capitalize`: upper-cases the first character of a segment
      and keeps the rest; a segment that already starts with anything but a
      lower-case letter comes back unchanged. */
  function Capitalize(s: string): (r: string)
    ensures |r| == |s| && (|s| > 0 ==> r[1..] == s[1..])
    ensures |s| > 0 && 'a' <= s[0] <= 'z' ==> 'A' <= r[0] <= 'Z'
    ensures |s| > 0 ==> LowerAscii(r[0]) == LowerAscii(s[0])
    ensures |s| == 0 || !('a' <= s[0] <= 'z') ==> r == s
  {
    if |s| == 0 then s else [UpperAscii(s[0])] + s[1..]
  }

  function GetterName(segment: string): string {
    "get" + Capitalize(segment)
  }

  /** `EntityPersisterMock.getPropertyValue`: invoke the getter named after the
      segment, or fail when the class has no such getter. Exactly the segments
      naming one of the three getters, in either case of their first letter,
      resolve; each resolves to its own field, and any other segment is an
      error naming the missing getter. */
  function GetPropertyValue(obj: MyInt, segment: string): (r: Result<Prop, AccessError>)
    ensures segment == "value" || segment == "Value" ==> r == Ok(IntProp(obj.value))
    ensures segment == "name" || segment == "Name" ==> r == Ok(StrProp(obj.name))
    ensures segment == "innerMyInt" || segment == "InnerMyInt" ==> r == Ok(ObjProp(obj.inner))
    ensures !(segment == "value" || segment == "Value" || segment == "name" || segment == "Name"
              || segment == "innerMyInt" || segment == "InnerMyInt") ==>
              r == Err(NoSuchGetter("get" + Capitalize(segment)))
  {
    ValueGetter(segment);
    NameGetter(segment);
    InnerMyIntGetter(segment);
    var getter := GetterName(segment);
    if getter == "getValue" then Ok(IntProp(obj.value))
    else if getter == "getName" then Ok(StrProp(obj.name))
    else if getter == "getInnerMyInt" then Ok(ObjProp(obj.inner))
    else Err(NoSuchGetter(getter))
  }

  /** One lookup on the value reached so far. Only a `MyInt` has getters in this
      model; a null object cannot be asked for one. */
  function Step(v: Prop, segment: string): Result<Prop, AccessError> {
    match v
    case ObjProp(Some(m)) => GetPropertyValue(m, segment)
    case ObjProp(None) => Err(NullTarget(GetterName(segment)))
    case _ => Err(NoSuchGetter(GetterName(segment)))
  }

  /** A property path resolved from a value, segment by segment; the first
      failing lookup is the result. */
  function Resolve(v: Prop, path: seq<string>): Result<Prop, AccessError>
    decreases |path|
  {
    if |path| == 0 then Ok(v)
    else
      match Step(v, path[0])
      case Err(e) => Err(e)
      case Ok(next) => Resolve(next, path[1..])
  }

  /** A property path resolved on a result element. */
  function PropertyValue(m: MyInt, path: seq<string>): Result<Prop, AccessError> {
    Resolve(ObjProp(Some(m)), path)
  }

  /** A path of one segment on a result element is one call of
      `getPropertyValue`. */
  lemma PropertyValueSingle(m: MyInt, segment: string)
    ensures PropertyValue(m, [segment]) == GetPropertyValue(m, segment)
  {
    ResolveSingle(ObjProp(Some(m)), segment);
  }

  /** Resolving a path `p.q` is resolving `p` and then `q` on the value it
      reached; a failure within `p` is the result. */
  lemma {:induction false} ResolveAppend(v: Prop, p: seq<string>, q: seq<string>)
    ensures Resolve(v, p + q) == match Resolve(v, p)
                                 case Err(e) => Err(e)
                                 case Ok(w) => Resolve(w, q)
    decreases |p|
  {
    if |p| == 0 {
      assert p + q == q;
    } else {
      assert (p + q)[0] == p[0] && (p + q)[1..] == p[1..] + q;
      match Step(v, p[0])
      case Err(_) =>
      case Ok(next) => ResolveAppend(next, p[1..], q);
    }
  }

  /** A path of one segment is a single lookup. */
  lemma ResolveSingle(v: Prop, segment: string)
    ensures Resolve(v, [segment]) == Step(v, segment)
  {
    var path := [segment];
    assert path[1..] == [];
    match Step(v, segment)
    case Err(_) =>
    case Ok(next) => assert Resolve(next, path[1..]) == Ok(next);
  }

  // ---------------------------------------------------------------------------
  // Getter lookup

  lemma CapitalizeInverse(s: string, t: string)
    requires |t| > 0 && 'A' <= t[0] <= 'Z'
    ensures Capitalize(s) == t <==> (s == t || s == [LowerAscii(t[0])] + t[1..])
  {
    if Capitalize(s) == t {
      assert |s| == |t| && s[1..] == t[1..];
      assert s == [s[0]] + s[1..];
    }
    if s == t || s == [LowerAscii(t[0])] + t[1..] {
      assert s[1..] == t[1..];
    }
  }

  /** The getter named after a segment is `"get" + t` exactly when the segment
      is `t` or `t` with its first letter in lower case. */
  lemma GetterNameIs(segment: string, t: string)
    requires |t| > 0 && 'A' <= t[0] <= 'Z'
    ensures GetterName(segment) == "get" + t <==> (segment == t || segment == [LowerAscii(t[0])] + t[1..])
  {
    if GetterName(segment) == "get" + t {
      assert Capitalize(segment) == GetterName(segment)[3..] == ("get" + t)[3..] == t;
    }
    CapitalizeInverse(segment, t);
  }

  lemma ValueGetter(segment: string)
    ensures GetterName(segment) == "getValue" <==> segment == "value" || segment == "Value"
  {
    GetterNameIs(segment, "Value");
    assert [LowerAscii('V')] + "Value"[1..] == "value";
  }

  lemma NameGetter(segment: string)
    ensures GetterName(segment) == "getName" <==> segment == "name" || segment == "Name"
  {
    GetterNameIs(segment, "Name");
    assert [LowerAscii('N')] + "Name"[1..] == "name";
  }

  lemma InnerMyIntGetter(segment: string)
    ensures GetterName(segment) == "getInnerMyInt" <==> segment == "innerMyInt" || segment == "InnerMyInt"
  {
    GetterNameIs(segment, "InnerMyInt");
    assert [LowerAscii('I')] + "InnerMyInt"[1..] == "innerMyInt";
  }

  /** A dotted path whose first segment is `innerMyInt` is resolved on the
      nested object. */
  lemma NestedPathResolvesThroughInner(m: MyInt, n: MyInt, rest: seq<string>)
    requires m.inner == Some(n)
    ensures PropertyValue(m, ["innerMyInt"] + rest) == PropertyValue(n, rest)
  {
    assert (["innerMyInt"] + rest)[1..] == rest;
  }

  // ---------------------------------------------------------------------------
  // equals

  lemma EqualsIsEquivalence(a: MyInt, b: MyInt, c: MyInt)
    ensures Equals(a, a)
    ensures Equals(a, b) ==> Equals(b, a)
    ensures Equals(a, b) && Equals(b, c) ==> Equals(a, c)
  {
  }

  /** The inner object plays no part in equality. */
  lemma EqualsIgnoresInner(value: int32, name: string, x: Option<MyInt>, y: Option<MyInt>)
    ensures Equals(MyInt(value, name, x), MyInt(value, name, y))
  {
  }
}
