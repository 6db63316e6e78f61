/** comparison.go: does what the custom resource says agree with what the API returned? */
module Comparison {
  import opened Options
  import opened Json

  type Fields = map<string, JSON>

  // ----- scalars -----

  /** What ParseFloat makes of a text. */
  datatype Float64 = Finite(r: real) | NotANumber | Infinite(negative: bool)

  /**
   * A printed value, read lexically: a JSON number that fits int64, any other JSON number, another JSON
   * value, or a text with what ParseInt and ParseFloat make of it. A JSON number beyond the range of a
   * float64 (`1e400`) goes on to the texts, and no parser takes it: it is a `Text` that is just a string.
   */
  datatype Literal =
    | JsonInteger(i: int)
    | JsonNumber(r: real)
    | JsonOther(v: Typed)
    | Text(text: string, folded: string, asInt: Option<int>, asFloat: Option<Float64>)

  /** A Go value, its type included: an int32 never equals an int64. */
  datatype Typed =
    | Int32(i: int) | Int64(i: int) | Double(f: Float64)
    | Boolean(b: bool) | Nil | String(s: string) | Composite(v: JSON)

  predicate IsInt64(i: int) {
    -0x8000_0000_0000_0000 <= i <= 0x7fff_ffff_ffff_ffff
  }

  function Narrowest(i: int): Typed {
    if -0x8000_0000 <= i <= 0x7fff_ffff then Int32(i) else Int64(i)
  }

  predicate Whole(r: real) {
    r == r.Floor as real
  }

  function InferType(l: Literal): Typed {
    match l
    case JsonInteger(i) => Narrowest(i)
    case JsonNumber(r) => if Whole(r) && IsInt64(r.Floor) then Narrowest(r.Floor) else Double(Finite(r))
    case JsonOther(v) => v
    case Text(text, folded, asInt, asFloat) =>
      if folded == "true" then Boolean(true)
      else if folded == "false" then Boolean(false)
      else if folded == "null" || folded == "nil" then Nil
      else if asInt.Some? then Narrowest(asInt.value)
      else if asFloat.Some? then
        var f := asFloat.value;
        // Unlike JSON numbers, a whole float read this way is an int64 whatever its size.
        if f.Finite? && Whole(f.r) && IsInt64(f.r.Floor) then Int64(f.r.Floor) else Double(f)
      else String(text)
  }

  /** The number a printed value stands for, if it is taken for one. */
  function NumberOf(l: Literal): Option<real> {
    match l
    case JsonInteger(i) => Some(i as real)
    case JsonNumber(r) => Some(r)
    case JsonOther(_) => None
    case Text(_, folded, asInt, asFloat) =>
      if folded in {"true", "false", "null", "nil"} then None
      else if asInt.Some? then Some(asInt.value as real)
      else if asFloat.Some? && asFloat.value.Finite? then Some(asFloat.value.r)
      else None
  }

  /** It is a number only to ParseFloat, which never makes an int32 of it. */
  predicate OnlyParsesAsFloat(l: Literal) {
    l.Text? && l.asInt.None?
  }

  predicate FitsInt32(r: real) {
    Whole(r) && -0x8000_0000 <= r.Floor <= 0x7fff_ffff
  }

  /** ParseInt and JSON integers are within 64 bits. */
  predicate InRange(l: Literal) {
    (l.JsonInteger? ==> IsInt64(l.i)) && (l.Text? && l.asInt.Some? ==> IsInt64(l.asInt.value))
  }

  /**
   * Two printed numbers compare equal exactly when they are the same number, except that one an int32 holds,
   * if only ParseFloat reads it, differs from any other spelling of it.
   */
  lemma SameNumberCompares(l: Literal, m: Literal)
    requires NumberOf(l).Some? && NumberOf(m).Some? && InRange(l) && InRange(m)
    ensures SameTyped(InferType(l), InferType(m))
            <==> NumberOf(l) == NumberOf(m)
                 && (FitsInt32(NumberOf(l).value) ==> (OnlyParsesAsFloat(l) <==> OnlyParsesAsFloat(m)))
  {
    InfersItsNumber(l);
    InfersItsNumber(m);
  }

  /** A text that is neither a number nor one of the words taken for a boolean or nil. */
  predicate IsWord(l: Literal) {
    l.Text? && l.folded !in {"true", "false", "null", "nil"} && l.asInt == None && l.asFloat == None
  }

  /** Words compare as they are written, and equal nothing else. */
  lemma WordsCompare(l: Literal, m: Literal)
    requires IsWord(l)
    ensures IsWord(m) ==> (SameTyped(InferType(l), InferType(m)) <==> l.text == m.text)
    ensures NumberOf(m).Some? ==> !SameTyped(InferType(l), InferType(m))
    ensures m.JsonOther? ==> (SameTyped(InferType(l), InferType(m)) <==> m.v == String(l.text))
  {}

  /** In any case, "true" and "false" are the booleans, "null" and "nil" are nil, whatever else they might be. */
  lemma KeywordsCompare(l: Literal, m: Literal)
    requires l.Text? && l.folded in {"true", "false", "null", "nil"}
    ensures var v := if l.folded == "true" then Boolean(true) else if l.folded == "false" then Boolean(false) else Nil;
            && (m.JsonOther? ==> (SameTyped(InferType(l), InferType(m)) <==> m.v == v))
            && SameTyped(InferType(l), InferType(JsonOther(v)))
            && (IsWord(m) || NumberOf(m).Some? ==> !SameTyped(InferType(l), InferType(m)))
  {}

  /** The infinities are told apart from each other and from every number. */
  lemma InfinitiesCompare(l: Literal, m: Literal)
    requires l.Text? && l.folded !in {"true", "false", "null", "nil"} && l.asInt == None
    requires l.asFloat.Some? && l.asFloat.value.Infinite?
    ensures SameTyped(InferType(l), InferType(l))
    ensures NumberOf(m).Some? || IsWord(m) ==> !SameTyped(InferType(l), InferType(m))
    ensures m.Text? && m.folded == l.folded && m.asInt == None && m.asFloat.Some? && m.asFloat.value.Infinite? ==>
              (SameTyped(InferType(l), InferType(m)) <==> m.asFloat.value.negative == l.asFloat.value.negative)
  {}

  /** The type inferred for a number says how it was spelt, its value which number it is. */
  lemma InfersItsNumber(l: Literal)
    requires NumberOf(l).Some? && InRange(l)
    ensures var r := NumberOf(l).value;
            InferType(l) == if !Whole(r) || !IsInt64(r.Floor) then Double(Finite(r))
                            else if FitsInt32(r) && !OnlyParsesAsFloat(l) then Int32(r.Floor)
                            else Int64(r.Floor)
  {}

  /** cmp.Equal on two inferred values: NaN equals nothing. */
  predicate SameTyped(a: Typed, b: Typed) {
    a == b && a != Double(NotANumber)
  }

  /** Printing followed by lexical reading. */
  type Reader = JSON -> Literal

  predicate CompareAny(read: Reader, a: JSON, b: JSON) {
    if a.Null? || b.Null? then a.Null? && b.Null?
    else SameTyped(InferType(read(a)), InferType(read(b)))
  }

  predicate ReadsAsNaN(read: Reader, a: JSON) {
    !a.Null? && InferType(read(a)) == Double(NotANumber)
  }

  /** CompareAny is an equivalence exactly on the values that do not read as NaN. */
  lemma CompareAnyIsEquivalence(read: Reader, a: JSON, b: JSON, c: JSON)
    ensures CompareAny(read, a, a) <==> !ReadsAsNaN(read, a)
    ensures CompareAny(read, a, b) <==> CompareAny(read, b, a)
    ensures CompareAny(read, a, b) && CompareAny(read, b, c) ==> CompareAny(read, a, c)
  {}

  /**
   * An integer, and the float of the same value, print as JSON numbers of that value, in plain or in
   * exponential form.
   */
  predicate PrintsExactly(read: Reader, i: int) {
    var f := read(Float(i as real));
    read(Int(i)) == JsonInteger(i) && (f == JsonInteger(i) || f == JsonNumber(i as real))
  }

  /** An int64 and a float64 of equal integer value are the same, and differ from every other such pair. */
  lemma IntegersAndFloatsAgree(read: Reader, i: int, j: int)
    requires IsInt64(i) && IsInt64(j) && PrintsExactly(read, i) && PrintsExactly(read, j)
    ensures CompareAny(read, Int(i), Float(j as real)) <==> i == j
    ensures CompareAny(read, Int(i), Int(j)) <==> i == j
    ensures CompareAny(read, Float(i as real), Float(j as real)) <==> i == j
  {
    assert (i as real).Floor == i && (j as real).Floor == j;
  }

  // ----- documents -----

  /** Common keys agree, an array agrees with a prefix of the other, scalars agree once normalized. */
  predicate Agree(read: Reader, x: JSON, y: JSON) {
    if x.Null? || y.Null? then x.Null? && y.Null?
    else match x
      case Obj(f) => y.Obj? && forall k | k in f && k in y.fields :: Agree(read, f[k], y.fields[k])
      case Arr(a) => y.Arr? && |a| <= |y.items| && forall i | 0 <= i < |a| :: Agree(read, a[i], y.items[i])
      case _ => CompareAny(read, x, y)
  }

  /** Keys that only one side has do not count, nor do elements that only the response has, at the end. */
  lemma ExtrasIgnored(read: Reader, f: Fields, g: Fields, extra: Fields, a: seq<JSON>, b: seq<JSON>, more: seq<JSON>)
    requires extra.Keys !! f.Keys && extra.Keys !! g.Keys
    ensures Agree(read, Obj(f), Obj(g + extra)) <==> Agree(read, Obj(f), Obj(g))
    ensures Agree(read, Obj(f + extra), Obj(g)) <==> Agree(read, Obj(f), Obj(g))
    ensures |a| == |b| ==> (Agree(read, Arr(a), Arr(b + more)) <==> Agree(read, Arr(a), Arr(b)))
    ensures |a| > |b| ==> !Agree(read, Arr(a), Arr(b))
  {}

  /** A map or an array agrees with nothing of another kind, and nil with nil alone. */
  lemma KindsDisagree(read: Reader, x: JSON, y: JSON)
    requires (x.Obj? != y.Obj? && x.Obj?) || (x.Arr? != y.Arr? && x.Arr?) || x.Null? != y.Null?
    ensures !Agree(read, x, y)
  {}

  /** Somewhere a map or an array meets a value of another kind. */
  predicate Clash(x: JSON, y: JSON) {
    !x.Null? && !y.Null? &&
    match x
    case Obj(f) => !y.Obj? || exists k | k in f && k in y.fields :: Clash(f[k], y.fields[k])
    case Arr(a) => !y.Arr? || (|a| <= |y.items| && exists i | 0 <= i < |a| :: Clash(a[i], y.items[i]))
    case _ => false
  }

  datatype Result = Result(isEqual: bool, error: bool)

  const EQUAL := Result(true, false)
  const DIFFERENT := Result(false, false)
  const ERROR := Result(false, true)

  /** One value of the custom resource against one of the response. */
  method CompareValues(read: Reader, value: JSON, rmValue: JSON) returns (r: Result)
    ensures r == EQUAL <==> Agree(read, value, rmValue)
    ensures r.error ==> !r.isEqual && Clash(value, rmValue)
    decreases value, 1
  {
    if value.Null? || rmValue.Null? { return if value.Null? && rmValue.Null? then EQUAL else DIFFERENT; }
    match value {
      case Obj(mgMap) =>
        if !rmValue.Obj? { return ERROR; }
        r := CompareExisting(read, mgMap, rmValue.fields, value);
      case Arr(valueSlice) =>
        if !rmValue.Arr? { return ERROR; }
        r := CompareSlices(read, valueSlice, rmValue.items, value);
      case _ => r := if CompareAny(read, value, rmValue) then EQUAL else DIFFERENT;
    }
  }

  /** Go visits the keys in any order, and stops at the first difference or error. */
  method CompareExisting(read: Reader, mg: Fields, rm: Fields, ghost whole: JSON) returns (r: Result)
    requires whole == Obj(mg)
    ensures r == EQUAL <==> Agree(read, Obj(mg), Obj(rm))
    ensures r.error ==> !r.isEqual && Clash(Obj(mg), Obj(rm))
    decreases whole, 0
  {
    var todo := mg.Keys;
    while todo != {}
      invariant todo <= mg.Keys
      invariant forall k | k in mg && k !in todo && k in rm :: Agree(read, mg[k], rm[k])
      decreases todo
    {
      var key :| key in todo;
      todo := todo - {key};
      if key in rm {
        r := CompareValues(read, mg[key], rm[key]);
        if r != EQUAL { return; }
      }
    }
    r := EQUAL;
  }

  method CompareSlices(read: Reader, valueSlice: seq<JSON>, rmSlice: seq<JSON>, ghost whole: JSON) returns (r: Result)
    requires whole == Arr(valueSlice)
    ensures r == EQUAL <==> Agree(read, Arr(valueSlice), Arr(rmSlice))
    ensures r.error ==> !r.isEqual && Clash(Arr(valueSlice), Arr(rmSlice))
    decreases whole, 0
  {
    if |valueSlice| > |rmSlice| { return DIFFERENT; }
    for i := 0 to |valueSlice|
      invariant forall j | 0 <= j < i :: Agree(read, valueSlice[j], rmSlice[j])
    {
      r := CompareValues(read, valueSlice[i], rmSlice[i]);
      if r != EQUAL { return; }
    }
    r := EQUAL;
  }
}
