/**
 * The helpers of the facility export script: `asString` and `toStringArray`
 * on untyped JSON values, `extractText` over the variables of a legacy
 * facility record, and the DJB2 hash reduced to an unsigned 32-bit value.
 * `normalize` (Unicode decomposition, dropping non-ASCII, lower-casing) is
 * passed in as a function.
 */
module ExportFacilities {
  import opened Wrappers
  import opened Seqs
  import opened JsText

  // ---------------------------------------------------------------------
  // Number text

  function DigitChar(d: nat): char
    requires d < 10
  {
    "0123456789"[d]
  }

  predicate IsDigit(c: char) {
    '0' <= c <= '9'
  }

  /** The decimal digits of `n`, without leading zeros. */
  function NatText(n: nat): (r: string)
    ensures |r| >= 1 && (|r| > 1 ==> r[0] != '0')
    ensures forall i :: 0 <= i < |r| ==> IsDigit(r[i])
  {
    if n < 10 then [DigitChar(n)] else NatText(n / 10) + [DigitChar(n % 10)]
  }

  /** The value of a string of decimal digits. */
  function ParseNat(s: string): nat
    requires forall i :: 0 <= i < |s| ==> IsDigit(s[i])
  {
    if s == [] then 0
    else
      assert IsDigit(s[|s| - 1]);
      10 * ParseNat(s[..|s| - 1]) + (s[|s| - 1] as int - '0' as int)
  }

  /** The digits of a number read back as that number. */
  lemma {:induction false} ParseNatText(n: nat)
    ensures ParseNat(NatText(n)) == n
  {
    if n >= 10 {
      var t := NatText(n);
      assert t[..|t| - 1] == NatText(n / 10);
      ParseNatText(n / 10);
    }
  }

  /** `n.toString()` for an integer `n`. */
  function IntText(n: int): (r: string)
    ensures r != [] && !IsJsSpace(r[0]) && !IsJsSpace(r[|r| - 1])
  {
    if n < 0 then "-" + NatText(-n) else NatText(n)
  }

  // ---------------------------------------------------------------------
  // asString

  /**
   * `asString`: no text for null and undefined, the trimmed string for a
   * string (none when nothing is left), the decimal text of a number, and
   * no text for anything else.
   */
  function AsString(v: JsValue): (r: Option<string>)
    ensures r.Some? ==> r.value != []
    ensures v == Undefined || v == Null ==> r.None?
    ensures v.Str? ==> (r.Some? <==> Trim(v.s) != [])
    ensures v.Num? ==> r == Some(IntText(v.n))
    ensures !v.Str? && !v.Num? ==> r.None?
  {
    match v
    case Str(s) => if Trim(s) == [] then None else Some(Trim(s))
    case Num(n) => Some(IntText(n))
    case _ => None
  }

  /** Text without whitespace at either end is its own trim. */
  lemma TrimOfTrimmed(s: string)
    requires s == [] || (!IsJsSpace(s[0]) && !IsJsSpace(s[|s| - 1]))
    ensures Trim(s) == s
  {
    assert TrimStart(s) == s;
    assert TrimEnd(s) == s;
  }

  /** A non-empty text without whitespace at either end is returned as it is. */
  lemma AsStringOfTrimmed(t: string)
    requires t != [] && !IsJsSpace(t[0]) && !IsJsSpace(t[|t| - 1])
    ensures AsString(Str(t)) == Some(t)
  {
    TrimOfTrimmed(t);
  }

  /** A text `asString` returns is left as it is by a second `asString`. */
  lemma AsStringIdempotent(v: JsValue)
    requires AsString(v).Some?
    ensures AsString(Str(AsString(v).value)) == AsString(v)
  {
    match v
    case Str(s) => AsStringOfTrimmed(Trim(s));
    case Num(n) => AsStringOfTrimmed(IntText(n));
    case _ =>
  }

  /** Integer text is read back as the integer. */
  lemma AsStringNumber(n: nat)
    ensures AsString(Num(n)).Some? && ParseNat(AsString(Num(n)).value) == n
  {
    ParseNatText(n);
  }

  // ---------------------------------------------------------------------
  // toStringArray

  /** The string elements of `xs`, in order. */
  function Strings(xs: seq<JsValue>): (r: seq<string>)
    ensures |r| <= |xs|
    ensures r == [] <==> forall i :: 0 <= i < |xs| ==> !xs[i].Str?
  {
    if xs == [] then []
    else (if xs[0].Str? then [xs[0].s] else []) + Strings(xs[1..])
  }

  /** A string is kept exactly when it is an element. */
  lemma {:induction false} StringsMember(xs: seq<JsValue>, s: string)
    ensures s in Strings(xs) <==> Str(s) in xs
  {
    if xs != [] {
      StringsMember(xs[1..], s);
      assert xs == [xs[0]] + xs[1..];
    }
  }

  /** The strings of a concatenation keep the order of its parts. */
  lemma {:induction false} StringsAppend(a: seq<JsValue>, b: seq<JsValue>)
    ensures Strings(a + b) == Strings(a) + Strings(b)
  {
    if a == [] {
      assert a + b == b;
    } else {
      assert (a + b)[1..] == a[1..] + b;
      StringsAppend(a[1..], b);
    }
  }

  /**
   * `toStringArray`: none for a non-array, otherwise its string elements
   * in order, and none when there are no string elements.
   */
  function ToStringArray(v: JsValue): (r: Option<seq<string>>)
    ensures !v.Arr? ==> r.None?
    ensures v.Arr? ==> (r.None? <==> forall i :: 0 <= i < |v.elems| ==> !v.elems[i].Str?)
    ensures r.Some? ==> v.Arr? && r.value == Strings(v.elems) && |r.value| > 0
  {
    if !v.Arr? then None
    else
      var items := Strings(v.elems);
      if |items| > 0 then Some(items) else None
  }

  // ---------------------------------------------------------------------
  // extractText

  /**
   * A variable of a legacy record, with the extra fields the script reads;
   * `caption` is the `label` field and `Undefined` an absent field.
   */
  datatype VariableCandidate = VariableCandidate(
    key: JsValue,
    caption: JsValue,
    value: JsValue,
    text: JsValue,
    content: JsValue,
    data: JsValue)

  /** `variable.value ?? variable.text ?? variable.content ?? variable.data` */
  function Candidate(v: VariableCandidate): JsValue {
    Coalesce(Coalesce(Coalesce(v.value, v.text), v.content), v.data)
  }

  /** `keys.map(normalize)` */
  function NormalizedKeys(keys: seq<string>, normalize: JsValue -> string): (r: seq<string>)
    ensures |r| == |keys|
    ensures forall i :: 0 <= i < |r| ==> r[i] == normalize(Str(keys[i]))
  {
    seq(|keys|, i requires 0 <= i < |keys| => normalize(Str(keys[i])))
  }

  /** The normalized key (or, without one, the label) contains some normalized search key. */
  predicate KeyHit(v: VariableCandidate, normalizedKeys: seq<string>, normalize: JsValue -> string) {
    exists i :: 0 <= i < |normalizedKeys| && Contains(normalize(Coalesce(v.key, v.caption)), normalizedKeys[i])
  }

  /** A variable whose key matches and whose candidate value yields text. */
  predicate Yields(v: VariableCandidate, normalizedKeys: seq<string>, normalize: JsValue -> string) {
    KeyHit(v, normalizedKeys, normalize) && AsString(Candidate(v)).Some?
  }

  function YieldsFor(normalizedKeys: seq<string>, normalize: JsValue -> string): VariableCandidate -> bool {
    (v: VariableCandidate) => Yields(v, normalizedKeys, normalize)
  }

  /**
   * `extractText`: the text of the first variable, in order, whose key
   * matches one of `keys` and whose candidate value yields text, and none
   * when there is no such variable.
   */
  method ExtractText(variables: seq<VariableCandidate>, keys: seq<string>, normalize: JsValue -> string)
    returns (r: Option<string>)
    ensures var k := FindIndex(variables, YieldsFor(NormalizedKeys(keys, normalize), normalize));
      r == if k < |variables| then AsString(Candidate(variables[k])) else None
    ensures r.None? <==> forall i :: 0 <= i < |variables| ==> !Yields(variables[i], NormalizedKeys(keys, normalize), normalize)
  {
    var normalizedKeys := NormalizedKeys(keys, normalize);
    var i := 0;
    while i < |variables|
      invariant 0 <= i <= |variables|
      invariant forall j :: 0 <= j < i ==> !Yields(variables[j], normalizedKeys, normalize)
    {
      var variable := variables[i];
      var composite := normalize(Coalesce(variable.key, variable.caption));
      if !(exists n :: 0 <= n < |normalizedKeys| && Contains(composite, normalizedKeys[n])) {
        i := i + 1;
        continue;
      }
      var result := AsString(Candidate(variable));
      if Truthy(result) {
        FirstYield(variables, normalizedKeys, normalize, i);
        return result;
      }
      i := i + 1;
    }
    FirstYield(variables, normalizedKeys, normalize, i);
    return None;
  }

  /** The loop stops at the first variable that yields, or after the last one. */
  lemma FirstYield(variables: seq<VariableCandidate>, normalizedKeys: seq<string>, normalize: JsValue -> string, i: nat)
    requires i <= |variables| && (i < |variables| ==> Yields(variables[i], normalizedKeys, normalize))
    requires forall j :: 0 <= j < i ==> !Yields(variables[j], normalizedKeys, normalize)
    ensures FindIndex(variables, YieldsFor(normalizedKeys, normalize)) == i
  {
    FindIndexIs(variables, YieldsFor(normalizedKeys, normalize), i);
  }

  // ---------------------------------------------------------------------
  // hash32

  const TWO_32: int := 0x1_0000_0000

  /** DJB2 on code units, reduced modulo 2^32 at every step. */
  function Djb2(units: seq<int>): (h: int)
    ensures 0 <= h < TWO_32
  {
    if units == [] then 5381
    else (33 * Djb2(units[..|units| - 1]) + units[|units| - 1]) % TWO_32
  }

  /** `x >>> 0` */
  function ToUint32(x: int): int {
    x % TWO_32
  }

  /** The 32-bit two's-complement reading of `x`, as `x | 0` gives it. */
  function ToInt32(x: int): int {
    var u := x % TWO_32;
    if u >= 0x8000_0000 then u - TWO_32 else u
  }

  /** `x << 5` */
  function ShiftLeft5(x: int): int {
    ToInt32(ToInt32(x) * 32)
  }

  /** The signed reading differs from `x` by a multiple of 2^32. */
  lemma ToInt32Congruent(x: int)
    ensures (x - ToInt32(x)) % TWO_32 == 0
  {
    var q := x / TWO_32;
    assert x == q * TWO_32 + x % TWO_32;
    if x % TWO_32 >= 0x8000_0000 {
      assert x - ToInt32(x) == (q + 1) * TWO_32;
    } else {
      assert x - ToInt32(x) == q * TWO_32;
    }
  }

  /** Numbers that differ by a multiple of 2^32 have the same remainder. */
  lemma ModCongruent(a: int, b: int)
    requires (a - b) % TWO_32 == 0
    ensures a % TWO_32 == b % TWO_32
  {
    var k := (a - b) / TWO_32;
    assert a == b + k * TWO_32;
  }

  /** One step of the source's loop body, `((hash << 5) + hash + code) >>> 0`, is the DJB2 step. */
  lemma JsStepIsDjb2(h: int, c: int)
    ensures ToUint32(ShiftLeft5(h) + h + c) == (33 * h + c) % TWO_32
  {
    ToInt32Congruent(h);
    ToInt32Congruent(ToInt32(h) * 32);
    var d1 := h - ToInt32(h);
    var d2 := ToInt32(h) * 32 - ShiftLeft5(h);
    assert (33 * h + c) - (ShiftLeft5(h) + h + c) == 32 * d1 + d2;
    assert d1 == (d1 / TWO_32) * TWO_32;
    assert d2 == (d2 / TWO_32) * TWO_32;
    assert 32 * d1 + d2 == (32 * (d1 / TWO_32) + d2 / TWO_32) * TWO_32;
    ModCongruent(33 * h + c, ShiftLeft5(h) + h + c);
  }

  /** The source's loop body applied to the hash of `u` gives the hash of `u` extended by `c`. */
  lemma HashStep(u: seq<int>, c: int)
    ensures ToUint32(ShiftLeft5(Djb2(u)) + Djb2(u) + c) == Djb2(u + [c])
  {
    JsStepIsDjb2(Djb2(u), c);
    Djb2Snoc(u, c);
  }

  /** `hash32`: the DJB2 hash of the string's UTF-16 code units. */
  method Hash32(str: string) returns (hash: int)
    ensures hash == Djb2(CodeUnits(str))
    ensures 0 <= hash < TWO_32
  {
    var units := CodeUnits(str);
    hash := ToUint32(5381);
    var i := 0;
    while i < |units|
      invariant 0 <= i <= |units|
      invariant hash == Djb2(units[..i])
    {
      HashStep(units[..i], units[i]);
      assert units[..i + 1] == units[..i] + [units[i]];
      hash := ToUint32(ShiftLeft5(hash) + hash + units[i]);
      i := i + 1;
    }
    assert units[..i] == units;
    hash := ToUint32(hash);
  }

  /** The UTF-16 code units of a concatenation are those of its parts. */
  lemma {:induction false} CodeUnitsAppend(a: string, b: string)
    ensures CodeUnits(a + b) == CodeUnits(a) + CodeUnits(b)
  {
    if a == [] {
      assert a + b == b;
    } else {
      assert (a + b)[1..] == a[1..] + b;
      CodeUnitsAppend(a[1..], b);
    }
  }

  /** The hash of the empty string is the DJB2 seed. */
  lemma HashEmpty()
    ensures Djb2(CodeUnits("")) == 5381
  {
  }

  /** Appending a character of the Basic Multilingual Plane takes one DJB2 step. */
  lemma HashSnoc(s: string, c: char)
    requires (c as int) < 0x1_0000
    ensures Djb2(CodeUnits(s + [c])) == (33 * Djb2(CodeUnits(s)) + c as int) % TWO_32
  {
    var u := CodeUnits(s);
    CodeUnitsAppend(s, [c]);
    CodeUnitsOne(c);
    assert CodeUnits(s + [c]) == u + [c as int];
    Djb2Snoc(u, c as int);
  }

  /** A character of the Basic Multilingual Plane is one code unit. */
  lemma CodeUnitsOne(c: char)
    requires (c as int) < 0x1_0000
    ensures CodeUnits([c]) == [c as int]
  {
    assert [c][1..] == [];
  }

  /** One more code unit is one more DJB2 step. */
  lemma Djb2Snoc(u: seq<int>, x: int)
    ensures Djb2(u + [x]) == (33 * Djb2(u) + x) % TWO_32
  {
    assert (u + [x])[..|u|] == u;
  }
}
