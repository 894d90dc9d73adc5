/** JavaScript values and the few built-ins the tab list relies on:
    truthiness, `String.prototype.includes`, `startsWith`/`endsWith`,
    lower-casing, `parseInt` and number-to-string conversion. */
module Js {

  datatype Option<+T> = None | Some(value: T)

  /** The value of a key that may be absent, or `d` when it is. */
  function Or<T>(o: Option<T>, d: T): T
  {
    if o.Some? then o.value else d
  }

  /** Exceptions the modelled code can raise. */
  datatype JsError = TypeError | NotFoundError | SyntaxError

  datatype Result<+T> = Ok(value: T) | Err(error: JsError)

  /** The state a handler leaves behind, with the exception that escaped it.
      JavaScript keeps every mutation made before a throw, so when `thrown`
      is set, `state` is the partially updated state. */
  datatype Step<+S> = Step(state: S, thrown: Option<JsError>)

  /** The JavaScript values that flow through the modelled code. */
  datatype JsValue = Undefined | Null | NaN | Bool(b: bool) | Str(s: string) | Num(n: int)

  predicate Truthy(v: JsValue)
  {
    match v
    case Undefined => false
    case Null => false
    case NaN => false
    case Bool(b) => b
    case Str(s) => s != ""
    case Num(n) => n != 0
  }

  /** Truthiness of a nullable string. */
  predicate NonEmpty(s: Option<string>)
  {
    s.Some? && s.value != ""
  }

  // ---------------------------------------------------------------------
  // Substrings

  predicate OccursAt(s: string, q: string, i: int)
  {
    0 <= i && i + |q| <= |s| && s[i..i + |q|] == q
  }

  predicate StartsWith(s: string, p: string)
  {
    |p| <= |s| && s[..|p|] == p
  }

  predicate EndsWith(s: string, p: string)
  {
    |p| <= |s| && s[|s| - |p|..] == p
  }

  lemma OccursShift(s: string, q: string)
    requires |s| > 0 && !StartsWith(s, q)
    ensures (exists i :: OccursAt(s, q, i)) <==> (exists j :: OccursAt(s[1..], q, j))
  {
    if exists i :: OccursAt(s, q, i) {
      var i :| OccursAt(s, q, i);
      assert s[1..][i - 1..i - 1 + |q|] == s[i..i + |q|];
      assert OccursAt(s[1..], q, i - 1);
    }
    if exists j :: OccursAt(s[1..], q, j) {
      var j :| OccursAt(s[1..], q, j);
      assert s[1..][j..j + |q|] == s[j + 1..j + 1 + |q|];
      assert OccursAt(s, q, j + 1);
    }
  }

  /** `s.includes(q)`: some window of `s` spells `q`. */
  function Includes(s: string, q: string): (b: bool)
    ensures b <==> exists i :: OccursAt(s, q, i)
    decreases |s|
  {
    if StartsWith(s, q) then
      assert s[0..|q|] == s[..|q|];
      assert OccursAt(s, q, 0);
      true
    else if |s| == 0 then
      false
    else
      OccursShift(s, q);
      Includes(s[1..], q)
  }

  lemma IncludesEmpty(s: string)
    ensures Includes(s, "")
  {
    assert OccursAt(s, "", 0);
  }

  // ---------------------------------------------------------------------
  // Case folding (ASCII only)

  function LowerChar(c: char): char
  {
    if 'A' <= c <= 'Z' then (c as int + 32) as char else c
  }

  function LowerAscii(s: string): (r: string)
    ensures |r| == |s|
    ensures forall i :: 0 <= i < |s| ==> r[i] == LowerChar(s[i])
  {
    seq(|s|, i requires 0 <= i < |s| => LowerChar(s[i]))
  }

  /** `normalizeStr` of the sidebar: a null or empty string becomes "",
      anything else is lower-cased. Diacritic stripping is not modelled. */
  function Normalize(s: Option<string>): (r: string)
    ensures |r| <= (if s.Some? then |s.value| else 0)
    ensures forall i :: 0 <= i < |r| ==> !('A' <= r[i] <= 'Z')
    ensures NonEmpty(s) ==> |r| == |s.value|
  {
    if NonEmpty(s) then LowerAscii(s.value) else ""
  }

  lemma NormalizeIdempotent(s: Option<string>)
    ensures Normalize(Some(Normalize(s))) == Normalize(s)
  {
    var r := Normalize(s);
    if r != "" {
      var r2 := Normalize(Some(r));
      assert |r2| == |r|;
      forall i | 0 <= i < |r|
        ensures r2[i] == r[i]
      {
        assert !('A' <= r[i] <= 'Z');
      }
    }
  }

  // ---------------------------------------------------------------------
  // parseInt and number-to-string

  predicate IsDigit(c: char)
  {
    '0' <= c <= '9'
  }

  predicate IsSpace(c: char)
  {
    c == ' ' || c == '\t' || c == '\n' || c == '\r'
  }

  predicate AllDigits(s: string)
  {
    forall i :: 0 <= i < |s| ==> IsDigit(s[i])
  }

  function DigitValue(c: char): nat
    requires IsDigit(c)
  {
    c as int - '0' as int
  }

  function DigitChar(d: nat): (c: char)
    requires d < 10
    ensures IsDigit(c) && DigitValue(c) == d
  {
    ('0' as int + d) as char
  }

  /** Length of the longest prefix of decimal digits. */
  function DigitPrefixLen(s: string): (n: nat)
    ensures n <= |s|
    ensures AllDigits(s[..n])
    ensures n < |s| ==> !IsDigit(s[n])
  {
    if |s| == 0 || !IsDigit(s[0]) then 0
    else
      var m := DigitPrefixLen(s[1..]);
      assert s[..m + 1] == [s[0]] + s[1..][..m];
      m + 1
  }

  /** The number a string of decimal digits spells. */
  function DigitsValue(s: string): nat
    requires AllDigits(s)
  {
    if |s| == 0 then 0
    else DigitsValue(s[..|s| - 1]) * 10 + DigitValue(s[|s| - 1])
  }

  /** `parseInt(s)` in base 10: leading white space, an optional sign, then
      the longest run of digits; NaN when there is no digit. */
  function ParseInt(s: string): (r: JsValue)
    ensures r.NaN? || r.Num?
  {
    if |s| > 0 && IsSpace(s[0]) then ParseInt(s[1..])
    else
      var neg := |s| > 0 && s[0] == '-';
      var rest := if |s| > 0 && (s[0] == '-' || s[0] == '+') then s[1..] else s;
      var n := DigitPrefixLen(rest);
      if n == 0 then NaN
      else
        var v: int := DigitsValue(rest[..n]);
        Num(if neg then -v else v)
  }

  /** `parseInt` applied to an attribute value: `getAttribute` gives null
      for a missing attribute and `parseInt(null)` is NaN. */
  function ParseAttr(a: Option<string>): (r: JsValue)
    ensures r.NaN? || r.Num?
    ensures a.None? ==> r == NaN
  {
    if a.None? then NaN else ParseInt(a.value)
  }

  /** Decimal representation of a natural number. */
  function NatToString(n: nat): string
  {
    if n < 10 then [DigitChar(n)] else NatToString(n / 10) + [DigitChar(n % 10)]
  }

  /** `String(n)` for an integer. */
  function IntToString(n: int): string
  {
    if n < 0 then "-" + NatToString(-n) else NatToString(n)
  }

  /** `String(v)`. */
  function ToString(v: JsValue): string
  {
    match v
    case Undefined => "undefined"
    case Null => "null"
    case NaN => "NaN"
    case Bool(b) => if b then "true" else "false"
    case Str(s) => s
    case Num(n) => IntToString(n)
  }

  /** `parseInt(v)` for any value: the value is converted to a string
      first. */
  function ParseIntValue(v: JsValue): (r: JsValue)
    ensures r.NaN? || r.Num?
  {
    ParseInt(ToString(v))
  }

  /** `obj[key]` on a plain object whose own keys are those of `obj`. */
  function Prop(obj: map<string, JsValue>, key: string): JsValue
  {
    if key in obj then obj[key] else Undefined
  }

  lemma {:induction false} NatToStringDigits(n: nat)
    ensures |NatToString(n)| > 0
    ensures AllDigits(NatToString(n))
    ensures DigitsValue(NatToString(n)) == n
    decreases n
  {
    if n >= 10 {
      NatToStringDigits(n / 10);
      var p := NatToString(n / 10);
      var s := p + [DigitChar(n % 10)];
      assert s[..|s| - 1] == p;
      assert s == NatToString(n);
    }
  }

  lemma DigitPrefixOfDigits(s: string)
    requires AllDigits(s)
    ensures DigitPrefixLen(s) == |s|
  {
  }

  /** The tab id written into `data-tab-id` reads back unchanged. */
  lemma {:induction false} ParseIntToString(n: int)
    ensures ParseInt(IntToString(n)) == Num(n)
  {
    if n < 0 {
      var p := NatToString(-n);
      NatToStringDigits(-n);
      DigitPrefixOfDigits(p);
      var s := "-" + p;
      assert s[0] == '-' && !IsSpace(s[0]);
      assert s[1..] == p;
      assert p[..|p|] == p;
    } else {
      var p := NatToString(n);
      NatToStringDigits(n);
      DigitPrefixOfDigits(p);
      assert IsDigit(p[0]);
      assert !IsSpace(p[0]) && p[0] != '-' && p[0] != '+';
      assert p[..|p|] == p;
    }
  }

  /** `parseInt` gives a number back unchanged, so a numeric preference
      keeps its value. */
  lemma ParseIntNumber(n: int)
    ensures ParseIntValue(Num(n)) == Num(n)
  {
    ParseIntToString(n);
  }

  /** Values that are not numbers or digit strings parse to NaN. */
  lemma ParseIntNonNumbers()
    ensures ParseIntValue(Undefined) == NaN && ParseIntValue(Null) == NaN
    ensures ParseIntValue(Bool(true)) == NaN && ParseIntValue(Bool(false)) == NaN
  {
    assert DigitPrefixLen("undefined") == 0;
    assert DigitPrefixLen("null") == 0;
    assert DigitPrefixLen("true") == 0;
    assert DigitPrefixLen("false") == 0;
  }
}
