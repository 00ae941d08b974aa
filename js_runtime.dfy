/**
 * The pieces of the JavaScript runtime that the pulse helpers and design
 * nodes lean on: reads of missing elements (`undefined`), `indexOf`,
 * `parseInt`, `String(number)`, `String(boolean)` and `Array.prototype.toString`.
 * Every thrown error of the modelled code is a `Failure` of `Result`.
 */
module JsRuntime {

  datatype Option<+T> = None | Some(value: T)

  /** The errors the modelled code throws (explicitly, or as a TypeError). */
  datatype Error =
    | NotSimple                // getSimpleValue / counter / validateEmail on a non-simple pulse
    | NotStructured            // getFieldValue, toObject, ... on a non-structured pulse
    | TypeError                // a property read on `undefined`
    | AvailabilityNotFound     // markDishSoldOut: no "availability" column
    | InvalidDishSelection     // selectDishWithDetails: missing pulse or wrong prompt

  datatype Result<+T> = Success(value: T) | Failure(error: Error)

  /** What a JavaScript read of a response cell or of a field can produce. */
  datatype JsValue = Undefined | Null | Str(s: string)

  function OptionSeq<T>(o: Option<T>): (r: seq<T>)
    ensures |r| == if o.Some? then 1 else 0
    ensures o.Some? ==> r == [o.value]
  {
    if o.Some? then [o.value] else []
  }

  /** `a[i]`: the element, or `undefined` when `i` is outside the array. */
  function At<T>(a: seq<T>, i: int): (r: Option<T>)
    ensures r.Some? <==> 0 <= i < |a|
    ensures r.Some? ==> r.value == a[i]
  {
    if 0 <= i < |a| then Some(a[i]) else None
  }

  /** `cells[i]` on an array of strings. */
  function CellRead(cells: seq<string>, i: int): (r: JsValue)
    ensures r != Null
    ensures r.Str? <==> 0 <= i < |cells|
    ensures r.Str? ==> r.s == cells[i]
  {
    if 0 <= i < |cells| then Str(cells[i]) else Undefined
  }

  /** `Array.prototype.indexOf`: the first position of `x`, or -1. */
  function IndexOf<T(==)>(a: seq<T>, x: T): (r: int)
    ensures -1 <= r < |a|
    ensures r == -1 <==> x !in a
    ensures r >= 0 ==> a[r] == x && x !in a[..r]
  {
    if |a| == 0 then -1
    else if a[0] == x then 0
    else
      var k := IndexOf(a[1..], x);
      assert a[1..][..if k < 0 then 0 else k] == a[1..1 + if k < 0 then 0 else k];
      if k == -1 then -1 else k + 1
  }

  /** The last position of `x` in `a` (the position whose write wins in a forEach fill). */
  function LastIndexOf<T(==)>(a: seq<T>, x: T): (r: int)
    ensures -1 <= r < |a|
    ensures r == -1 <==> x !in a
    ensures r >= 0 ==> a[r] == x && x !in a[r + 1..]
  {
    if |a| == 0 then -1
    else if a[|a| - 1] == x then |a| - 1
    else
      var init := a[..|a| - 1];
      var k := LastIndexOf(init, x);
      assert a == init + [a[|a| - 1]];
      assert x in a <==> x in init;
      assert k >= 0 ==> a[k + 1..] == init[k + 1..] + [a[|a| - 1]];
      k
  }

  /** `String(b)` for a boolean. */
  function BoolString(b: bool): (r: string)
    ensures b ==> r == "true"
    ensures !b ==> r == "false"
  {
    if b then "true" else "false"
  }

  /** How many UTF-16 code units a character takes: two for one above U+FFFF (a surrogate pair). */
  function CodeUnits(c: char): (n: nat)
    ensures n == 1 <==> c <= '\U{FFFF}'
    ensures n == 2 <==> c > '\U{FFFF}'
  {
    if c <= '\U{FFFF}' then 1 else 2
  }

  /**
   * A string's `length`, which counts UTF-16 code units: at least one per
   * character, at most two, and exactly one each when no character lies
   * above U+FFFF.
   */
  function Utf16Length(s: string): (r: nat)
    ensures |s| <= r <= 2 * |s|
    ensures (forall i :: 0 <= i < |s| ==> s[i] <= '\U{FFFF}') ==> r == |s|
    ensures (exists i :: 0 <= i < |s| && s[i] > '\U{FFFF}') ==> r > |s|
  {
    if |s| == 0 then 0
    else
      assert forall i :: 1 <= i < |s| ==> s[1..][i - 1] == s[i];
      CodeUnits(s[0]) + Utf16Length(s[1..])
  }

  /** `Array.prototype.toString` on an array of strings: the cells joined by ",". */
  function JoinComma(cells: seq<string>): (r: string)
    ensures cells == [] ==> r == ""
    ensures |cells| == 1 ==> r == cells[0]
  {
    if |cells| == 0 then ""
    else if |cells| == 1 then cells[0]
    else JoinComma(cells[..|cells| - 1]) + "," + cells[|cells| - 1]
  }

  // ---------------------------------------------------------------
  // String(n) for integers
  // ---------------------------------------------------------------

  function DigitChar(d: nat): (c: char)
    requires d < 10
    ensures '0' <= c <= '9'
  {
    "0123456789"[d]
  }

  /** The decimal numeral of a natural number, most significant digit first. */
  function NatToString(n: nat): (r: string)
    ensures |r| > 0
    ensures forall i :: 0 <= i < |r| ==> '0' <= r[i] <= '9'
    ensures r[0] == '0' ==> n == 0
  {
    if n < 10 then [DigitChar(n)] else NatToString(n / 10) + [DigitChar(n % 10)]
  }

  /** `String(n)` for an integer `n`. */
  function IntToString(n: int): (r: string)
    ensures n >= 0 ==> r == NatToString(n)
    ensures n < 0 ==> r == "-" + NatToString(-n)
  {
    if n < 0 then "-" + NatToString(-n) else NatToString(n)
  }

  // ---------------------------------------------------------------
  // parseInt
  // ---------------------------------------------------------------

  /**
   * The characters `parseInt` skips before the number: the ECMAScript
   * WhiteSpace (tab, vertical tab, form feed, space, no-break space,
   * zero-width no-break space, every Zs character) and LineTerminator
   * (line feed, carriage return, U+2028, U+2029) productions.
   */
  predicate IsJsWhitespace(c: char) {
    c == '\t' || c == '\n' || c == '\U{000B}' || c == '\U{000C}' || c == '\r' || c == ' '
    || c == '\U{00A0}' || c == '\U{1680}' || ('\U{2000}' <= c <= '\U{200A}')
    || c == '\U{2028}' || c == '\U{2029}' || c == '\U{202F}' || c == '\U{205F}'
    || c == '\U{3000}' || c == '\U{FEFF}'
  }

  /** The radix argument: `parseInt(s, 10)` or `parseInt(s)` (which honours a 0x prefix). */
  datatype Radix = Decimal | Unspecified

  function DigitValue(c: char, radix: nat): (r: Option<nat>)
    ensures r.Some? ==> r.value < radix
    ensures radix == 10 ==> (r.Some? <==> '0' <= c <= '9')
  {
    var v: int :=
      if '0' <= c <= '9' then c as int - '0' as int
      else if 'a' <= c <= 'z' then c as int - 'a' as int + 10
      else if 'A' <= c <= 'Z' then c as int - 'A' as int + 10
      else 36;
    if v < radix then Some(v) else None
  }

  function TrimStart(s: string): (r: string)
    ensures |r| <= |s| && r == s[|s| - |r|..]
    ensures r == [] || !IsJsWhitespace(r[0])
    ensures AllJsWhitespace(s[..|s| - |r|])
  {
    if |s| > 0 && IsJsWhitespace(s[0]) then
      var r := TrimStart(s[1..]);
      assert s[..|s| - |r|] == [s[0]] + s[1..][..|s| - 1 - |r|];
      r
    else s
  }

  /** Every character of `w` is one that parseInt skips. */
  predicate AllJsWhitespace(w: string) {
    forall i :: 0 <= i < |w| ==> IsJsWhitespace(w[i])
  }

  /** The longest prefix of `s` made of digits of the radix. */
  function DigitPrefix(s: string, radix: nat): (r: string)
    ensures |r| <= |s| && r == s[..|r|]
    ensures forall i :: 0 <= i < |r| ==> DigitValue(r[i], radix).Some?
    ensures |r| < |s| ==> DigitValue(s[|r|], radix).None?
  {
    if |s| > 0 && DigitValue(s[0], radix).Some? then [s[0]] + DigitPrefix(s[1..], radix) else []
  }

  /** A product of naturals is a natural. */
  lemma ScaledNat(a: nat, b: nat)
    ensures a * b >= 0
  {
    if a > 0 && b > 0 {
      assert a * b >= b;
    }
  }

  /** The value of a digit string, most significant digit first. */
  function DigitsValue(ds: string, radix: nat): nat
    requires forall i :: 0 <= i < |ds| ==> DigitValue(ds[i], radix).Some?
  {
    if |ds| == 0 then 0
    else
      var prefix := ds[..|ds| - 1];
      assert forall i :: 0 <= i < |prefix| ==> prefix[i] == ds[i];
      var low := DigitValue(ds[|ds| - 1], radix);
      assert low.Some?;
      ScaledNat(DigitsValue(prefix, radix), radix);
      DigitsValue(prefix, radix) * radix + low.value
  }

  /** The digits-only part of parseInt: None when no digit starts the text (NaN). */
  function ParseDigits(s: string, base: nat): (r: Option<nat>)
    ensures r.None? <==> DigitPrefix(s, base) == []
  {
    var ds := DigitPrefix(s, base);
    if ds == [] then None else Some(DigitsValue(ds, base))
  }

  predicate HasHexPrefix(u: string) {
    |u| >= 2 && u[0] == '0' && (u[1] == 'x' || u[1] == 'X')
  }

  /** parseInt after the sign: a "0x"/"0X" prefix switches to radix 16 unless the radix is 10. */
  function ParseUnsigned(u: string, radix: Radix): Option<nat> {
    if radix == Unspecified && HasHexPrefix(u) then ParseDigits(u[2..], 16) else ParseDigits(u, 10)
  }

  function Signed(o: Option<nat>, negative: bool): (r: Option<int>)
    ensures r.Some? <==> o.Some?
  {
    match o
    case None => None
    case Some(v) => var i: int := v; Some(if negative then -i else i)
  }

  /**
   * `parseInt(s, 10)` (Decimal) or `parseInt(s)` (Unspecified): skip leading
   * white space, take an optional sign, then (only in the Unspecified case)
   * a "0x"/"0X" prefix that switches to radix 16, then the longest run of
   * digits. None stands for NaN (no digit at all).
   */
  function ParseInt(s: string, radix: Radix): Option<int>
  {
    var t := TrimStart(s);
    if |t| > 0 && (t[0] == '-' || t[0] == '+') then Signed(ParseUnsigned(t[1..], radix), t[0] == '-')
    else Signed(ParseUnsigned(t, radix), false)
  }

  lemma {:induction false} DigitsValueOfNatToString(n: nat)
    ensures DigitsValue(NatToString(n), 10) == n
  {
    var s := NatToString(n);
    if n >= 10 {
      DigitsValueOfNatToString(n / 10);
      assert s[..|s| - 1] == NatToString(n / 10);
    }
  }

  lemma {:induction false} DigitPrefixOfDigits(s: string)
    requires forall i :: 0 <= i < |s| ==> '0' <= s[i] <= '9'
    ensures DigitPrefix(s, 10) == s
  {
    if |s| > 0 {
      DigitPrefixOfDigits(s[1..]);
      assert s == [s[0]] + s[1..];
    }
  }

  /** An unsigned numeral is read back as itself. */
  lemma ParseUnsignedOfNumeral(u: string, radix: Radix)
    requires |u| > 0 && (forall i :: 0 <= i < |u| ==> '0' <= u[i] <= '9')
    ensures ParseUnsigned(u, radix) == Some(DigitsValue(u, 10))
  {
    assert !HasHexPrefix(u);
    DigitPrefixOfDigits(u);
  }

  /** A numeral without a sign is read back as its value. */
  lemma ParseIntOfNumeral(u: string, radix: Radix)
    requires |u| > 0 && (forall i :: 0 <= i < |u| ==> '0' <= u[i] <= '9')
    ensures ParseInt(u, radix) == Signed(Some(DigitsValue(u, 10)), false)
  {
    ParseUnsignedOfNumeral(u, radix);
    assert !IsJsWhitespace(u[0]);
    assert TrimStart(u) == u;
  }

  /** A numeral after a minus sign is read back as its negated value. */
  lemma ParseIntOfNegatedNumeral(u: string, radix: Radix)
    requires |u| > 0 && (forall i :: 0 <= i < |u| ==> '0' <= u[i] <= '9')
    ensures ParseInt("-" + u, radix) == Signed(Some(DigitsValue(u, 10)), true)
  {
    var s := "-" + u;
    ParseUnsignedOfNumeral(u, radix);
    assert s[0] == '-' && !IsJsWhitespace(s[0]);
    assert TrimStart(s) == s;
    assert s[1..] == u;
  }

  /** A numeral, with or without a leading minus sign, is read back as its signed value. */
  lemma ParseIntOfSignedNumeral(u: string, negative: bool, radix: Radix)
    requires |u| > 0 && (forall i :: 0 <= i < |u| ==> '0' <= u[i] <= '9')
    ensures ParseInt((if negative then "-" else "") + u, radix) == Signed(Some(DigitsValue(u, 10)), negative)
  {
    if negative {
      ParseIntOfNegatedNumeral(u, radix);
    } else {
      assert "" + u == u;
      ParseIntOfNumeral(u, radix);
    }
  }

  /** parseInt reads back what String(n) wrote, with either radix form. */
  lemma ParseIntOfIntToString(n: int, radix: Radix)
    ensures ParseInt(IntToString(n), radix) == Some(n)
  {
    var m: nat := if n < 0 then -n else n;
    DigitsValueOfNatToString(m);
    ParseIntOfSignedNumeral(NatToString(m), n < 0, radix);
    assert IntToString(n) == (if n < 0 then "-" else "") + NatToString(m);
  }
}
