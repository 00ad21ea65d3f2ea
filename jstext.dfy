/**
 * The JavaScript string and number conversions the daemon relies on, stated
 * over Dafny strings: String.prototype.split with a one-character separator,
 * trim, toUpperCase, Number.parseInt (no radix argument), Number(string), and
 * ToUint8 (what a Buffer slot keeps when a number is stored into it).
 */
module JsText {
  import opened Bytes

  /** A JavaScript number as the daemon produces it from text: an integer or NaN. */
  datatype JsNum = Num(n: int) | NaN

  /** Storing a number into a Buffer slot (NaN and undefined store 0). */
  function ToUint8(x: JsNum): (r: byte)
    ensures x.Num? && 0 <= x.n < 0x100 ==> r == x.n
    ensures x.NaN? ==> r == 0
  {
    match x
    case Num(n) => n % 0x100
    case NaN => 0
  }

  /** x + k: NaN stays NaN. */
  function Add(x: JsNum, k: int): (r: JsNum)
    ensures r.NaN? <==> x.NaN?
    ensures x.Num? ==> r.n - k == x.n
  {
    match x
    case Num(n) => Num(n + k)
    case NaN => NaN
  }

  /** buf[i] for a Buffer: the octet, or undefined (NaN once used in arithmetic) past the end. */
  function ByteAt(s: seq<byte>, i: nat): (r: JsNum)
    ensures r.Num? <==> i < |s|
    ensures i < |s| ==> r.n == s[i]
  {
    if i < |s| then Num(s[i]) else NaN
  }

  // ----- split and join -----

  /** s.split(c) for a separator of one character. */
  function Split(s: string, c: char): (r: seq<string>)
    ensures |r| >= 1
    ensures forall i :: 0 <= i < |r| ==> c !in r[i]
  {
    if |s| == 0 then [""]
    else if s[0] == c then [""] + Split(s[1..], c)
    else
      var rest := Split(s[1..], c);
      [[s[0]] + rest[0]] + rest[1..]
  }

  /** parts.join(c): the inverse of Split. */
  function Join(parts: seq<string>, c: char): string
    requires |parts| >= 1
  {
    if |parts| == 1 then parts[0] else parts[0] + [c] + Join(parts[1..], c)
  }

  lemma {:induction false} JoinSplit(s: string, c: char)
    ensures Join(Split(s, c), c) == s
    decreases |s|
  {
    if |s| == 0 {
    } else if s[0] == c {
      JoinSplit(s[1..], c);
      assert s == [c] + s[1..];
    } else {
      JoinSplit(s[1..], c);
      var rest := Split(s[1..], c);
      if |rest| == 1 {
        assert Join(Split(s, c), c) == [s[0]] + rest[0];
      } else {
        assert Join(Split(s, c), c) == [s[0]] + rest[0] + [c] + Join(rest[1..], c);
        assert Join(rest, c) == rest[0] + [c] + Join(rest[1..], c);
      }
      assert s == [s[0]] + s[1..];
    }
  }

  /** Splitting `p + s`, where `p` holds no separator, extends the first piece of `s` by `p`. */
  lemma {:induction false} SplitPrefix(p: string, s: string, c: char)
    requires c !in p
    ensures Split(p + s, c) == [p + Split(s, c)[0]] + Split(s, c)[1..]
    decreases |p|
  {
    if |p| > 0 {
      assert c !in p[1..] by {
        forall k | 0 <= k < |p| - 1 ensures p[1..][k] != c {
          assert p[1..][k] == p[k + 1];
        }
      }
      SplitPrefix(p[1..], s, c);
      assert p[0] in p;
      assert (p + s)[0] == p[0] && (p + s)[1..] == p[1..] + s;
      var rest := Split(p[1..] + s, c);
      assert Split(p + s, c) == [[p[0]] + rest[0]] + rest[1..];
      assert [p[0]] + (p[1..] + Split(s, c)[0]) == p + Split(s, c)[0];
    } else {
      assert p + s == s && p + Split(s, c)[0] == Split(s, c)[0];
    }
  }

  /** Splitting a join of separator-free parts gives the parts back. */
  lemma {:induction false} SplitJoin(parts: seq<string>, c: char)
    requires |parts| >= 1
    requires forall i :: 0 <= i < |parts| ==> c !in parts[i]
    ensures Split(Join(parts, c), c) == parts
    decreases |parts|
  {
    var p := parts[0];
    if |parts| == 1 {
      SplitPrefix(p, "", c);
      assert p + "" == p;
    } else {
      var rest := Join(parts[1..], c);
      SplitJoin(parts[1..], c);
      assert Join(parts, c) == p + ([c] + rest);
      SplitPrefix(p, [c] + rest, c);
      assert ([c] + rest)[1..] == rest;
      assert Split([c] + rest, c) == [""] + parts[1..];
      assert p + "" == p;
    }
  }

  /** A character that is neither the separator nor in any part is not in their join. */
  lemma {:induction false} JoinAvoids(parts: seq<string>, c: char, x: char)
    requires |parts| >= 1 && x != c
    requires forall i :: 0 <= i < |parts| ==> x !in parts[i]
    ensures x !in Join(parts, c)
    decreases |parts|
  {
    if |parts| > 1 {
      JoinAvoids(parts[1..], c, x);
      assert x !in parts[0];
    }
  }

  // ----- whitespace, trim, upper case -----

  /** ECMAScript WhiteSpace and LineTerminator code points (what trim removes). */
  predicate IsJsSpace(ch: char)
  {
    ch == ' ' || ch == '\t' || ch == '\n' || ch == '\r' || ch == '\U{000B}' || ch == '\U{000C}'
    || ch == '\U{00A0}' || ch == '\U{1680}' || ('\U{2000}' <= ch <= '\U{200A}')
    || ch == '\U{2028}' || ch == '\U{2029}' || ch == '\U{202F}' || ch == '\U{205F}'
    || ch == '\U{3000}' || ch == '\U{FEFF}'
  }

  function TrimStart(s: string): (r: string)
    ensures |r| <= |s| && r == s[|s| - |r|..]
    ensures |r| > 0 ==> !IsJsSpace(r[0])
    ensures forall i :: 0 <= i < |s| - |r| ==> IsJsSpace(s[i])
  {
    if |s| > 0 && IsJsSpace(s[0]) then TrimStart(s[1..]) else s
  }

  function TrimEnd(s: string): (r: string)
    ensures |r| <= |s| && r == s[..|r|]
    ensures |r| > 0 ==> !IsJsSpace(r[|r| - 1])
    ensures forall i :: |r| <= i < |s| ==> IsJsSpace(s[i])
  {
    if |s| > 0 && IsJsSpace(s[|s| - 1]) then TrimEnd(s[..|s| - 1]) else s
  }

  /** s.trim() */
  function Trim(s: string): string
  {
    TrimEnd(TrimStart(s))
  }

  function UpperChar(ch: char): char
  {
    if 'a' <= ch <= 'z' then (ch as int - 32) as char else ch
  }

  /** s.toUpperCase() on the characters that can upper-case to an ASCII letter. */
  function ToUpper(s: string): (r: string)
    ensures |r| == |s| && forall i :: 0 <= i < |s| ==> r[i] == UpperChar(s[i])
  {
    seq(|s|, i requires 0 <= i < |s| => UpperChar(s[i]))
  }

  // ----- digits -----

  predicate IsDecDigit(ch: char) { '0' <= ch <= '9' }

  predicate IsHexDigit(ch: char)
  {
    IsDecDigit(ch) || 'a' <= ch <= 'f' || 'A' <= ch <= 'F'
  }

  predicate IsDigitIn(ch: char, radix: int)
  {
    if radix == 16 then IsHexDigit(ch) else IsDecDigit(ch)
  }

  function DigitValue(ch: char): (r: nat)
    ensures IsHexDigit(ch) ==> r < 16
    ensures IsDecDigit(ch) ==> r < 10
  {
    if IsDecDigit(ch) then ch as int - '0' as int
    else if 'a' <= ch <= 'f' then ch as int - 'a' as int + 10
    else if 'A' <= ch <= 'F' then ch as int - 'A' as int + 10
    else 0
  }

  /** The value of a string of digits in the given radix, most significant first. */
  function DigitsValue(d: string, radix: nat): nat
  {
    if |d| == 0 then 0 else DigitsValue(d[..|d| - 1], radix) * radix + DigitValue(d[|d| - 1])
  }

  /** The longest prefix of `s` made of digits of the radix. */
  function LeadingDigits(s: string, radix: int): (r: string)
    ensures |r| <= |s| && r == s[..|r|]
    ensures forall i :: 0 <= i < |r| ==> IsDigitIn(r[i], radix)
    ensures |r| < |s| ==> !IsDigitIn(s[|r|], radix)
  {
    if |s| > 0 && IsDigitIn(s[0], radix) then [s[0]] + LeadingDigits(s[1..], radix) else ""
  }

  predicate AllDigits(s: string, radix: int)
  {
    forall i :: 0 <= i < |s| ==> IsDigitIn(s[i], radix)
  }

  predicate HasHexPrefix(s: string)
  {
    |s| >= 2 && s[0] == '0' && (s[1] == 'x' || s[1] == 'X')
  }

  /**
   * Number.parseInt(s) without a radix: leading white space is skipped, an
   * optional sign is read, a 0x/0X prefix selects radix 16, and the longest run
   * of digits is read; no digit at all gives NaN.
   */
  function ParseInt(s: string): (r: JsNum)
  {
    var t := TrimStart(s);
    var neg := |t| > 0 && t[0] == '-';
    var u := if |t| > 0 && (t[0] == '-' || t[0] == '+') then t[1..] else t;
    var radix := if HasHexPrefix(u) then 16 else 10;
    var body := if radix == 16 then u[2..] else u;
    var d := LeadingDigits(body, radix);
    if |d| == 0 then NaN
    else if neg then Num(-(DigitsValue(d, radix) as int))
    else Num(DigitsValue(d, radix))
  }

  /**
   * Number(s) for the integer forms: after trim, the empty string is 0, a run
   * of decimal digits is its value, a sign followed by decimal digits is the
   * signed value, 0x/0X followed by hex digits (no sign) is its value; every
   * other form is NaN here.
   */
  function NumberOf(s: string): (r: JsNum)
  {
    var t := Trim(s);
    if |t| == 0 then Num(0)
    else if AllDigits(t, 10) then Num(DigitsValue(t, 10))
    else if |t| > 1 && (t[0] == '+' || t[0] == '-') && AllDigits(t[1..], 10) then
      (if t[0] == '-' then Num(-(DigitsValue(t[1..], 10) as int)) else Num(DigitsValue(t[1..], 10)))
    else if HasHexPrefix(t) && |t| > 2 && AllDigits(t[2..], 16) then Num(DigitsValue(t[2..], 16))
    else NaN
  }

  // ----- decimal rendering, the partner of both parsers -----

  /** The decimal rendering of a natural number, as String(n) gives it. */
  function DecimalString(n: nat): (r: string)
    ensures |r| >= 1 && AllDigits(r, 10)
    ensures |r| >= 2 ==> r[0] != '0'
  {
    if n < 10 then [('0' as int + n) as char]
    else DecimalString(n / 10) + [('0' as int + n % 10) as char]
  }

  lemma {:induction false} DecimalStringValue(n: nat)
    ensures DigitsValue(DecimalString(n), 10) == n
  {
    var r := DecimalString(n);
    if n >= 10 {
      DecimalStringValue(n / 10);
      assert r[..|r| - 1] == DecimalString(n / 10);
    }
  }

  lemma DigitIsNotSpace(ch: char, radix: int)
    requires IsDigitIn(ch, radix)
    ensures !IsJsSpace(ch)
  {
  }

  /** Text whose two ends are not white space is left alone by trim. */
  lemma TrimUntouched(s: string)
    requires |s| > 0 ==> !IsJsSpace(s[0]) && !IsJsSpace(s[|s| - 1])
    ensures TrimStart(s) == s && TrimEnd(s) == s && Trim(s) == s
  {
  }

  lemma AllDigitsNoSpace(s: string, radix: int)
    requires AllDigits(s, radix)
    ensures TrimStart(s) == s && TrimEnd(s) == s && Trim(s) == s
  {
    if |s| > 0 {
      DigitIsNotSpace(s[0], radix);
      DigitIsNotSpace(s[|s| - 1], radix);
    }
    TrimUntouched(s);
  }

  lemma {:induction false} LeadingDigitsAll(s: string, radix: int)
    requires AllDigits(s, radix)
    ensures LeadingDigits(s, radix) == s
    decreases |s|
  {
    if |s| > 0 {
      assert IsDigitIn(s[0], radix);
      LeadingDigitsAll(s[1..], radix);
      assert [s[0]] + s[1..] == s;
    }
  }

  /** parseInt reads back what String(n) wrote. */
  lemma ParseIntDecimal(n: nat)
    ensures ParseInt(DecimalString(n)) == Num(n)
  {
    var s := DecimalString(n);
    AllDigitsNoSpace(s, 10);
    assert s[0] != '-' && s[0] != '+';
    assert !HasHexPrefix(s);
    LeadingDigitsAll(s, 10);
    DecimalStringValue(n);
  }

  /** Number() reads back what String(n) wrote. */
  lemma NumberOfDecimal(n: nat)
    ensures NumberOf(DecimalString(n)) == Num(n)
  {
    var s := DecimalString(n);
    AllDigitsNoSpace(s, 10);
    DecimalStringValue(n);
  }

  /** Number() reads a sign written before String(n) as the sign of the value. */
  lemma NumberOfSigned(n: nat, negative: bool)
    ensures NumberOf((if negative then "-" else "+") + DecimalString(n)) == Num(if negative then -(n as int) else n)
  {
    var d := DecimalString(n);
    var s := (if negative then "-" else "+") + d;
    assert s[1..] == d;
    assert !IsJsSpace(s[0]) && !IsJsSpace(s[|s| - 1]);
    TrimUntouched(s);
    assert !AllDigits(s, 10);
    DecimalStringValue(n);
  }
}
