/**
 * The character classes and the few JavaScript string operations the
 * assembler relies on: `isWhite`, `isNumber`, `String.prototype.trim`,
 * `split` on one character, `parseInt` on an operand that starts with a
 * digit, and the decimal text of a number (what `in` turns a number key into).
 */
module Text {
  import opened Wrappers

  /** `white`: space, newline, backspace, tab and carriage return. */
  const White: seq<char> := [' ', '\n', '\U{0008}', '\t', '\r']

  predicate IsWhite(c: char) {
    c in White
  }

  /** `isNumber`: one of the ten decimal digit characters. */
  predicate IsNumber(c: char) {
    '0' <= c <= '9'
  }

  predicate StartsWithDigit(s: string) {
    |s| > 0 && IsNumber(s[0])
  }

  predicate IsHexDigit(c: char) {
    IsNumber(c) || 'a' <= c <= 'f' || 'A' <= c <= 'F'
  }

  /** The characters `trim` removes: JavaScript's WhiteSpace and LineTerminator. */
  predicate IsJsSpace(c: char) {
    || c == '\t' || c == '\n' || c == '\U{000B}' || c == '\U{000C}' || c == '\r' || c == ' '
    || c == '\U{00A0}' || c == '\U{1680}' || ('\U{2000}' <= c <= '\U{200A}')
    || c == '\U{2028}' || c == '\U{2029}' || c == '\U{202F}' || c == '\U{205F}'
    || c == '\U{3000}' || c == '\U{FEFF}'
  }

  function TrimStart(s: string): (r: string)
    ensures |r| <= |s| && r == s[|s| - |r|..]
    ensures forall i :: 0 <= i < |s| - |r| ==> IsJsSpace(s[i])
    ensures r == [] || !IsJsSpace(r[0])
  {
    if s != [] && IsJsSpace(s[0]) then TrimStart(s[1..]) else s
  }

  function TrimEnd(s: string): (r: string)
    ensures |r| <= |s| && r == s[..|r|]
    ensures forall i :: |r| <= i < |s| ==> IsJsSpace(s[i])
    ensures r == [] || !IsJsSpace(r[|r| - 1])
  {
    if s != [] && IsJsSpace(s[|s| - 1]) then TrimEnd(s[..|s| - 1]) else s
  }

  /** `String.prototype.trim`. */
  function Trim(s: string): (r: string)
    ensures r == [] || (!IsJsSpace(r[0]) && !IsJsSpace(r[|r| - 1]))
    ensures s == [] || (!IsJsSpace(s[0]) && !IsJsSpace(s[|s| - 1])) ==> r == s
  {
    TrimEnd(TrimStart(s))
  }

  /** The inverse of `split`: the parts glued back with the separator. */
  function Join(parts: seq<string>, sep: char): string
    requires |parts| >= 1
  {
    if |parts| == 1 then parts[0] else parts[0] + [sep] + Join(parts[1..], sep)
  }

  /** Gluing a character onto the first part glues it onto the whole. */
  lemma JoinCons(c: char, parts: seq<string>, sep: char)
    requires |parts| >= 1
    ensures Join([[c] + parts[0]] + parts[1..], sep) == [c] + Join(parts, sep)
  {
    var q := [[c] + parts[0]] + parts[1..];
    assert q[1..] == parts[1..];
  }

  /** `s.split(sep)` for a one-character separator. */
  function Split(s: string, sep: char): (parts: seq<string>)
    ensures |parts| >= 1
    ensures forall i :: 0 <= i < |parts| ==> sep !in parts[i]
    ensures sep in s <==> |parts| >= 2
  {
    if s == [] then [""]
    else
      var rest := Split(s[1..], sep);
      assert s == [s[0]] + s[1..];
      if s[0] == sep then [""] + rest
      else [[s[0]] + rest[0]] + rest[1..]
  }

  /** Joining the parts of a split gives the text back. */
  lemma {:induction false} SplitJoinBack(s: string, sep: char)
    ensures Join(Split(s, sep), sep) == s
  {
    if s != [] {
      var rest := Split(s[1..], sep);
      SplitJoinBack(s[1..], sep);
      assert s == [s[0]] + s[1..];
      if s[0] == sep {
        assert ([""] + rest)[1..] == rest;
      } else {
        JoinCons(s[0], rest, sep);
      }
    }
  }

  /** Splitting what was joined gives the parts back, when no part holds the separator. */
  lemma {:induction false} SplitJoin(parts: seq<string>, sep: char)
    requires |parts| >= 1
    requires forall i :: 0 <= i < |parts| ==> sep !in parts[i]
    ensures Split(Join(parts, sep), sep) == parts
  {
    if |parts| == 1 {
      SplitNoSep(parts[0], sep);
    } else {
      SplitJoin(parts[1..], sep);
      SplitPrefix(parts[0], Join(parts[1..], sep), sep);
      assert [parts[0]] + parts[1..] == parts;
    }
  }

  lemma {:induction false} SplitNoSep(s: string, sep: char)
    requires sep !in s
    ensures Split(s, sep) == [s]
  {
    if s != [] {
      SplitNoSep(s[1..], sep);
      assert s[0] != sep && [s[0]] + s[1..] == s;
      assert ([s[1..]])[1..] == [];
    }
  }

  lemma {:induction false} SplitPrefix(p: string, t: string, sep: char)
    requires sep !in p
    ensures Split(p + [sep] + t, sep) == [p] + Split(t, sep)
  {
    var s := p + [sep] + t;
    if p == [] {
      assert s[0] == sep && s[1..] == t;
    } else {
      assert s[0] == p[0] != sep;
      assert s[1..] == p[1..] + [sep] + t;
      SplitPrefix(p[1..], t, sep);
      var rest := Split(s[1..], sep);
      assert rest == [p[1..]] + Split(t, sep);
      assert rest[1..] == Split(t, sep);
      assert [s[0]] + rest[0] == p;
      assert Split(s, sep) == [[s[0]] + rest[0]] + rest[1..];
    }
  }

  /** The longest prefix of `s` whose characters all satisfy `p`. */
  function Leading(s: string, p: char -> bool): (r: string)
    ensures |r| <= |s| && r == s[..|r|]
    ensures forall i :: 0 <= i < |r| ==> p(r[i])
    ensures |r| == |s| || !p(s[|r|])
  {
    if s != [] && p(s[0]) then [s[0]] + Leading(s[1..], p) else ""
  }

  function DigitValue(c: char): (v: nat)
    ensures v < 16
  {
    if IsNumber(c) then c as int - '0' as int
    else if 'a' <= c <= 'f' then c as int - 'a' as int + 10
    else if 'A' <= c <= 'F' then c as int - 'A' as int + 10
    else 0
  }

  /** The value of a digit string in base `radix`, most significant digit first. */
  function ValueOf(ds: string, radix: nat): nat {
    if ds == [] then 0 else ValueOf(ds[..|ds| - 1], radix) * radix + DigitValue(ds[|ds| - 1])
  }

  /**
   * `parseInt(s)` for an operand `s` that starts with a digit: the leading
   * decimal digits, or after a `0x`/`0X` prefix the leading hexadecimal
   * digits; `None` stands for `NaN` (a `0x` prefix with no hex digit after it).
   */
  function ParseInt(s: string): (r: Option<nat>)
    requires StartsWithDigit(s)
    ensures r.None? <==> |s| >= 2 && s[0] == '0' && (s[1] == 'x' || s[1] == 'X') && (|s| == 2 || !IsHexDigit(s[2]))
  {
    if |s| >= 2 && s[0] == '0' && (s[1] == 'x' || s[1] == 'X') then
      var h := Leading(s[2..], IsHexDigit);
      if h == [] then None else Some(ValueOf(h, 16))
    else
      Some(ValueOf(Leading(s, IsNumber), 10))
  }

  function DigitChar(d: nat): (c: char)
    requires d < 10
    ensures IsNumber(c) && DigitValue(c) == d
  {
    ('0' as int + d) as char
  }

  /** The decimal text of a number, as JavaScript converts a number to a property key. */
  function Decimal(n: nat): (r: string)
    ensures |r| >= 1 && forall i :: 0 <= i < |r| ==> IsNumber(r[i])
    ensures n > 0 ==> r[0] != '0'
  {
    if n < 10 then [DigitChar(n)] else Decimal(n / 10) + [DigitChar(n % 10)]
  }

  lemma {:induction false} DecimalValue(n: nat)
    ensures ValueOf(Decimal(n), 10) == n
  {
    if n >= 10 {
      DecimalValue(n / 10);
      assert Decimal(n)[..|Decimal(n)| - 1] == Decimal(n / 10);
    }
  }

  lemma {:induction false} LeadingExact(a: string, b: string, p: char -> bool)
    requires forall i :: 0 <= i < |a| ==> p(a[i])
    requires b == [] || !p(b[0])
    ensures Leading(a + b, p) == a
  {
    if a != [] {
      LeadingExact(a[1..], b, p);
      assert (a + b)[1..] == a[1..] + b;
    }
  }

  predicate AllZeros(z: string) {
    forall i :: 0 <= i < |z| ==> z[i] == '0'
  }

  /** Leading zeros add nothing to the value of a digit string. */
  lemma {:induction false} ValueOfZeros(z: string, ds: string, radix: nat)
    requires AllZeros(z)
    ensures ValueOf(z + ds, radix) == ValueOf(ds, radix)
  {
    if ds == [] {
      assert z + ds == z;
      if z != [] {
        ValueOfZeros(z[..|z| - 1], [], radix);
        assert z[..|z| - 1] + [] == z[..|z| - 1];
      }
    } else {
      var zd := z + ds;
      assert zd[..|zd| - 1] == z + ds[..|ds| - 1];
      ValueOfZeros(z, ds[..|ds| - 1], radix);
    }
  }

  /** Zeros and the decimal text of a number, then a non-digit: the digits read are the zeros and the text. */
  lemma ZerosDecimalLeading(z: string, n: nat, rest: string)
    requires AllZeros(z)
    requires rest == [] || !IsNumber(rest[0])
    ensures Leading(z + Decimal(n) + rest, IsNumber) == z + Decimal(n)
  {
    var zd := z + Decimal(n);
    assert forall i :: 0 <= i < |zd| ==> IsNumber(zd[i]);
    LeadingExact(zd, rest, IsNumber);
  }

  /**
   * `parseInt` reads back the decimal text of a number, however many zeros
   * lead it, and stops at the first character that is not a digit.
   */
  lemma ParseIntZeros(z: string, n: nat, rest: string)
    requires AllZeros(z)
    requires rest == [] || (!IsNumber(rest[0]) && rest[0] != 'x' && rest[0] != 'X')
    ensures StartsWithDigit(z + Decimal(n) + rest)
    ensures ParseInt(z + Decimal(n) + rest) == Some(n)
  {
    var d := Decimal(n);
    var s := z + d + rest;
    assert !(|s| >= 2 && s[0] == '0' && (s[1] == 'x' || s[1] == 'X')) by {
      if |z| == 0 {
        assert s == d + rest;
        assert |d| == 1 ==> s[1..] == rest;
      } else if |z| >= 2 {
        assert s[1] == z[1];
      } else {
        assert s[1] == d[0];
      }
    }
    ZerosDecimalLeading(z, n, rest);
    ValueOfZeros(z, d, 10);
    DecimalValue(n);
  }

  /**
   * `parseInt` reads back the decimal text of a number, and stops at the
   * first character that is not a digit.
   */
  lemma ParseIntDecimal(n: nat, rest: string)
    requires rest == [] || (!IsNumber(rest[0]) && rest[0] != 'x' && rest[0] != 'X')
    ensures ParseInt(Decimal(n) + rest) == Some(n)
  {
    var s := Decimal(n) + rest;
    LeadingExact(Decimal(n), rest, IsNumber);
    DecimalValue(n);
    assert |Decimal(n)| == 1 ==> s[1..] == rest;
  }
}
