/**
  The JavaScript built-ins the logging pipeline relies on, over strings:
  `String(x)` of an optional string, `String.prototype.split` and
  `Array.prototype.join` with a one-character separator, an unanchored
  substring search, and the global `parseInt` with no radix.
 */
module Js {
  import opened Wrappers

  /** `String(x)` for a value that is a string or `undefined`. */
  function ToStringValue(x: Option<string>): string
  {
    match x
    case Some(s) => s
    case None => "undefined"
  }

  /** True when `sub` occurs somewhere in `s` (what an unanchored regular expression without metacharacters tests). */
  predicate Contains(s: string, sub: string)
  {
    exists i | 0 <= i <= |s| - |sub| :: OccursAt(s, sub, i)
  }

  predicate OccursAt(s: string, sub: string, i: int)
  {
    0 <= i <= |s| - |sub| && s[i..i + |sub|] == sub
  }

  /** `s.split(sep)`: the maximal runs of `s` between occurrences of `sep`; never an empty array. */
  function Split(s: string, sep: char): (parts: seq<string>)
    ensures |parts| >= 1
    ensures forall i :: 0 <= i < |parts| ==> sep !in parts[i]
    decreases |s|
  {
    if s == [] then [""]
    else
      var rest := Split(s[1..], sep);
      if s[0] == sep then [""] + rest
      else [[s[0]] + rest[0]] + rest[1..]
  }

  /** `parts.join(sep)`; an empty array joins to the empty string. */
  function Join(parts: seq<string>, sep: char): string
  {
    if parts == [] then ""
    else if |parts| == 1 then parts[0]
    else parts[0] + [sep] + Join(parts[1..], sep)
  }

  /** Joining the pieces of a split gives back the original string. */
  lemma {:induction false} JoinSplit(s: string, sep: char)
    ensures Join(Split(s, sep), sep) == s
  {
    if s != [] {
      var rest := Split(s[1..], sep);
      JoinSplit(s[1..], sep);
      if s[0] != sep && |rest| > 1 {
        assert rest == [rest[0]] + rest[1..];
      }
    }
  }

  /** A string without the separator splits into itself alone. */
  lemma {:induction false} SplitWithoutSeparator(s: string, sep: char)
    requires sep !in s
    ensures Split(s, sep) == [s]
  {
    if s != [] {
      SplitWithoutSeparator(s[1..], sep);
      assert [s[0]] + s[1..] == s;
    }
  }

  /** Splitting at the first separator peels off the text before it. */
  lemma {:induction false} SplitAtFirst(a: string, b: string, sep: char)
    requires sep !in a
    ensures Split(a + [sep] + b, sep) == [a] + Split(b, sep)
  {
    if a == [] {
      assert a + [sep] + b == [sep] + b;
    } else {
      assert (a + [sep] + b)[0] == a[0];
      assert (a + [sep] + b)[1..] == a[1..] + [sep] + b;
      SplitAtFirst(a[1..], b, sep);
      assert [a[0]] + a[1..] == a;
    }
  }

  /** Splitting a join of separator-free pieces gives back the pieces. */
  lemma {:induction false} SplitJoin(parts: seq<string>, sep: char)
    requires |parts| >= 1
    requires forall i :: 0 <= i < |parts| ==> sep !in parts[i]
    ensures Split(Join(parts, sep), sep) == parts
  {
    if |parts| == 1 {
      SplitWithoutSeparator(parts[0], sep);
    } else {
      SplitAtFirst(parts[0], Join(parts[1..], sep), sep);
      SplitJoin(parts[1..], sep);
    }
  }

  /** The last piece of a join follows the join of the others and one separator. */
  lemma {:induction false} JoinLast(parts: seq<string>, sep: char)
    requires |parts| >= 2
    ensures Join(parts, sep) == Join(parts[..|parts| - 1], sep) + [sep] + parts[|parts| - 1]
  {
    if |parts| > 2 {
      JoinLast(parts[1..], sep);
      assert parts[1..][..|parts| - 2] == parts[..|parts| - 1][1..];
    }
  }

  /** The characters `parseInt` skips before a number: ECMAScript's WhiteSpace and LineTerminator. */
  predicate IsSpace(c: char)
  {
    c == ' ' || c == '\t' || c == '\n' || c == '\r' || c == '\U{000B}' || c == '\U{000C}'
    || c == '\U{00A0}' || c == '\U{1680}' || ('\U{2000}' <= c <= '\U{200A}')
    || c == '\U{2028}' || c == '\U{2029}' || c == '\U{202F}' || c == '\U{205F}'
    || c == '\U{3000}' || c == '\U{FEFF}'
  }

  function TrimStart(s: string): (t: string)
    ensures t == [] || !IsSpace(t[0])
    decreases |s|
  {
    if s != [] && IsSpace(s[0]) then TrimStart(s[1..]) else s
  }

  /** The value of a digit in radix up to 36 ('0'-'9', then 'a'-'z' or 'A'-'Z'); 36 for any other character. */
  function DigitValue(c: char): (v: nat)
    ensures v <= 36
  {
    if '0' <= c <= '9' then c as int - '0' as int
    else if 'a' <= c <= 'z' then c as int - 'a' as int + 10
    else if 'A' <= c <= 'Z' then c as int - 'A' as int + 10
    else 36
  }

  /** The longest prefix of `s` made of digits of the given radix. */
  function DigitRun(s: string, radix: nat): (ds: string)
    ensures ds <= s
    ensures forall i :: 0 <= i < |ds| ==> DigitValue(ds[i]) < radix
    ensures |ds| < |s| ==> DigitValue(s[|ds|]) >= radix
    decreases |s|
  {
    if s != [] && DigitValue(s[0]) < radix then [s[0]] + DigitRun(s[1..], radix) else []
  }

  /** The number a digit string denotes, most significant digit first. */
  function DigitsValue(ds: string, radix: nat): nat
    decreases |ds|
  {
    if ds == [] then 0 else DigitsValue(ds[..|ds| - 1], radix) * radix + DigitValue(ds[|ds| - 1])
  }

  /** The text after one optional leading sign. */
  function Unsigned(t: string): string
  {
    if t != [] && (t[0] == '-' || t[0] == '+') then t[1..] else t
  }

  /** True when the text starts with the `0x` or `0X` prefix of a hexadecimal numeral. */
  predicate HasHexPrefix(u: string)
  {
    |u| >= 2 && u[0] == '0' && (u[1] == 'x' || u[1] == 'X')
  }

  /**
    `parseInt(s)` with no radix: leading white space is skipped, then one optional
    sign, then a `0x` or `0X` prefix selects radix 16 (otherwise radix 10), and the
    longest run of digits that follows is the value. None stands for NaN, the
    result when that run is empty.
   */
  function ParseInt(s: string): Option<int>
  {
    var t := TrimStart(s);
    match ParseMagnitude(Unsigned(t))
    case None => None
    case Some(m) => var v: int := m; Some(if t[0] == '-' then -v else v)
  }

  /** The digits after the optional sign: radix 16 after a `0x` or `0X` prefix, radix 10 otherwise. */
  function ParseMagnitude(u: string): Option<nat>
  {
    var radix := if HasHexPrefix(u) then 16 else 10;
    var digits := DigitRun(if HasHexPrefix(u) then u[2..] else u, radix);
    if digits == [] then None else Some(DigitsValue(digits, radix))
  }

  function DecimalDigit(d: nat): (c: char)
    requires d < 10
    ensures '0' <= c <= '9' && DigitValue(c) == d
  {
    ('0' as int + d) as char
  }

  /** The decimal numeral of a natural number, without leading zeros. */
  function NatToDecimal(n: nat): (s: string)
    ensures s != []
    ensures forall i :: 0 <= i < |s| ==> '0' <= s[i] <= '9'
  {
    if n < 10 then [DecimalDigit(n)] else NatToDecimal(n / 10) + [DecimalDigit(n % 10)]
  }

  /** The decimal numeral of an integer, with a leading '-' when negative. */
  function IntToDecimal(i: int): (s: string)
    ensures s != [] && ':' !in s && !IsSpace(s[0])
  {
    if i < 0 then "-" + NatToDecimal(-i) else NatToDecimal(i)
  }

  lemma {:induction false} DecimalValue(n: nat)
    ensures DigitsValue(NatToDecimal(n), 10) == n
  {
    if n >= 10 {
      var s := NatToDecimal(n);
      assert s[..|s| - 1] == NatToDecimal(n / 10);
      DecimalValue(n / 10);
    }
  }

  lemma {:induction false} DigitRunWhole(s: string, radix: nat)
    requires forall i :: 0 <= i < |s| ==> DigitValue(s[i]) < radix
    ensures DigitRun(s, radix) == s
  {
    if s != [] {
      DigitRunWhole(s[1..], radix);
    }
  }

  /** A string of decimal digits, with or without a leading '-', parses to its value. */
  predicate IsDecimal(ds: string)
  {
    ds != [] && forall i :: 0 <= i < |ds| ==> '0' <= ds[i] <= '9'
  }

  /** A string of decimal digits parses to its value, and to the negated value after a '-'. */
  lemma ParseIntDigits(ds: string)
    requires IsDecimal(ds)
    ensures ParseInt(ds) == Some(DigitsValue(ds, 10))
    ensures ParseInt("-" + ds) == Some(0 - DigitsValue(ds, 10))
  {
    MagnitudeOfDigits(ds);
    LeadingDigitIsNoSpace(ds);
    ParseIntNegated(ds);
  }

  lemma MagnitudeOfDigits(ds: string)
    requires IsDecimal(ds)
    ensures ParseMagnitude(ds) == Some(DigitsValue(ds, 10))
  {
    assert !HasHexPrefix(ds);
    DecimalDigitRun(ds);
  }

  lemma ParseIntNegated(ds: string)
    requires IsDecimal(ds)
    ensures ParseInt("-" + ds) == Some(0 - DigitsValue(ds, 10))
  {
    MagnitudeOfDigits(ds);
    var neg := "-" + ds;
    assert neg[0] == '-' && neg[1..] == ds;
    assert !IsSpace(neg[0]);
    assert TrimStart(neg) == neg;
    assert Unsigned(neg) == ds;
    assert ParseMagnitude(Unsigned(TrimStart(neg))) == Some(DigitsValue(ds, 10));
  }

  lemma LeadingDigitIsNoSpace(ds: string)
    requires ds != [] && '0' <= ds[0] <= '9'
    ensures TrimStart(ds) == ds
  {
  }

  lemma DecimalDigitRun(ds: string)
    requires IsDecimal(ds)
    ensures DigitRun(ds, 10) == ds
  {
    forall k | 0 <= k < |ds| ensures DigitValue(ds[k]) < 10 {
    }
    DigitRunWhole(ds, 10);
  }

  /** `parseInt` reads back every integer written in decimal. */
  lemma ParseIntDecimal(i: int)
    ensures ParseInt(IntToDecimal(i)) == Some(i)
  {
    var n: nat := if i < 0 then -i else i;
    DecimalValue(n);
    ParseIntDigits(NatToDecimal(n));
  }
}
