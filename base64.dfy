/**
  `buf.toString('base64')`: the padded base64 encoding of section 4 of RFC 4648
  (alphabet A-Z, a-z, 0-9, '+', '/'; '=' as padding). The decoder is not used
  by the proxy; it is the inverse against which the encoder is checked.
 */
module Base64 {
  import opened Wrappers
  import opened Buffers

  /** The character for a 6-bit value. */
  function Sextet(x: int): (c: char)
    requires 0 <= x < 64
    ensures c != '='
  {
    if x < 26 then ('A' as int + x) as char
    else if x < 52 then ('a' as int + x - 26) as char
    else if x < 62 then ('0' as int + x - 52) as char
    else if x == 62 then '+'
    else '/'
  }

  /** The 6-bit value of an alphabet character; None for any other character. */
  function SextetValue(c: char): (r: Option<int>)
    ensures r.Some? ==> 0 <= r.value < 64
  {
    if 'A' <= c <= 'Z' then Some(c as int - 'A' as int)
    else if 'a' <= c <= 'z' then Some(c as int - 'a' as int + 26)
    else if '0' <= c <= '9' then Some(c as int - '0' as int + 52)
    else if c == '+' then Some(62)
    else if c == '/' then Some(63)
    else None
  }

  lemma SextetRoundTrip(x: int)
    requires 0 <= x < 64
    ensures SextetValue(Sextet(x)) == Some(x)
  {
  }

  /** The four characters that encode the three bytes x, y, z. */
  function Group(x: Byte, y: Byte, z: Byte): (s: string)
    ensures |s| == 4 && forall i :: 0 <= i < 4 ==> s[i] != '='
  {
    [Sextet(x / 4), Sextet(x % 4 * 16 + y / 16), Sextet(y % 16 * 4 + z / 64), Sextet(z % 64)]
  }

  /** Every group of three bytes becomes four characters; a final group of one or two bytes is padded with '='. */
  function Encode(b: Bytes): string
    decreases |b|
  {
    if |b| == 0 then ""
    else if |b| == 1 then Group(b[0], 0, 0)[..2] + "=="
    else if |b| == 2 then Group(b[0], b[1], 0)[..3] + "="
    else Group(b[0], b[1], b[2]) + Encode(b[3..])
  }

  /** Four characters for every started group of three bytes. */
  lemma {:induction false} EncodeLength(b: Bytes)
    ensures |Encode(b)| == 4 * ((|b| + 2) / 3)
    decreases |b|
  {
    if |b| >= 3 {
      EncodeLength(b[3..]);
      assert 4 * ((|b| + 2) / 3) == 4 + 4 * ((|b| - 3 + 2) / 3);
    }
  }

  /** The three bytes the 6-bit values i, j, k, l stand for. */
  function Ungroup(i: int, j: int, k: int, l: int): Bytes
    requires 0 <= i < 64 && 0 <= j < 64 && 0 <= k < 64 && 0 <= l < 64
  {
    [i * 4 + j / 16, j % 16 * 16 + k / 4, k % 4 * 64 + l]
  }

  /** Decodes padded base64 text; None when the text is not well formed. */
  function Decode(s: string): Option<Bytes>
    decreases |s|
  {
    if s == [] then Some([])
    else if |s| < 4 then None
    else
      var i, j, k, l := SextetValue(s[0]), SextetValue(s[1]), SextetValue(s[2]), SextetValue(s[3]);
      if i.None? || j.None? then None
      else if |s| == 4 && s[2] == '=' && s[3] == '=' then Some(Ungroup(i.value, j.value, 0, 0)[..1])
      else if |s| == 4 && k.Some? && s[3] == '=' then Some(Ungroup(i.value, j.value, k.value, 0)[..2])
      else if k.None? || l.None? then None
      else match Decode(s[4..])
        case None => None
        case Some(rest) => Some(Ungroup(i.value, j.value, k.value, l.value) + rest)
  }

  /** Decoding a final group padded with "==". */
  lemma DecodePaddedTwice(s: string, i: int, j: int)
    requires |s| == 4 && s[2] == '=' && s[3] == '='
    requires SextetValue(s[0]) == Some(i) && SextetValue(s[1]) == Some(j)
    ensures Decode(s) == Some(Ungroup(i, j, 0, 0)[..1])
  {
  }

  /** Decoding a final group padded with one "=". */
  lemma DecodePaddedOnce(s: string, i: int, j: int, k: int)
    requires |s| == 4 && s[3] == '='
    requires SextetValue(s[0]) == Some(i) && SextetValue(s[1]) == Some(j) && SextetValue(s[2]) == Some(k)
    ensures Decode(s) == Some(Ungroup(i, j, k, 0)[..2])
  {
  }

  /** Decoding a full group followed by more text. */
  lemma DecodeFull(s: string, i: int, j: int, k: int, l: int, tail: Bytes)
    requires |s| >= 4 && s[2] != '=' && s[3] != '='
    requires SextetValue(s[0]) == Some(i) && SextetValue(s[1]) == Some(j)
    requires SextetValue(s[2]) == Some(k) && SextetValue(s[3]) == Some(l)
    requires Decode(s[4..]) == Some(tail)
    ensures Decode(s) == Some(Ungroup(i, j, k, l) + tail)
  {
  }

  /** The 6-bit values of a group give back its bytes. */
  lemma UngroupGroup(x: Byte, y: Byte, z: Byte)
    ensures Ungroup(x / 4, x % 4 * 16 + y / 16, y % 16 * 4 + z / 64, z % 64) == [x, y, z]
  {
    assert x / 4 * 4 + (x % 4 * 16 + y / 16) / 16 == x;
    assert (x % 4 * 16 + y / 16) % 16 * 16 + (y % 16 * 4 + z / 64) / 4 == y;
    assert (y % 16 * 4 + z / 64) % 4 * 64 + z % 64 == z;
  }

  lemma DecodeOneByte(x: Byte)
    ensures Decode(Encode([x])) == Some([x])
  {
    var s := Encode([x]);
    UngroupGroup(x, 0, 0);
    SextetRoundTrip(x / 4);
    SextetRoundTrip(x % 4 * 16);
    assert s == Group(x, 0, 0)[..2] + "==";
    assert s[0] == Sextet(x / 4) && s[1] == Sextet(x % 4 * 16) && s[2] == '=' && s[3] == '=';
    DecodePaddedTwice(s, x / 4, x % 4 * 16);
    assert Ungroup(x / 4, x % 4 * 16, 0, 0)[..1] == [x];
  }

  lemma DecodeTwoBytes(x: Byte, y: Byte)
    ensures Decode(Encode([x, y])) == Some([x, y])
  {
    var s := Encode([x, y]);
    UngroupGroup(x, y, 0);
    SextetRoundTrip(x / 4);
    SextetRoundTrip(x % 4 * 16 + y / 16);
    SextetRoundTrip(y % 16 * 4);
    assert s == Group(x, y, 0)[..3] + "=";
    assert s[0] == Sextet(x / 4) && s[1] == Sextet(x % 4 * 16 + y / 16);
    assert s[2] == Sextet(y % 16 * 4) && s[3] == '=';
    DecodePaddedOnce(s, x / 4, x % 4 * 16 + y / 16, y % 16 * 4);
    assert Ungroup(x / 4, x % 4 * 16 + y / 16, y % 16 * 4, 0)[..2] == [x, y];
  }

  lemma DecodeGroup(x: Byte, y: Byte, z: Byte, rest: string, tail: Bytes)
    requires Decode(rest) == Some(tail)
    ensures Decode(Group(x, y, z) + rest) == Some([x, y, z] + tail)
  {
    var s := Group(x, y, z) + rest;
    UngroupGroup(x, y, z);
    SextetRoundTrip(x / 4);
    SextetRoundTrip(x % 4 * 16 + y / 16);
    SextetRoundTrip(y % 16 * 4 + z / 64);
    SextetRoundTrip(z % 64);
    assert s[0] == Sextet(x / 4) && s[1] == Sextet(x % 4 * 16 + y / 16);
    assert s[2] == Sextet(y % 16 * 4 + z / 64) && s[3] == Sextet(z % 64);
    assert s[4..] == rest;
    DecodeFull(s, x / 4, x % 4 * 16 + y / 16, y % 16 * 4 + z / 64, z % 64, tail);
  }

  /** Decoding an encoding gives back the bytes. */
  lemma {:induction false} DecodeEncode(b: Bytes)
    ensures Decode(Encode(b)) == Some(b)
    decreases |b|
  {
    if |b| < 3 {
      DecodeEncodeShort(b);
    } else {
      var rest := b[3..];
      assert b == [b[0], b[1], b[2]] + rest;
      DecodeEncode(rest);
      EncodeFirstGroup(b);
      DecodeGroup(b[0], b[1], b[2], Encode(rest), rest);
      calc {
        Decode(Encode(b));
        Decode(Group(b[0], b[1], b[2]) + Encode(rest));
        Some([b[0], b[1], b[2]] + rest);
      }
    }
  }

  lemma DecodeEncodeShort(b: Bytes)
    requires |b| < 3
    ensures Decode(Encode(b)) == Some(b)
  {
    if |b| == 1 {
      assert b == [b[0]];
      DecodeOneByte(b[0]);
    } else if |b| == 2 {
      assert b == [b[0], b[1]];
      DecodeTwoBytes(b[0], b[1]);
    }
  }

  lemma EncodeFirstGroup(b: Bytes)
    requires |b| >= 3
    ensures Encode(b) == Group(b[0], b[1], b[2]) + Encode(b[3..])
  {
  }

  /** The encoding is empty exactly when there are no bytes to encode. */
  lemma EncodeEmptyIff(b: Bytes)
    ensures Encode(b) == "" <==> b == []
  {
  }
}
