/**
 * The base 64 encoding of section 4 of RFC 4648 (the alphabet `A`-`Z`, `a`-`z`,
 * `0`-`9`, `+`, `/`, with `=` padding), which `base64.b64encode(...).decode("utf-8")`
 * produces, and a decoder that inverts it.
 */
module Base64 {
  import opened Wrappers

  /** The character for a 6-bit value: Table 1 of RFC 4648, section 4. */
  function Digit(v: int): (c: char)
    requires 0 <= v < 64
  {
    if v < 26 then ('A' as int + v) as char
    else if v < 52 then ('a' as int + (v - 26)) as char
    else if v < 62 then ('0' as int + (v - 52)) as char
    else if v == 62 then '+'
    else '/'
  }

  /** Table 1 of RFC 4648, section 4, as one string: the character for value `v` is at index `v`. */
  const Alphabet: string := UpperLetters + LowerLetters + DecimalDigits + "+/"
  const UpperLetters: string := "ABCDEFGHIJKLMNOPQRSTUVWXYZ"
  const LowerLetters: string := "abcdefghijklmnopqrstuvwxyz"
  const DecimalDigits: string := "0123456789"

  lemma DigitIsAlphabet(v: int)
    requires 0 <= v < 64
    ensures Digit(v) == Alphabet[v]
  {
    assert |UpperLetters| == 26 && |LowerLetters| == 26 && |DecimalDigits| == 10;
    if v < 26 {
      assert Alphabet[v] == UpperLetters[v];
    } else if v < 52 {
      assert Alphabet[v] == LowerLetters[v - 26];
    } else if v < 62 {
      assert Alphabet[v] == DecimalDigits[v - 52];
    }
  }

  /** The 6-bit value a character stands for, or None for a character outside the alphabet. */
  function Sextet(c: char): (r: Option<int>)
    ensures r.Some? ==> 0 <= r.value < 64 && Digit(r.value) == c
  {
    if 'A' <= c <= 'Z' then Some(c as int - 'A' as int)
    else if 'a' <= c <= 'z' then Some(c as int - 'a' as int + 26)
    else if '0' <= c <= '9' then Some(c as int - '0' as int + 52)
    else if c == '+' then Some(62)
    else if c == '/' then Some(63)
    else None
  }

  lemma SextetOfDigit(v: int)
    requires 0 <= v < 64
    ensures Sextet(Digit(v)) == Some(v)
  {
  }

  /** A character of the encoded text: an alphabet character or the pad `=`. */
  predicate IsBase64Char(c: char)
  {
    Sextet(c).Some? || c == '='
  }

  /** The four characters for one complete group of three octets. */
  function Group3(x: byte, y: byte, z: byte): (r: string)
    ensures |r| == 4 && forall i :: 0 <= i < 4 ==> Sextet(r[i]).Some?
  {
    var a, b, c := x as int, y as int, z as int;
    [Digit(a / 4), Digit((a % 4) * 16 + b / 16), Digit((b % 16) * 4 + c / 64), Digit(c % 64)]
  }

  /** The four characters for a final group of one or two octets, padded with `=`. */
  function FinalGroup(b: seq<byte>): (r: string)
    requires 1 <= |b| <= 2
    ensures |r| == 4 && forall i :: 0 <= i < 4 ==> IsBase64Char(r[i])
  {
    if |b| == 1 then
      var x := b[0] as int;
      [Digit(x / 4), Digit((x % 4) * 16), '=', '=']
    else
      var x, y := b[0] as int, b[1] as int;
      [Digit(x / 4), Digit((x % 4) * 16 + y / 16), Digit((y % 16) * 4), '=']
  }

  /**
   * Encodes three octets into four characters at a time; a final group of one or two
   * octets is padded with `=` to four characters.
   */
  function Encode(b: seq<byte>): (r: string)
    ensures |r| == 4 * ((|b| + 2) / 3)
    ensures forall i :: 0 <= i < |r| ==> IsBase64Char(r[i])
    decreases |b|
  {
    if |b| == 0 then ""
    else if |b| <= 2 then FinalGroup(b)
    else
      var head, tail := Group3(b[0], b[1], b[2]), Encode(b[3..]);
      assert forall i :: 4 <= i < |head + tail| ==> (head + tail)[i] == tail[i - 4];
      head + tail
  }

  /** The three octets that four 6-bit values spell, most significant bit first. */
  function Octets(a: int, b: int, c: int, d: int): (r: seq<byte>)
    requires 0 <= a < 64 && 0 <= b < 64 && 0 <= c < 64 && 0 <= d < 64
    ensures |r| == 3
  {
    [(a * 4 + b / 16) as byte, ((b % 16) * 16 + c / 4) as byte, ((c % 4) * 64 + d) as byte]
  }

  /**
   * Decodes text in the form Encode produces: groups of four characters, padding only
   * in the last group. Text of any other shape gives None. Like most decoders it does
   * not insist that the unused bits before the padding are zero.
   */
  function Decode(s: string): (r: Option<seq<byte>>)
    decreases |s|
  {
    if |s| == 0 then Some([])
    else if |s| < 4 then None
    else if |s| == 4 && s[2] == '=' && s[3] == '=' then
      match (Sextet(s[0]), Sextet(s[1]))
      case (Some(a), Some(b)) => Some(Octets(a, b, 0, 0)[..1])
      case _ => None
    else if |s| == 4 && s[3] == '=' then
      match (Sextet(s[0]), Sextet(s[1]), Sextet(s[2]))
      case (Some(a), Some(b), Some(c)) => Some(Octets(a, b, c, 0)[..2])
      case _ => None
    else
      match (Sextet(s[0]), Sextet(s[1]), Sextet(s[2]), Sextet(s[3]), Decode(s[4..]))
      case (Some(a), Some(b), Some(c), Some(d), Some(rest)) => Some(Octets(a, b, c, d) + rest)
      case _ => None
  }

  /** The arithmetic behind one group: the four 6-bit values give back the three octets. */
  lemma RegroupBits(x: byte, y: byte, z: byte)
    ensures Octets(x as int / 4, (x as int % 4) * 16 + y as int / 16,
                   (y as int % 16) * 4 + z as int / 64, z as int % 64) == [x, y, z]
  {
    var a, b, c := x as int, y as int, z as int;
    assert (a / 4) * 4 + ((a % 4) * 16 + b / 16) / 16 == a;
    assert (((a % 4) * 16 + b / 16) % 16) * 16 + ((b % 16) * 4 + c / 64) / 4 == b;
    assert (((b % 16) * 4 + c / 64) % 4) * 64 + c % 64 == c;
  }

  lemma DecodeFinalGroup(b: seq<byte>)
    requires 1 <= |b| <= 2
    ensures Decode(FinalGroup(b)) == Some(b)
  {
    if |b| == 1 {
      DecodeOneOctet(b[0]);
      assert [b[0]] == b;
    } else {
      DecodeTwoOctets(b[0], b[1]);
      assert [b[0], b[1]] == b;
    }
  }

  lemma DecodeOneOctet(x: byte)
    ensures Decode(FinalGroup([x])) == Some([x])
  {
    var e := FinalGroup([x]);
    var a := x as int;
    RegroupBits(x, 0, 0);
    assert Octets(a / 4, (a % 4) * 16, 0, 0) == [x, 0, 0];
    SextetOfDigit(a / 4);
    SextetOfDigit((a % 4) * 16);
    assert e == [Digit(a / 4), Digit((a % 4) * 16), '=', '='];
    assert Sextet(e[0]) == Some(a / 4) && Sextet(e[1]) == Some((a % 4) * 16);
    assert [x, 0, 0][..1] == [x];
  }

  lemma DecodeTwoOctets(x: byte, y: byte)
    ensures Decode(FinalGroup([x, y])) == Some([x, y])
  {
    var e := FinalGroup([x, y]);
    var a, b := x as int, y as int;
    RegroupBits(x, y, 0);
    assert Octets(a / 4, (a % 4) * 16 + b / 16, (b % 16) * 4, 0) == [x, y, 0];
    SextetOfDigit(a / 4);
    SextetOfDigit((a % 4) * 16 + b / 16);
    SextetOfDigit((b % 16) * 4);
    assert e == [Digit(a / 4), Digit((a % 4) * 16 + b / 16), Digit((b % 16) * 4), '='];
    assert Sextet(e[0]) == Some(a / 4) && Sextet(e[1]) == Some((a % 4) * 16 + b / 16);
    assert Sextet(e[2]) == Some((b % 16) * 4) && e[2] != '=';
    assert [x, y, 0][..2] == [x, y];
  }

  lemma DecodeGroup3(x: byte, y: byte, z: byte, tail: string, rest: seq<byte>)
    requires Decode(tail) == Some(rest)
    ensures Decode(Group3(x, y, z) + tail) == Some([x, y, z] + rest)
  {
    var e := Group3(x, y, z) + tail;
    var a, b, c := x as int, y as int, z as int;
    RegroupBits(x, y, z);
    SextetOfDigit(a / 4);
    SextetOfDigit((a % 4) * 16 + b / 16);
    SextetOfDigit((b % 16) * 4 + c / 64);
    SextetOfDigit(c % 64);
    assert e[4..] == tail;
    assert e[3] != '=';
  }

  /** Decoding the encoding of any octet string gives that octet string back. */
  lemma {:induction false} DecodeEncode(b: seq<byte>)
    ensures Decode(Encode(b)) == Some(b)
    decreases |b|
  {
    if |b| == 0 {
    } else if |b| <= 2 {
      assert Encode(b) == FinalGroup(b);
      DecodeFinalGroup(b);
    } else {
      var tail := Encode(b[3..]);
      assert Encode(b) == Group3(b[0], b[1], b[2]) + tail;
      DecodeEncode(b[3..]);
      DecodeGroup3(b[0], b[1], b[2], tail, b[3..]);
      assert [b[0], b[1], b[2]] + b[3..] == b;
    }
  }

  /** Two octet strings with the same encoding are equal. */
  lemma EncodeInjective(b1: seq<byte>, b2: seq<byte>)
    requires Encode(b1) == Encode(b2)
    ensures b1 == b2
  {
    DecodeEncode(b1);
    DecodeEncode(b2);
  }

  /** `foo`: the 6-bit values are 25, 38, 61 and 47. */
  lemma FooGroup()
    ensures Group3(0x66, 0x6F, 0x6F) == "Zm9v"
  {
    assert Group3(0x66, 0x6F, 0x6F) == [Digit(25), Digit(38), Digit(61), Digit(47)];
    assert Digit(25) == 'Z' && Digit(38) == 'm' && Digit(61) == '9' && Digit(47) == 'v';
  }

  /** `bar`: the 6-bit values are 24, 38, 5 and 50. */
  lemma BarGroup()
    ensures Group3(0x62, 0x61, 0x72) == "YmFy"
  {
    assert Group3(0x62, 0x61, 0x72) == [Digit(24), Digit(38), Digit(5), Digit(50)];
    assert Digit(24) == 'Y' && Digit(38) == 'm' && Digit(5) == 'F' && Digit(50) == 'y';
  }

  lemma FinalGroupVectors()
    ensures FinalGroup([0x66]) == "Zg==" && FinalGroup([0x66, 0x6F]) == "Zm8="
    ensures FinalGroup([0x62]) == "Yg==" && FinalGroup([0x62, 0x61]) == "YmE="
  {
    assert FinalGroup([0x66]) == [Digit(25), Digit(32), '=', '='];
    assert FinalGroup([0x66, 0x6F]) == [Digit(25), Digit(38), Digit(60), '='];
    assert FinalGroup([0x62]) == [Digit(24), Digit(32), '=', '='];
    assert FinalGroup([0x62, 0x61]) == [Digit(24), Digit(38), Digit(4), '='];
    assert Digit(25) == 'Z' && Digit(32) == 'g' && Digit(38) == 'm' && Digit(60) == '8';
    assert Digit(24) == 'Y' && Digit(4) == 'E';
  }

  /** An input of more than two octets: its first group, then the rest. */
  lemma EncodeFirstGroup(b: seq<byte>)
    requires |b| >= 3
    ensures Encode(b) == Group3(b[0], b[1], b[2]) + Encode(b[3..])
  {
  }

  /** The test vectors of section 10 of RFC 4648. */
  lemma EncodeVectors()
    ensures Encode([]) == ""
    ensures Encode([0x66]) == "Zg=="
    ensures Encode([0x66, 0x6F]) == "Zm8="
    ensures Encode([0x66, 0x6F, 0x6F]) == "Zm9v"
    ensures Encode([0x66, 0x6F, 0x6F, 0x62]) == "Zm9vYg=="
    ensures Encode([0x66, 0x6F, 0x6F, 0x62, 0x61]) == "Zm9vYmE="
    ensures Encode([0x66, 0x6F, 0x6F, 0x62, 0x61, 0x72]) == "Zm9vYmFy"
  {
    FooGroup();
    BarGroup();
    FinalGroupVectors();
    var f3: seq<byte> := [0x66, 0x6F, 0x6F];
    var f4: seq<byte> := f3 + [0x62];
    var f5: seq<byte> := f3 + [0x62, 0x61];
    var f6: seq<byte> := f3 + [0x62, 0x61, 0x72];
    EncodeFirstGroup(f3);
    assert f3[3..] == [];
    EncodeFirstGroup(f4);
    assert f4[3..] == [0x62];
    EncodeFirstGroup(f5);
    assert f5[3..] == [0x62, 0x61];
    EncodeFirstGroup(f6);
    assert f6[3..] == [0x62, 0x61, 0x72];
    EncodeFirstGroup([0x62, 0x61, 0x72]);
    assert [0x62, 0x61, 0x72][3..] == [];
  }
}
