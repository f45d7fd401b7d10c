/**
 * Percent-encoding as `urllib.parse.quote(s)` does it with its default arguments
 * (`safe="/"`, UTF-8): the unreserved characters of section 2.3 of RFC 3986 and `/`
 * stay as they are; every other character becomes one `%XX` triplet (section 2.1 of
 * RFC 3986, upper-case hexadecimal) per octet of its UTF-8 encoding.
 */
module UrlQuote {
  import opened Wrappers

  /** The characters `quote` never escapes: ALPHA, DIGIT, `-`, `.`, `_`, `~`, and `/`. */
  predicate IsSafe(c: char)
  {
    ('A' <= c <= 'Z') || ('a' <= c <= 'z') || ('0' <= c <= '9')
    || c == '-' || c == '.' || c == '_' || c == '~' || c == '/'
  }

  // ---------------------------------------------------------------------------
  // UTF-8 (section 3 of RFC 3629)
  // ---------------------------------------------------------------------------

  /** True when `n` is a Unicode scalar value, the range of a Dafny `char`. */
  predicate IsScalar(n: int)
  {
    (0 <= n < 0xD800) || (0xE000 <= n < 0x11_0000)
  }

  /** The UTF-8 octets of one character. */
  function Utf8(c: char): (r: seq<byte>)
    ensures 1 <= |r| <= 4
    ensures |r| == 1 <==> c as int < 0x80
  {
    var n := c as int;
    if n < 0x80 then [n as byte]
    else if n < 0x800 then
      [(0xC0 + n / 64) as byte, (0x80 + n % 64) as byte]
    else if n < 0x1_0000 then
      [(0xE0 + n / 4096) as byte, (0x80 + (n / 64) % 64) as byte, (0x80 + n % 64) as byte]
    else
      [(0xF0 + n / 262144) as byte, (0x80 + (n / 4096) % 64) as byte,
       (0x80 + (n / 64) % 64) as byte, (0x80 + n % 64) as byte]
  }

  /** How many octets a UTF-8 sequence with this lead octet has; 0 for an octet that cannot lead. */
  function Utf8Length(lead: byte): (n: nat)
    ensures n <= 4
  {
    if lead < 0x80 then 1
    else if 0xC0 <= lead < 0xE0 then 2
    else if 0xE0 <= lead < 0xF0 then 3
    else if 0xF0 <= lead < 0xF8 then 4
    else 0
  }

  predicate IsContinuation(b: byte)
  {
    0x80 <= b < 0xC0
  }

  /**
   * The character a complete UTF-8 sequence stands for, or None when the sequence is
   * malformed, overlong, a surrogate or beyond U+10FFFF.
   */
  function Utf8Decode(b: seq<byte>): (r: Option<char>)
    requires 1 <= |b| <= 4
  {
    if Utf8Length(b[0]) != |b| || exists i :: 1 <= i < |b| && !IsContinuation(b[i]) then None
    else
      var n :=
        if |b| == 1 then b[0] as int
        else if |b| == 2 then (b[0] as int - 0xC0) * 64 + (b[1] as int - 0x80)
        else if |b| == 3 then ((b[0] as int - 0xE0) * 64 + (b[1] as int - 0x80)) * 64 + (b[2] as int - 0x80)
        else (((b[0] as int - 0xF0) * 64 + (b[1] as int - 0x80)) * 64 + (b[2] as int - 0x80)) * 64 + (b[3] as int - 0x80);
      var least := if |b| == 1 then 0 else if |b| == 2 then 0x80 else if |b| == 3 then 0x800 else 0x1_0000;
      if least <= n && IsScalar(n) then Some(n as char) else None
  }

  /** Splitting off six bits: the step every multi-octet sequence repeats. */
  lemma SixBits(n: int)
    requires 0 <= n
    ensures n == (n / 64) * 64 + n % 64 && 0 <= n % 64 < 64
  {
  }

  /** Two octets carry the five high and the six low bits. */
  lemma Utf8RoundTrip2(n: int)
    requires 0x80 <= n < 0x800
    ensures (((0xC0 + n / 64) as byte) as int - 0xC0) * 64 + (((0x80 + n % 64) as byte) as int - 0x80) == n
  {
    SixBits(n);
  }

  /** Three octets carry four, six and six bits. */
  lemma Utf8RoundTrip3(n: int)
    requires 0x800 <= n < 0x1_0000
    ensures var b0, b1, b2 := (0xE0 + n / 4096) as byte, (0x80 + (n / 64) % 64) as byte, (0x80 + n % 64) as byte;
      ((b0 as int - 0xE0) * 64 + (b1 as int - 0x80)) * 64 + (b2 as int - 0x80) == n
  {
    SixBits(n);
    SixBits(n / 64);
    assert n / 4096 == (n / 64) / 64;
  }

  /** Four octets carry three, six, six and six bits. */
  lemma Utf8RoundTrip4(n: int)
    requires 0x1_0000 <= n < 0x11_0000
    ensures var b0, b1, b2, b3 := (0xF0 + n / 262144) as byte, (0x80 + (n / 4096) % 64) as byte,
                                  (0x80 + (n / 64) % 64) as byte, (0x80 + n % 64) as byte;
      (((b0 as int - 0xF0) * 64 + (b1 as int - 0x80)) * 64 + (b2 as int - 0x80)) * 64 + (b3 as int - 0x80) == n
  {
    var n1 := n / 64;
    SixBits(n);
    SixBits(n1);
    SixBits(n1 / 64);
    assert n / 4096 == n1 / 64;
    assert n / 262144 == (n1 / 64) / 64;
  }

  lemma Utf8RoundTrip(c: char)
    ensures Utf8Length(Utf8(c)[0]) == |Utf8(c)|
    ensures Utf8Decode(Utf8(c)) == Some(c)
  {
    var n := c as int;
    if n < 0x80 {
    } else if n < 0x800 {
      Utf8RoundTrip2(n);
    } else if n < 0x1_0000 {
      Utf8RoundTrip3(n);
    } else {
      Utf8RoundTrip4(n);
    }
  }

  // ---------------------------------------------------------------------------
  // Percent triplets
  // ---------------------------------------------------------------------------

  /** An upper-case hexadecimal digit, as `quote` writes them. */
  function HexDigit(v: int): (c: char)
    requires 0 <= v < 16
  {
    if v < 10 then ('0' as int + v) as char else ('A' as int + (v - 10)) as char
  }

  /** `quote` writes the digits of this table: upper case, as section 2.1 of RFC 3986 recommends. */
  const UpperHex: string := "0123456789ABCDEF"

  lemma HexDigitIsUpper(v: int)
    requires 0 <= v < 16
    ensures HexDigit(v) == UpperHex[v]
  {
  }

  /** The value of a hexadecimal digit of either case. */
  function HexValue(c: char): (r: Option<int>)
    ensures r.Some? ==> 0 <= r.value < 16
  {
    if '0' <= c <= '9' then Some(c as int - '0' as int)
    else if 'A' <= c <= 'F' then Some(c as int - 'A' as int + 10)
    else if 'a' <= c <= 'f' then Some(c as int - 'a' as int + 10)
    else None
  }

  lemma HexValueOfDigit(v: int)
    requires 0 <= v < 16
    ensures HexValue(HexDigit(v)) == Some(v)
  {
  }

  /** `%XX` for every octet, in order. */
  function Percent(bs: seq<byte>): (r: string)
    ensures |r| == 3 * |bs|
    ensures forall i :: 0 <= i < |bs| ==> r[3 * i] == '%'
    ensures forall i :: 0 <= i < |r| ==> IsSafe(r[i]) || r[i] == '%'
    decreases |bs|
  {
    if bs == [] then ""
    else
      var head := ['%', HexDigit(bs[0] as int / 16), HexDigit(bs[0] as int % 16)];
      var tail := Percent(bs[1..]);
      assert forall i :: 1 <= i < |bs| ==> (head + tail)[3 * i] == tail[3 * (i - 1)];
      assert forall i :: 3 <= i < |head + tail| ==> (head + tail)[i] == tail[i - 3];
      head + tail
  }

  /** Reads `n` percent triplets from the front of `s`. */
  function ReadOctets(s: string, n: nat): (r: Option<seq<byte>>)
    ensures r.Some? ==> |r.value| == n && 3 * n <= |s|
    decreases n
  {
    if n == 0 then Some([])
    else if |s| < 3 || s[0] != '%' then None
    else
      match (HexValue(s[1]), HexValue(s[2]), ReadOctets(s[3..], n - 1))
      case (Some(h), Some(l), Some(rest)) => Some([(h * 16 + l) as byte] + rest)
      case _ => None
  }

  lemma {:induction false} ReadPercent(bs: seq<byte>, rest: string)
    ensures ReadOctets(Percent(bs) + rest, |bs|) == Some(bs)
    decreases |bs|
  {
    if bs != [] {
      var s := Percent(bs) + rest;
      var v := bs[0] as int;
      HexValueOfDigit(v / 16);
      HexValueOfDigit(v % 16);
      assert s[3..] == Percent(bs[1..]) + rest;
      ReadPercent(bs[1..], rest);
      assert [bs[0]] + bs[1..] == bs;
    }
  }

  // ---------------------------------------------------------------------------
  // quote and its inverse
  // ---------------------------------------------------------------------------

  /** What `quote` writes for one character. */
  function QuoteChar(c: char): (r: string)
  {
    if IsSafe(c) then [c] else Percent(Utf8(c))
  }

  /** `urllib.parse.quote(s)`. */
  function Quote(s: string): (r: string)
    decreases |s|
  {
    if s == "" then "" else QuoteChar(s[0]) + Quote(s[1..])
  }

  /** Text made only of safe characters comes out of `quote` unchanged. */
  lemma {:induction false} QuoteKeepsSafeText(s: string)
    requires forall i :: 0 <= i < |s| ==> IsSafe(s[i])
    ensures Quote(s) == s
    decreases |s|
  {
    if s != "" {
      QuoteKeepsSafeText(s[1..]);
    }
  }

  lemma QuoteCharIsSafe(c: char)
    ensures forall i :: 0 <= i < |QuoteChar(c)| ==> IsSafe(QuoteChar(c)[i]) || QuoteChar(c)[i] == '%'
  {
    if !IsSafe(c) {
      var r := Percent(Utf8(c));
      assert forall i :: 0 <= i < |r| ==> IsSafe(r[i]) || r[i] == '%';
    }
  }

  /** Everything `quote` writes is a safe character or the `%` of a triplet. */
  lemma {:induction false} QuoteOutputIsSafe(s: string)
    ensures forall i :: 0 <= i < |Quote(s)| ==> IsSafe(Quote(s)[i]) || Quote(s)[i] == '%'
    decreases |s|
  {
    if s != "" {
      QuoteOutputIsSafe(s[1..]);
      var head, tail := QuoteChar(s[0]), Quote(s[1..]);
      QuoteCharIsSafe(s[0]);
      assert Quote(s) == head + tail;
      assert forall i :: |head| <= i < |head + tail| ==> (head + tail)[i] == tail[i - |head|];
    }
  }

  /**
   * Undoes percent-encoding: other characters stand for themselves, and each run of
   * `%XX` triplets must spell the UTF-8 encoding of characters. Where Python's own
   * `unquote` would keep a stray `%` or substitute U+FFFD, this gives None.
   */
  function Unquote(s: string): (r: Option<string>)
    decreases |s|
  {
    if |s| == 0 then Some("")
    else if s[0] != '%' then
      match Unquote(s[1..])
      case Some(t) => Some([s[0]] + t)
      case None => None
    else if |s| < 3 then None
    else
      match (HexValue(s[1]), HexValue(s[2]))
      case (Some(h), Some(l)) =>
        var n := Utf8Length((h * 16 + l) as byte);
        if n == 0 then None
        else
          (match ReadOctets(s, n)
           case None => None
           case Some(bs) =>
             (match (Utf8Decode(bs), Unquote(s[3 * n..]))
              case (Some(c), Some(t)) => Some([c] + t)
              case _ => None))
      case _ => None
  }

  lemma UnquoteQuoteChar(c: char, rest: string, t: string)
    requires Unquote(rest) == Some(t)
    ensures Unquote(QuoteChar(c) + rest) == Some([c] + t)
  {
    var s := QuoteChar(c) + rest;
    if IsSafe(c) {
      assert s[1..] == rest;
    } else {
      var bs := Utf8(c);
      Utf8RoundTrip(c);
      var v := bs[0] as int;
      HexValueOfDigit(v / 16);
      HexValueOfDigit(v % 16);
      assert s[1] == HexDigit(v / 16) && s[2] == HexDigit(v % 16);
      assert (v / 16) * 16 + v % 16 == v;
      ReadPercent(bs, rest);
      assert s[3 * |bs|..] == rest;
    }
  }

  /** Unquoting what `quote` produced gives back the original text. */
  lemma {:induction false} UnquoteQuote(s: string)
    ensures Unquote(Quote(s)) == Some(s)
    decreases |s|
  {
    if s != "" {
      UnquoteQuote(s[1..]);
      UnquoteQuoteChar(s[0], Quote(s[1..]), s[1..]);
      assert [s[0]] + s[1..] == s;
    }
  }

  /** `quote` maps different texts to different texts. */
  lemma QuoteInjective(s1: string, s2: string)
    requires Quote(s1) == Quote(s2)
    ensures s1 == s2
  {
    UnquoteQuote(s1);
    UnquoteQuote(s2);
  }

  /** A space becomes `%20`; `é` becomes the triplets of its two UTF-8 octets, in upper case. */
  lemma QuoteVectors()
    ensures Quote("a b") == "a%20b"
    ensures Quote("\U{E9}") == "%C3%A9"
  {
    assert Utf8(' ') == [0x20];
    assert Percent([0x20]) == "%20";
    assert Quote("b") == "b";
    assert Quote(" b") == "%20" + Quote("b");
    assert Quote("a b") == "a" + Quote(" b");
    assert Utf8('\U{E9}') == [0xC3, 0xA9];
    assert Percent([0xA9]) == "%A9";
    assert Percent([0xC3, 0xA9]) == "%C3" + Percent([0xA9]);
    assert Quote("\U{E9}") == QuoteChar('\U{E9}') + Quote("");
  }
}
