/**
  Percent-encoding of a query-parameter value as `Uri.EscapeDataString`
  produces it: the unreserved characters of RFC 3986 (section 2.3) are kept,
  every other character is written as its UTF-8 bytes, each as `%` and two
  upper-case hexadecimal digits. The decoder is the authorization server's
  side of the same convention and is what the round trip is stated against.
 */
module PercentEncoding {
  import opened Optional

  type Byte = b: int | 0 <= b < 256

  /** The characters RFC 3986 calls unreserved. */
  predicate IsUnreserved(c: char) {
    || ('A' <= c <= 'Z') || ('a' <= c <= 'z') || ('0' <= c <= '9')
    || c == '-' || c == '.' || c == '_' || c == '~'
  }

  const HexDigits: string := "0123456789ABCDEF"

  /** The value of a hexadecimal digit of either case. */
  function HexValue(c: char): (r: Option<nat>)
    ensures r.Some? ==> r.value < 16
  {
    if '0' <= c <= '9' then Some(c as int - '0' as int)
    else if 'A' <= c <= 'F' then Some(c as int - 'A' as int + 10)
    else if 'a' <= c <= 'f' then Some(c as int - 'a' as int + 10)
    else None
  }

  /** The UTF-8 encoding of one Unicode scalar value. */
  function Utf8(c: char): (bs: seq<Byte>)
    ensures 1 <= |bs| <= 4
  {
    var v := c as int;
    if v < 0x80 then [v]
    else if v < 0x800 then [0xC0 + v / 64, 0x80 + v % 64]
    else if v < 0x1_0000 then [0xE0 + v / 4096, 0x80 + (v / 64) % 64, 0x80 + v % 64]
    else [0xF0 + v / 262144, 0x80 + (v / 4096) % 64, 0x80 + (v / 64) % 64, 0x80 + v % 64]
  }

  /** One byte as `%XX`. */
  function PercentByte(b: Byte): (t: string)
    ensures |t| == 3 && t[0] == '%' && IsUnreserved(t[1]) && IsUnreserved(t[2])
  {
    ['%', HexDigits[b / 16], HexDigits[b % 16]]
  }

  function PercentBytes(bs: seq<Byte>): string {
    if bs == [] then "" else PercentByte(bs[0]) + PercentBytes(bs[1..])
  }

  /** The escaped form of one character. */
  function EscapeChar(c: char): string {
    if IsUnreserved(c) then [c] else PercentBytes(Utf8(c))
  }

  /**
    `Uri.EscapeDataString`: the escaped text holds nothing but unreserved
    characters and `%`, so it can never contain a query delimiter.
   */
  function EscapeDataString(s: string): (e: string)
    ensures forall i :: 0 <= i < |e| ==> IsUnreserved(e[i]) || e[i] == '%'
    ensures |s| <= |e|
  {
    if s == [] then ""
    else
      EscapedCharIsSafe(s[0]);
      EscapeChar(s[0]) + EscapeDataString(s[1..])
  }

  lemma PercentBytesAreSafe(bs: seq<Byte>)
    ensures forall i :: 0 <= i < |PercentBytes(bs)| ==> IsUnreserved(PercentBytes(bs)[i]) || PercentBytes(bs)[i] == '%'
    ensures |PercentBytes(bs)| == 3 * |bs|
  {
    if bs != [] {
      PercentBytesAreSafe(bs[1..]);
    }
  }

  lemma EscapedCharIsSafe(c: char)
    ensures forall i :: 0 <= i < |EscapeChar(c)| ==> IsUnreserved(EscapeChar(c)[i]) || EscapeChar(c)[i] == '%'
    ensures 1 <= |EscapeChar(c)|
  {
    PercentBytesAreSafe(Utf8(c));
  }

  /** Reads one `%XX` byte off the front of `s`. */
  function ReadPercent(s: string): (r: Option<(Byte, string)>)
    ensures r.Some? ==> |r.value.1| < |s|
  {
    if |s| < 3 || s[0] != '%' then None
    else match (HexValue(s[1]), HexValue(s[2]))
      case (Some(h), Some(l)) => Some((16 * h + l, s[3..]))
      case _ => None
  }

  /** Reads one continuation byte `10xxxxxx` and yields its six payload bits. */
  function ReadContinuation(s: string): (r: Option<(int, string)>)
    ensures r.Some? ==> 0 <= r.value.0 < 64 && |r.value.1| < |s|
  {
    match ReadPercent(s)
    case Some((b, rest)) => if 0x80 <= b < 0xC0 then Some((b - 0x80, rest)) else None
    case None => None
  }

  /** A decoded code point, when it is a Unicode scalar value. */
  function Scalar(v: int, rest: string): Option<(char, string)> {
    if 0 <= v < 0xD800 || 0xE000 <= v < 0x11_0000 then Some((v as char, rest)) else None
  }

  /** Six more low bits `x` appended to `acc`. */
  function Shift(acc: int, x: int): int {
    acc * 64 + x
  }

  /** Reads `n` continuation bytes, shifting the six payload bits of each into `acc`. */
  function Continue(acc: int, n: nat, s: string): (r: Option<(int, string)>)
    ensures r.Some? ==> |r.value.1| <= |s|
    decreases n
  {
    if n == 0 then Some((acc, s))
    else match ReadContinuation(s)
      case None => None
      case Some((x, rest)) => Continue(Shift(acc, x), n - 1, rest)
  }

  /** The character of a decoded code point, when there is one and it is a scalar value. */
  function CodePoint(r: Option<(int, string)>): (c: Option<(char, string)>)
    ensures c.Some? ==> r.Some? && c.value.1 == r.value.1
  {
    match r
    case None => None
    case Some((v, rest)) => Scalar(v, rest)
  }

  /** Decodes the first character of escaped text, returning it and what follows. */
  function DecodeFirst(s: string): (r: Option<(char, string)>)
    requires |s| > 0
    ensures r.Some? ==> |r.value.1| < |s|
  {
    if IsUnreserved(s[0]) then Some((s[0], s[1..]))
    else match ReadPercent(s)
      case None => None
      case Some((b0, r0)) =>
        if b0 < 0x80 then Some((b0 as char, r0))
        else if 0xC0 <= b0 < 0xE0 then CodePoint(Continue(b0 - 0xC0, 1, r0))
        else if 0xE0 <= b0 < 0xF0 then CodePoint(Continue(b0 - 0xE0, 2, r0))
        else if 0xF0 <= b0 < 0xF8 then CodePoint(Continue(b0 - 0xF0, 3, r0))
        else None
  }

  /** The decoder: the original text, or `None` when `s` is not well-formed escaped text. */
  function UnescapeDataString(s: string): Option<string>
    decreases |s|
  {
    if s == [] then Some("")
    else match DecodeFirst(s)
      case None => None
      case Some((c, rest)) =>
        match UnescapeDataString(rest)
        case None => None
        case Some(t) => Some([c] + t)
  }

  lemma HexRoundTrip(n: nat)
    requires n < 16
    ensures HexValue(HexDigits[n]) == Some(n)
  {
  }

  /** Reading back a written byte gives the byte and the rest of the text. */
  lemma ReadPercentByte(b: Byte, t: string)
    ensures ReadPercent(PercentByte(b) + t) == Some((b, t))
  {
    var s := PercentByte(b) + t;
    HexRoundTrip(b / 16);
    HexRoundTrip(b % 16);
    assert s[1] == HexDigits[b / 16] && s[2] == HexDigits[b % 16];
    assert s[3..] == t;
  }

  /** The escaped bytes followed by `t`, one `%XX` group at a time. */
  lemma PercentBytesCons(bs: seq<Byte>, t: string)
    requires |bs| > 0
    ensures PercentBytes(bs) + t == PercentByte(bs[0]) + (PercentBytes(bs[1..]) + t)
  {
    var p, q := PercentByte(bs[0]), PercentBytes(bs[1..]);
    assert PercentBytes(bs) == p + q;
    Associative(p, q, t);
  }

  lemma Associative(a: string, b: string, c: string)
    ensures (a + b) + c == a + (b + c)
  {
  }

  /** Reading a continuation byte back. */
  lemma ReadContinuationByte(b: Byte, t: string)
    requires 0x80 <= b < 0xC0
    ensures ReadContinuation(PercentByte(b) + t) == Some((b - 0x80, t))
  {
    ReadPercentByte(b, t);
  }

  /** The payload bits of continuation bytes shifted one after another into `acc`. */
  function Payload(acc: int, bs: seq<Byte>): int
    decreases |bs|
  {
    if bs == [] then acc else Payload(Shift(acc, bs[0] as int - 0x80), bs[1..])
  }

  /** One written continuation byte is read and shifted in. */
  lemma ContinueStep(acc: int, n: nat, b: Byte, rest: string)
    requires n >= 1 && 0x80 <= b < 0xC0
    ensures Continue(acc, n, PercentByte(b) + rest) == Continue(Shift(acc, b as int - 0x80), n - 1, rest)
  {
    ReadContinuationByte(b, rest);
  }

  /** The first byte's payload shifted in. */
  lemma PayloadStep(acc: int, bs: seq<Byte>)
    requires bs != []
    ensures Payload(acc, bs) == Payload(Shift(acc, bs[0] as int - 0x80), bs[1..])
  {
  }

  /** No bytes are written as no text. */
  lemma EmptyPercentBytes(t: string)
    ensures PercentBytes([]) + t == t
  {
    assert PercentBytes([]) == [];
  }

  /** Every byte is a continuation byte `10xxxxxx`. */
  predicate Continuations(bs: seq<Byte>) {
    bs == [] || (0x80 <= bs[0] < 0xC0 && Continuations(bs[1..]))
  }

  /** Written continuation bytes are read back as their payload. */
  lemma {:induction false} ContinueBytes(acc: int, bs: seq<Byte>, t: string)
    requires Continuations(bs)
    ensures Continue(acc, |bs|, PercentBytes(bs) + t) == Some((Payload(acc, bs), t))
    decreases |bs|
  {
    if bs != [] {
      var rest := PercentBytes(bs[1..]) + t;
      var acc' := Shift(acc, bs[0] as int - 0x80);
      PercentBytesCons(bs, t);
      ContinueStep(acc, |bs|, bs[0], rest);
      assert Continue(acc, |bs|, PercentBytes(bs) + t) == Continue(acc', |bs| - 1, rest);
      var tail := bs[1..];
      assert |tail| == |bs| - 1;
      ContinueBytes(acc', tail, t);
      PayloadStep(acc, bs);
    } else {
      EmptyPercentBytes(t);
    }
  }

  /** A number is its sixty-fourths and its remainder. */
  lemma SixtyFourths(x: nat)
    ensures x == (x / 64) * 64 + x % 64
  {
  }

  /** The six-bit groups of a code point put back together. */
  lemma SixBitGroups(v: nat)
    ensures (v / 64) / 64 == v / 4096 && (v / 4096) / 64 == v / 262144
  {
  }

  /** Continuation bytes carrying the low six-bit groups of `v` put `v` back together. */
  lemma PayloadOfGroups(v: nat)
    ensures Payload(v / 64, [0x80 + v % 64]) == v
    ensures Payload(v / 4096, [0x80 + (v / 64) % 64, 0x80 + v % 64]) == v
    ensures Payload(v / 262144, [0x80 + (v / 4096) % 64, 0x80 + (v / 64) % 64, 0x80 + v % 64]) == v
  {
    SixBitGroups(v);
    SixtyFourths(v);
    SixtyFourths(v / 64);
    SixtyFourths(v / 4096);
    var g1, g2, g3 := 0x80 + (v / 4096) % 64, 0x80 + (v / 64) % 64, 0x80 + v % 64;
    assert Payload(v, []) == v;
    assert Payload(v / 64, [g3]) == Payload(v, []);
    assert [g2, g3][1..] == [g3];
    assert Payload(v / 4096, [g2, g3]) == Payload(v / 64, [g3]);
    assert [g1, g2, g3][1..] == [g2, g3];
    assert Payload(v / 262144, [g1, g2, g3]) == Payload(v / 4096, [g2, g3]);
  }

  /** What decoding a lead byte at least 0xC0 needs of the bytes of `Utf8(c)`. */
  predicate LeadOf(bs: seq<Byte>, v: int)
    requires |bs| >= 2
  {
    && Continuations(bs[1..])
    && (|bs| == 2 ==> 0xC0 <= bs[0] < 0xE0 && Payload(bs[0] - 0xC0, bs[1..]) == v)
    && (|bs| == 3 ==> 0xE0 <= bs[0] < 0xF0 && Payload(bs[0] - 0xE0, bs[1..]) == v)
    && (|bs| == 4 ==> 0xF0 <= bs[0] < 0xF8 && Payload(bs[0] - 0xF0, bs[1..]) == v)
  }

  /** The bytes of a character from 0x80 up: a lead byte, then continuation bytes carrying the code point. */
  lemma Utf8Payload(c: char)
    requires c as int >= 0x80
    ensures |Utf8(c)| >= 2 && LeadOf(Utf8(c), c as int)
  {
    var v := c as int;
    var bs := Utf8(c);
    PayloadOfGroups(v);
    var g1, g2, g3 := 0x80 + (v / 4096) % 64, 0x80 + (v / 64) % 64, 0x80 + v % 64;
    assert Continuations([]);
    assert Continuations([g3]);
    assert [g2, g3][1..] == [g3] && Continuations([g2, g3]);
    assert [g1, g2, g3][1..] == [g2, g3] && Continuations([g1, g2, g3]);
    if v < 0x800 {
      assert bs[1..] == [g3];
    } else if v < 0x1_0000 {
      assert bs[1..] == [g2, g3];
    } else {
      assert bs[1..] == [g1, g2, g3];
    }
  }

  /** A character from 0x80 up is decoded back from its escaped bytes. */
  lemma DecodeMultiByte(c: char, t: string)
    requires c as int >= 0x80
    ensures DecodeFirst(PercentBytes(Utf8(c)) + t) == Some((c, t))
  {
    var bs := Utf8(c);
    Utf8Payload(c);
    PercentBytesCons(bs, t);
    ReadPercentByte(bs[0], PercentBytes(bs[1..]) + t);
    var base := if |bs| == 2 then 0xC0 else if |bs| == 3 then 0xE0 else 0xF0;
    ContinueBytes(bs[0] - base, bs[1..], t);
  }

  /** Every character is decoded back from its escaped form. */
  lemma DecodeEscapedChar(c: char, t: string)
    ensures DecodeFirst(EscapeChar(c) + t) == Some((c, t))
  {
    var s := EscapeChar(c) + t;
    if IsUnreserved(c) {
      assert s[1..] == t;
    } else if c as int < 0x80 {
      var bs := Utf8(c);
      assert PercentBytes(bs) == PercentByte(bs[0]);
      ReadPercentByte(bs[0], t);
    } else {
      DecodeMultiByte(c, t);
    }
  }

  /** Escaping is undone by decoding: the value the server reads is the value that was sent. */
  lemma {:induction false} UnescapeEscape(s: string)
    ensures UnescapeDataString(EscapeDataString(s)) == Some(s)
  {
    if s != [] {
      var rest := EscapeDataString(s[1..]);
      var e := EscapeChar(s[0]) + rest;
      assert EscapeDataString(s) == e;
      EscapedCharIsSafe(s[0]);
      DecodeEscapedChar(s[0], rest);
      UnescapeEscape(s[1..]);
      assert UnescapeDataString(e) == Some([s[0]] + s[1..]);
      assert [s[0]] + s[1..] == s;
    }
  }
}
