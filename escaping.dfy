/**
 * Percent-escaping of a column name for the fallback predicate IRI
 * (`URI.escape(name, /[^A-Za-z0-9_.]/)`): every other character is replaced by
 * `%XX` for each byte of its UTF-8 encoding, in upper-case hex. The decoder
 * below is the partner used to show that no two names share an escaped form.
 */
module Escaping {
  import opened Wrappers
  import Seqs

  /** The characters left as they are. */
  predicate Unreserved(c: char) {
    ('A' <= c <= 'Z') || ('a' <= c <= 'z') || ('0' <= c <= '9') || c == '_' || c == '.'
  }

  /** The UTF-8 encoding of one character (section 3 of RFC 3629), in its shortest form. */
  function Utf8(c: char): (bytes: seq<nat>)
    ensures |bytes| == (if c as int < 0x80 then 1 else if c as int < 0x800 then 2 else if c as int < 0x10000 then 3 else 4)
    ensures forall i :: 0 <= i < |bytes| ==> bytes[i] < 256
  {
    var n := c as int;
    if n < 0x80 then [n]
    else if n < 0x800 then [0xC0 + n / 64, 0x80 + n % 64]
    else if n < 0x10000 then [0xE0 + n / 4096, 0x80 + (n / 64) % 64, 0x80 + n % 64]
    else [0xF0 + n / 262144, 0x80 + (n / 4096) % 64, 0x80 + (n / 64) % 64, 0x80 + n % 64]
  }

  /** The digits `%02X` writes: decimal digits and upper-case letters. */
  predicate UpperHex(c: char) {
    ('0' <= c <= '9') || ('A' <= c <= 'F')
  }

  /** The upper-case hexadecimal digit of `d`. */
  function HexDigit(d: nat): (c: char)
    requires d < 16
    ensures Unreserved(c) && UpperHex(c)
    ensures d < 10 ==> '0' <= c <= '9'
    ensures d >= 10 ==> 'A' <= c <= 'F'
    ensures HexValue(c) == Some(d)
  {
    if d < 10 then ('0' as int + d) as char else ('A' as int + d - 10) as char
  }

  /** `sprintf('%%%02X', b)`. */
  function PercentByte(b: nat): (r: string)
    requires b < 256
    ensures |r| == 3 && r[0] == '%' && Unreserved(r[1]) && Unreserved(r[2])
    ensures UpperHex(r[1]) && UpperHex(r[2]) && HexValue(r[1]) == Some(b / 16) && HexValue(r[2]) == Some(b % 16)
  {
    ['%', HexDigit(b / 16), HexDigit(b % 16)]
  }

  function PercentBytes(bytes: seq<nat>): (r: string)
    requires forall i :: 0 <= i < |bytes| ==> bytes[i] < 256
    ensures |r| == 3 * |bytes|
    ensures forall i :: 0 <= i < |r| ==> Unreserved(r[i]) || r[i] == '%'
    ensures forall i :: 0 <= i < |bytes| ==> r[3 * i..3 * i + 3] == PercentByte(bytes[i])
  {
    if |bytes| == 0 then []
    else
      var head, tail := PercentByte(bytes[0]), PercentBytes(bytes[1..]);
      assert forall i :: 1 <= i < |bytes| ==> (head + tail)[3 * i..3 * i + 3] == tail[3 * (i - 1)..3 * (i - 1) + 3];
      head + tail
  }

  /** What one character of the name becomes. */
  function EscapeChar(c: char): (r: string)
    ensures Unreserved(c) ==> r == [c]
    ensures !Unreserved(c) ==> 3 <= |r| && r[0] == '%' && r == PercentBytes(Utf8(c))
    ensures forall i :: 0 <= i < |r| ==> Unreserved(r[i]) || r[i] == '%'
  {
    if Unreserved(c) then [c] else PercentBytes(Utf8(c))
  }

  /**
   * The escaped name: only `[A-Za-z0-9_.%]` remain, it is as long as the name
   * exactly when nothing was escaped, and then it is the name itself.
   */
  function Escape(s: string): (r: string)
    ensures forall i :: 0 <= i < |r| ==> Unreserved(r[i]) || r[i] == '%'
    ensures |r| >= |s|
    ensures |r| == |s| <==> forall i :: 0 <= i < |s| ==> Unreserved(s[i])
    ensures |r| == |s| ==> r == s
  {
    if |s| == 0 then [] else EscapeChar(s[0]) + Escape(s[1..])
  }

  // Decoding.

  function HexValue(c: char): Option<nat> {
    if '0' <= c <= '9' then Some(c as int - '0' as int)
    else if 'A' <= c <= 'F' then Some(c as int - 'A' as int + 10)
    else if 'a' <= c <= 'f' then Some(c as int - 'a' as int + 10)
    else None
  }

  /** A leading `%XY`, read as a byte, and what follows it. */
  function ReadByte(s: string): (r: Option<(nat, string)>)
    ensures r.Some? ==> r.value.0 < 256 && |r.value.1| < |s|
  {
    if |s| >= 3 && s[0] == '%' && HexValue(s[1]).Some? && HexValue(s[2]).Some? &&
       HexValue(s[1]).value < 16 && HexValue(s[2]).value < 16
    then Some((16 * HexValue(s[1]).value + HexValue(s[2]).value, s[3..]))
    else None
  }

  /** A leading continuation byte `10xxxxxx`: its six payload bits. */
  function ReadContinuation(s: string): (r: Option<(nat, string)>)
    ensures r.Some? ==> r.value.0 < 64 && |r.value.1| < |s|
  {
    var r := ReadByte(s);
    if r.Some? && 0x80 <= r.value.0 < 0xC0 then Some((r.value.0 - 0x80, r.value.1)) else None
  }

  predicate ScalarValue(n: int) {
    (0 <= n < 0xD800) || (0xE000 <= n < 0x110000)
  }

  function ToChar(n: int): Option<char> {
    if ScalarValue(n) then Some(n as char) else None
  }

  /** A lead byte: how many continuation bytes follow, and its own payload bits. */
  function Lead(b0: nat): Option<(nat, nat)> {
    if b0 < 0x80 then Some((0, b0))
    else if 0xC0 <= b0 < 0xE0 then Some((1, b0 - 0xC0))
    else if 0xE0 <= b0 < 0xF0 then Some((2, b0 - 0xE0))
    else if 0xF0 <= b0 < 0xF8 then Some((3, b0 - 0xF0))
    else None
  }

  /** `k` continuation bytes, each adding six bits to `acc`. */
  function ReadContinuations(acc: nat, k: nat, s: string): (r: Option<(nat, string)>)
    ensures r.Some? ==> |r.value.1| <= |s|
    decreases k
  {
    if k == 0 then Some((acc, s))
    else
      var next := ReadContinuation(s);
      if next.None? then None else ReadContinuations(acc * 64 + next.value.0, k - 1, next.value.1)
  }

  /** One character: a UTF-8 byte sequence for a leading `%`, otherwise the character itself. */
  function DecodeChar(s: string): (r: Option<(char, string)>)
    requires |s| > 0
    ensures r.Some? ==> |r.value.1| < |s|
  {
    if s[0] != '%' then Some((s[0], s[1..]))
    else
      match ReadByte(s)
      case None => None
      case Some((b0, s1)) =>
        match Lead(b0)
        case None => None
        case Some((k, payload)) =>
          match ReadContinuations(payload, k, s1)
          case None => None
          case Some((n, rest)) =>
            match ToChar(n)
            case None => None
            case Some(c) => Some((c, rest))
  }

  function Unescape(s: string): Option<string>
    decreases |s|
  {
    if |s| == 0 then Some([])
    else
      match DecodeChar(s)
      case None => None
      case Some((c, rest)) =>
        match Unescape(rest)
        case None => None
        case Some(tail) => Some([c] + tail)
  }

  // The round trip.

  lemma ReadPercentByte(b: nat, rest: string)
    requires b < 256
    ensures ReadByte(PercentByte(b) + rest) == Some((b, rest))
  {
    var s := PercentByte(b) + rest;
    assert s[0] == '%' && s[1] == HexDigit(b / 16) && s[2] == HexDigit(b % 16);
    assert s[3..] == rest;
  }

  lemma ReadContinuationByte(b: nat, rest: string)
    requires 0x80 <= b < 0xC0
    ensures ReadContinuation(PercentByte(b) + rest) == Some((b - 0x80, rest))
  {
    ReadPercentByte(b, rest);
  }

  lemma DivMod64(n: nat)
    ensures n == (n / 64) * 64 + n % 64
    ensures n / 64 == (n / 4096) * 64 + (n / 64) % 64
    ensures n / 4096 == (n / 262144) * 64 + (n / 4096) % 64
  {
    assert (n / 64) / 64 == n / 4096;
    assert (n / 4096) / 64 == n / 262144;
  }

  /** Bytes of the form `10xxxxxx`. */
  predicate Continuations(bytes: seq<nat>) {
    forall i :: 0 <= i < |bytes| ==> 0x80 <= bytes[i] < 0xC0
  }

  /** The code point that continuation bytes complete, six bits each, after the lead's `acc`. */
  function Payload(acc: nat, bytes: seq<nat>): nat
    requires Continuations(bytes)
    decreases |bytes|
  {
    if |bytes| == 0 then acc else Payload(acc * 64 + (bytes[0] - 0x80), bytes[1..])
  }

  /** A lead byte, then continuation bytes that together encode `n`. */
  predicate Encodes(bytes: seq<nat>, n: nat) {
    |bytes| > 0 && bytes[0] < 256 && Continuations(bytes[1..]) && Lead(bytes[0]).Some? &&
    Lead(bytes[0]).value.0 == |bytes| - 1 && Payload(Lead(bytes[0]).value.1, bytes[1..]) == n
  }

  /** One escaped continuation byte read, then `k` more. */
  lemma ReadContinuationsStep(acc: nat, b: nat, k: nat, tail: string)
    requires 0x80 <= b < 0xC0
    ensures ReadContinuations(acc, k + 1, PercentByte(b) + tail) == ReadContinuations(acc * 64 + (b - 0x80), k, tail)
  {
    ReadContinuationByte(b, tail);
  }

  /** The escaped continuation bytes are read back, in order, each adding its six bits, leaving what follows. */
  lemma {:induction false} ReadContinuationBytes(acc: nat, bytes: seq<nat>, rest: string)
    requires Continuations(bytes)
    ensures ReadContinuations(acc, |bytes|, PercentBytes(bytes) + rest) == Some((Payload(acc, bytes), rest))
    decreases |bytes|
  {
    if |bytes| > 0 {
      var head, more := PercentByte(bytes[0]), PercentBytes(bytes[1..]);
      var acc' := acc * 64 + (bytes[0] - 0x80);
      calc {
        ReadContinuations(acc, |bytes|, PercentBytes(bytes) + rest);
        { assert PercentBytes(bytes) == head + more; Seqs.Associate(head, more, rest); }
        ReadContinuations(acc, |bytes|, head + (more + rest));
        { ReadContinuationsStep(acc, bytes[0], |bytes| - 1, more + rest); }
        ReadContinuations(acc', |bytes| - 1, more + rest);
        { ReadContinuationBytes(acc', bytes[1..], rest); }
        Some((Payload(acc', bytes[1..]), rest));
      }
    } else {
      assert PercentBytes(bytes) + rest == rest;
    }
  }

  /** The steps `DecodeChar` takes on an escaped character. */
  lemma DecodeSteps(s: string, b0: nat, s1: string, k: nat, payload: nat, rest: string, c: char)
    requires |s| > 0 && s[0] == '%'
    requires ReadByte(s) == Some((b0, s1))
    requires Lead(b0) == Some((k, payload))
    requires ReadContinuations(payload, k, s1) == Some((c as int, rest))
    ensures DecodeChar(s) == Some((c, rest))
  {
    assert ScalarValue(c as int);
  }

  /** Escaped bytes that encode `c` decode to `c`, leaving what follows. */
  lemma DecodeEncoded(bytes: seq<nat>, c: char, rest: string)
    requires Encodes(bytes, c as int)
    ensures |PercentBytes(bytes) + rest| > 0
    ensures DecodeChar(PercentBytes(bytes) + rest) == Some((c, rest))
  {
    var p := Lead(bytes[0]).value.1;
    var s1 := PercentBytes(bytes[1..]) + rest;
    var s := PercentBytes(bytes) + rest;
    assert s == PercentByte(bytes[0]) + s1;
    ReadPercentByte(bytes[0], s1);
    ReadContinuationBytes(p, bytes[1..], rest);
    DecodeSteps(s, bytes[0], s1, |bytes| - 1, p, rest, c);
  }

  lemma OneByteEncodes(n: nat)
    requires n < 0x80
    ensures Encodes([n], n)
  {
    assert Lead(n) == Some((0, n)) && Payload(n, []) == n;
  }

  lemma TwoBytesEncode(n: nat)
    requires 0x80 <= n < 0x800
    ensures Encodes([0xC0 + n / 64, 0x80 + n % 64], n)
  {
    var bytes := [0xC0 + n / 64, 0x80 + n % 64];
    assert bytes[1..] == [0x80 + n % 64];
    assert Payload(n / 64, bytes[1..]) == Payload((n / 64) * 64 + n % 64, []);
    assert Lead(bytes[0]) == Some((1, n / 64));
  }

  lemma ThreeBytesEncode(n: nat)
    requires 0x800 <= n < 0x10000
    ensures Encodes([0xE0 + n / 4096, 0x80 + (n / 64) % 64, 0x80 + n % 64], n)
  {
    DivMod64(n);
    var bytes := [0xE0 + n / 4096, 0x80 + (n / 64) % 64, 0x80 + n % 64];
    var tail := bytes[1..];
    assert tail[1..] == [0x80 + n % 64];
    assert Payload(n / 4096, tail) == Payload(n / 64, tail[1..]);
    assert Payload(n / 64, tail[1..]) == Payload(n, []);
    assert Lead(bytes[0]) == Some((2, n / 4096));
  }

  lemma FourBytesEncode(n: nat)
    requires 0x10000 <= n < 0x110000
    ensures Encodes([0xF0 + n / 262144, 0x80 + (n / 4096) % 64, 0x80 + (n / 64) % 64, 0x80 + n % 64], n)
  {
    DivMod64(n);
    var bytes := [0xF0 + n / 262144, 0x80 + (n / 4096) % 64, 0x80 + (n / 64) % 64, 0x80 + n % 64];
    var tail := bytes[1..];
    assert tail[1..][1..] == [0x80 + n % 64];
    assert Payload(n / 262144, tail) == Payload(n / 4096, tail[1..]);
    assert Payload(n / 4096, tail[1..]) == Payload(n / 64, tail[1..][1..]);
    assert Payload(n / 64, tail[1..][1..]) == Payload(n, []);
    assert Lead(bytes[0]) == Some((3, n / 262144));
  }

  /** The UTF-8 encoding of a character encodes that character. */
  lemma Utf8Encodes(c: char)
    ensures Encodes(Utf8(c), c as int)
  {
    var n := c as int;
    if n < 0x80 {
      OneByteEncodes(n);
    } else if n < 0x800 {
      TwoBytesEncode(n);
    } else if n < 0x10000 {
      ThreeBytesEncode(n);
    } else {
      FourBytesEncode(n);
    }
  }

  /** Decoding the escape of a character gives back that character and leaves what follows. */
  lemma DecodeEscapedChar(c: char, rest: string)
    ensures |EscapeChar(c) + rest| > 0
    ensures DecodeChar(EscapeChar(c) + rest) == Some((c, rest))
  {
    if Unreserved(c) {
      assert (EscapeChar(c) + rest)[1..] == rest;
    } else {
      Utf8Encodes(c);
      DecodeEncoded(Utf8(c), c, rest);
    }
  }

  /** Unescaping the escaped name gives back the name. */
  lemma {:induction false} EscapeRoundTrip(s: string)
    ensures Unescape(Escape(s)) == Some(s)
  {
    if |s| > 0 {
      EscapeRoundTrip(s[1..]);
      DecodeEscapedChar(s[0], Escape(s[1..]));
      assert [s[0]] + s[1..] == s;
    }
  }

  /** Escaping works character by character: the escape of a concatenation is the concatenation of the escapes. */
  lemma {:induction false} EscapeConcat(a: string, b: string)
    ensures Escape(a + b) == Escape(a) + Escape(b)
  {
    if |a| > 0 {
      EscapeConcat(a[1..], b);
      assert (a + b)[1..] == a[1..] + b;
      Seqs.Associate(EscapeChar(a[0]), Escape(a[1..]), Escape(b));
    } else {
      assert a + b == b;
    }
  }

  /** A one-character name escapes as that character does. */
  lemma EscapeSingle(c: char)
    ensures Escape([c]) == EscapeChar(c)
  {
    assert Escape([c]) == EscapeChar(c) + Escape([]);
  }

  /** Distinct names have distinct escaped forms. */
  lemma EscapeInjective(a: string, b: string)
    ensures Escape(a) == Escape(b) ==> a == b
  {
    EscapeRoundTrip(a);
    EscapeRoundTrip(b);
  }
}
