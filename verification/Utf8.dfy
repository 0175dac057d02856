/** UTF-8 as the WHATWG Encoding Standard defines it: the encoder, and the decoder
    state machine that replaces malformed input by U+FFFD. */
module Utf8 {

  type Byte = b: int | 0 <= b < 256

  function EncodeChar(c: char): seq<Byte> {
    var n := c as int;
    if n < 0x80 then [n]
    else if n < 0x800 then [0xC0 + n / 0x40, 0x80 + n % 0x40]
    else if n < 0x1_0000 then [0xE0 + n / 0x1000, 0x80 + n / 0x40 % 0x40, 0x80 + n % 0x40]
    else [0xF0 + n / 0x4_0000, 0x80 + n / 0x1000 % 0x40, 0x80 + n / 0x40 % 0x40, 0x80 + n % 0x40]
  }

  function Encode(s: string): seq<Byte> {
    if s == "" then [] else EncodeChar(s[0]) + Encode(s[1..])
  }

  const REPLACEMENT := '\U{FFFD}'

  /** The decoder between bytes: the code point so far, how many bytes are still
      due, and the range the next one must lie in. */
  datatype Pending = Idle | Due(point: int, needed: nat, lower: int, upper: int)

  function Scalar(n: int): char {
    if 0 <= n < 0xD800 || 0xE000 <= n < 0x11_0000 then n as char else REPLACEMENT
  }

  function StartOf(b: Byte): Pending {
    if 0xC2 <= b <= 0xDF then Due(b - 0xC0, 1, 0x80, 0xBF)
    else if 0xE0 <= b <= 0xEF then
      Due(b - 0xE0, 2, if b == 0xE0 then 0xA0 else 0x80, if b == 0xED then 0x9F else 0xBF)
    else if 0xF0 <= b <= 0xF4 then
      Due(b - 0xF0, 3, if b == 0xF0 then 0x90 else 0x80, if b == 0xF4 then 0x8F else 0xBF)
    else Idle
  }

  function DecodeFrom(bytes: seq<Byte>, state: Pending): string
    decreases |bytes|, if state.Idle? then 0 else 1
  {
    if bytes == [] then (if state.Idle? then "" else [REPLACEMENT])
    else
      var b := bytes[0];
      match state
      case Idle =>
        if b < 0x80 then [b as char] + DecodeFrom(bytes[1..], Idle)
        else if StartOf(b).Idle? then [REPLACEMENT] + DecodeFrom(bytes[1..], Idle)
        else DecodeFrom(bytes[1..], StartOf(b))
      case Due(point, needed, lower, upper) =>
        if !(lower <= b <= upper) then [REPLACEMENT] + DecodeFrom(bytes, Idle)
        else
          var longer := point * 0x40 + (b - 0x80);
          if needed <= 1 then [Scalar(longer)] + DecodeFrom(bytes[1..], Idle)
          else DecodeFrom(bytes[1..], Due(longer, needed - 1, 0x80, 0xBF))
  }

  function Decode(bytes: seq<Byte>): string {
    DecodeFrom(bytes, Idle)
  }

  /** Taking one byte that is due, with more to come. */
  lemma TakesByte(b: Byte, rest: seq<Byte>, point: int, needed: nat, lower: int, upper: int)
    requires needed > 1 && lower <= b <= upper
    ensures DecodeFrom([b] + rest, Due(point, needed, lower, upper)) ==
              DecodeFrom(rest, Due(point * 0x40 + (b - 0x80), needed - 1, 0x80, 0xBF))
  {
    assert ([b] + rest)[1..] == rest;
  }

  lemma TakesLastByte(b: Byte, rest: seq<Byte>, point: int, lower: int, upper: int)
    requires lower <= b <= upper
    ensures DecodeFrom([b] + rest, Due(point, 1, lower, upper)) ==
              [Scalar(point * 0x40 + (b - 0x80))] + DecodeFrom(rest, Idle)
  {
    assert ([b] + rest)[1..] == rest;
  }

  lemma TakesFirstByte(b: Byte, rest: seq<Byte>)
    requires StartOf(b).Due?
    ensures DecodeFrom([b] + rest, Idle) == DecodeFrom(rest, StartOf(b))
  {
    assert ([b] + rest)[1..] == rest;
  }

  lemma CharReadsBack(c: char, rest: seq<Byte>)
    ensures DecodeFrom(EncodeChar(c) + rest, Idle) == [c] + DecodeFrom(rest, Idle)
  {
    var n := c as int;
    var e := EncodeChar(c);
    if n < 0x80 {
      assert (e + rest)[1..] == rest;
    } else if n < 0x800 {
      TwoBytes(n, e, rest);
    } else if n < 0x1_0000 {
      ThreeBytes(n, e, rest);
    } else {
      FourBytes(n, e, rest);
    }
  }

  lemma TwoBytes(n: int, e: seq<Byte>, rest: seq<Byte>)
    requires 0x80 <= n < 0x800 && e == [0xC0 + n / 0x40, 0x80 + n % 0x40]
    ensures DecodeFrom(e + rest, Idle) == [Scalar(n)] + DecodeFrom(rest, Idle)
  {
    assert e + rest == [e[0]] + ([e[1]] + rest);
    TakesFirstByte(e[0], [e[1]] + rest);
    TakesLastByte(e[1], rest, n / 0x40, 0x80, 0xBF);
  }

  lemma ThreeBytes(n: int, e: seq<Byte>, rest: seq<Byte>)
    requires 0x800 <= n < 0x1_0000 && !(0xD800 <= n < 0xE000)
    requires e == [0xE0 + n / 0x1000, 0x80 + n / 0x40 % 0x40, 0x80 + n % 0x40]
    ensures DecodeFrom(e + rest, Idle) == [Scalar(n)] + DecodeFrom(rest, Idle)
  {
    assert e + rest == [e[0]] + ([e[1]] + ([e[2]] + rest));
    TakesFirstByte(e[0], [e[1]] + ([e[2]] + rest));
    var start := StartOf(e[0]);
    assert n / 0x40 == n / 0x1000 * 0x40 + n / 0x40 % 0x40;
    assert start.lower <= e[1] <= start.upper;
    TakesByte(e[1], [e[2]] + rest, start.point, 2, start.lower, start.upper);
    TakesLastByte(e[2], rest, n / 0x40, 0x80, 0xBF);
  }

  lemma FourBytes(n: int, e: seq<Byte>, rest: seq<Byte>)
    requires 0x1_0000 <= n < 0x11_0000
    requires e == [0xF0 + n / 0x4_0000, 0x80 + n / 0x1000 % 0x40, 0x80 + n / 0x40 % 0x40, 0x80 + n % 0x40]
    ensures DecodeFrom(e + rest, Idle) == [Scalar(n)] + DecodeFrom(rest, Idle)
  {
    assert e + rest == [e[0]] + ([e[1]] + ([e[2]] + ([e[3]] + rest)));
    TakesFirstByte(e[0], [e[1]] + ([e[2]] + ([e[3]] + rest)));
    var start := StartOf(e[0]);
    assert n / 0x1000 == n / 0x4_0000 * 0x40 + n / 0x1000 % 0x40;
    assert n / 0x40 == n / 0x1000 * 0x40 + n / 0x40 % 0x40;
    assert start.lower <= e[1] <= start.upper;
    TakesByte(e[1], [e[2]] + ([e[3]] + rest), start.point, 3, start.lower, start.upper);
    TakesByte(e[2], [e[3]] + rest, n / 0x1000, 2, 0x80, 0xBF);
    TakesLastByte(e[3], rest, n / 0x40, 0x80, 0xBF);
  }

  /** Every text of Unicode scalar values survives encoding and decoding. */
  lemma {:induction false} Utf8RoundTrip(s: string)
    ensures Decode(Encode(s)) == s
  {
    if s != "" {
      Utf8RoundTrip(s[1..]);
      CharReadsBack(s[0], Encode(s[1..]));
      assert s == [s[0]] + s[1..];
    }
  }
}
