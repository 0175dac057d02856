/** application/x-www-form-urlencoded as URLSearchParams reads and writes it:
    sections 5.1 (parsing) and 5.2 (serializing) of the WHATWG URL Standard. */
module FormEncoding {
  import opened Collections
  import opened Utf8

  datatype Pair = Pair(name: string, value: string)

  const AMPERSAND: Byte := 0x26
  const EQUALS: Byte := 0x3D
  const PLUS: Byte := 0x2B
  const PERCENT: Byte := 0x25
  const SPACE: Byte := 0x20

  // ---- Serializing ------------------------------------------------------------------------

  /** ASCII letters and digits, and * - . _ */
  predicate Unreserved(b: Byte) {
    0x30 <= b <= 0x39 || 0x41 <= b <= 0x5A || 0x61 <= b <= 0x7A || b == 0x2A || b == 0x2D || b == 0x2E || b == 0x5F
  }

  function HexDigit(n: int): Byte
    requires 0 <= n < 16
  {
    if n < 10 then 0x30 + n else 0x41 + (n - 10)
  }

  function EncodeByte(b: Byte): seq<Byte> {
    if b == SPACE then [PLUS]
    else if Unreserved(b) then [b]
    else [PERCENT, HexDigit(b / 16), HexDigit(b % 16)]
  }

  function EncodeBytes(bytes: seq<Byte>): seq<Byte> {
    if bytes == [] then [] else EncodeByte(bytes[0]) + EncodeBytes(bytes[1..])
  }

  function EncodePair(p: Pair): seq<Byte> {
    EncodeBytes(Encode(p.name)) + [EQUALS] + EncodeBytes(Encode(p.value))
  }

  function SerializeBytes(pairs: seq<Pair>): seq<Byte> {
    if pairs == [] then []
    else if |pairs| == 1 then EncodePair(pairs[0])
    else EncodePair(pairs[0]) + [AMPERSAND] + SerializeBytes(pairs[1..])
  }

  function AsciiChar(b: Byte): char {
    b as char
  }

  function AsciiText(bytes: seq<Byte>): string {
    seq(|bytes|, i requires 0 <= i < |bytes| => AsciiChar(bytes[i]))
  }

  /** URLSearchParams.toString() */
  function Serialize(pairs: seq<Pair>): string {
    AsciiText(SerializeBytes(pairs))
  }

  /** What a text byte looks like when written: itself, a plus for a space, or a percent
      sign and its two upper-case hexadecimal digits. */
  lemma ByteWritten(b: Byte)
    ensures var written := AsciiText(EncodeByte(b));
            if b == 0x20 then written == "+"
            else if '0' as int <= b <= '9' as int || 'A' as int <= b <= 'Z' as int || 'a' as int <= b <= 'z' as int
                    || b in ['*' as int, '-' as int, '.' as int, '_' as int]
            then written == [b as char]
            else written == ['%', "0123456789ABCDEF"[b / 16], "0123456789ABCDEF"[b % 16]]
  {
    HexWritten(b / 16);
    HexWritten(b % 16);
    var marks: seq<int> := ['*' as int, '-' as int, '.' as int, '_' as int];
    assert marks[0] == 0x2A && marks[1] == 0x2D && marks[2] == 0x2E && marks[3] == 0x5F;
  }

  lemma HexWritten(n: int)
    requires 0 <= n < 16
    ensures AsciiChar(HexDigit(n)) == "0123456789ABCDEF"[n]
  {
  }

  /** Pairs are written name=value, joined by ampersands. */
  lemma {:induction false} PairsWritten(pairs: seq<Pair>)
    requires pairs != []
    ensures var first := AsciiText(EncodeBytes(Encode(pairs[0].name))) + "=" + AsciiText(EncodeBytes(Encode(pairs[0].value)));
            Serialize(pairs) == if |pairs| == 1 then first else first + "&" + Serialize(pairs[1..])
  {
    hide EncodeBytes, Encode;
    var name, value := EncodeBytes(Encode(pairs[0].name)), EncodeBytes(Encode(pairs[0].value));
    AsciiAppend(name, [EQUALS]);
    AsciiAppend(name + [EQUALS], value);
    assert AsciiText([EQUALS]) == "=" && AsciiText([AMPERSAND]) == "&";
    if |pairs| > 1 {
      AsciiAppend(EncodePair(pairs[0]), [AMPERSAND]);
      AsciiAppend(EncodePair(pairs[0]) + [AMPERSAND], SerializeBytes(pairs[1..]));
    }
  }

  lemma AsciiAppend(a: seq<Byte>, b: seq<Byte>)
    ensures AsciiText(a + b) == AsciiText(a) + AsciiText(b)
  {
  }

  // ---- Parsing ------------------------------------------------------------------------------

  predicate IsHex(b: Byte) {
    0x30 <= b <= 0x39 || 0x41 <= b <= 0x46 || 0x61 <= b <= 0x66
  }

  function HexValue(b: Byte): int {
    if 0x30 <= b <= 0x39 then b - 0x30
    else if 0x41 <= b <= 0x46 then b - 0x41 + 10
    else if 0x61 <= b <= 0x66 then b - 0x61 + 10
    else 0
  }

  function PlusToSpace(bytes: seq<Byte>): seq<Byte> {
    seq(|bytes|, i requires 0 <= i < |bytes| => if bytes[i] == PLUS then SPACE else bytes[i])
  }

  function PercentDecode(bytes: seq<Byte>): seq<Byte> {
    if bytes == [] then []
    else if bytes[0] == PERCENT && |bytes| > 2 && IsHex(bytes[1]) && IsHex(bytes[2]) then
      [HexValue(bytes[1]) * 16 + HexValue(bytes[2])] + PercentDecode(bytes[3..])
    else [bytes[0]] + PercentDecode(bytes[1..])
  }

  function DecodeText(bytes: seq<Byte>): string {
    Decode(PercentDecode(PlusToSpace(bytes)))
  }

  function ParsePair(bytes: seq<Byte>): Pair {
    var i := IndexOf(bytes, EQUALS);
    Pair(DecodeText(bytes[..i]), if i < |bytes| then DecodeText(bytes[i + 1..]) else "")
  }

  function ParseBytes(bytes: seq<Byte>): seq<Pair>
    decreases |bytes|
  {
    if bytes == [] then []
    else
      var i := IndexOf(bytes, AMPERSAND);
      (if i == 0 then [] else [ParsePair(bytes[..i])]) + (if i < |bytes| then ParseBytes(bytes[i + 1..]) else [])
  }

  /** new URLSearchParams(text): one leading '?' is ignored. */
  function Parse(text: string): seq<Pair> {
    ParseBytes(Encode(if text != "" && text[0] == '?' then text[1..] else text))
  }

  /** URLSearchParams.get(name) */
  function Get(pairs: seq<Pair>, name: string): Option<string> {
    if pairs == [] then None
    else if pairs[0].name == name then Some(pairs[0].value)
    else Get(pairs[1..], name)
  }

  // ---- The round trip -----------------------------------------------------------------------

  /** What the serializer can write: no separators and no '?'. */
  predicate Encoded(b: Byte) {
    Unreserved(b) || b == PLUS || b == PERCENT
  }

  ghost predicate AllEncoded(bytes: seq<Byte>) {
    forall i | 0 <= i < |bytes| :: Encoded(bytes[i])
  }

  lemma HexIsUnreserved(n: int)
    requires 0 <= n < 16
    ensures Unreserved(HexDigit(n)) && IsHex(HexDigit(n)) && HexValue(HexDigit(n)) == n
  {
  }

  lemma {:induction false} EncodedBytes(bytes: seq<Byte>)
    ensures AllEncoded(EncodeBytes(bytes))
  {
    if bytes != [] {
      EncodedBytes(bytes[1..]);
      HexIsUnreserved(bytes[0] / 16);
      HexIsUnreserved(bytes[0] % 16);
    }
  }

  lemma PlusToSpaceAppend(a: seq<Byte>, b: seq<Byte>)
    ensures PlusToSpace(a + b) == PlusToSpace(a) + PlusToSpace(b)
  {
  }

  lemma ByteReadsBack(b: Byte, rest: seq<Byte>)
    ensures PercentDecode(PlusToSpace(EncodeByte(b)) + rest) == [b] + PercentDecode(rest)
  {
    var e := PlusToSpace(EncodeByte(b));
    if b == SPACE || Unreserved(b) {
      assert e == [b];
      assert (e + rest)[1..] == rest;
    } else {
      HexIsUnreserved(b / 16);
      HexIsUnreserved(b % 16);
      assert e == [PERCENT, HexDigit(b / 16), HexDigit(b % 16)];
      assert (e + rest)[3..] == rest;
    }
  }

  lemma {:induction false} BytesReadBack(bytes: seq<Byte>)
    ensures PercentDecode(PlusToSpace(EncodeBytes(bytes))) == bytes
  {
    if bytes == [] {
      assert PlusToSpace([]) == [];
    } else {
      BytesReadBack(bytes[1..]);
      PlusToSpaceAppend(EncodeByte(bytes[0]), EncodeBytes(bytes[1..]));
      ByteReadsBack(bytes[0], PlusToSpace(EncodeBytes(bytes[1..])));
      assert bytes == [bytes[0]] + bytes[1..];
    }
  }

  lemma TextReadsBack(text: string)
    ensures DecodeText(EncodeBytes(Encode(text))) == text
  {
    BytesReadBack(Encode(text));
    Utf8RoundTrip(text);
  }

  /** A pair's bytes hold no '&'. */
  ghost predicate PairBytes(bytes: seq<Byte>) {
    forall i | 0 <= i < |bytes| :: bytes[i] == EQUALS || Encoded(bytes[i])
  }

  predicate Printable(b: Byte) {
    b == AMPERSAND || b == EQUALS || Encoded(b)
  }

  ghost predicate AllPrintable(bytes: seq<Byte>) {
    forall i | 0 <= i < |bytes| :: Printable(bytes[i])
  }

  lemma PairReadsBack(p: Pair)
    ensures ParsePair(EncodePair(p)) == p
    ensures PairBytes(EncodePair(p)) && |EncodePair(p)| > 0
  {
    hide Unreserved, DecodeText, Encode, EncodeBytes;
    var name, value := EncodeBytes(Encode(p.name)), EncodeBytes(Encode(p.value));
    EncodedBytes(Encode(p.name));
    EncodedBytes(Encode(p.value));
    NoSeparators(name);
    IndexIsFirst(name, EQUALS, value);
    assert EncodePair(p)[..|name|] == name && EncodePair(p)[|name| + 1..] == value;
    TextReadsBack(p.name);
    TextReadsBack(p.value);
  }

  lemma NoSeparators(bytes: seq<Byte>)
    ensures AllEncoded(bytes) ==> forall i | 0 <= i < |bytes| :: bytes[i] != EQUALS
    ensures PairBytes(bytes) ==> forall i | 0 <= i < |bytes| :: bytes[i] != AMPERSAND
  {
  }

  lemma {:induction false} PairsReadBack(pairs: seq<Pair>)
    ensures ParseBytes(SerializeBytes(pairs)) == pairs
    ensures AllPrintable(SerializeBytes(pairs))
    ensures pairs != [] ==> |SerializeBytes(pairs)| > 0
  {
    hide EncodePair, ParsePair, Encoded, ParseBytes, PairBytes, AllPrintable;
    EmptyForm();
    if pairs != [] {
      var first := EncodePair(pairs[0]);
      PairReadsBack(pairs[0]);
      if |pairs| == 1 {
        LonePair(first);
        assert pairs == [pairs[0]];
      } else {
        var more := SerializeBytes(pairs[1..]);
        PairsReadBack(pairs[1..]);
        SplitsFirst(first, more);
        assert SerializeBytes(pairs) == first + [AMPERSAND] + more;
        assert pairs == [pairs[0]] + pairs[1..];
      }
    }
  }

  lemma LonePair(first: seq<Byte>)
    requires PairBytes(first) && |first| > 0
    ensures ParseBytes(first) == [ParsePair(first)] && AllPrintable(first)
  {
    hide ParsePair, Encoded;
    NoSeparators(first);
    IndexIsFirst(first, AMPERSAND, []);
    assert first[..|first|] == first;
  }

  lemma SplitsFirst(first: seq<Byte>, more: seq<Byte>)
    requires PairBytes(first) && |first| > 0
    ensures ParseBytes(first + [AMPERSAND] + more) == [ParsePair(first)] + ParseBytes(more)
    ensures AllPrintable(more) ==> AllPrintable(first + [AMPERSAND] + more)
  {
    hide ParsePair, Encoded, AllPrintable, PairBytes;
    var all := first + [AMPERSAND] + more;
    assert all[..|first|] == first && all[|first| + 1..] == more;
    NoSeparators(first);
    IndexIsFirst(first, AMPERSAND, more);
    SplitAtMark(all, |first|);
    JoinedPrintable(first, more);
  }

  lemma SplitAtMark(all: seq<Byte>, i: nat)
    requires 0 < i < |all| && IndexOf(all, AMPERSAND) == i
    ensures ParseBytes(all) == [ParsePair(all[..i])] + ParseBytes(all[i + 1..])
  {
    hide ParsePair, IndexOf;
  }

  lemma JoinedPrintable(first: seq<Byte>, more: seq<Byte>)
    requires PairBytes(first)
    ensures AllPrintable(more) ==> AllPrintable(first + [AMPERSAND] + more)
  {
    hide Encoded;
  }

  lemma {:induction false} AsciiReadsBack(bytes: seq<Byte>)
    requires forall i | 0 <= i < |bytes| :: bytes[i] < 0x80
    ensures Encode(AsciiText(bytes)) == bytes
  {
    if bytes == [] {
      assert AsciiText(bytes) == "";
    } else {
      AsciiReadsBack(bytes[1..]);
      assert AsciiText(bytes)[1..] == AsciiText(bytes[1..]);
      assert bytes == [bytes[0]] + bytes[1..];
    }
  }

  /** Every list of name-value pairs of Unicode scalar texts survives, and the
      serialized form has no '?' and no character beyond ASCII. */
  lemma FormRoundTrip(pairs: seq<Pair>)
    ensures Parse(Serialize(pairs)) == pairs
    ensures Serialize(pairs) == "" <==> pairs == []
    ensures forall i | 0 <= i < |Serialize(pairs)| :: '!' <= Serialize(pairs)[i] <= '~' && Serialize(pairs)[i] != '?'
  {
    hide SerializeBytes, ParseBytes, Encode, Encoded;
    var bytes := SerializeBytes(pairs);
    EmptyForm();
    PairsReadBack(pairs);
    forall i | 0 <= i < |bytes| ensures 0x21 <= bytes[i] <= 0x7E && bytes[i] != 0x3F {
      PrintableRange(bytes[i]);
    }
    AsciiReadsBack(bytes);
    assert Serialize(pairs) != "" ==> Serialize(pairs)[0] == AsciiChar(bytes[0]);
  }

  lemma EmptyForm()
    ensures SerializeBytes([]) == [] && ParseBytes([]) == [] && AllPrintable([])
  {
  }

  lemma PrintableRange(b: Byte)
    requires Printable(b)
    ensures 0x21 <= b <= 0x7E && b != 0x3F
  {
  }
}
