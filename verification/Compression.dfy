/**
  core/compression.py: payloads stored as raw UTF-8 or as a zstd frame, told apart by the
  frame's magic number alone.
 */
module Compression {
  import opened Wrappers

  type byte = b: int | 0 <= b < 256
  type Bytes = seq<byte>

  // ---- UTF-8 (section 3 of RFC 3629) ---------------------------------------------------------------------

  function EncodeChar(c: char): Bytes {
    var n := c as int;
    if n < 0x80 then [n]
    else if n < 0x800 then [0xC0 + n / 64, 0x80 + n % 64]
    else if n < 0x1_0000 then [0xE0 + n / 4096, 0x80 + n / 64 % 64, 0x80 + n % 64]
    else [0xF0 + n / 26_2144, 0x80 + n / 4096 % 64, 0x80 + n / 64 % 64, 0x80 + n % 64]
  }

  function Encode(s: string): Bytes { if s == "" then [] else EncodeChar(s[0]) + Encode(s[1..]) }

  predicate Continuation(b: Bytes, i: nat) { i < |b| && 0x80 <= b[i] < 0xC0 }

  predicate Scalar(n: int) { 0 <= n < 0xD800 || 0xE000 <= n < 0x11_0000 }

  /** The first character of a byte string and how many bytes it takes; a byte that starts no
      character stands for U+FFFD. */
  function DecodeFirst(b: Bytes): (r: (char, nat))
    requires b != []
    ensures 1 <= r.1 <= |b|
  {
    if b[0] < 0x80 then (b[0] as char, 1)
    else if 0xC0 <= b[0] < 0xE0 && Continuation(b, 1) then
      var n: int := (b[0] as int - 0xC0) * 64 + (b[1] as int - 0x80);
      if 0x80 <= n then (n as char, 2) else ('\U{FFFD}', 1)
    else if 0xE0 <= b[0] < 0xF0 && Continuation(b, 1) && Continuation(b, 2) then
      var n: int := (b[0] as int - 0xE0) * 4096 + (b[1] as int - 0x80) * 64 + (b[2] as int - 0x80);
      if 0x800 <= n && Scalar(n) then (n as char, 3) else ('\U{FFFD}', 1)
    else if 0xF0 <= b[0] < 0xF8 && Continuation(b, 1) && Continuation(b, 2) && Continuation(b, 3) then
      var n: int := (b[0] as int - 0xF0) * 26_2144 + (b[1] as int - 0x80) * 4096 + (b[2] as int - 0x80) * 64 + (b[3] as int - 0x80);
      if 0x1_0000 <= n && Scalar(n) then (n as char, 4) else ('\U{FFFD}', 1)
    else ('\U{FFFD}', 1)
  }

  /** `bytes.decode("utf-8", errors="replace")` */
  function Decode(b: Bytes): string
    decreases |b|
  {
    if b == [] then "" else var (c, n) := DecodeFirst(b); [c] + Decode(b[n..])
  }

  lemma DecodeFirstOfEncoded(c: char, rest: Bytes)
    ensures EncodeChar(c) != [] && DecodeFirst(EncodeChar(c) + rest) == (c, |EncodeChar(c)|)
  {
    var n := c as int;
    var b := EncodeChar(c) + rest;
    if n < 0x80 {
    } else if n < 0x800 {
      assert n == n / 64 * 64 + n % 64;
    } else if n < 0x1_0000 {
      Digits(n);
    } else {
      Digits(n);
    }
  }

  lemma Digits(n: nat)
    ensures n == n / 4096 * 4096 + n / 64 % 64 * 64 + n % 64
    ensures n == n / 26_2144 * 26_2144 + n / 4096 % 64 * 4096 + n / 64 % 64 * 64 + n % 64
  {
    assert n / 4096 == n / 64 / 64;
    assert n / 26_2144 == n / 4096 / 64;
  }

  lemma {:induction false} DecodeEncode(s: string)
    ensures Decode(Encode(s)) == s
  {
    if s != "" {
      DecodeFirstOfEncoded(s[0], Encode(s[1..]));
      var b := Encode(s);
      assert b[|EncodeChar(s[0])|..] == Encode(s[1..]);
      DecodeEncode(s[1..]);
      assert [s[0]] + s[1..] == s;
    }
  }

  // ---- the magic number (section 3.1.1 of RFC 8878) ----------------------------------------------------------

  const MAGIC: Bytes := [0x28, 0xB5, 0x2F, 0xFD]

  /** No UTF-8 text starts like a zstd frame: after the ASCII byte 0x28 comes a byte that no character starts with. */
  lemma TextIsNotAFrame(s: string)
    ensures !(MAGIC <= Encode(s))
  {
    if s != "" && Encode(s)[0] == 0x28 {
      FirstByte(s);
      assert EncodeChar(s[0]) == [0x28];
      assert Encode(s) == [0x28] + Encode(s[1..]);
      if s[1..] != "" {
        FirstByte(s[1..]);
        assert Encode(s)[1] == Encode(s[1..])[0];
      }
    }
  }

  lemma FirstByte(s: string)
    requires s != ""
    ensures Encode(s) != [] && Encode(s)[0] == EncodeChar(s[0])[0] && !(0x80 <= Encode(s)[0] < 0xC0)
    ensures Encode(s)[0] < 0x80 ==> EncodeChar(s[0]) == [Encode(s)[0]]
  {
  }

  // ---- storing and loading ---------------------------------------------------------------------------------------

  /** The zstd library: a frame starts with the magic number and decompresses to what was compressed. */
  datatype Codec = Codec(compress: Bytes -> Bytes, decompress: Bytes -> Option<Bytes>)

  ghost predicate GoodCodec(z: Codec) {
    forall b :: MAGIC <= z.compress(b) && z.decompress(z.compress(b)) == Some(b)
  }

  /** What a database column can hand back. */
  datatype Column = Null | Binary(data: Bytes) | Textual(s: string)

  const PLACEHOLDER: string := "<payload-decode-error>"

  /** `compress_payload` and `compress_payload_async` on text, with the threshold in force. */
  function CompressPayload(z: Codec, text: string, threshold: nat): Column {
    if text == "" then Null
    else
      var raw := Encode(text);
      Binary(if |raw| < threshold then raw else z.compress(raw))
  }

  function DecompressBytes(z: Codec, data: Bytes): string {
    if MAGIC <= data then
      match z.decompress(data)
      case None => PLACEHOLDER
      case Some(b) => Decode(b)
    else Decode(data)
  }

  /** `decompress_payload` */
  function DecompressPayload(z: Codec, data: Column): Option<string> {
    match data
    case Null => None
    case Binary(b) => Some(DecompressBytes(z, b))
    case Textual(s) =>
      if "\\x" <= s then
        match FromHex(s[2..])
        case None => Some(PLACEHOLDER)
        case Some(b) => Some(DecompressBytes(z, b))
      else Some(s)
  }

  /** `decompress_payload_async`: a payload over the threshold is decompressed in a thread. */
  function DecompressPayloadAsync(z: Codec, data: Column, threshold: nat): Option<string> {
    match data
    case Null => None
    case Binary(b) => if |b| > threshold then DecompressPayload(z, Binary(b)) else DecompressPayload(z, Binary(b))
    case Textual(s) =>
      if "\\x" <= s then
        match FromHex(s[2..])
        case None => Some(PLACEHOLDER)
        case Some(b) => DecompressPayload(z, Binary(b))
      else Some(s)
  }

  // ---- the textual form of a binary column ------------------------------------------------------------------------

  function HexValue(c: char): Option<nat> {
    if '0' <= c <= '9' then Some((c - '0') as int)
    else if 'a' <= c <= 'f' then Some(10 + (c - 'a') as int)
    else if 'A' <= c <= 'F' then Some(10 + (c - 'A') as int)
    else None
  }

  predicate IsAsciiSpace(c: char) { c == ' ' || '\t' <= c <= '\r' }

  /** `bytes.fromhex`: pairs of digits, with blanks allowed between pairs. */
  function FromHex(s: string): Option<Bytes>
    decreases |s|
  {
    if s == "" then Some([])
    else if IsAsciiSpace(s[0]) then FromHex(s[1..])
    else if |s| < 2 then None
    else
      var hi :- HexValue(s[0]);
      var lo :- HexValue(s[1]);
      var rest :- FromHex(s[2..]);
      if hi < 16 && lo < 16 then Some([hi * 16 + lo] + rest) else None
  }

  function HexDigit(n: nat): char
    requires n < 16
  {
    if n < 10 then '0' + n as char else 'a' + (n - 10) as char
  }

  function ToHex(b: Bytes): string {
    if b == [] then "" else [HexDigit(b[0] / 16), HexDigit(b[0] % 16)] + ToHex(b[1..])
  }

  lemma HexPair(hi: nat, lo: nat, s: string)
    requires hi < 16 && lo < 16 && FromHex(s).Some?
    ensures FromHex([HexDigit(hi), HexDigit(lo)] + s) == Some([hi * 16 + lo] + FromHex(s).value)
  {
    HexDigitValue(hi);
    HexDigitValue(lo);
    hide HexDigit, HexValue, IsAsciiSpace;
    assert ([HexDigit(hi), HexDigit(lo)] + s)[2..] == s;
  }

  lemma {:induction false} FromHexToHex(b: Bytes)
    ensures FromHex(ToHex(b)) == Some(b)
  {
    hide FromHex, HexDigit;
    if b == [] {
      NoHex();
    } else {
      FromHexToHex(b[1..]);
      HexPair(b[0] / 16, b[0] % 16, ToHex(b[1..]));
      assert [b[0]] + b[1..] == b && b[0] / 16 * 16 + b[0] % 16 == b[0];
    }
  }

  lemma NoHex()
    ensures FromHex("") == Some([])
  {
  }

  lemma HexDigitValue(n: nat)
    requires n < 16
    ensures HexValue(HexDigit(n)) == Some(n) && !IsAsciiSpace(HexDigit(n))
  {
  }

  // ---- the round trip --------------------------------------------------------------------------------------------------

  /** Empty text is stored as nothing; otherwise the column is a zstd frame exactly when the UTF-8 text reaches the threshold. */
  lemma StoredAsFrameIff(z: Codec, text: string, threshold: nat)
    requires GoodCodec(z)
    ensures CompressPayload(z, text, threshold).Null? <==> text == ""
    ensures text != "" ==> CompressPayload(z, text, threshold).Binary? &&
                           (MAGIC <= CompressPayload(z, text, threshold).data <==> |Encode(text)| >= threshold)
  {
    if text != "" {
      TextIsNotAFrame(text);
    }
  }

  /** What cannot be read is replaced and never raises: a broken frame and broken hex by the placeholder; text without the hex
      prefix is returned as it is, a missing payload is missing. */
  lemma BrokenPayloads(z: Codec, frame: Bytes, text: string, threshold: nat)
    requires z.decompress(MAGIC + frame) == None
    ensures DecompressPayload(z, Binary(MAGIC + frame)) == Some("<payload-decode-error>")
    ensures DecompressPayloadAsync(z, Binary(MAGIC + frame), threshold) == Some("<payload-decode-error>")
    ensures !("\\x" <= text) ==> DecompressPayload(z, Textual(text)) == Some(text) == DecompressPayloadAsync(z, Textual(text), threshold)
    ensures "\\x" <= text && FromHex(text[2..]).None? ==> DecompressPayload(z, Textual(text)) == Some("<payload-decode-error>") == DecompressPayloadAsync(z, Textual(text), threshold)
    ensures DecompressPayload(z, Null) == None == DecompressPayloadAsync(z, Null, threshold)
    ensures DecompressPayload(z, Textual("\\x")) == Some("") == DecompressPayloadAsync(z, Textual("\\x"), threshold)
  {
  }

  lemma DecompressOfCompressed(z: Codec, text: string, threshold: nat)
    requires GoodCodec(z) && text != ""
    ensures CompressPayload(z, text, threshold).Binary?
    ensures DecompressBytes(z, CompressPayload(z, text, threshold).data) == text
  {
    TextIsNotAFrame(text);
    DecodeEncode(text);
  }

  /** Every non-empty text comes back, whatever the thresholds at write and at read time, from the
      binary column or from its textual form, synchronously or not. */
  lemma PayloadRoundTrip(z: Codec, text: string, writeThreshold: nat, readThreshold: nat)
    requires GoodCodec(z) && text != ""
    ensures var stored := CompressPayload(z, text, writeThreshold);
            && stored.Binary?
            && var shown := Textual("\\x" + ToHex(stored.data));
               && DecompressPayload(z, stored) == Some(text)
               && DecompressPayloadAsync(z, stored, readThreshold) == Some(text)
               && DecompressPayload(z, shown) == Some(text)
               && DecompressPayloadAsync(z, shown, readThreshold) == Some(text)
  {
    DecompressOfCompressed(z, text, writeThreshold);
    var stored := CompressPayload(z, text, writeThreshold);
    FromHexToHex(stored.data);
    assert ("\\x" + ToHex(stored.data))[2..] == ToHex(stored.data);
  }

  // ---- the encodings themselves ------------------------------------------------------------------------------------------

  /** One character of each length, and a byte that starts none. */
  lemma EncodingsAre()
    ensures EncodeChar('A') == [0x41] && EncodeChar('\U{00E9}') == [0xC3, 0xA9]
    ensures EncodeChar('\U{20AC}') == [0xE2, 0x82, 0xAC] && EncodeChar('\U{1F600}') == [0xF0, 0x9F, 0x98, 0x80]
  {
  }

  /** A byte that cannot start a character is replaced, and decoding goes on behind it. */
  lemma StrayByte(b: Bytes)
    requires b != [] && (0x80 <= b[0] < 0xC0 || 0xF8 <= b[0])
    ensures Decode(b) == ['\U{FFFD}'] + Decode(b[1..])
  {
  }

  /** So is the first byte of a pair whose second one is missing. */
  lemma BrokenPair(b: Bytes)
    requires b != [] && 0xC0 <= b[0] < 0xE0 && (|b| == 1 || b[1] < 0x80 || 0xC0 <= b[1])
    ensures Decode(b) == ['\U{FFFD}'] + Decode(b[1..])
  {
  }

  /** Hex text may hold blanks between pairs and digits in either case; a lone digit is no pair. */
  lemma HexForms(s: string, c: char)
    ensures IsAsciiSpace(c) ==> FromHex([c] + s) == FromHex(s)
    ensures IsAsciiSpace(' ') && IsAsciiSpace('\n') && IsAsciiSpace('\t') && IsAsciiSpace('\r') && !IsAsciiSpace('\U{00A0}')
    ensures HexValue('a') == HexValue('A') == Some(10) && HexValue('f') == HexValue('F') == Some(15) && HexValue('g') == None
    ensures HexValue(c).Some? ==> FromHex([c]) == None
  {
    assert ([c] + s)[1..] == s;
  }
}
