/** Hexadecimal text to bytes and back, on 8-bit values as the source computes them. */
module Hex {
  import opened Wrappers

  type byte = bv8

  const HRIL_INVALID_HEX_CHAR: byte := 16
  const HRIL_DEC: byte := 10
  const HRIL_UPPER_CASE_LETTERS_OFFSET: byte := 32
  const RAW_DATA_LENGTH_MAX := 512

  // 'A' .. 'F', 'a' .. 'f', '0' .. '9'
  const UPPER_A: byte := 0x41
  const UPPER_F: byte := 0x46
  const LOWER_A: byte := 0x61
  const LOWER_F: byte := 0x66
  const DIGIT_0: byte := 0x30
  const DIGIT_9: byte := 0x39

  predicate IsHexChar(ch: byte)
    ensures IsHexChar(ch) <==> 48 <= ch <= 57 || 65 <= ch <= 70 || 97 <= ch <= 102
  {
    LOWER_A <= ch <= LOWER_F || UPPER_A <= ch <= UPPER_F || DIGIT_0 <= ch <= DIGIT_9
  }

  function ConvertHexCharToInt(ch: byte): (v: byte)
    ensures IsHexChar(ch) <==> v < 16
    ensures !IsHexChar(ch) <==> v == HRIL_INVALID_HEX_CHAR
    ensures 48 <= ch <= 57 ==> v == ch - 48
    ensures 65 <= ch <= 70 ==> v == ch - 65 + 10
    ensures 97 <= ch <= 102 ==> v == ch - 97 + 10
  {
    if LOWER_A <= ch <= LOWER_F || UPPER_A <= ch <= UPPER_F then
      (ch - UPPER_A) % HRIL_UPPER_CASE_LETTERS_OFFSET + HRIL_DEC
    else if DIGIT_0 <= ch <= DIGIT_9 then ch - DIGIT_0
    else HRIL_INVALID_HEX_CHAR
  }

  /** The entry of HEX_TABLE for a nibble. */
  function HexDigit(n: byte): (ch: byte)
    requires n < 16
    ensures IsHexChar(ch) && ConvertHexCharToInt(ch) == n
    ensures ch == if n < 10 then 48 + n else 65 + (n - 10)
  {
    if n < 10 then DIGIT_0 + n else UPPER_A + (n - 10)
  }

  function Upper(ch: byte): byte {
    if LOWER_A <= ch <= LOWER_F then ch - 32 else ch
  }

  function Join(hi: byte, lo: byte): (b: byte)
    ensures hi < 16 && lo < 16 ==> b == hi * 16 + lo
  {
    (hi << 4) | lo
  }

  function High(b: byte): (n: byte)
    ensures n < 16 && n == b / 16
  {
    b >> 4
  }

  function Low(b: byte): (n: byte)
    ensures n < 16 && n == b % 16
  {
    b & 0xf
  }

  lemma NibblesJoin(b: byte)
    ensures Join(High(b), Low(b)) == b
  {
  }

  lemma JoinNibbles(hi: byte, lo: byte)
    requires hi < 16 && lo < 16
    ensures High(Join(hi, lo)) == hi && Low(Join(hi, lo)) == lo
  {
  }

  lemma DigitOfChar(ch: byte)
    requires IsHexChar(ch)
    ensures HexDigit(ConvertHexCharToInt(ch)) == Upper(ch)
  {
  }

  // ----- reference definitions

  function Encode(data: seq<byte>): (text: seq<byte>)
    ensures |text| == 2 * |data|
  {
    if data == [] then [] else [HexDigit(High(data[0])), HexDigit(Low(data[0]))] + Encode(data[1..])
  }

  predicate AllHex(text: seq<byte>) {
    forall i :: 0 <= i < |text| ==> IsHexChar(text[i])
  }

  function Decode(text: seq<byte>): (data: seq<byte>)
    requires |text| % 2 == 0
    ensures |data| == |text| / 2
  {
    if text == [] then []
    else [Join(ConvertHexCharToInt(text[0]), ConvertHexCharToInt(text[1]))] + Decode(text[2..])
  }

  function UpperAll(text: seq<byte>): (r: seq<byte>)
    ensures |r| == |text|
  {
    seq(|text|, i requires 0 <= i < |text| => Upper(text[i]))
  }

  /** Exactly the inputs the decoder accepts: not empty, even, at most 512 characters, all hexadecimal. */
  predicate Decodable(text: seq<byte>) {
    0 < |text| <= RAW_DATA_LENGTH_MAX && |text| % 2 == 0 && AllHex(text)
  }

  lemma {:induction false} EncodeIsHex(data: seq<byte>)
    ensures AllHex(Encode(data)) && |Encode(data)| % 2 == 0
  {
    if data != [] {
      EncodeIsHex(data[1..]);
      assert Encode(data)[2..] == Encode(data[1..]);
    }
  }

  lemma {:induction false} DecodeEncode(data: seq<byte>)
    ensures Decode(Encode(data)) == data
  {
    if data != [] {
      DecodeEncode(data[1..]);
      NibblesJoin(data[0]);
      assert Encode(data)[2..] == Encode(data[1..]);
    }
  }

  lemma {:induction false} EncodeDecode(text: seq<byte>)
    requires |text| % 2 == 0 && AllHex(text)
    ensures Encode(Decode(text)) == UpperAll(text)
  {
    if text != [] {
      EncodeDecode(text[2..]);
      var hi, lo := ConvertHexCharToInt(text[0]), ConvertHexCharToInt(text[1]);
      JoinNibbles(hi, lo);
      DigitOfChar(text[0]);
      DigitOfChar(text[1]);
      assert UpperAll(text) == [Upper(text[0]), Upper(text[1])] + UpperAll(text[2..]);
    }
  }

  /** Appending one byte appends its two digits. */
  lemma {:induction false} EncodeSnoc(data: seq<byte>, b: byte)
    ensures Encode(data + [b]) == Encode(data) + [HexDigit(High(b)), HexDigit(Low(b))]
  {
    if data == [] {
      assert [] + [b] == [b];
    } else {
      assert (data + [b])[1..] == data[1..] + [b];
      EncodeSnoc(data[1..], b);
    }
  }

  lemma {:induction false} DecodeAt(text: seq<byte>, k: nat)
    requires |text| % 2 == 0 && 2 * k < |text|
    ensures Decode(text)[k] == Join(ConvertHexCharToInt(text[2 * k]), ConvertHexCharToInt(text[2 * k + 1]))
  {
    if k > 0 {
      DecodeAt(text[2..], k - 1);
    }
  }

  /** Byte `k` is spelled by the characters `2k` and `2k + 1`, the high half first. */
  lemma DecodeAll(text: seq<byte>)
    requires |text| % 2 == 0 && AllHex(text)
    ensures forall k :: 0 <= k < |text| / 2 ==>
              Decode(text)[k] == ConvertHexCharToInt(text[2 * k]) * 16 + ConvertHexCharToInt(text[2 * k + 1])
  {
    forall k | 0 <= k < |text| / 2
      ensures Decode(text)[k] == ConvertHexCharToInt(text[2 * k]) * 16 + ConvertHexCharToInt(text[2 * k + 1])
    {
      DecodeAt(text, k);
      assert IsHexChar(text[2 * k]) && IsHexChar(text[2 * k + 1]);
    }
  }

  lemma {:induction false} EncodeAt(data: seq<byte>, k: nat)
    requires k < |data|
    ensures Encode(data)[2 * k] == HexDigit(data[k] / 16) && Encode(data)[2 * k + 1] == HexDigit(data[k] % 16)
  {
    if k > 0 {
      EncodeAt(data[1..], k - 1);
    } else {
      assert High(data[0]) == data[0] / 16 && Low(data[0]) == data[0] % 16;
    }
  }

  lemma EncodeAll(data: seq<byte>)
    ensures forall k :: 0 <= k < |data| ==>
              Encode(data)[2 * k] == HexDigit(data[k] / 16) && Encode(data)[2 * k + 1] == HexDigit(data[k] % 16)
  {
    forall k | 0 <= k < |data|
      ensures Encode(data)[2 * k] == HexDigit(data[k] / 16) && Encode(data)[2 * k + 1] == HexDigit(data[k] % 16)
    {
      EncodeAt(data, k);
    }
  }

  // ----- the code

  /** `memory` is whether calloc succeeds; a null input is None. */
  method ConvertHexStringToBytes(response: Option<seq<byte>>, memory: bool) returns (bytes: array?<byte>)
    ensures bytes != null <==> response.Some? && Decodable(response.value) && memory
    ensures bytes != null ==> fresh(bytes) && bytes[..] == Decode(response.value)
    ensures bytes != null <==>
              && response.Some? && memory && 0 < |response.value| <= 512 && |response.value| % 2 == 0
              && forall k :: 0 <= k < |response.value| ==>
                   var ch := response.value[k]; 48 <= ch <= 57 || 65 <= ch <= 70 || 97 <= ch <= 102
    ensures bytes != null ==> 2 * bytes.Length == |response.value|
    ensures bytes != null ==>
              forall k :: 0 <= k < bytes.Length ==>
                bytes[k] ==
                ConvertHexCharToInt(response.value[2 * k]) * 16 + ConvertHexCharToInt(response.value[2 * k + 1])
  {
    if response.None? || |response.value| > RAW_DATA_LENGTH_MAX {
      return null;
    }
    var hexStr := response.value;
    var length := |hexStr|;
    var bytesLen := length / 2;
    if length % 2 != 0 || bytesLen <= 0 {
      return null;
    }
    if !memory {
      return null;
    }
    var buffer := new byte[bytesLen](_ => 0);
    var i := 0;
    while i < length
      invariant 0 <= i <= length && i % 2 == 0
      invariant forall k :: 0 <= k < i ==> IsHexChar(hexStr[k])
      invariant forall k :: 0 <= 2 * k < i ==> buffer[k] == Decode(hexStr)[k]
    {
      var hexCh1 := ConvertHexCharToInt(hexStr[i]);
      var hexCh2 := ConvertHexCharToInt(hexStr[i + 1]);
      if hexCh1 == HRIL_INVALID_HEX_CHAR || hexCh2 == HRIL_INVALID_HEX_CHAR {
        assert !IsHexChar(hexStr[i]) || !IsHexChar(hexStr[i + 1]);
        return null;
      }
      DecodeAt(hexStr, i / 2);
      buffer[i / 2] := (hexCh1 << 4) | hexCh2;
      i := i + 2;
    }
    assert buffer[..] == Decode(hexStr);
    DecodeAll(hexStr);
    bytes := buffer;
  }

  method StringToHex(data: seq<byte>, byteLength: int) returns (text: seq<byte>)
    requires byteLength <= |data|
    ensures text == Encode(data[..if byteLength < 0 then 0 else byteLength])
    ensures |text| == 2 * if byteLength < 0 then 0 else byteLength
    ensures forall k :: 0 <= k < byteLength ==>
              text[2 * k] == HexDigit(data[k] / 16) && text[2 * k + 1] == HexDigit(data[k] % 16)
  {
    text := [];
    var i := 0;
    while i < byteLength
      invariant 0 <= i && (i <= byteLength || i == 0)
      invariant text == Encode(data[..i])
    {
      var temp := data[i] >> 4;
      EncodeSnoc(data[..i], data[i]);
      assert data[..i + 1] == data[..i] + [data[i]];
      text := text + [HexDigit(temp), HexDigit(data[i] & 0xf)];
      i := i + 1;
    }
    EncodeAll(data[..i]);
  }

  /** Decoding what the encoder prints for 1 to 256 bytes gives the bytes back. */
  lemma RoundTrip(data: seq<byte>)
    requires 0 < |data| <= RAW_DATA_LENGTH_MAX / 2
    ensures Decodable(Encode(data)) && Decode(Encode(data)) == data
  {
    EncodeIsHex(data);
    DecodeEncode(data);
  }

  /** Two texts decode to the same bytes exactly when they differ only in the case of letters. */
  lemma SameBytesIff(a: seq<byte>, b: seq<byte>)
    requires Decodable(a) && Decodable(b)
    ensures Decode(a) == Decode(b) <==> UpperAll(a) == UpperAll(b)
  {
    EncodeDecode(a);
    EncodeDecode(b);
    if UpperAll(a) == UpperAll(b) {
      DecodeEncode(Decode(a));
      DecodeEncode(Decode(b));
    }
  }

  /** `SmsStatusReportNotify`, `NewSmsNotify`: the PDU handed on is the decoded text, or nothing. */
  method DecodePdu(response: Option<seq<byte>>, memory: bool) returns (pdu: Option<seq<byte>>)
    ensures pdu == if response.Some? && Decodable(response.value) && memory then Some(Decode(response.value)) else None
  {
    if response.None? || |response.value| == 0 {
      return None;
    }
    var bytes := ConvertHexStringToBytes(response, memory);
    if bytes == null {
      return None;
    }
    var size := |response.value| / 2;
    var out: seq<byte> := [];
    var i := 0;
    while i < size
      invariant 0 <= i <= size && out == bytes[..i]
    {
      out := out + [bytes[i]];
      i := i + 1;
    }
    assert bytes[..i] == bytes[..];
    return Some(out);
  }
}
