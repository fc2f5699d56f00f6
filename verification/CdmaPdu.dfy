/** The CDMA message text written to the SIM card: a length check, then a reader that fills the message record
    field by field. Both work on one hexadecimal digit per value. */
module CdmaPdu {
  import opened CText

  const HRIL_MAX_CDMA_MESSAGE_LEN := 255
  const HRIL_MAX_CDMA_ADDRESS_LEN := 36
  const BYTE_LEN := 1
  const INT_LEN := 4
  const HEXADECIMAL := 16
  const HEADER := INT_LEN * 3
  const ADDRESS_FIXED := 5 * BYTE_LEN
  const SUB_ADDRESS_FIXED := 3 * BYTE_LEN

  predicate AllHex(s: string) {
    forall i :: 0 <= i < |s| ==> IsHexDigit(s[i])
  }

  /** The value of the digit at `i`. */
  function DigitAt(pdu: string, i: nat): nat
    requires i < |pdu|
  {
    DigitValue(pdu[i])
  }

  // ----- reference layout: offsets of the variable parts

  /** A: digits of the address; S: of the subaddress; N: of the bearer data. */
  function A(pdu: string): nat
    requires |pdu| >= 17
  {
    DigitAt(pdu, 16)
  }

  function S(pdu: string): nat
    requires |pdu| >= 17 && |pdu| >= 20 + A(pdu)
  {
    DigitAt(pdu, 19 + A(pdu))
  }

  function N(pdu: string): nat
    requires |pdu| >= 17 && |pdu| >= 20 + A(pdu) && |pdu| >= 21 + A(pdu) + S(pdu)
  {
    DigitAt(pdu, 20 + A(pdu) + S(pdu))
  }

  /** The number of characters the message takes. */
  function MessageLength(pdu: string): nat
    requires |pdu| >= 17 && |pdu| >= 20 + A(pdu) && |pdu| >= 21 + A(pdu) + S(pdu)
  {
    21 + A(pdu) + S(pdu) + N(pdu)
  }

  /** Long enough for everything its length digits announce. */
  predicate LongEnough(pdu: string) {
    && |pdu| >= 17 && |pdu| >= 20 + A(pdu) && |pdu| >= 21 + A(pdu) + S(pdu) && |pdu| >= MessageLength(pdu)
  }

  predicate Acceptable(pdu: string) {
    AllHex(pdu) && LongEnough(pdu)
  }

  // ----- the record

  datatype Message = Message(
    serviceId: nat, isExist: nat, msgType: nat,
    digitMode: nat, mode: nat, addressType: nat, plan: nat, address: string,
    subType: nat, odd: nat, subAddress: string,
    data: string)

  /** The fields of an acceptable text. */
  function Parse(pdu: string): Message
    requires Acceptable(pdu)
  {
    var a, s, n := A(pdu), S(pdu), N(pdu);
    Message(Value(pdu[..4], 16), DigitAt(pdu, 7), Value(pdu[8..12], 16),
            DigitAt(pdu, 12), DigitAt(pdu, 13), DigitAt(pdu, 14), DigitAt(pdu, 15), pdu[17..17 + a],
            DigitAt(pdu, 17 + a), DigitAt(pdu, 18 + a), pdu[20 + a..20 + a + s],
            pdu[21 + a + s..21 + a + s + n])
  }

  /** Where the reader finds each field, in characters from the start, given the three lengths. */
  predicate FieldsAt(pdu: string, m: Message, a: nat, s: nat, n: nat)
    requires 21 + a + s + n <= |pdu|
  {
    && m.serviceId == Value(pdu[0..4], 16) && m.isExist == DigitValue(pdu[7])
    && m.msgType == Value(pdu[8..12], 16)
    && m.digitMode == DigitValue(pdu[12]) && m.mode == DigitValue(pdu[13])
    && m.addressType == DigitValue(pdu[14]) && m.plan == DigitValue(pdu[15])
    && m.address == pdu[17..17 + a]
    && m.subType == DigitValue(pdu[17 + a]) && m.odd == DigitValue(pdu[18 + a])
    && m.subAddress == pdu[20 + a..20 + a + s]
    && m.data == pdu[21 + a + s..21 + a + s + n]
  }

  /** Each length is the digit after the part before it. */
  lemma FieldsAreAt(pdu: string)
    requires Acceptable(pdu)
    ensures && |pdu| >= 17 && var a := DigitValue(pdu[16]);
            && |pdu| >= 20 + a && var s := DigitValue(pdu[19 + a]);
            && |pdu| >= 21 + a + s && var n := DigitValue(pdu[20 + a + s]);
            && |pdu| >= 21 + a + s + n && MessageLength(pdu) == 21 + a + s + n
            && FieldsAt(pdu, Parse(pdu), a, s, n)
  {
    assert pdu[0..4] == pdu[..4];
  }

  // ----- the code

  /** `HRilCdmaSmsMessageInfo`, its three nested structures flattened. */
  class MessageInfo {
    var serviceId: int
    var isExist: int
    var msgType: int
    var digitMode: int
    var mode: int
    var addressType: int
    var plan: int
    var addressNumber: int
    const addressBytes: array<char>
    var subType: int
    var odd: int
    var subNumber: int
    const subBytes: array<char>
    var size: int
    const bytes: array<char>

    /** A zeroed record. */
    constructor ()
      ensures Valid() && fresh(addressBytes) && fresh(subBytes) && fresh(bytes)
    {
      addressBytes := new char[HRIL_MAX_CDMA_ADDRESS_LEN](_ => '\0');
      subBytes := new char[HRIL_MAX_CDMA_ADDRESS_LEN](_ => '\0');
      bytes := new char[HRIL_MAX_CDMA_MESSAGE_LEN](_ => '\0');
      serviceId, isExist, msgType, digitMode, mode, addressType, plan := 0, 0, 0, 0, 0, 0, 0;
      addressNumber, subType, odd, subNumber, size := 0, 0, 0, 0, 0;
    }

    predicate Valid() {
      && addressBytes.Length == subBytes.Length == HRIL_MAX_CDMA_ADDRESS_LEN
      && bytes.Length == HRIL_MAX_CDMA_MESSAGE_LEN
      && addressBytes != subBytes && addressBytes != bytes && subBytes != bytes
    }

    /** The fields hold `m`, each text in its buffer with a terminating zero behind it. */
    ghost predicate Shows(m: Message)
      requires Valid()
      reads this, addressBytes, subBytes, bytes
    {
      && serviceId == m.serviceId && isExist == m.isExist && msgType == m.msgType
      && digitMode == m.digitMode && mode == m.mode && addressType == m.addressType && plan == m.plan
      && subType == m.subType && odd == m.odd
      && addressNumber == |m.address| && HoldsText(addressBytes, m.address)
      && subNumber == |m.subAddress| && HoldsText(subBytes, m.subAddress)
      && size == |m.data| && HoldsText(bytes, m.data)
    }
  }

  ghost predicate HoldsText(buffer: array<char>, text: string)
    reads buffer
  {
    |text| < buffer.Length && buffer[..|text|] == text && buffer[|text|] == '\0'
  }

  /** `pdu.substr(pos, len)`; the source throws past the end. */
  function Substr(pdu: string, pos: nat, len: nat): (r: string)
    requires pos <= |pdu|
    ensures pos + len <= |pdu| ==> r == pdu[pos..pos + len]
  {
    if pos + len <= |pdu| then pdu[pos..pos + len] else pdu[pos..]
  }

  /** One number: `strtol(pdu.substr(pos, len).c_str(), nullptr, 16)`. */
  function Number(pdu: string, pos: nat, len: nat, max: int): int
    requires pos <= |pdu|
  {
    Strtol(Substr(pdu, pos, len), HEXADECIMAL, max)
  }

  lemma NumberIsDigit(pdu: string, pos: nat, max: int)
    requires AllHex(pdu) && pos < |pdu| && LongMax(max)
    ensures Number(pdu, pos, BYTE_LEN, max) == DigitAt(pdu, pos) < 16
  {
    var s := pdu[pos..pos + 1];
    assert s == [pdu[pos]] && s[..0] == [];
    assert Value(s, 16) == Value([], 16) * 16 + DigitValue(pdu[pos]);
    StrtolHex(s, max);
  }

  lemma NumberIsValue(pdu: string, pos: nat, max: int)
    requires AllHex(pdu) && pos + 4 <= |pdu| && LongMax(max)
    ensures Number(pdu, pos, INT_LEN, max) == Value(pdu[pos..pos + 4], 16) < 0x10000
  {
    var s := pdu[pos..pos + 4];
    ValueBound(s);
    StrtolHex(s, max);
  }

  /** Four digits are below 2^16. */
  lemma ValueBound(s: string)
    requires |s| == 4 && AllHex(s)
    ensures Value(s, 16) < 0x10000
  {
    assert s[..3][..2] == s[..2] && s[..3][..2][..1] == s[..1] && s[..1][..0] == [];
    assert Value(s[..1], 16) == DigitValue(s[0]);
    assert Value(s[..2], 16) == Value(s[..1], 16) * 16 + DigitValue(s[1]) by { assert s[..2][..1] == s[..1]; }
    assert Value(s[..3], 16) == Value(s[..2], 16) * 16 + DigitValue(s[2]);
  }

  method ReadDigit(pdu: string, pos: nat, max: int) returns (v: int)
    requires AllHex(pdu) && pos < |pdu| && LongMax(max)
    ensures v == DigitAt(pdu, pos) < 16
  {
    NumberIsDigit(pdu, pos, max);
    v := Number(pdu, pos, BYTE_LEN, max);
  }

  method ReadNumber(pdu: string, pos: nat, max: int) returns (v: int)
    requires AllHex(pdu) && pos + INT_LEN <= |pdu| && LongMax(max)
    ensures v == Value(pdu[pos..pos + 4], 16) < 0x10000
  {
    NumberIsValue(pdu, pos, max);
    v := Number(pdu, pos, INT_LEN, max);
  }

  /** `strcpy_s(buffer, destMax, text)`: refuses a text that does not fit with its zero. */
  method Strcpy(buffer: array<char>, destMax: nat, text: string) returns (ok: bool)
    requires destMax <= buffer.Length && '\0' !in text
    modifies buffer
    ensures ok <==> |text| < destMax
    ensures ok ==> HoldsText(buffer, text) && forall i :: |text| < i < buffer.Length ==> buffer[i] == old(buffer[i])
  {
    if |text| >= destMax {
      return false;
    }
    var i := 0;
    while i < |text|
      invariant 0 <= i <= |text| && buffer[..i] == text[..i]
      invariant forall j :: i <= j < buffer.Length ==> buffer[j] == old(buffer[j])
    {
      buffer[i] := text[i];
      i := i + 1;
    }
    assert text[..i] == text;
    buffer[i] := '\0';
    return true;
  }

  /** First pass: reads the three length digits where they stand and checks the length. */
  method CheckCdmaPduLength(info: MessageInfo, pdu: string, max: int) returns (ok: bool)
    requires LongMax(max)
    modifies info`addressNumber, info`subNumber, info`size
    ensures ok <==> Acceptable(pdu)
    ensures ok ==> info.addressNumber == A(pdu) && info.subNumber == S(pdu) && info.size == N(pdu)
  {
    var index := HEADER + ADDRESS_FIXED;
    if |pdu| < index {
      return false;
    }
    if !AllHex(pdu) {
      return false;
    }
    info.addressNumber := ReadDigit(pdu, index - BYTE_LEN, max);
    index := index + BYTE_LEN * info.addressNumber + SUB_ADDRESS_FIXED;
    if |pdu| < index {
      return false;
    }
    info.subNumber := ReadDigit(pdu, index - BYTE_LEN, max);
    index := index + BYTE_LEN * info.subNumber + BYTE_LEN;
    if |pdu| < index {
      return false;
    }
    info.size := ReadDigit(pdu, index - BYTE_LEN, max);
    index := index + BYTE_LEN * info.size;
    return |pdu| >= index;
  }

  /** Second pass. It succeeds exactly on the texts the first pass accepts, and then shows their fields. */
  method CreateCdmaMessageInfo(info: MessageInfo, pdu: string, max: int) returns (ok: bool)
    requires info.Valid() && LongMax(max)
    modifies info, info.addressBytes, info.subBytes, info.bytes
    ensures ok <==> Acceptable(pdu)
    ensures ok ==> info.Shows(Parse(pdu))
    ensures !ok ==> unchanged(info.addressBytes) && unchanged(info.subBytes) && unchanged(info.bytes)
  {
    ok := CheckCdmaPduLength(info, pdu, max);
    if !ok {
      return;
    }
    ReadHeader(info, pdu, max);
    var index := HEADER;
    index, ok := ReadAddress(info, pdu, index, max);
    if !ok {
      return;
    }
    index, ok := ReadSubAddress(info, pdu, index, max);
    if !ok {
      return;
    }
    ok := ReadData(info, pdu, index, max);
  }

  method ReadHeader(info: MessageInfo, pdu: string, max: int)
    requires Acceptable(pdu) && LongMax(max)
    modifies info`serviceId, info`isExist, info`msgType
    ensures info.serviceId == Parse(pdu).serviceId && info.isExist == Parse(pdu).isExist
    ensures info.msgType == Parse(pdu).msgType
  {
    assert pdu[0..4] == pdu[..4];
    info.serviceId := ReadNumber(pdu, 0, max);
    info.isExist := ReadDigit(pdu, INT_LEN + BYTE_LEN * 3, max);
    info.msgType := ReadNumber(pdu, INT_LEN + INT_LEN, max);
  }

  lemma HexHasNoZero(s: string)
    requires AllHex(s)
    ensures '\0' !in s
  {
  }

  method ReadAddress(info: MessageInfo, pdu: string, index: nat, max: int) returns (next: nat, ok: bool)
    requires info.Valid() && Acceptable(pdu) && LongMax(max) && index == HEADER
    modifies info`digitMode, info`mode, info`addressType, info`plan, info`addressNumber, info.addressBytes
    ensures ok && next == 17 + A(pdu)
    ensures var m := Parse(pdu);
            && info.digitMode == m.digitMode && info.mode == m.mode
            && info.addressType == m.addressType && info.plan == m.plan
            && info.addressNumber == |m.address| && HoldsText(info.addressBytes, m.address)
  {
    info.digitMode := ReadDigit(pdu, index, max);
    info.mode := ReadDigit(pdu, index + BYTE_LEN, max);
    info.addressType := ReadDigit(pdu, index + BYTE_LEN * 2, max);
    info.plan := ReadDigit(pdu, index + BYTE_LEN * 3, max);
    info.addressNumber := ReadDigit(pdu, index + BYTE_LEN * 4, max);
    var addByte := Substr(pdu, index + BYTE_LEN * 5, BYTE_LEN * info.addressNumber);
    HexHasNoZero(addByte);
    ok := Strcpy(info.addressBytes, info.addressNumber + 1, addByte);
    next := index + BYTE_LEN * 5 + BYTE_LEN * info.addressNumber;
  }

  method ReadSubAddress(info: MessageInfo, pdu: string, index: nat, max: int) returns (next: nat, ok: bool)
    requires info.Valid() && Acceptable(pdu) && LongMax(max) && index == 17 + A(pdu)
    modifies info`subType, info`odd, info`subNumber, info.subBytes
    ensures ok && next == 20 + A(pdu) + S(pdu)
    ensures var m := Parse(pdu);
            && info.subType == m.subType && info.odd == m.odd
            && info.subNumber == |m.subAddress| && HoldsText(info.subBytes, m.subAddress)
  {
    info.subType := ReadDigit(pdu, index, max);
    info.odd := ReadDigit(pdu, index + BYTE_LEN, max);
    info.subNumber := ReadDigit(pdu, index + BYTE_LEN * 2, max);
    var subAddByte := Substr(pdu, index + BYTE_LEN * 3, BYTE_LEN * info.subNumber);
    HexHasNoZero(subAddByte);
    ok := Strcpy(info.subBytes, info.subNumber + 1, subAddByte);
    next := index + BYTE_LEN * 3 + BYTE_LEN * info.subNumber;
  }

  method ReadData(info: MessageInfo, pdu: string, index: nat, max: int) returns (ok: bool)
    requires info.Valid() && Acceptable(pdu) && LongMax(max) && index == 20 + A(pdu) + S(pdu)
    modifies info`size, info.bytes
    ensures ok && info.size == |Parse(pdu).data| && HoldsText(info.bytes, Parse(pdu).data)
  {
    info.size := ReadDigit(pdu, index, max);
    var byte := Substr(pdu, index + BYTE_LEN, BYTE_LEN * info.size);
    HexHasNoZero(byte);
    ok := Strcpy(info.bytes, info.size + 1, byte);
  }
}
