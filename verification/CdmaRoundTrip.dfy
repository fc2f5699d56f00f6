/** A writer for the layout the CDMA reader expects, and the laws that tie the two together. */
module CdmaRoundTrip {
  import opened CText
  import opened CdmaPdu

  function HexChar(n: nat): (c: char)
    requires n < 16
    ensures IsHexDigit(c) && DigitValue(c) == n
  {
    if n < 10 then '0' + n as char else 'A' + (n - 10) as char
  }

  function Four(n: nat): (s: string)
    requires n < 0x10000
    ensures |s| == 4
  {
    [HexChar(n / 0x1000), HexChar(n / 0x100 % 16), HexChar(n / 16 % 16), HexChar(n % 16)]
  }

  lemma ValueOfFour(s: string)
    requires |s| == 4
    ensures Value(s, 16) == ((DigitValue(s[0]) * 16 + DigitValue(s[1])) * 16 + DigitValue(s[2])) * 16 + DigitValue(s[3])
  {
    assert s[..3][..2] == s[..2] && s[..2][..1] == s[..1] && s[..1][..0] == [];
    assert Value(s[..1], 16) == DigitValue(s[0]);
    assert Value(s[..2], 16) == Value(s[..1], 16) * 16 + DigitValue(s[1]);
    assert Value(s[..3], 16) == Value(s[..2], 16) * 16 + DigitValue(s[2]);
  }

  lemma FourInverts(n: nat)
    requires n < 0x10000
    ensures Value(Four(n), 16) == n && AllHex(Four(n))
  {
    ValueOfFour(Four(n));
    var a, b := n / 16, n / 0x100;
    assert b == a / 16 && n / 0x1000 == b / 16;
  }

  predicate HexText(s: string) {
    |s| < 16 && AllHex(s)
  }

  /** The records the layout can carry. */
  predicate Writable(m: Message) {
    && m.serviceId < 0x10000 && m.isExist < 16 && m.msgType < 0x10000
    && m.digitMode < 16 && m.mode < 16 && m.addressType < 16 && m.plan < 16 && HexText(m.address)
    && m.subType < 16 && m.odd < 16 && HexText(m.subAddress)
    && HexText(m.data)
  }

  /** The 17 characters before the address; three of them are not read. */
  function Head(m: Message, filler: string): (s: string)
    requires Writable(m) && |filler| == 3
    ensures |s| == 17
  {
    Four(m.serviceId) + filler + [HexChar(m.isExist)] + Four(m.msgType)
    + [HexChar(m.digitMode), HexChar(m.mode), HexChar(m.addressType), HexChar(m.plan), HexChar(|m.address|)]
  }

  function SubHead(m: Message): (s: string)
    requires Writable(m)
    ensures |s| == 3
  {
    [HexChar(m.subType), HexChar(m.odd), HexChar(|m.subAddress|)]
  }

  function Encode(m: Message, filler: string): string
    requires Writable(m) && |filler| == 3
  {
    Head(m, filler) + m.address + SubHead(m) + m.subAddress + [HexChar(|m.data|)] + m.data
  }

  lemma HeadIsHex(m: Message, filler: string)
    requires Writable(m) && |filler| == 3 && AllHex(filler)
    ensures AllHex(Head(m, filler))
  {
    FourInverts(m.serviceId);
    FourInverts(m.msgType);
  }

  /** Where the parts of a text of this shape are found again. */
  lemma Slices(h: string, a: string, sh: string, s: string, n: string, d: string, t: string)
    requires |h| == 17 && |sh| == 3 && |n| == 1
    ensures var p := h + a + sh + s + n + d + t;
            && |p| == 21 + |a| + |s| + |d| + |t|
            && p[..17] == h && p[17..17 + |a|] == a && p[17 + |a|..20 + |a|] == sh
            && p[20 + |a|..20 + |a| + |s|] == s && p[20 + |a| + |s|..21 + |a| + |s|] == n
            && p[21 + |a| + |s|..21 + |a| + |s| + |d|] == d
  {
    var p := h + a + sh + s + n + d + t;
    assert p[..17] == h;
    assert p[17..17 + |a|] == a;
    assert p[17 + |a|..20 + |a|] == sh;
    assert p[20 + |a|..20 + |a| + |s|] == s;
    assert p[20 + |a| + |s|..21 + |a| + |s|] == n;
    assert p[21 + |a| + |s|..21 + |a| + |s| + |d|] == d;
  }

  lemma HexConcat(a: string, b: string)
    requires AllHex(a) && AllHex(b)
    ensures AllHex(a + b)
  {
  }

  lemma EncodeIsHex(m: Message, filler: string, tail: string)
    requires Writable(m) && |filler| == 3 && AllHex(filler) && AllHex(tail)
    ensures AllHex(Encode(m, filler) + tail)
  {
    HeadIsHex(m, filler);
    HexConcat(Head(m, filler), m.address);
    HexConcat(Head(m, filler) + m.address, SubHead(m));
    HexConcat(Head(m, filler) + m.address + SubHead(m), m.subAddress);
    HexConcat(Head(m, filler) + m.address + SubHead(m) + m.subAddress, [HexChar(|m.data|)]);
    HexConcat(Head(m, filler) + m.address + SubHead(m) + m.subAddress + [HexChar(|m.data|)], m.data);
    HexConcat(Encode(m, filler), tail);
  }

  /** The reader recovers every field of every record, whatever filler and trailing digits surround it. */
  lemma ParseEncode(m: Message, filler: string, tail: string)
    requires Writable(m) && |filler| == 3 && AllHex(filler) && AllHex(tail)
    ensures var pdu := Encode(m, filler) + tail;
            Acceptable(pdu) && Parse(pdu) == m && MessageLength(pdu) == |Encode(m, filler)|
  {
    var pdu := Encode(m, filler) + tail;
    var h, a, sh, s, n, d := Head(m, filler), m.address, SubHead(m), m.subAddress, [HexChar(|m.data|)], m.data;
    EncodeIsHex(m, filler, tail);
    Slices(h, a, sh, s, n, d, tail);
    assert pdu[16] == pdu[..17][16];
    assert A(pdu) == |a|;
    assert pdu[19 + |a|] == pdu[17 + |a|..20 + |a|][2];
    assert S(pdu) == |s|;
    assert pdu[20 + |a| + |s|] == pdu[20 + |a| + |s|..21 + |a| + |s|][0];
    assert N(pdu) == |d|;
    HeadFields(m, filler, pdu);
    assert pdu[17 + |a|] == pdu[17 + |a|..20 + |a|][0] && pdu[18 + |a|] == pdu[17 + |a|..20 + |a|][1];
  }

  lemma HeadFields(m: Message, filler: string, pdu: string)
    requires Writable(m) && |filler| == 3 && |pdu| >= 17 && pdu[..17] == Head(m, filler)
    ensures Value(pdu[..4], 16) == m.serviceId && DigitAt(pdu, 7) == m.isExist && Value(pdu[8..12], 16) == m.msgType
    ensures DigitAt(pdu, 12) == m.digitMode && DigitAt(pdu, 13) == m.mode
    ensures DigitAt(pdu, 14) == m.addressType && DigitAt(pdu, 15) == m.plan
  {
    var h := Head(m, filler);
    FourInverts(m.serviceId);
    FourInverts(m.msgType);
    assert pdu[..4] == h[..4] == Four(m.serviceId);
    assert pdu[8..12] == h[8..12] == Four(m.msgType);
    assert forall i :: 0 <= i < 17 ==> pdu[i] == pdu[..17][i];
  }

  /** Two different records never share a text, whatever fillers are used. */
  lemma EncodeInjective(a: Message, b: Message, fa: string, fb: string)
    requires Writable(a) && Writable(b) && |fa| == 3 && |fb| == 3 && AllHex(fa) && AllHex(fb)
    requires Encode(a, fa) == Encode(b, fb)
    ensures a == b
  {
    ParseEncode(a, fa, "");
    ParseEncode(b, fb, "");
  }

  /** What the reader yields can always be written: every buffer is large enough and every number in range. */
  lemma ParsedIsWritable(pdu: string)
    requires Acceptable(pdu)
    ensures Writable(Parse(pdu))
    ensures var m := Parse(pdu);
            |m.address| < HRIL_MAX_CDMA_ADDRESS_LEN && |m.subAddress| < HRIL_MAX_CDMA_ADDRESS_LEN
            && |m.data| < HRIL_MAX_CDMA_MESSAGE_LEN
  {
    ValueBound(pdu[..4]);
    ValueBound(pdu[8..12]);
    assert forall i :: 0 <= i < |pdu| ==> DigitValue(pdu[i]) < 16;
  }

  /** The reader looks at the characters before the message length, except the three it skips. */
  predicate Read(pdu: string, i: nat)
    requires LongEnough(pdu)
  {
    i < MessageLength(pdu) && !(4 <= i < 7)
  }

  predicate AgreeOnRead(p: string, q: string)
    requires LongEnough(p)
  {
    |q| >= MessageLength(p) && forall i: nat :: i < |p| && Read(p, i) ==> q[i] == p[i]
  }

  lemma SameLengths(p: string, q: string)
    requires Acceptable(p) && AllHex(q) && AgreeOnRead(p, q)
    ensures Acceptable(q) && A(q) == A(p) && S(q) == S(p) && N(q) == N(p)
  {
    var a, s := A(p), S(p);
    assert Read(p, 16) && Read(p, 19 + a) && Read(p, 20 + a + s);
    assert A(q) == a;
    assert S(q) == s;
  }

  lemma SameDigitAt(p: string, q: string, i: nat)
    requires Acceptable(p) && AgreeOnRead(p, q) && Read(p, i)
    ensures i < |p| && i < |q| && DigitAt(q, i) == DigitAt(p, i)
  {
  }

  /** Texts that agree on what is read are accepted alike and give the same record. */
  lemma ParseReadsOnly(p: string, q: string)
    requires Acceptable(p) && AllHex(q) && AgreeOnRead(p, q)
    ensures Acceptable(q) && MessageLength(q) == MessageLength(p) && Parse(q) == Parse(p)
  {
    var a, s, n := A(p), S(p), N(p);
    SameLengths(p, q);
    SameSlice(p, q, 0, 4);
    SameSlice(p, q, 8, 12);
    SameSlice(p, q, 17, 17 + a);
    SameSlice(p, q, 20 + a, 20 + a + s);
    SameSlice(p, q, 21 + a + s, 21 + a + s + n);
    SameDigitAt(p, q, 7);
    SameDigitAt(p, q, 12);
    SameDigitAt(p, q, 13);
    SameDigitAt(p, q, 14);
    SameDigitAt(p, q, 15);
    SameDigitAt(p, q, 17 + a);
    SameDigitAt(p, q, 18 + a);
  }

  lemma SameSlice(p: string, q: string, lo: nat, hi: nat)
    requires Acceptable(p) && AgreeOnRead(p, q) && lo <= hi <= MessageLength(p) && (hi <= 4 || 7 <= lo)
    ensures p[lo..hi] == q[lo..hi]
  {
    forall i | lo <= i < hi ensures p[i] == q[i] {
      assert Read(p, i);
    }
  }

  /** Equal up to the case of letters. */
  predicate SameDigits(x: string, y: string) {
    |x| == |y| && forall i :: 0 <= i < |x| ==> DigitValue(x[i]) == DigitValue(y[i])
  }

  lemma SameDigitsConcat(a: string, b: string, c: string, d: string)
    requires SameDigits(a, b) && SameDigits(c, d)
    ensures SameDigits(a + c, b + d)
  {
  }

  lemma FourOfValue(s: string)
    requires |s| == 4 && AllHex(s)
    ensures Value(s, 16) < 0x10000 && SameDigits(Four(Value(s, 16)), s)
  {
    ValueBound(s);
    ValueOfFour(s);
    var v := Value(s, 16);
    var d0, d1, d2, d3 := DigitValue(s[0]), DigitValue(s[1]), DigitValue(s[2]), DigitValue(s[3]);
    assert v / 16 == (d0 * 16 + d1) * 16 + d2 && v % 16 == d3;
    assert v / 0x100 == v / 16 / 16 == d0 * 16 + d1 && v / 16 % 16 == d2;
    assert v / 0x1000 == v / 0x100 / 16 == d0 && v / 0x100 % 16 == d1;
  }

  /** The 17 characters before the address, written again. */
  lemma HeadOfParse(pdu: string)
    requires Acceptable(pdu) && Writable(Parse(pdu))
    ensures SameDigits(Head(Parse(pdu), pdu[4..7]), pdu[..17])
  {
    var m, h := Parse(pdu), Head(Parse(pdu), pdu[4..7]);
    FourOfValue(pdu[..4]);
    FourOfValue(pdu[8..12]);
    forall i | 0 <= i < 17 ensures DigitValue(h[i]) == DigitValue(pdu[i]) {
      if i < 4 {
        assert h[i] == Four(m.serviceId)[i] && pdu[i] == pdu[..4][i];
      } else if 8 <= i < 12 {
        assert h[i] == Four(m.msgType)[i - 8] && pdu[i] == pdu[8..12][i - 8];
      }
    }
  }

  /** The six parts of a message, in a row. */
  lemma MessageParts(pdu: string)
    requires Acceptable(pdu)
    ensures var a, s := A(pdu), S(pdu);
            pdu[..MessageLength(pdu)] ==
            pdu[..17] + pdu[17..17 + a] + pdu[17 + a..20 + a] + pdu[20 + a..20 + a + s] + pdu[20 + a + s..21 + a + s]
            + pdu[21 + a + s..MessageLength(pdu)]
  {
    var a, s := A(pdu), S(pdu);
    assert pdu[..17] + pdu[17..17 + a] == pdu[..17 + a];
    assert pdu[..17 + a] + pdu[17 + a..20 + a] == pdu[..20 + a];
    assert pdu[..20 + a] + pdu[20 + a..20 + a + s] == pdu[..20 + a + s];
    assert pdu[..20 + a + s] + pdu[20 + a + s..21 + a + s] == pdu[..21 + a + s];
  }

  lemma SameParts(h: string, a: string, sh: string, s: string, n: string, d: string,
                  h': string, a': string, sh': string, s': string, n': string, d': string)
    requires SameDigits(h, h') && SameDigits(a, a') && SameDigits(sh, sh')
    requires SameDigits(s, s') && SameDigits(n, n') && SameDigits(d, d')
    ensures SameDigits(h + a + sh + s + n + d, h' + a' + sh' + s' + n' + d')
  {
    SameDigitsConcat(h, h', a, a');
    SameDigitsConcat(h + a, h' + a', sh, sh');
    SameDigitsConcat(h + a + sh, h' + a' + sh', s, s');
    SameDigitsConcat(h + a + sh + s, h' + a' + sh' + s', n, n');
    SameDigitsConcat(h + a + sh + s + n, h' + a' + sh' + s' + n', d, d');
  }

  lemma SmallPartsOfParse(pdu: string)
    requires Acceptable(pdu) && Writable(Parse(pdu))
    ensures var a, s := A(pdu), S(pdu);
            && SameDigits(SubHead(Parse(pdu)), pdu[17 + a..20 + a])
            && SameDigits([HexChar(|Parse(pdu).data|)], pdu[20 + a + s..21 + a + s])
  {
  }

  lemma TextPartsOfParse(pdu: string)
    requires Acceptable(pdu)
    ensures var m, a, s := Parse(pdu), A(pdu), S(pdu);
            && m.address == pdu[17..17 + a] && m.subAddress == pdu[20 + a..20 + a + s]
            && m.data == pdu[21 + a + s..MessageLength(pdu)]
  {
  }

  lemma EncodeMatches(m: Message, filler: string, h: string, sh: string, n: string)
    requires Writable(m) && |filler| == 3 && SameDigits(Head(m, filler), h)
    requires SameDigits(SubHead(m), sh) && SameDigits([HexChar(|m.data|)], n)
    ensures SameDigits(Encode(m, filler), h + m.address + sh + m.subAddress + n + m.data)
  {
    SameParts(Head(m, filler), m.address, SubHead(m), m.subAddress, [HexChar(|m.data|)], m.data,
              h, m.address, sh, m.subAddress, n, m.data);
  }

  /** The six parts of a message, in terms of what was read from it. */
  lemma PartsOfParse(pdu: string)
    requires Acceptable(pdu)
    ensures var m, a, s := Parse(pdu), A(pdu), S(pdu);
            pdu[..MessageLength(pdu)] ==
            pdu[..17] + m.address + pdu[17 + a..20 + a] + m.subAddress + pdu[20 + a + s..21 + a + s] + m.data
  {
    TextPartsOfParse(pdu);
    MessageParts(pdu);
  }

  /** Writing what was read gives the text that was read, up to the case of letters, without what trails it. */
  lemma EncodeParse(pdu: string)
    requires Acceptable(pdu)
    ensures Writable(Parse(pdu)) && SameDigits(Encode(Parse(pdu), pdu[4..7]), pdu[..MessageLength(pdu)])
  {
    var a, s := A(pdu), S(pdu);
    ParsedIsWritable(pdu);
    HeadOfParse(pdu);
    SmallPartsOfParse(pdu);
    PartsOfParse(pdu);
    EncodeMatches(Parse(pdu), pdu[4..7], pdu[..17], pdu[17 + a..20 + a], pdu[20 + a + s..21 + a + s]);
  }
}
