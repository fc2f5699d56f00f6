/** Printing a cell-broadcast configuration and parsing it again. */
module CellBroadcastRoundTrip {
  import opened Wrappers
  import opened MachineInts
  import opened CText
  import opened CellBroadcast

  predicate Int32Range(lo: int, hi: int) {
    IsInt32(lo) && IsInt32(hi) && lo <= hi
  }

  /** What the vendor may report. */
  predicate Reportable(c: CBConfig) {
    && Int32Range(c.startOfServiceId, c.endOfServiceId) && Int32Range(c.startOfCodeScheme, c.endOfCodeScheme)
    && 0 <= c.selected < 0x100
  }

  /** The two ends a text stands for, as they are stored. */
  function ParseRange(value: string, max: int): Option<(int, int)> {
    match SplitValue(value)
    case None => None
    case Some(p) => Some((ToInt(p.0, max), ToInt(p.1, max)))
  }

  lemma ParsePartIsRanges(mid: string, info: CBConfigInfo, max: int)
    ensures ParsePart(mid, info, max) ==
            match (ParseRange(mid, max), ParseRange(info.dcss, max))
            case (Some(m), Some(d)) => Some(CBConfig(m.0, m.1, d.0, d.1, Uint8(info.mode)))
            case _ => None
  {
  }

  // ----- one range

  lemma DigitsOnly(s: string, c: char)
    requires (forall i :: 0 <= i < |s| ==> IsDecDigit(s[i])) && !IsDecDigit(c)
    ensures c !in s
  {
  }

  lemma ToIntOfNumber(n: nat, rest: string, max: int)
    requires IsInt32(n) && LongMax(max) && Stops(rest)
    ensures ToInt(NatText(n) + rest, max) == n
  {
    StrtolOfNat(n, rest, max);
  }

  lemma NegativeIsRefused(lo: int, hi: int, tail: string)
    requires lo < 0
    ensures SplitValue(RangeText(lo, hi) + tail) == None
  {
    var t := RangeText(lo, hi) + tail;
    assert t[0] == '-';
    CharOccurs(t, '-', 0);
  }

  /** A single number, followed by nothing that contains a '-'. */
  lemma SingleParses(n: nat, tail: string, max: int)
    requires IsInt32(n) && LongMax(max) && Stops(tail) && '-' !in tail
    ensures ParseRange(NatText(n) + tail, max) == Some((n, n))
  {
    var t := NatText(n) + tail;
    DigitsOnly(NatText(n), '-');
    FindChar(t, '-', "");
    ToIntOfNumber(n, tail, max);
  }

  lemma PairSplits(a: string, b: string)
    requires a != "" && b != "" && '-' !in a
    ensures SplitValue(a + "-" + b) == Some((a, b))
  {
    var t := a + ['-'] + b;
    FindChar(a, '-', b);
    assert t[..|a|] == a && t[|a| + 1..] == b;
  }

  lemma PairParses(lo: nat, hi: nat, tail: string, max: int)
    requires IsInt32(lo) && IsInt32(hi) && LongMax(max) && Stops(tail)
    ensures ParseRange(NatText(lo) + "-" + NatText(hi) + tail, max) == Some((lo, hi))
  {
    var a, b := NatText(lo), NatText(hi) + tail;
    Assoc(a + "-", NatText(hi), tail);
    DigitsOnly(a, '-');
    PairSplits(a, b);
    assert a == a + "";
    ToIntOfNumber(lo, "", max);
    ToIntOfNumber(hi, tail, max);
  }

  /** A printed range reads back exactly if it does not start below zero; what follows it must not be taken for
      a digit, nor, after a single number, hold a '-'. */
  lemma RangeRoundTrip(lo: int, hi: int, tail: string, max: int)
    requires Int32Range(lo, hi) && LongMax(max) && Stops(tail) && (lo == hi ==> '-' !in tail)
    ensures ParseRange(RangeText(lo, hi) + tail, max) == if lo >= 0 then Some((lo, hi)) else None
  {
    if lo < 0 {
      NegativeIsRefused(lo, hi, tail);
    } else if lo == hi {
      SingleParses(lo, tail, max);
    } else {
      PairParses(lo, hi, tail, max);
    }
  }

  lemma NoComma(lo: int, hi: int)
    ensures ',' !in RangeText(lo, hi)
  {
    DigitsOnly(NatText(if lo < 0 then -lo else lo), ',');
    DigitsOnly(NatText(if hi < 0 then -hi else hi), ',');
  }

  // ----- lists

  lemma {:induction false} ListedTail(texts: seq<string>, n: nat)
    requires 0 < n <= |texts|
    ensures ListedUpTo(texts, n) == Item(texts[0]) + ListedUpTo(texts[1..], n - 1)
  {
    if n > 1 {
      ListedTail(texts, n - 1);
      assert texts[n - 1] == texts[1..][n - 2];
      Assoc(Item(texts[0]), ListedUpTo(texts[1..], n - 2), Item(texts[n - 1]));
    } else {
      assert ListedUpTo(texts, 0) == "" && ListedUpTo(texts[1..], 0) == "";
    }
  }

  /** A printed list is its texts joined by commas, and a final comma. */
  lemma {:induction false} ListedIsJoin(texts: seq<string>)
    requires texts != []
    ensures Listed(texts) == Item(Join(texts, ","))
    decreases |texts|
  {
    ListedTail(texts, |texts|);
    if |texts| > 1 {
      ListedIsJoin(texts[1..]);
      Assoc(Item(texts[0]), Join(texts[1..], ","), ",");
    } else {
      assert ListedUpTo(texts[1..], 0) == "";
    }
  }

  function DropLast(s: string): string
    requires s != ""
  {
    s[..|s| - 1]
  }

  /** Without its final comma a printed list splits into its texts again. */
  lemma TrimmedSplits(texts: seq<string>)
    requires texts != [] && (forall i :: 0 <= i < |texts| ==> ',' !in texts[i]) && texts[0] != ""
    ensures Listed(texts) != "" && Parts(DropLast(Listed(texts))) == texts
  {
    ListedIsJoin(texts);
    var j := Join(texts, ",");
    assert DropLast(Item(j)) == j;
    SplitJoin(texts, ',');
    assert |j| >= |texts[0]|;
  }

  /** With its final comma it splits into the texts and an empty part. */
  lemma UntrimmedSplits(texts: seq<string>)
    requires texts != [] && forall i :: 0 <= i < |texts| ==> ',' !in texts[i]
    ensures Parts(Listed(texts)) == texts + [""]
  {
    ListedIsJoin(texts);
    JoinSnocEmpty(texts);
    SplitJoin(texts + [""], ',');
  }

  lemma {:induction false} JoinSnocEmpty(texts: seq<string>)
    requires texts != []
    ensures Join(texts + [""], ",") == Join(texts, ",") + ","
    decreases |texts|
  {
    if |texts| > 1 {
      assert (texts + [""])[1..] == texts[1..] + [""];
      JoinSnocEmpty(texts[1..]);
    } else {
      assert (texts + [""])[1..] == [""];
    }
  }

  lemma MidTextsAreClean(cfg: seq<CBConfig>)
    ensures forall i :: 0 <= i < |cfg| ==> ',' !in MidTexts(cfg)[i] && MidTexts(cfg)[i] != ""
  {
    forall i | 0 <= i < |cfg| ensures ',' !in MidTexts(cfg)[i] && MidTexts(cfg)[i] != "" {
      NoComma(cfg[i].startOfServiceId, cfg[i].endOfServiceId);
    }
  }

  function PrintedMids(cfg: seq<CBConfig>): string {
    Listed(MidTexts(cfg))
  }

  /** One printed service-id range, with any coding schemes that are themselves a range. */
  lemma ServiceIdPart(c: CBConfig, info: CBConfigInfo, max: int)
    requires Reportable(c) && LongMax(max) && SplitValue(info.dcss).Some?
    ensures var r := ParsePart(MidText(c), info, max);
            && (r.Some? <==> 0 <= c.startOfServiceId)
            && (r.Some? ==>
                  r.value.startOfServiceId == c.startOfServiceId && r.value.endOfServiceId == c.endOfServiceId)
  {
    RangeRoundTrip(c.startOfServiceId, c.endOfServiceId, "", max);
    assert MidText(c) + "" == MidText(c);
    ParsePartIsRanges(MidText(c), info, max);
  }

  /** The printed service ids, final comma removed, with any coding schemes that are themselves a range: the
      parser gives the same ranges in the same order if none starts below zero, and refuses otherwise. */
  lemma ServiceIdsRoundTrip(cfg: seq<CBConfig>, mode: int, dcss: string, max: int)
    requires cfg != [] && (forall i :: 0 <= i < |cfg| ==> Reportable(cfg[i])) && LongMax(max) && SplitValue(dcss).Some?
    ensures PrintedMids(cfg) != ""
    ensures var r := Parse(CBConfigInfo(mode, DropLast(PrintedMids(cfg)), dcss), max);
            && (r.Some? <==> forall i :: 0 <= i < |cfg| ==> 0 <= cfg[i].startOfServiceId)
            && (r.Some? ==> |r.value| == |cfg|)
            && (r.Some? ==> forall i :: 0 <= i < |cfg| ==>
                  && r.value[i].startOfServiceId == cfg[i].startOfServiceId
                  && r.value[i].endOfServiceId == cfg[i].endOfServiceId)
  {
    MidTextsAreClean(cfg);
    TrimmedSplits(MidTexts(cfg));
    var info := CBConfigInfo(mode, DropLast(PrintedMids(cfg)), dcss);
    var f := Parser(info, max);
    forall i | 0 <= i < |cfg|
      ensures f(MidTexts(cfg)[i]).Some? <==> 0 <= cfg[i].startOfServiceId
      ensures f(MidTexts(cfg)[i]).Some? ==>
                var c := f(MidTexts(cfg)[i]).value;
                c.startOfServiceId == cfg[i].startOfServiceId && c.endOfServiceId == cfg[i].endOfServiceId
    {
      ServiceIdPart(cfg[i], info, max);
    }
    MappedServiceIds(MidTexts(cfg), f, cfg);
  }

  lemma MappedServiceIds(texts: seq<string>, f: string -> Option<CBConfig>, cfg: seq<CBConfig>)
    requires |texts| == |cfg|
    requires forall i :: 0 <= i < |cfg| ==> (f(texts[i]).Some? <==> 0 <= cfg[i].startOfServiceId)
    requires forall i :: 0 <= i < |cfg| && f(texts[i]).Some? ==>
      var c := f(texts[i]).value;
      c.startOfServiceId == cfg[i].startOfServiceId && c.endOfServiceId == cfg[i].endOfServiceId
    ensures var r := MapAll(texts, f);
            && (r.Some? <==> forall i :: 0 <= i < |cfg| ==> 0 <= cfg[i].startOfServiceId)
            && (r.Some? ==> |r.value| == |cfg|)
            && (r.Some? ==> forall i :: 0 <= i < |cfg| ==>
                  && r.value[i].startOfServiceId == cfg[i].startOfServiceId
                  && r.value[i].endOfServiceId == cfg[i].endOfServiceId)
  {
    MapUpToIs(texts, f, |texts|);
  }

  /** The printed text as it is, with its final comma, is always refused. */
  lemma PrintedIsRefused(cfg: seq<CBConfig>, mode: int, dcss: string, max: int)
    requires cfg != []
    ensures Parse(CBConfigInfo(mode, PrintedMids(cfg), dcss), max) == None
  {
    MidTextsAreClean(cfg);
    UntrimmedSplits(MidTexts(cfg));
    var info := CBConfigInfo(mode, PrintedMids(cfg), dcss);
    var f := Parser(info, max);
    assert f(Parts(info.mids)[|cfg|]) == None;
    MapUpToIs(Parts(info.mids), f, |cfg| + 1);
  }

  // ----- whole configurations

  function PrintedDcss(cfg: seq<CBConfig>): string {
    Listed(DcsTexts(cfg))
  }

  predicate Uniform(cfg: seq<CBConfig>)
    requires cfg != []
  {
    forall c | c in cfg ::
      && c.startOfCodeScheme == cfg[0].startOfCodeScheme && c.endOfCodeScheme == cfg[0].endOfCodeScheme
      && c.selected == cfg[0].selected
  }

  lemma {:induction false} ListedAvoids(texts: seq<string>, n: nat, ch: char)
    requires n <= |texts| && ch != ',' && forall i :: 0 <= i < |texts| ==> ch !in texts[i]
    ensures ch !in ListedUpTo(texts, n)
  {
    if n > 0 {
      ListedAvoids(texts, n - 1, ch);
    }
  }

  lemma Regroup(text: string, rest: string)
    ensures Item(text) + rest == text + ("," + rest)
  {
  }

  /** What follows the first text of a list, its comma included. */
  function ListTail(texts: seq<string>): string
    requires texts != []
  {
    "," + ListedUpTo(texts[1..], |texts| - 1)
  }

  lemma ListedStarts(texts: seq<string>)
    requires texts != []
    ensures Listed(texts) == texts[0] + ListTail(texts)
  {
    var rest := ListedUpTo(texts[1..], |texts| - 1);
    assert Listed(texts) == Item(texts[0]) + rest by {
      ListedTail(texts, |texts|);
    }
    Regroup(texts[0], rest);
  }

  lemma PrintedDcssStarts(cfg: seq<CBConfig>)
    requires cfg != []
    ensures PrintedDcss(cfg) == DcsText(cfg[0]) + ListTail(DcsTexts(cfg))
  {
    var texts := DcsTexts(cfg);
    assert texts[0] == DcsText(cfg[0]);
    ListedStarts(texts);
  }

  /** After a single number, the printed schemes of a uniform list hold no '-'. */
  lemma UniformTail(cfg: seq<CBConfig>)
    requires cfg != [] && Uniform(cfg)
    requires 0 <= cfg[0].startOfCodeScheme == cfg[0].endOfCodeScheme
    ensures '-' !in ListTail(DcsTexts(cfg))
  {
    var texts := DcsTexts(cfg);
    forall i | 0 <= i < |texts| ensures '-' !in texts[i] {
      assert cfg[i] in cfg;
      DigitsOnly(NatText(cfg[0].startOfCodeScheme), '-');
    }
    ListedAvoids(texts[1..], |texts| - 1, '-');
  }

  /** The printed coding schemes, final comma and all, parse to the first range if all are the same. */
  lemma SchemesRoundTrip(cfg: seq<CBConfig>, max: int)
    requires cfg != [] && (forall c | c in cfg :: Reportable(c)) && LongMax(max) && Uniform(cfg)
    requires 0 <= cfg[0].startOfCodeScheme
    ensures ParseRange(PrintedDcss(cfg), max) == Some((cfg[0].startOfCodeScheme, cfg[0].endOfCodeScheme))
  {
    var lo, hi := cfg[0].startOfCodeScheme, cfg[0].endOfCodeScheme;
    assert Reportable(cfg[0]);
    PrintedDcssStarts(cfg);
    if lo == hi {
      UniformTail(cfg);
    }
    RangeRoundTrip(lo, hi, ListTail(DcsTexts(cfg)), max);
  }

  lemma NegativeSchemeIsRefused(cfg: seq<CBConfig>)
    requires cfg != [] && cfg[0].startOfCodeScheme < 0
    ensures SplitValue(PrintedDcss(cfg)) == None
  {
    PrintedDcssStarts(cfg);
    NegativeIsRefused(cfg[0].startOfCodeScheme, cfg[0].endOfCodeScheme, ListTail(DcsTexts(cfg)));
  }

  /** What `GetCBConfigInfo` reports, with the final comma of the service ids removed. */
  function Trimmed(cfg: seq<CBConfig>): CBConfigInfo
    requires cfg != [] && PrintedMids(cfg) != ""
  {
    CBConfigInfo(cfg[0].selected, DropLast(PrintedMids(cfg)), PrintedDcss(cfg))
  }

  /** Parsing inverts printing for a whole configuration exactly when no service id and no coding scheme is
      negative and all entries agree on the coding schemes and on being selected. */
  lemma ConfigRoundTripIff(cfg: seq<CBConfig>, max: int)
    requires cfg != [] && (forall c | c in cfg :: Reportable(c)) && LongMax(max)
    ensures PrintedMids(cfg) != ""
    ensures Parse(Trimmed(cfg), max) == Some(cfg) <==>
            (forall c | c in cfg :: 0 <= c.startOfServiceId) && Uniform(cfg) && 0 <= cfg[0].startOfCodeScheme
  {
    MidTextsAreClean(cfg);
    TrimmedSplits(MidTexts(cfg));
    assert cfg[0] in cfg;
    if cfg[0].startOfCodeScheme < 0 {
      NegativeSchemeIsRefused(cfg);
      ParseIs(Trimmed(cfg), max, cfg);
      assert ParsePart(MidTexts(cfg)[0], Trimmed(cfg), max) == None;
    } else {
      if Uniform(cfg) {
        SchemesRoundTrip(cfg, max);
        if forall c | c in cfg :: 0 <= c.startOfServiceId {
          UniformRoundTrip(cfg, max);
        }
      }
      if Parse(Trimmed(cfg), max) == Some(cfg) {
        ParsedIsUniform(cfg, max);
      }
    }
  }

  /** One printed service-id range, read back with coding schemes that read back. */
  lemma PartRoundTrip(c: CBConfig, info: CBConfigInfo, max: int)
    requires Reportable(c) && LongMax(max) && 0 <= c.startOfServiceId && c.selected == Uint8(info.mode)
    requires ParseRange(info.dcss, max) == Some((c.startOfCodeScheme, c.endOfCodeScheme))
    ensures ParsePart(MidText(c), info, max) == Some(c)
  {
    RangeRoundTrip(c.startOfServiceId, c.endOfServiceId, "", max);
    assert MidText(c) + "" == MidText(c);
    ParsePartIsRanges(MidText(c), info, max);
  }

  lemma UniformPart(cfg: seq<CBConfig>, i: nat, info: CBConfigInfo, max: int)
    requires i < |cfg| && (forall c | c in cfg :: Reportable(c)) && LongMax(max) && Uniform(cfg)
    requires 0 <= cfg[i].startOfServiceId && info.mode == cfg[0].selected
    requires ParseRange(info.dcss, max) == Some((cfg[0].startOfCodeScheme, cfg[0].endOfCodeScheme))
    ensures ParsePart(MidText(cfg[i]), info, max) == Some(cfg[i])
  {
    assert cfg[i] in cfg && cfg[0] in cfg;
    PartRoundTrip(cfg[i], info, max);
  }

  lemma UniformRoundTrip(cfg: seq<CBConfig>, max: int)
    requires cfg != [] && (forall c | c in cfg :: Reportable(c)) && LongMax(max) && Uniform(cfg)
    requires PrintedMids(cfg) != "" && Parts(DropLast(PrintedMids(cfg))) == MidTexts(cfg)
    requires ParseRange(PrintedDcss(cfg), max) == Some((cfg[0].startOfCodeScheme, cfg[0].endOfCodeScheme))
    requires forall c | c in cfg :: 0 <= c.startOfServiceId
    ensures Parse(Trimmed(cfg), max) == Some(cfg)
  {
    var info := Trimmed(cfg);
    var f := Parser(info, max);
    forall i | 0 <= i < |cfg| ensures f(MidTexts(cfg)[i]) == Some(cfg[i]) {
      assert cfg[i] in cfg;
      UniformPart(cfg, i, info, max);
    }
    MapAllIs(MidTexts(cfg), f, cfg);
  }

  lemma ParseIs(info: CBConfigInfo, max: int, cfg: seq<CBConfig>)
    requires |Parts(info.mids)| == |cfg|
    ensures Parse(info, max) == Some(cfg) <==>
            forall i :: 0 <= i < |cfg| ==> ParsePart(Parts(info.mids)[i], info, max) == Some(cfg[i])
  {
    MapAllIs(Parts(info.mids), Parser(info, max), cfg);
  }

  lemma MapAllIs<T>(xs: seq<string>, f: string -> Option<T>, ys: seq<T>)
    requires |xs| == |ys|
    ensures MapAll(xs, f) == Some(ys) <==> forall i :: 0 <= i < |xs| ==> f(xs[i]) == Some(ys[i])
  {
    MapUpToIs(xs, f, |xs|);
    if forall i :: 0 <= i < |xs| ==> f(xs[i]) == Some(ys[i]) {
      assert MapAll(xs, f).value == ys;
    }
  }

  lemma ParsedIsUniform(cfg: seq<CBConfig>, max: int)
    requires cfg != [] && (forall c | c in cfg :: Reportable(c)) && LongMax(max)
    requires PrintedMids(cfg) != "" && Parts(DropLast(PrintedMids(cfg))) == MidTexts(cfg)
    requires Parse(Trimmed(cfg), max) == Some(cfg)
    ensures (forall c | c in cfg :: 0 <= c.startOfServiceId) && Uniform(cfg)
  {
    ParseIs(Trimmed(cfg), max, cfg);
    forall i | 0 <= i < |cfg|
      ensures 0 <= cfg[i].startOfServiceId && cfg[i].selected == Uint8(cfg[0].selected)
      ensures ParseRange(PrintedDcss(cfg), max) == Some((cfg[i].startOfCodeScheme, cfg[i].endOfCodeScheme))
    {
      assert cfg[i] in cfg;
      RangeRoundTrip(cfg[i].startOfServiceId, cfg[i].endOfServiceId, "", max);
      assert MidTexts(cfg)[i] + "" == MidTexts(cfg)[i];
      ParsePartIsRanges(MidTexts(cfg)[i], Trimmed(cfg), max);
    }
  }
}
