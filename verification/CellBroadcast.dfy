/** Cell-broadcast configuration: the range lists of +CSCB (3GPP TS 27.005, section 3.3.4) parsed from a
    request and printed for a response. */
module CellBroadcast {
  import opened Wrappers
  import opened MachineInts
  import opened CText

  const MAX_CHN_LEN := 50000
  const SIZEOF_CB_CONFIG := 20
  const HRIL_ERR_NULL_POINT := -1
  const HRIL_ERR_SUCCESS := 0
  const HRIL_ERR_INVALID_PARAMETER := 2
  const HRIL_ERR_MEMORY_FULL := 3

  datatype CBConfig = CBConfig(startOfServiceId: int, endOfServiceId: int,
                               startOfCodeScheme: int, endOfCodeScheme: int, selected: int)

  datatype CBConfigInfo = CBConfigInfo(mode: int, mids: string, dcss: string)

  // ----- parsing

  function Parts(mids: string): seq<string> {
    if mids == "" then [] else Split(mids, ",")
  }

  /** Cuts the delimiter's occurrences out of `src` from the left. */
  method SplitMids(src: string, delimiter: string) returns (dest: seq<string>)
    requires delimiter != ""
    ensures dest == if src == "" then [] else Split(src, delimiter)
  {
    dest := [];
    if src == "" {
      return;
    }
    var rest := src;
    var pos := Find(rest, delimiter);
    while pos != -1
      invariant pos == Find(rest, delimiter)
      invariant dest + Split(rest, delimiter) == Split(src, delimiter)
      decreases |rest|
    {
      Assoc(dest, [rest[..pos]], Split(rest[pos + |delimiter|..], delimiter));
      dest := dest + [rest[..pos]];
      rest := rest[pos + |delimiter|..];
      pos := Find(rest, delimiter);
    }
    dest := dest + [rest];
  }

  /** `a-b` gives (a, b), a text without '-' stands for both ends; empty ends are refused. */
  function SplitValue(value: string): Option<(string, string)> {
    if value == "" then None
    else
      var pos := Find(value, "-");
      if pos == 0 || pos == |value| - 1 then None
      else if pos == -1 then Some((value, value))
      else Some((value[..pos], value[pos + 1..]))
  }

  /** A number as `strtol` reads it, stored in an int32. */
  function ToInt(text: string, max: int): int {
    Int32(Strtol(text, 10, max))
  }

  /** One part of the list with the coding schemes: both must be ranges. */
  function ParsePart(mid: string, info: CBConfigInfo, max: int): Option<CBConfig> {
    var mids, dcs := SplitValue(mid), SplitValue(info.dcss);
    if mids.None? || dcs.None? then None
    else Some(CBConfig(ToInt(mids.value.0, max), ToInt(mids.value.1, max),
                       ToInt(dcs.value.0, max), ToInt(dcs.value.1, max), Uint8(info.mode)))
  }

  function Parser(info: CBConfigInfo, max: int): string -> Option<CBConfig> {
    mid => ParsePart(mid, info, max)
  }

  /** A list is accepted when each of its parts is; the entries follow the parts. */
  function Parse(info: CBConfigInfo, max: int): Option<seq<CBConfig>> {
    MapAll(Parts(info.mids), Parser(info, max))
  }

  /** Collects what `parse` makes of the parts, up to the first it refuses. */
  method CollectParts(mids: seq<string>, parse: string -> Option<CBConfig>)
    returns (ok: bool, cellBroadcastInfo: seq<CBConfig>)
    ensures ok <==> MapAll(mids, parse).Some?
    ensures ok ==> Some(cellBroadcastInfo) == MapAll(mids, parse)
  {
    cellBroadcastInfo := [];
    var n := 0;
    while n < |mids|
      invariant 0 <= n <= |mids|
      invariant MapUpTo(mids, parse, n) == Some(cellBroadcastInfo)
    {
      var info := parse(mids[n]);
      MapStep(mids, parse, n, cellBroadcastInfo, info);
      if info.None? {
        return false, cellBroadcastInfo;
      }
      cellBroadcastInfo := cellBroadcastInfo + [info.value];
      n := n + 1;
    }
    return true, cellBroadcastInfo;
  }

  method GetHRilCBConfigInfo(broadcastInfo: CBConfigInfo, max: int) returns (ok: bool, cellBroadcastInfo: seq<CBConfig>)
    ensures ok <==> Parse(broadcastInfo, max).Some?
    ensures ok ==> Some(cellBroadcastInfo) == Parse(broadcastInfo, max)
  {
    var mids := SplitMids(broadcastInfo.mids, ",");
    ok, cellBroadcastInfo := CollectParts(mids, Parser(broadcastInfo, max));
  }

  // ----- what is accepted

  /** `t` is the range from `a` to `b`: without a '-' both ends are the text itself, otherwise its first '-' stands
      between them, and neither is empty. */
  ghost predicate Splits(t: string, a: string, b: string) {
    || (t != "" && '-' !in t && a == t && b == t)
    || (a != "" && b != "" && '-' !in a && t == a + "-" + b)
  }

  ghost predicate IsRange(t: string) {
    exists a, b :: Splits(t, a, b)
  }

  lemma SplitsGives(t: string, a: string, b: string)
    requires Splits(t, a, b)
    ensures SplitValue(t) == Some((a, b))
  {
    NotBeforeFind(t, '-');
    if '-' in t {
      FindChar(a, '-', b);
      assert t == a + ['-'] + b;
      assert t[..|a|] == a && t[|a| + 1..] == b;
    }
  }

  lemma GivenSplits(t: string)
    requires SplitValue(t).Some?
    ensures Splits(t, SplitValue(t).value.0, SplitValue(t).value.1)
  {
    NotBeforeFind(t, '-');
    var pos := Find(t, "-");
    if pos >= 0 {
      assert t == t[..pos] + "-" + t[pos + 1..];
    }
  }

  /** A text is accepted if and only if it is such a range, and then gives its ends. */
  lemma SplitValueIff(t: string, a: string, b: string)
    ensures SplitValue(t) == Some((a, b)) <==> Splits(t, a, b)
    ensures SplitValue(t).Some? <==> IsRange(t)
  {
    if SplitValue(t).Some? {
      GivenSplits(t);
    }
    if Splits(t, a, b) {
      SplitsGives(t, a, b);
    }
    if IsRange(t) {
      var c, d :| Splits(t, c, d);
      SplitsGives(t, c, d);
    }
  }

  /** `mids` is the list of `parts`, joined by commas, all of them ranges. */
  ghost predicate RangeList(mids: string, parts: seq<string>) {
    parts != [] && mids == Join(parts, ",") && forall i :: 0 <= i < |parts| ==> ',' !in parts[i] && IsRange(parts[i])
  }

  lemma RangeListSplits(mids: string, parts: seq<string>)
    requires RangeList(mids, parts)
    ensures mids != "" && Parts(mids) == parts
  {
    assert IsRange(parts[0]) && parts[0] != "";
    SplitJoin(parts, ',');
  }

  lemma CleanAvoids(part: string, c: char)
    requires !Occurs(part, [c])
    ensures c !in part
  {
    forall k | 0 <= k < |part| ensures part[k] != c {
      CharOccurs(part, c, k);
    }
  }

  lemma PartsJoin(mids: string)
    requires mids != ""
    ensures Parts(mids) != [] && mids == Join(Parts(mids), ",")
    ensures forall i :: 0 <= i < |Parts(mids)| ==> ',' !in Parts(mids)[i]
  {
    JoinSplit(mids, ",");
    forall i | 0 <= i < |Parts(mids)| ensures ',' !in Parts(mids)[i] {
      PartsAreClean(mids, ",", i);
      CleanAvoids(Parts(mids)[i], ',');
    }
  }

  /** The entry a range of service ids and one of coding schemes stand for. */
  lemma PartIsEntry(mid: string, info: CBConfigInfo, max: int, a: string, b: string, c: string, d: string)
    requires Splits(mid, a, b) && Splits(info.dcss, c, d)
    ensures Parser(info, max)(mid) ==
            Some(CBConfig(Int32(Strtol(a, 10, max)), Int32(Strtol(b, 10, max)),
                          Int32(Strtol(c, 10, max)), Int32(Strtol(d, 10, max)), info.mode % 256))
  {
    SplitsGives(mid, a, b);
    SplitsGives(info.dcss, c, d);
  }

  lemma ParserAccepts(mid: string, info: CBConfigInfo, max: int)
    ensures Parser(info, max)(mid).Some? <==> IsRange(mid) && IsRange(info.dcss)
  {
    SplitValueIff(mid, "", "");
    SplitValueIff(info.dcss, "", "");
  }

  /** The service ids are a list of ranges, joined by commas, and the coding schemes are a range. */
  ghost predicate IsRequest(info: CBConfigInfo) {
    IsRange(info.dcss) && exists parts :: RangeList(info.mids, parts)
  }

  /** The entries are those of the parts, in order. */
  ghost predicate StandForParts(entries: seq<CBConfig>, info: CBConfigInfo, max: int, parts: seq<string>) {
    && |entries| == |parts|
    && forall i, a, b, c, d :: 0 <= i < |parts| && Splits(parts[i], a, b) && Splits(info.dcss, c, d) ==>
         entries[i] == CBConfig(Int32(Strtol(a, 10, max)), Int32(Strtol(b, 10, max)),
                                Int32(Strtol(c, 10, max)), Int32(Strtol(d, 10, max)), info.mode % 256)
  }

  ghost predicate StandFor(entries: seq<CBConfig>, info: CBConfigInfo, max: int) {
    forall parts | RangeList(info.mids, parts) :: StandForParts(entries, info, max, parts)
  }

  /** A request that is not empty is accepted exactly if it is of that form. */
  lemma AcceptedIff(info: CBConfigInfo, max: int)
    requires info.mids != ""
    ensures Parse(info, max).Some? <==> IsRequest(info)
  {
    var parts, f := Parts(info.mids), Parser(info, max);
    PartsJoin(info.mids);
    MapUpToIs(parts, f, |parts|);
    forall i | 0 <= i < |parts| ensures f(parts[i]).Some? <==> IsRange(parts[i]) && IsRange(info.dcss) {
      ParserAccepts(parts[i], info, max);
    }
    if Parse(info, max).Some? {
      assert f(parts[0]).Some? && RangeList(info.mids, parts);
    }
    if ps :| RangeList(info.mids, ps) {
      RangeListSplits(info.mids, ps);
    }
  }

  /** Then each part gives its entry, in order. */
  lemma EntriesAre(info: CBConfigInfo, max: int, parts: seq<string>)
    requires Parse(info, max).Some? && RangeList(info.mids, parts)
    ensures StandForParts(Parse(info, max).value, info, max, parts)
  {
    var f := Parser(info, max);
    RangeListSplits(info.mids, parts);
    MapUpToIs(parts, f, |parts|);
    forall i, a, b, c, d | 0 <= i < |parts| && Splits(parts[i], a, b) && Splits(info.dcss, c, d)
      ensures Parse(info, max).value[i] ==
              CBConfig(Int32(Strtol(a, 10, max)), Int32(Strtol(b, 10, max)),
                       Int32(Strtol(c, 10, max)), Int32(Strtol(d, 10, max)), info.mode % 256)
    {
      PartIsEntry(parts[i], info, max, a, b, c, d);
    }
  }

  // ----- the request

  /** An accepted list of L characters has at most (L + 1) / 2 parts. */
  lemma {:induction false} PartsAreFew(parts: seq<string>, d: string)
    requires parts != [] && |d| == 1 && forall i :: 0 <= i < |parts| ==> parts[i] != ""
    ensures 2 * |parts| <= |Join(parts, d)| + 1
    decreases parts
  {
    if |parts| > 1 {
      PartsAreFew(parts[1..], d);
    }
  }

  lemma AcceptedIsSmall(info: CBConfigInfo, max: int)
    requires Parse(info, max).Some? && info.mids != ""
    ensures 0 < |Parse(info, max).value| && 2 * |Parse(info, max).value| <= |info.mids| + 1
  {
    var parts := Parts(info.mids);
    JoinSplit(info.mids, ",");
    var f := Parser(info, max);
    MapUpToIs(parts, f, |parts|);
    forall i | 0 <= i < |parts| ensures parts[i] != "" {
      assert f(parts[i]).Some?;
    }
    PartsAreFew(parts, ",");
  }

  /** What the vendor is called with: the copied entries and their length in bytes. */
  datatype VendorCall = VendorCall(info: seq<CBConfig>, len: nat)

  method CopyEntries(configInfo: seq<CBConfig>) returns (info: seq<CBConfig>)
    ensures info == configInfo
  {
    info := [];
    var locate := 0;
    while locate < |configInfo|
      invariant 0 <= locate <= |configInfo| && info == configInfo[..locate]
    {
      var c := configInfo[locate];
      var copy := CBConfig(c.startOfServiceId, c.endOfServiceId, c.startOfCodeScheme, c.endOfCodeScheme, c.selected);
      info := info + [copy];
      locate := locate + 1;
    }
  }

  /** `sizeof(HRilCBConfigInfo) * n` in a uint32. */
  function ByteLength(n: nat): (len: nat)
    ensures n <= MAX_CHN_LEN ==> len == SIZEOF_CB_CONFIG * n
  {
    Uint32(SIZEOF_CB_CONFIG * n)
  }

  lemma AcceptanceIs(info: CBConfigInfo, max: int)
    ensures info.dcss != "" && info.mids != "" && Parse(info, max).Some? <==> IsRequest(info)
  {
    if info.mids != "" {
      AcceptedIff(info, max);
    } else if parts :| RangeList(info.mids, parts) {
      RangeListSplits(info.mids, parts);
    }
  }

  lemma EntriesStandFor(info: CBConfigInfo, max: int)
    requires Parse(info, max).Some?
    ensures StandFor(Parse(info, max).value, info, max)
  {
    forall parts | RangeList(info.mids, parts) ensures StandForParts(Parse(info, max).value, info, max, parts) {
      EntriesAre(info, max, parts);
    }
  }

  /** `vendor`: the vendor implements the request; `memory`: the request record could be allocated. The check
      of the entry count against 50000 never fires, and the byte length does not wrap. */
  method SetCBConfig(broadcastInfo: CBConfigInfo, max: int, vendor: bool, memory: bool)
    returns (result: int, call: Option<VendorCall>)
    ensures result == HRIL_ERR_INVALID_PARAMETER <==>
              |broadcastInfo.mids| >= MAX_CHN_LEN || broadcastInfo.dcss == "" || broadcastInfo.mids == ""
              || Parse(broadcastInfo, max).None?
    ensures result != HRIL_ERR_INVALID_PARAMETER <==>
              |broadcastInfo.mids| < 50000 && IsRequest(broadcastInfo)
    ensures result != HRIL_ERR_INVALID_PARAMETER ==>
              result ==
                if !vendor then HRIL_ERR_NULL_POINT else if !memory then HRIL_ERR_MEMORY_FULL else HRIL_ERR_SUCCESS
    ensures call.Some? <==> result == HRIL_ERR_SUCCESS
    ensures call.Some? ==> Some(call.value.info) == Parse(broadcastInfo, max)
    ensures call.Some? ==> StandFor(call.value.info, broadcastInfo, max)
    ensures call.Some? ==> 0 < |call.value.info| <= 25000 && call.value.len == SIZEOF_CB_CONFIG * |call.value.info|
  {
    call := None;
    AcceptanceIs(broadcastInfo, max);
    if |broadcastInfo.mids| + 1 > MAX_CHN_LEN || |broadcastInfo.dcss| == 0 {
      return HRIL_ERR_INVALID_PARAMETER, call;
    }
    var ok, configInfo := GetHRilCBConfigInfo(broadcastInfo, max);
    if !ok {
      return HRIL_ERR_INVALID_PARAMETER, call;
    }
    if broadcastInfo.mids != "" {
      AcceptedIsSmall(broadcastInfo, max);
      EntriesStandFor(broadcastInfo, max);
    }
    if |configInfo| == 0 || |configInfo| > MAX_CHN_LEN {
      return HRIL_ERR_INVALID_PARAMETER, call;
    }
    var info := CopyEntries(configInfo);
    var len := ByteLength(|configInfo|);
    if !vendor {
      return HRIL_ERR_NULL_POINT, call;
    }
    if !memory {
      return HRIL_ERR_MEMORY_FULL, call;
    }
    return HRIL_ERR_SUCCESS, Some(VendorCall(info, len));
  }

  // ----- printing

  function RangeText(lo: int, hi: int): string {
    if lo < hi then ToString(lo) + "-" + ToString(hi) else ToString(lo)
  }

  function MidText(c: CBConfig): string {
    RangeText(c.startOfServiceId, c.endOfServiceId)
  }

  function DcsText(c: CBConfig): string {
    RangeText(c.startOfCodeScheme, c.endOfCodeScheme)
  }

  predicate Ascending(c: CBConfig) {
    c.startOfServiceId <= c.endOfServiceId && c.startOfCodeScheme <= c.endOfCodeScheme
  }

  predicate AscendingUpTo(cfg: seq<CBConfig>, n: nat)
    requires n <= |cfg|
  {
    n == 0 || (AscendingUpTo(cfg, n - 1) && Ascending(cfg[n - 1]))
  }

  lemma {:induction false} AscendingAll(cfg: seq<CBConfig>, n: nat)
    requires n <= |cfg|
    ensures AscendingUpTo(cfg, n) <==> forall c | c in cfg[..n] :: Ascending(c)
    ensures cfg[..|cfg|] == cfg
  {
    if n > 0 {
      AscendingAll(cfg, n - 1);
      assert cfg[..n] == cfg[..n - 1] + [cfg[n - 1]];
    }
  }

  /** A text with the comma that follows it. */
  function Item(text: string): string {
    text + ","
  }

  /** The first `n` texts, each followed by a comma. */
  function ListedUpTo(texts: seq<string>, n: nat): string
    requires n <= |texts|
  {
    if n == 0 then "" else ListedUpTo(texts, n - 1) + Item(texts[n - 1])
  }

  function Listed(texts: seq<string>): string {
    ListedUpTo(texts, |texts|)
  }

  function MidTexts(cfg: seq<CBConfig>): (r: seq<string>)
    ensures |r| == |cfg|
  {
    seq(|cfg|, i requires 0 <= i < |cfg| => MidText(cfg[i]))
  }

  function DcsTexts(cfg: seq<CBConfig>): (r: seq<string>)
    ensures |r| == |cfg|
  {
    seq(|cfg|, i requires 0 <= i < |cfg| => DcsText(cfg[i]))
  }

  method AppendRange(text: string, lo: int, hi: int) returns (r: string, ok: bool)
    ensures ok <==> lo <= hi
    ensures ok ==> r == text + Item(RangeText(lo, hi))
  {
    r := text;
    if lo > hi {
      return r, false;
    } else if lo < hi {
      r := r + (ToString(lo) + "-" + ToString(hi) + ",");
    } else {
      r := r + (ToString(lo) + ",");
    }
    ok := true;
  }

  /** A range is printed as both ends with a '-' between them, or as the one number they share. */
  lemma TextsAre(cfg: seq<CBConfig>, i: nat)
    requires i < |cfg|
    ensures MidTexts(cfg)[i] ==
            if cfg[i].startOfServiceId < cfg[i].endOfServiceId
            then ToString(cfg[i].startOfServiceId) + "-" + ToString(cfg[i].endOfServiceId)
            else ToString(cfg[i].startOfServiceId)
    ensures DcsTexts(cfg)[i] ==
            if cfg[i].startOfCodeScheme < cfg[i].endOfCodeScheme
            then ToString(cfg[i].startOfCodeScheme) + "-" + ToString(cfg[i].endOfCodeScheme)
            else ToString(cfg[i].startOfCodeScheme)
  {
  }

  /** A printed list is its texts joined by commas, and a comma. */
  lemma {:induction false} ListedIsJoined(texts: seq<string>, n: nat)
    requires 0 < n <= |texts|
    ensures ListedUpTo(texts, n) == Join(texts[..n], ",") + ","
    ensures texts[..|texts|] == texts
  {
    if n == 1 {
      assert texts[..1] == [texts[0]] && ListedUpTo(texts, 0) == "";
    } else {
      ListedIsJoined(texts, n - 1);
      JoinSnoc(texts[..n - 1], texts[n - 1], ",");
      assert texts[..n] == texts[..n - 1] + [texts[n - 1]];
    }
  }

  /** The two lists being printed. */
  datatype Printed = Printed(mids: string, dcss: string)

  function Append(p: Printed, c: CBConfig): Printed {
    Printed(p.mids + Item(MidText(c)), p.dcss + Item(DcsText(c)))
  }

  /** Both lists after the first `n` entries. */
  function PrintedUpTo(cfg: seq<CBConfig>, n: nat): Printed
    requires n <= |cfg|
  {
    Printed(ListedUpTo(MidTexts(cfg), n), ListedUpTo(DcsTexts(cfg), n))
  }

  lemma ListedNext(texts: seq<string>, n: nat, text: string)
    requires n < |texts| && texts[n] == text
    ensures ListedUpTo(texts, n + 1) == ListedUpTo(texts, n) + Item(text)
  {
  }

  lemma PrintedNext(cfg: seq<CBConfig>, n: nat)
    requires n < |cfg|
    ensures PrintedUpTo(cfg, n + 1) == Append(PrintedUpTo(cfg, n), cfg[n])
  {
    ListedNext(MidTexts(cfg), n, MidText(cfg[n]));
    ListedNext(DcsTexts(cfg), n, DcsText(cfg[n]));
  }

  /** Appends one entry to both lists, unless one of its ranges is inverted. */
  method AppendEntry(p: Printed, c: CBConfig) returns (r: Printed, ok: bool)
    ensures ok <==> Ascending(c)
    ensures ok ==> r == Append(p, c)
  {
    r := p;
    var mids, dcss;
    mids, ok := AppendRange(p.mids, c.startOfServiceId, c.endOfServiceId);
    if ok {
      dcss, ok := AppendRange(p.dcss, c.startOfCodeScheme, c.endOfCodeScheme);
      r := Printed(mids, dcss);
    }
  }

  /** The next entry joins the ones printed so far. */
  method AppendNext(cfg: seq<CBConfig>, n: nat, p: Printed) returns (r: Printed, ok: bool)
    requires n < |cfg| && p == PrintedUpTo(cfg, n) && AscendingUpTo(cfg, n)
    ensures ok <==> AscendingUpTo(cfg, n + 1)
    ensures ok ==> r == PrintedUpTo(cfg, n + 1)
  {
    PrintedNext(cfg, n);
    r, ok := AppendEntry(p, cfg[n]);
  }

  /** Prints all entries, or finds an inverted range. */
  method PrintEntries(cfg: seq<CBConfig>) returns (ok: bool, printed: Printed)
    ensures ok <==> AscendingUpTo(cfg, |cfg|)
    ensures ok ==> printed == PrintedUpTo(cfg, |cfg|)
  {
    printed := Printed("", "");
    var locate := 0;
    while locate < |cfg|
      invariant 0 <= locate <= |cfg| && AscendingUpTo(cfg, locate)
      invariant printed == PrintedUpTo(cfg, locate)
    {
      printed, ok := AppendNext(cfg, locate, printed);
      if !ok {
        InvertedStays(cfg, locate + 1, |cfg|);
        return;
      }
      locate := locate + 1;
    }
    ok := true;
  }

  lemma {:induction false} InvertedStays(cfg: seq<CBConfig>, m: nat, n: nat)
    requires m <= n <= |cfg| && !AscendingUpTo(cfg, m)
    ensures !AscendingUpTo(cfg, n)
  {
    if m < n {
      InvertedStays(cfg, m, n - 1);
    }
  }

  /** Prints the vendor's entries; an inverted range stops it, leaving only the mode. */
  method GetCBConfigInfo(cellBroadcastInfo: seq<CBConfig>) returns (ok: bool, broadcastInfo: CBConfigInfo)
    requires cellBroadcastInfo != []
    ensures ok <==> forall c | c in cellBroadcastInfo ::
                      c.startOfServiceId <= c.endOfServiceId && c.startOfCodeScheme <= c.endOfCodeScheme
    ensures broadcastInfo.mode == cellBroadcastInfo[0].selected
    ensures broadcastInfo.mids == if ok then Listed(MidTexts(cellBroadcastInfo)) else ""
    ensures broadcastInfo.dcss == if ok then Listed(DcsTexts(cellBroadcastInfo)) else ""
    ensures ok ==> broadcastInfo.mids == Join(MidTexts(cellBroadcastInfo), ",") + ","
    ensures ok ==> broadcastInfo.dcss == Join(DcsTexts(cellBroadcastInfo), ",") + ","
  {
    broadcastInfo := CBConfigInfo(cellBroadcastInfo[0].selected, "", "");
    var printed;
    ok, printed := PrintEntries(cellBroadcastInfo);
    AscendingAll(cellBroadcastInfo, |cellBroadcastInfo|);
    ListedIsJoined(MidTexts(cellBroadcastInfo), |cellBroadcastInfo|);
    ListedIsJoined(DcsTexts(cellBroadcastInfo), |cellBroadcastInfo|);
    if ok {
      broadcastInfo := broadcastInfo.(mids := printed.mids, dcss := printed.dcss);
    }
  }
}
