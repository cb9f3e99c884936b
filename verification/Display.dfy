/** The display tab of tui/displayinfo.c: a fresh snapshot is taken from the kernel, compared
    with the one on show, and copied over it when they differ on the watched fields. */
module Display {
  import opened Options
  import opened Words
  import opened Decimal
  import opened Edid

  const MAX_DISPLAY_COUNT := 8
  const GPU_MODE_CONNECTED := 1
  const EDID_BUFFER_SIZE := 512
  const UNKNOWN: seq<Byte> := [117, 110, 107, 110, 111, 119]  // "unknow"

  // The edid field: the blob, and zeros up to the end of the buffer.
  type EdidBuffer = s: seq<Byte> | |s| == EDID_BUFFER_SIZE witness seq(EDID_BUFFER_SIZE, _ => 0)

  datatype Geometry = Geometry(startx: nat, starty: nat, width: nat, height: nat)

  datatype DisplayInfo = DisplayInfo(
    present: bool, connectorId: nat, connectorType: nat, connectorTypeId: NatInt32,
    mmWidth: nat, mmHeight: nat, modeCount: nat, edid: EdidBuffer, edidLen: nat, dpms: nat,
    crtcId: nat, encoderType: nat, geometry: Geometry,
    monitorName: seq<Byte>, serialNumber: seq<Byte>, year: nat, week: nat, connectorName: string, encoderName: string)

  /** getConnectorNameByType and getEncoderNameByType. */
  datatype NameTables = NameTables(connector: nat -> string, encoder: nat -> string)

  function NoEdid(): EdidBuffer {
    seq(EDID_BUFFER_SIZE, _ => 0)
  }

  // The state after MemClear.
  function Cleared(): DisplayInfo {
    DisplayInfo(false, 0, 0, 0, 0, 0, 0, NoEdid(), 0, 0, 0, 0, Geometry(0, 0, 0, 0), [], [], 0, 0, "", "")
  }

  /** What the kernel answers about one connector, return codes included. */
  datatype Connector = Connector(
    connectorRc: int, connection: int, id: nat, connectorType: nat, connectorTypeId: NatInt32,
    mmWidth: nat, mmHeight: nat, modeCount: nat, edidRc: int, edid: EdidBuffer, edidLen: nat, dpmsRc: int, dpms: nat,
    encoderId: nat, encoderRc: int, encoderType: nat, crtcId: nat, crtcRc: int, geometry: Geometry)

  /** What the tab reads of a struct GpuModeResource. */
  datatype Listing = Listing(connectorIds: seq<nat>, encoderCount: nat, crtcCount: nat, fbCount: nat)

  /** What one query is answered: the return code of gpuGetModeResouce, what that stored
      through its argument, if anything, and the answers about each connector. */
  datatype Kernel = Kernel(resourceRc: int, stored: Option<Listing>, connector: nat -> Connector)

  /** The connectors and counts that a query comes upon. */
  datatype Found = Found(connectors: seq<Connector>, encoderCount: nat, crtcCount: nat, fbCount: nat)

  // The static pointer of query_display_info after gpuGetModeResouce; None is NULL, or a
  // struct whose lists were freed, which an error return can leave there.
  function Held(resource: Option<Listing>, k: Kernel): Option<Listing> {
    if k.stored.None? then resource else if k.resourceRc == 0 then k.stored else None
  }

  // Without a new listing the connectors of the one before are asked about again.
  function Met(resource: Option<Listing>, k: Kernel): Found {
    match Held(resource, k)
    case None => Found([], 0, 0, 0)
    case Some(l) =>
      Found(seq(|l.connectorIds|, i requires 0 <= i < |l.connectorIds| => k.connector(l.connectorIds[i])),
            l.encoderCount, l.crtcCount, l.fbCount)
  }

  // The query neither goes through a NULL or stale pointer nor overruns its array.
  ghost predicate Answerable(resource: Option<Listing>, k: Kernel) {
    k.resourceRc == 0 ==>
      Held(resource, k).Some? && |ConnectedOnly(Met(resource, k).connectors)| <= 8
  }

  /** The meaning of a struct DisplayState. */
  datatype Snapshot = Snapshot(
    valid: bool, displays: seq<DisplayInfo>, connectorCount: nat, encoderCount: nat, crtcCount: nat, fbCount: nat)

  // After MemClear.
  const NOTHING := Snapshot(false, [], 0, 0, 0, 0)

  // ---------- what a query should find ----------

  ghost predicate Connected(c: Connector) {
    c.connection == GPU_MODE_CONNECTED
  }

  ghost function ConnectedOnly(cs: seq<Connector>): seq<Connector> {
    if cs == [] then []
    else ConnectedOnly(cs[..|cs| - 1]) + if Connected(cs[|cs| - 1]) then [cs[|cs| - 1]] else []
  }

  lemma {:induction false} ConnectedOnlyGrows(cs: seq<Connector>, n: nat)
    requires n <= |cs|
    ensures |ConnectedOnly(cs[..n])| <= |ConnectedOnly(cs)|
    decreases |cs|
  {
    if n < |cs| {
      ConnectedOnlyGrows(cs[..|cs| - 1], n);
      assert cs[..|cs| - 1][..n] == cs[..n];
    } else {
      assert cs[..n] == cs;
    }
  }

  ghost function InfoOf(c: Connector): DisplayInfo {
    var info := Cleared().(
      modeCount := c.modeCount, mmHeight := c.mmHeight, mmWidth := c.mmWidth, connectorId := c.id,
      connectorType := c.connectorType, connectorTypeId := c.connectorTypeId,
      edid := c.edid, edidLen := c.edidLen, dpms := c.dpms);
    if c.encoderId == 0 then info
    else info.(present := true, encoderType := c.encoderType, crtcId := c.crtcId, geometry := c.geometry)
  }

  ghost function InfosOf(cs: seq<Connector>): seq<DisplayInfo> {
    seq(|cs|, i requires 0 <= i < |cs| => InfoOf(cs[i]))
  }

  // The first error met with one connector.
  ghost function ConnectorRc(c: Connector): int {
    if c.connectorRc != 0 then c.connectorRc
    else if !Connected(c) then 0
    else if c.edidRc != 0 then c.edidRc
    else if c.dpmsRc != 0 then c.dpmsRc
    else if c.encoderId == 0 then 0
    else if c.encoderRc != 0 then c.encoderRc
    else c.crtcRc
  }

  ghost function FirstError(cs: seq<Connector>): int {
    if cs == [] then 0
    else if FirstError(cs[..|cs| - 1]) != 0 then FirstError(cs[..|cs| - 1])
    else ConnectorRc(cs[|cs| - 1])
  }

  ghost function QueryRc(resource: Option<Listing>, k: Kernel): int {
    if k.resourceRc != 0 then k.resourceRc else FirstError(Met(resource, k).connectors)
  }

  lemma {:induction false} FirstErrorStays(cs: seq<Connector>, n: nat)
    requires n <= |cs| && FirstError(cs[..n]) != 0
    ensures FirstError(cs) == FirstError(cs[..n])
    decreases |cs|
  {
    if n < |cs| {
      assert cs[..|cs| - 1][..n] == cs[..n];
      FirstErrorStays(cs[..|cs| - 1], n);
    } else {
      assert cs[..n] == cs;
    }
  }

  // One more connector, looked at after cs[..n].
  lemma OneMore(cs: seq<Connector>, n: nat)
    requires n < |cs|
    ensures FirstError(cs[..n]) == 0 ==> FirstError(cs[..n + 1]) == ConnectorRc(cs[n])
    ensures FirstError(cs[..n]) == 0 && ConnectorRc(cs[n]) != 0 ==> FirstError(cs) == ConnectorRc(cs[n])
    ensures InfosOf(ConnectedOnly(cs[..n + 1])) ==
            InfosOf(ConnectedOnly(cs[..n])) + if Connected(cs[n]) then [InfoOf(cs[n])] else []
    ensures |ConnectedOnly(cs[..n + 1])| <= |ConnectedOnly(cs)|
  {
    assert cs[..n + 1][..n] == cs[..n];
    if FirstError(cs[..n + 1]) != 0 {
      FirstErrorStays(cs, n + 1);
    }
    ConnectedOnlyGrows(cs, n + 1);
  }

  ghost function SnapshotOf(f: Found): Snapshot {
    CountedSnapshot(f, InfosOf(ConnectedOnly(f.connectors)))
  }

  // The snapshot that a query takes.
  ghost function Taken(resource: Option<Listing>, k: Kernel): Snapshot {
    SnapshotOf(Met(resource, k))
  }

  // The counts are recorded with the first connected connector only.
  ghost function CountedSnapshot(f: Found, displays: seq<DisplayInfo>): Snapshot {
    if displays == [] then Snapshot(true, [], 0, 0, 0, 0)
    else Snapshot(true, displays, |f.connectors|, f.encoderCount, f.crtcCount, f.fbCount)
  }

  // ---------- the same in terms of the kernel's answers alone ----------

  // d is the entry of connector c.
  ghost predicate IsEntryOf(d: DisplayInfo, c: Connector) {
    && d.connectorId == c.id && d.connectorType == c.connectorType && d.connectorTypeId == c.connectorTypeId
    && d.mmWidth == c.mmWidth && d.mmHeight == c.mmHeight && d.modeCount == c.modeCount
    && d.edid == c.edid && d.edidLen == c.edidLen && d.dpms == c.dpms
    && (d.present <==> c.encoderId != 0)
    && (if d.present then d.encoderType == c.encoderType && d.crtcId == c.crtcId && d.geometry == c.geometry
        else d.encoderType == 0 && d.crtcId == 0 && d.geometry == Geometry(0, 0, 0, 0))
    && d.monitorName == [] && d.serialNumber == [] && d.year == 0 && d.week == 0
    && d.connectorName == "" && d.encoderName == ""
  }

  // The displays are the entries of the listed connectors at the positions at, in ascending
  // order, and those are the connected ones.
  ghost predicate IsInOrder(at: seq<nat>, ids: seq<nat>, connector: nat -> Connector, displays: seq<DisplayInfo>) {
    && |at| == |displays|
    && (forall j :: 0 <= j < |at| ==> at[j] < |ids| && IsEntryOf(displays[j], connector(ids[at[j]])))
    && (forall i, j :: 0 <= i < j < |at| ==> at[i] < at[j])
    && (forall i :: 0 <= i < |ids| ==> (i in at <==> connector(ids[i]).connection == 1))
  }

  // Nothing that was asked about a connector was answered with an error.
  ghost predicate NoError(c: Connector) {
    && c.connectorRc == 0
    && (c.connection == 1 ==>
          c.edidRc == 0 && c.dpmsRc == 0 && (c.encoderId != 0 ==> c.encoderRc == 0 && c.crtcRc == 0))
  }

  // A query that goes through the listing l succeeds with s or fails with ret.
  ghost predicate QueryMeans(l: Listing, k: Kernel, ret: int, s: Snapshot) {
    && (ret == 0 <==> forall i :: 0 <= i < |l.connectorIds| ==> NoError(k.connector(l.connectorIds[i])))
    && (ret == 0 ==>
          && s.valid && (exists at :: IsInOrder(at, l.connectorIds, k.connector, s.displays))
          && if s.displays == [] then s == Snapshot(true, [], 0, 0, 0, 0)
             else s.connectorCount == |l.connectorIds| && s.encoderCount == l.encoderCount
                  && s.crtcCount == l.crtcCount && s.fbCount == l.fbCount)
  }

  // at are the positions of the connected ones among cs, and chosen are those.
  ghost predicate IsSelection(at: seq<nat>, cs: seq<Connector>, chosen: seq<Connector>) {
    && |at| == |chosen|
    && (forall j :: 0 <= j < |at| ==> at[j] < |cs| && chosen[j] == cs[at[j]])
    && (forall i, j :: 0 <= i < j < |at| ==> at[i] < at[j])
    && (forall i :: 0 <= i < |cs| ==> (i in at <==> cs[i].connection == 1))
  }

  lemma OneMoreSelected(at: seq<nat>, cs: seq<Connector>, chosen: seq<Connector>, c: Connector)
    requires IsSelection(at, cs, chosen)
    ensures if c.connection == 1 then IsSelection(at + [|cs|], cs + [c], chosen + [c])
            else IsSelection(at, cs + [c], chosen)
  {
  }

  lemma {:induction false} ConnectedAt(cs: seq<Connector>) returns (at: seq<nat>)
    ensures IsSelection(at, cs, ConnectedOnly(cs))
  {
    at := [];
    if cs != [] {
      var front, c := cs[..|cs| - 1], cs[|cs| - 1];
      at := ConnectedAt(front);
      OneMoreSelected(at, front, ConnectedOnly(front), c);
      assert front + [c] == cs;
      if c.connection == 1 {
        at := at + [|front|];
      } else {
        assert ConnectedOnly(cs) == ConnectedOnly(front) + [];
      }
    }
  }

  lemma {:induction false} NoFirstError(cs: seq<Connector>)
    ensures FirstError(cs) == 0 <==> forall i :: 0 <= i < |cs| ==> NoError(cs[i])
  {
    if cs != [] {
      var front, n := cs[..|cs| - 1], |cs| - 1;
      NoFirstError(front);
      assert forall i :: 0 <= i < n ==> front[i] == cs[i];
      assert ConnectorRc(cs[n]) == 0 <==> NoError(cs[n]);
    }
  }

  lemma TakenMeans(resource: Option<Listing>, k: Kernel)
    requires k.resourceRc == 0 && (k.stored.Some? || resource.Some?)
    ensures var l := if k.stored.Some? then k.stored.value else resource.value;
            QueryMeans(l, k, QueryRc(resource, k), Taken(resource, k))
  {
    var l := if k.stored.Some? then k.stored.value else resource.value;
    var cs := Met(resource, k).connectors;
    assert |cs| == |l.connectorIds| && forall i :: 0 <= i < |cs| ==> cs[i] == k.connector(l.connectorIds[i]);
    NoFirstError(cs);
    var at := ConnectedAt(cs);
    assert forall j :: 0 <= j < |at| ==> IsEntryOf(InfoOf(cs[at[j]]), cs[at[j]]);
    assert IsInOrder(at, l.connectorIds, k.connector, InfosOf(ConnectedOnly(cs)));
  }

  // ---------- what counts as a change ----------

  ghost predicate SameWatched(a: DisplayInfo, b: DisplayInfo) {
    a.dpms == b.dpms && a.present == b.present && a.geometry == b.geometry
  }

  ghost predicate Agree(shown: Snapshot, latest: Snapshot) {
    && shown.valid
    && shown.connectorCount == latest.connectorCount
    && |shown.displays| == |latest.displays|
    && forall i :: 0 <= i < |shown.displays| ==> SameWatched(shown.displays[i], latest.displays[i])
  }

  // What is on show agrees with the kernel's answers: the connected connectors of the listing, in
  // order, each with its DPMS state, its presence and its geometry.
  ghost predicate AgreesWithKernel(l: Listing, k: Kernel, shown: Snapshot) {
    && shown.valid && shown.connectorCount == (if shown.displays == [] then 0 else |l.connectorIds|)
    && exists at :: WatchedAt(at, l.connectorIds, k.connector, shown.displays)
  }

  ghost predicate WatchedAt(at: seq<nat>, ids: seq<nat>, connector: nat -> Connector, shown: seq<DisplayInfo>) {
    && |at| == |shown|
    && (forall j :: 0 <= j < |at| ==>
          && at[j] < |ids|
          && var c := connector(ids[at[j]]);
          && shown[j].dpms == c.dpms && (shown[j].present <==> c.encoderId != 0)
          && shown[j].geometry == if c.encoderId != 0 then c.geometry else Geometry(0, 0, 0, 0))
    && (forall i, j :: 0 <= i < j < |at| ==> at[i] < at[j])
    && (forall i :: 0 <= i < |ids| ==> (i in at <==> connector(ids[i]).connection == 1))
  }

  lemma AgreeMeans(l: Listing, k: Kernel, shown: Snapshot, s: Snapshot)
    requires Agree(shown, s) && QueryMeans(l, k, 0, s)
    ensures AgreesWithKernel(l, k, shown)
  {
    var at :| IsInOrder(at, l.connectorIds, k.connector, s.displays);
    forall j | 0 <= j < |at|
      ensures var c := k.connector(l.connectorIds[at[j]]);
              && shown.displays[j].dpms == c.dpms && (shown.displays[j].present <==> c.encoderId != 0)
              && shown.displays[j].geometry == if c.encoderId != 0 then c.geometry else Geometry(0, 0, 0, 0)
    {
      assert SameWatched(shown.displays[j], s.displays[j]);
    }
    assert WatchedAt(at, l.connectorIds, k.connector, shown.displays);
  }

  // So what Refresh and Init ensure of the record, that it agrees with the snapshot taken, is
  // agreement with the kernel's answers.
  lemma AgreementMeans(resource: Option<Listing>, k: Kernel, shown: Snapshot)
    requires k.resourceRc == 0 && (k.stored.Some? || resource.Some?)
    requires Agree(shown, Taken(resource, k))
    ensures var l := if k.stored.Some? then k.stored.value else resource.value;
            (forall i :: 0 <= i < |l.connectorIds| ==> NoError(k.connector(l.connectorIds[i]))) ==>
              QueryRc(resource, k) == 0 && AgreesWithKernel(l, k, shown)
  {
    var l := if k.stored.Some? then k.stored.value else resource.value;
    TakenMeans(resource, k);
    if QueryRc(resource, k) == 0 { AgreeMeans(l, k, shown, Taken(resource, k)); }
  }

  // ---------- EDID texts of a display ----------

  ghost function FirstWithTag(edid: EdidBuffer, tag: Byte, i: nat): (r: nat)
    requires i <= 4
    ensures i <= r <= 4
    ensures r < 4 ==> IsTagged(edid, r, tag)
    ensures forall j :: i <= j < r ==> !IsTagged(edid, j, tag)
    decreases 4 - i
  {
    if i == 4 || IsTagged(edid, i, tag) then i else FirstWithTag(edid, tag, i + 1)
  }

  ghost function DescriptorText(edid: EdidBuffer, tag: Byte): seq<Byte> {
    var i := FirstWithTag(edid, tag, 0);
    if i == 4 then UNKNOWN else Before(TextField(edid, i), {0, 10})
  }

  ghost predicate HasText(edid: EdidBuffer, tag: Byte) {
    FirstWithTag(edid, tag, 0) < 4
  }

  // One of the two texts, extracted into a zeroed field, or "unknow" in its place.
  method ReadText(edid: EdidBuffer, tag: Byte) returns (ret: int, text: seq<Byte>)
    ensures ret == (if HasText(edid, tag) then 0 else -22) && text == DescriptorText(edid, tag)
  {
    var name := new Byte[MAX_NAME_SIZE](_ => 0);
    ret := GetDescriptorText(edid, tag, name);
    ghost var i := FirstWithTag(edid, tag, 0);
    assert i < 4 ==> IsFirst(edid, i, tag);
    if ret != 0 {
      return ret, UNKNOWN;
    }
    text := CString(name[..]);
    CutIs(name[..], TextField(edid, i));
  }

  // The text of the first descriptor with the tag, cut at its first newline or NUL, or "unknow".
  ghost predicate IsTextOf(text: seq<Byte>, edid: EdidBuffer, tag: Byte) {
    && (forall i :: 0 <= i < 4 && IsFirst(edid, i, tag) ==>
          var field := edid[59 + 18 * i..72 + 18 * i];
          && text <= field && (forall k :: 0 <= k < |text| ==> text[k] != 0 && text[k] != 10)
          && (|text| < 13 ==> field[|text|] == 0 || field[|text|] == 10))
    && ((forall i :: 0 <= i < 4 ==> !IsTagged(edid, i, tag)) ==> text == [117, 110, 107, 110, 111, 119])
  }

  lemma DescriptorTextIs(edid: EdidBuffer, tag: Byte)
    ensures IsTextOf(DescriptorText(edid, tag), edid, tag)
    ensures HasText(edid, tag) <==> exists i :: 0 <= i < 4 && IsTagged(edid, i, tag)
  {
    var f := FirstWithTag(edid, tag, 0);
    forall i | 0 <= i < 4 && IsFirst(edid, i, tag)
      ensures f == i
    {
      assert IsTagged(edid, i, tag);
    }
    if f < 4 {
      BeforeStops(TextField(edid, f), {0, 10});
    }
  }

  // parseEDIDInfo: the error of the serial number is the one that is returned.
  ghost function Parsed(info: DisplayInfo): DisplayInfo {
    if info.edidLen == 0 then info
    else info.(
      year := info.edid[17] as int + 1990, week := info.edid[16],
      monitorName := DescriptorText(info.edid, MONITOR_NAME),
      serialNumber := DescriptorText(info.edid, MONITOR_SERIAL_NUMBER))
  }

  // The text fields of a snapshot that has just been taken are empty.
  ghost predicate Unparsed(info: DisplayInfo) {
    info.monitorName == [] && info.serialNumber == []
  }

  // parseEDIDInfo, whose return code is that of the second text.
  method ParseEdidInfo(info: DisplayInfo) returns (ret: int, parsed: DisplayInfo)
    requires Unparsed(info)
    ensures ret == ParseRc(info) && parsed == Parsed(info)
    ensures info.edidLen == 0 ==> ret == 0 && parsed == info
    ensures info.edidLen > 0 ==>
              && ret == (if exists i :: 0 <= i < 4 && IsTagged(info.edid, i, 0xFF) then 0 else -22)
              && IsTextOf(parsed.monitorName, info.edid, 0xFC) && IsTextOf(parsed.serialNumber, info.edid, 0xFF)
              && parsed.year == info.edid[17] as int + 1990 && parsed.week == info.edid[16]
              && parsed == info.(monitorName := parsed.monitorName, serialNumber := parsed.serialNumber,
                                 year := parsed.year, week := parsed.week)
  {
    DescriptorTextIs(info.edid, MONITOR_NAME);
    DescriptorTextIs(info.edid, MONITOR_SERIAL_NUMBER);
    ret, parsed := 0, info;
    if info.edidLen == 0 {
      return;
    }
    parsed := parsed.(year := info.edid[17] as int + 1990, week := info.edid[16]);
    var text;
    ret, text := ReadText(info.edid, MONITOR_NAME);
    parsed := parsed.(monitorName := text);
    ret, text := ReadText(info.edid, MONITOR_SERIAL_NUMBER);
    parsed := parsed.(serialNumber := text);
  }

  ghost function ParseRc(info: DisplayInfo): int {
    if info.edidLen == 0 || HasText(info.edid, MONITOR_SERIAL_NUMBER) then 0 else -22
  }

  // The names that update_display_info derives once the EDID is parsed.
  function Named(info: DisplayInfo, names: NameTables): DisplayInfo {
    var named := info.(connectorName := names.connector(info.connectorType) + "-" + Numeral(info.connectorTypeId));
    if info.present then named.(encoderName := names.encoder(info.encoderType)) else named
  }

  // What update_display_info makes of one display: texts, and if they can be read names.
  ghost function FilledIn(info: DisplayInfo, names: NameTables): DisplayInfo {
    if ParseRc(info) == 0 then Named(Parsed(info), names) else Parsed(info)
  }

  // The same in terms of the display itself: texts and date from its EDID, if it has one, and
  // names unless the serial number is missing. Nothing else changes.
  lemma FilledInIs(info: DisplayInfo, names: NameTables)
    ensures var r := FilledIn(info, names);
            var readable := info.edidLen == 0 || exists i :: 0 <= i < 4 && IsTagged(info.edid, i, 0xFF);
            && (info.edidLen > 0 ==>
                  && IsTextOf(r.monitorName, info.edid, 0xFC) && IsTextOf(r.serialNumber, info.edid, 0xFF)
                  && r.year == info.edid[17] as int + 1990 && r.week == info.edid[16])
            && (readable ==>
                  && names.connector(info.connectorType) + "-" <= r.connectorName
                  && ScanInt(r.connectorName[|names.connector(info.connectorType)| + 1..])
                     == Number(info.connectorTypeId, ""))
            && (readable && info.present ==> r.encoderName == names.encoder(info.encoderType))
            && (!readable ==> r.connectorName == info.connectorName && r.encoderName == info.encoderName)
            && r == info.(monitorName := r.monitorName, serialNumber := r.serialNumber, year := r.year,
                          week := r.week, connectorName := r.connectorName, encoderName := r.encoderName)
  {
    DescriptorTextIs(info.edid, MONITOR_NAME);
    DescriptorTextIs(info.edid, MONITOR_SERIAL_NUMBER);
    ScanNumeral(info.connectorTypeId, "");
    assert Numeral(info.connectorTypeId) + "" == Numeral(info.connectorTypeId);
  }

  // The first display, from i on, whose parse fails; their number when there is none.
  ghost function FirstFailing(displays: seq<DisplayInfo>, i: nat): (r: nat)
    requires i <= |displays|
    ensures i <= r <= |displays|
    ensures forall j :: i <= j < r ==> ParseRc(displays[j]) == 0
    ensures r < |displays| ==> ParseRc(displays[r]) != 0
    decreases |displays| - i
  {
    if i == |displays| || ParseRc(displays[i]) != 0 then i else FirstFailing(displays, i + 1)
  }

  ghost function ParseAllRc(displays: seq<DisplayInfo>): int {
    if FirstFailing(displays, 0) < |displays| then -22 else 0
  }

  // The copy of displays after update_display_info: filled in up to and including the first
  // display whose parse fails, and as copied from there on.
  ghost function FilledInAll(displays: seq<DisplayInfo>, names: NameTables): seq<DisplayInfo> {
    var f := FirstFailing(displays, 0);
    seq(|displays|, j requires 0 <= j < |displays| => if j <= f then FilledIn(displays[j], names) else displays[j])
  }

  lemma FilledInAllIs(s: seq<DisplayInfo>, displays: seq<DisplayInfo>, names: NameTables)
    requires |s| == |displays|
    requires forall j :: 0 <= j < |s| ==>
               s[j] == if j <= FirstFailing(displays, 0) then FilledIn(displays[j], names) else displays[j]
    ensures s == FilledInAll(displays, names)
  {
  }

  ghost function FilledInSnapshot(s: Snapshot, names: NameTables): Snapshot {
    s.(displays := FilledInAll(s.displays, names))
  }

  class DisplayState {
    var valid: bool
    var alive: nat
    const infos: array<DisplayInfo>
    var connectorCount: nat
    var encoderCount: nat
    var crtcCount: nat
    var fbCount: nat

    constructor ()
      ensures Valid() && Value() == NOTHING && fresh(infos)
    {
      valid, alive := false, 0;
      infos := new DisplayInfo[MAX_DISPLAY_COUNT](_ => Cleared());
      connectorCount, encoderCount, crtcCount, fbCount := 0, 0, 0, 0;
    }

    ghost predicate Valid()
      reads this
    {
      infos.Length == MAX_DISPLAY_COUNT && alive <= infos.Length
    }

    function Value(): Snapshot
      requires Valid()
      reads this, infos
    {
      Snapshot(valid, infos[..alive], connectorCount, encoderCount, crtcCount, fbCount)
    }

    // MemClear
    method Clear()
      requires Valid()
      modifies this, infos
      ensures Valid() && Value() == NOTHING
    {
      valid, alive := false, 0;
      connectorCount, encoderCount, crtcCount, fbCount := 0, 0, 0, 0;
      forall i | 0 <= i < infos.Length { infos[i] := Cleared(); }
    }

    method SetCounts(connectors: nat, encoders: nat, crtcs: nat, fbs: nat)
      requires Valid()
      modifies this
      ensures Valid() && Value() == Snapshot(valid, old(Value()).displays, connectors, encoders, crtcs, fbs)
      ensures valid == old(valid) && alive == old(alive)
    {
      connectorCount, encoderCount, crtcCount, fbCount := connectors, encoders, crtcs, fbs;
    }

    method Append(info: DisplayInfo)
      requires Valid() && alive < MAX_DISPLAY_COUNT
      modifies this, infos
      ensures Valid() && Value() == old(Value()).(displays := old(Value()).displays + [info])
    {
      infos[alive] := info;
      alive := alive + 1;
    }

    // One round of the loop in update_display_info.
    method FillIn(i: nat, names: NameTables) returns (ret: int)
      requires Valid() && i < alive && Unparsed(infos[i])
      modifies infos
      ensures ret == ParseRc(old(infos[i]))
      ensures forall j :: 0 <= j < infos.Length ==>
                infos[j] == if j == i then FilledIn(old(infos[i]), names) else old(infos[j])
    {
      var info;
      ret, info := ParseEdidInfo(infos[i]);
      infos[i] := info;
      if ret != 0 {
        return;
      }
      infos[i] := Named(info, names);
    }

    // The loop in update_display_info.
    method FillInAll(names: NameTables) returns (ret: int)
      requires Valid() && forall j :: 0 <= j < alive ==> Unparsed(infos[j])
      modifies infos
      ensures ret == ParseAllRc(old(Value()).displays)
      ensures Value() == FilledInSnapshot(old(Value()), names)
    {
      ret := 0;
      ghost var displays := infos[..alive];
      for i := 0 to alive
        invariant ret == 0 && i <= FirstFailing(displays, 0)
        invariant forall j :: 0 <= j < alive ==>
                    infos[j] == if j < i then FilledIn(displays[j], names) else displays[j]
      {
        ret := FillIn(i, names);
        if ret != 0 {
          FilledInAllIs(infos[..alive], displays, names);
          return;
        }
      }
      FilledInAllIs(infos[..alive], displays, names);
    }

    // memcpy of the whole struct
    method CopyFrom(other: DisplayState)
      requires Valid() && other.Valid() && other != this && other.infos != infos
      modifies this, infos
      ensures Valid() && Value() == other.Value()
    {
      valid, alive := other.valid, other.alive;
      connectorCount, encoderCount := other.connectorCount, other.encoderCount;
      crtcCount, fbCount := other.crtcCount, other.fbCount;
      forall i | 0 <= i < infos.Length { infos[i] := other.infos[i]; }
    }
  }

  class DisplayTab {
    const latest: DisplayState      // display_state
    const shown: DisplayState      // current_display_state
    const names: NameTables
    var resource: Option<Listing>  // the static pointer in query_display_info
    var device: int                // current_device, -1 for NULL
    var drawn: Snapshot            // what refresh_display_ui drew last, be it cleared since

    constructor (names: NameTables)
      ensures Valid() && !shown.valid && fresh(latest) && fresh(shown) && fresh(latest.infos) && fresh(shown.infos)
      ensures this.names == names && resource == None && device == -1
      ensures shown.Value() == NOTHING && drawn == NOTHING
    {
      this.names := names;
      latest := new DisplayState();
      shown := new DisplayState();
      resource, device := None, -1;
      drawn := NOTHING;
    }

    ghost predicate Valid()
      reads this, latest, shown
    {
      latest.Valid() && shown.Valid() && latest != shown && latest.infos != shown.infos
    }

    // Lines 260-298: the entry of one connected connector.
    method FillInfo(c: Connector) returns (ret: int, info: DisplayInfo)
      requires c.connectorRc == 0 && Connected(c)
      ensures ret == ConnectorRc(c)
      ensures ret == 0 ==> info == InfoOf(c)
    {
      info := Cleared();
      info := info.(modeCount := c.modeCount, mmHeight := c.mmHeight, mmWidth := c.mmWidth);
      info := info.(connectorId := c.id, connectorType := c.connectorType, connectorTypeId := c.connectorTypeId);
      ret := c.edidRc;
      if ret != 0 { return; }
      info := info.(edid := c.edid, edidLen := c.edidLen);
      ret := c.dpmsRc;
      if ret != 0 { return; }
      info := info.(dpms := c.dpms, present := c.encoderId != 0);
      if info.present {
        ret := c.encoderRc;
        if ret != 0 { return; }
        info := info.(encoderType := c.encoderType, crtcId := c.crtcId);
        ret := c.crtcRc;
        if ret != 0 { return; }
        info := info.(geometry := c.geometry, present := true);
      }
    }

    // Lines 253-304: one connected connector.
    method AddConnected(f: Found, c: Connector) returns (ret: int)
      requires Valid() && latest.valid && latest.alive < MAX_DISPLAY_COUNT
      requires c.connectorRc == 0 && Connected(c)
      modifies latest, latest.infos
      ensures Valid() && latest.valid && ret == ConnectorRc(c)
      ensures ret == 0 ==> latest.Value() == CountedSnapshot(f, old(latest.Value()).displays + [InfoOf(c)])
    {
      latest.SetCounts(|f.connectors|, f.encoderCount, f.crtcCount, f.fbCount);
      var info;
      ret, info := FillInfo(c);
      if ret != 0 { return; }
      latest.Append(info);
    }

    // query_display_info
    method Query(k: Kernel) returns (ret: int)
      requires Valid() && Answerable(resource, k)
      modifies this`resource, latest, latest.infos
      ensures Valid() && latest.valid && resource == Held(old(resource), k)
      ensures ret == QueryRc(old(resource), k)
      ensures ret == 0 ==> latest.Value() == Taken(old(resource), k)
      ensures resource == if k.stored.None? then old(resource) else if k.resourceRc == 0 then k.stored else None
      ensures if k.resourceRc != 0 then ret == k.resourceRc
              else QueryMeans(if k.stored.Some? then k.stored.value else old(resource).value, k, ret, latest.Value())
    {
      latest.Clear();
      latest.valid := true;
      ghost var before := resource;
      resource := Held(resource, k);
      ret := k.resourceRc;
      if ret != 0 { return; }
      var f := Met(resource, k);
      assert f == Met(before, k);
      ret := LookAtAll(f);
      TakenMeans(before, k);
    }

    // The loop in query_display_info.
    method LookAtAll(f: Found) returns (ret: int)
      requires Valid() && |ConnectedOnly(f.connectors)| <= MAX_DISPLAY_COUNT
      requires latest.Value() == CountedSnapshot(f, [])
      modifies latest, latest.infos
      ensures Valid() && latest.valid && ret == FirstError(f.connectors)
      ensures ret == 0 ==> latest.Value() == SnapshotOf(f)
    {
      ret := 0;
      for i := 0 to |f.connectors|
        invariant Valid() && latest.valid && ret == 0 && FirstError(f.connectors[..i]) == 0
        invariant latest.Value() == CountedSnapshot(f, InfosOf(ConnectedOnly(f.connectors[..i])))
      {
        var c := f.connectors[i];
        OneMore(f.connectors, i);
        ret := c.connectorRc;
        if ret != 0 { return; }
        if c.connection != GPU_MODE_CONNECTED {
          continue;
        }
        ret := AddConnected(f, c);
        if ret != 0 { return; }
      }
      assert f.connectors[..|f.connectors|] == f.connectors;
    }

    // needUpdateDisplayInfo
    method NeedUpdate() returns (need: bool)
      requires Valid()
      ensures need <==> !Agree(shown.Value(), latest.Value())
    {
      if !shown.valid { return true; }
      if shown.connectorCount != latest.connectorCount { return true; }
      if shown.alive != latest.alive { return true; }
      for i := 0 to shown.alive
        invariant forall j :: 0 <= j < i ==> SameWatched(shown.infos[j], latest.infos[j])
      {
        var a, b := shown.infos[i], latest.infos[i];
        assert a == shown.Value().displays[i] && b == latest.Value().displays[i];
        if a.dpms != b.dpms { return true; }
        if a.present != b.present { return true; }
        if a.geometry != b.geometry { return true; }
      }
      return false;
    }

    // update_display_info: the copy is made first and filled in after that.
    method Update() returns (ret: int)
      requires Valid() && latest.valid && forall d :: d in latest.Value().displays ==> Unparsed(d)
      modifies shown, shown.infos
      ensures Valid() && shown.Value() == FilledInSnapshot(latest.Value(), names)
      ensures ret == ParseAllRc(latest.Value().displays)
      ensures Agree(shown.Value(), latest.Value())
    {
      shown.CopyFrom(latest);
      assert forall j :: 0 <= j < shown.alive ==> shown.infos[j] in shown.Value().displays;
      ret := shown.FillInAll(names);
      FilledInAgrees(latest.Value(), names);
    }

    // tabDisplayInfoUpdate
    method Refresh(k: Kernel) returns (ret: int)
      requires Valid() && Answerable(resource, k)
      modifies this`resource, this`drawn, latest, latest.infos, shown, shown.infos
      ensures Valid() && resource == Held(old(resource), k)
      ensures var rc, t, before := QueryRc(old(resource), k), Taken(old(resource), k), old(shown.Value());
              if rc != 0 then ret == rc && shown.Value() == before && drawn == old(drawn)
              else if Agree(before, t) then ret == 0 && shown.Value() == before && drawn == old(drawn)
              else
                && ret == ParseAllRc(t.displays) && shown.Value() == FilledInSnapshot(t, names)
                && drawn == if ret == 0 then shown.Value() else old(drawn)
      ensures QueryRc(old(resource), k) == 0 ==> Agree(shown.Value(), Taken(old(resource), k))
    {
      ret := Query(k);
      if ret != 0 { return; }
      var need := NeedUpdate();
      if need {
        ret := Update();
        if ret != 0 { return; }
        drawn := shown.Value();
      }
    }

    // Any number of refreshes with the same answers, and nothing else in between. All but the
    // first find no change, so after a failed parse in the first the new snapshot is on record
    // and not on screen.
    method RefreshRepeatedly(k: Kernel, times: nat) returns (rets: seq<int>)
      requires Valid() && Answerable(resource, k) && QueryRc(resource, k) == 0 && times > 0
      requires !Agree(shown.Value(), Taken(resource, k))
      modifies this`resource, this`drawn, latest, latest.infos, shown, shown.infos
      ensures Valid() && resource == Held(old(resource), k)
      ensures var t := Taken(old(resource), k);
              && shown.Value() == FilledInSnapshot(t, names) && Agree(shown.Value(), t)
              && |rets| == times && rets[0] == ParseAllRc(t.displays)
              && drawn == if rets[0] == 0 then shown.Value() else old(drawn)
      ensures forall i :: 0 < i < times ==> rets[i] == 0
    {
      var ret := Refresh(k);
      rets := [ret];
      ghost var filled := shown.Value();
      ghost var screen := drawn;
      for i := 1 to times
        invariant Valid() && resource == Held(old(resource), k) && |rets| == i && rets[0] == ret
        invariant shown.Value() == filled && drawn == screen
        invariant forall j :: 0 < j < i ==> rets[j] == 0
      {
        assert Met(resource, k) == Met(old(resource), k);
        var again := Refresh(k);
        rets := rets + [again];
      }
    }

    // getAllInfo and tabDisplayInfoInit: the kernel is asked only when the active device has
    // changed since it was asked last.
    method Init(activeDevice: nat, k: Kernel) returns (ret: int)
      requires Valid() && (activeDevice != device ==> Answerable(resource, k))
      modifies this, latest, latest.infos, shown, shown.infos
      ensures Valid() && device == activeDevice
      ensures activeDevice == old(device) ==>
                ret == 0 && shown.Value() == old(shown.Value()) && resource == old(resource)
      ensures activeDevice != old(device) ==>
                var rc, t, before := QueryRc(old(resource), k), Taken(old(resource), k), old(shown.Value());
                && resource == Held(old(resource), k)
                && if rc != 0 then ret == rc && shown.Value() == before
                   else if Agree(before, t) then ret == 0 && shown.Value() == before
                   else ret == ParseAllRc(t.displays) && shown.Value() == FilledInSnapshot(t, names)
      ensures activeDevice != old(device) && QueryRc(old(resource), k) == 0 ==>
                Agree(shown.Value(), Taken(old(resource), k))
      ensures drawn == if ret == 0 then shown.Value() else old(drawn)
    {
      ret := 0;
      if activeDevice != device {
        device := activeDevice;
        ret := Query(k);
        if ret != 0 { return; }
        var need := NeedUpdate();
        if need {
          ret := Update();
          if ret != 0 { return; }
        }
      }
      drawn := shown.Value();
    }
  }

  // The watched fields say nothing about texts and names: filling them in makes no difference.
  lemma FilledInAgrees(s: Snapshot, names: NameTables)
    requires s.valid
    ensures Agree(FilledInSnapshot(s, names), s)
  {
  }
}
