/** One input for each place where the code does not do what one would expect. The lemmas named
    beside them say exactly when that happens. */
module Findings {
  import opened Options
  import CircularList
  import Resources = ModeResource
  import FenceInfo
  import FenceSections
  import Display
  import Edid
  import Navigation
  import Bar
  import BarRow
  import Decimal

  // ---------- list_move_tail, see CircularList.MoveTailOntoItself ----------

  // The first of two nodes is moved behind itself: its successor does not know it any more.
  method MoveTailBreaksPair() returns (proper: bool)
    ensures !proper
  {
    var a := new CircularList.ListHead();
    var b := new CircularList.ListHead();
    assert CircularList.Ring([a] + []);
    CircularList.ListAddTail(b, a, []);
    assert [a] + ([] + [b]) == [a] + [b];
    CircularList.NeighboursInRing([a] + [b], 0);
    CircularList.MoveTailOntoItself(a, [b]);
    proper := a.next.prev == a;
  }

  // ---------- gpuGetModeResouce, see ModeResource.OutcomeForetold ----------

  const ONE_CONNECTOR: Resources.Topology := Resources.Four([31], [], [], [])

  // One connector, and only allocation number k fails: 0 is the temporary buffer, 1 the
  // struct, 2 the list in it.
  function FailingAlloc(k: nat): Resources.Environment {
    Resources.Environment(_ => ONE_CONNECTOR, _ => 0, a => a != k)
  }

  // One connector, and only the second ioctl fails.
  function FailingIoctl(): Resources.Environment {
    Resources.Environment(_ => ONE_CONNECTOR, i => if i == 1 then -5 else 0, _ => true)
  }

  // The query as a whole in an environment whose counts do not change. leaked: memory is left
  // behind although no resource was delivered.
  method QueryOnce(env: Resources.Environment) returns (ret: int, delivered: bool, leaked: bool)
    requires !Resources.Moves(env, 0)
    ensures Resources.ReturnsNothing(env, 0, 0) <==> ret == 0 && !delivered
    ensures Resources.CopyFails(env, 0, 0) ==> ret == -Resources.ENOMEM
    ensures Resources.Delivers(env, 0, 0) <==> delivered
    ensures Resources.SecondIoctlFails(env, 0, 0) ==> ret == env.ioctlRc(1)
    ensures leaked <==> Resources.Leaks(env, 0, 0)
  {
    var process := new Resources.Process(env);
    var resource;
    ret, resource := process.GetModeResource(0);
    var pass := Resources.Pass(0, 0);
    ghost var outcome := Resources.Done(ret, resource);
    assert Resources.LastPass(env, pass, 0) == pass;
    Resources.OutcomeForetold(env, pass, outcome, process.ioctls, process.live, map[]);
    delivered := ret == 0 && resource.Some?;
    leaked := !delivered && process.live != map[];
  }

  lemma EveryFailureOccurs()
    ensures (forall k: nat :: !Resources.Moves(FailingAlloc(k), 0)) && !Resources.Moves(FailingIoctl(), 0)
    ensures Resources.ReturnsNothing(FailingAlloc(0), 0, 0) && !Resources.Leaks(FailingAlloc(0), 0, 0)
    ensures Resources.ReturnsNothing(FailingAlloc(1), 0, 0) && !Resources.Leaks(FailingAlloc(1), 0, 0)
    ensures Resources.CopyFails(FailingAlloc(2), 0, 0) && Resources.Leaks(FailingAlloc(2), 0, 0)
    ensures Resources.SecondIoctlFails(FailingIoctl(), 0, 0) && Resources.Leaks(FailingIoctl(), 0, 0)
    ensures Resources.Delivers(FailingAlloc(3), 0, 0) && !Resources.Leaks(FailingAlloc(3), 0, 0)
  {
    assert forall k, i :: Resources.FirstTries(FailingAlloc(k), i) == 1;
    assert forall i :: Resources.FirstTries(FailingIoctl(), i) == 1;
    assert !FailingAlloc(0).allocOk(0) && !FailingAlloc(1).allocOk(1) && !FailingAlloc(2).allocOk(2);
  }

  // ---------- amdGpuQueryFenceInfo, see FenceSections.FenceLookup ----------

  // A file of one section of one line: the only "emitted" number comes back as the second, too.
  method OneLineIsReadTwice() returns (info: FenceInfo.Info)
    ensures info.emitted == 5 && info.emittedTrial == 5
    ensures FenceSections.NthEmitted([FenceInfo.Line(None, false, FenceInfo.Emitted, Some(5))], 1, 0) == 0
  {
    var sections := [FenceSections.Section(0, "gfx", [FenceInfo.Line(None, false, FenceInfo.Emitted, Some(5))])];
    var file := new FenceInfo.File(FenceSections.Lines(sections), true);
    info := FenceInfo.QueryFenceInfo(file, "gfx");
    FenceSections.FenceLookup(sections, 0, true, "gfx", 0);
  }

  // ---------- the display tab, see DisplayRuns.DrawnUnlessMissed and DisplayRuns.ForeignRecord ----------

  // A connected monitor that is asleep; every answer about it is a success.
  ghost predicate Asleep(c: Display.Connector) {
    c.connectorRc == 0 && Display.Connected(c) && c.edidRc == 0 && c.dpmsRc == 0 && c.encoderId == 0
  }

  function Monitor(id: nat, edidLen: nat): (c: Display.Connector)
    ensures Asleep(c) && c.id == id && c.dpms == 3 && c.edid == Display.NoEdid() && c.edidLen == edidLen
  {
    Display.Connector(
      0, Display.GPU_MODE_CONNECTED, id, 11, 1, 520, 320, 10, 0, Display.NoEdid(), edidLen, 0, 3,
      0, 0, 0, 0, 0, Display.Geometry(0, 0, 0, 0))
  }

  function Listed(ids: seq<nat>, c: Display.Connector): Display.Kernel {
    Display.Kernel(0, Some(Display.Listing(ids, 1, 1, 1)), _ => c)
  }

  lemma NothingIsListed(resource: Option<Display.Listing>, c: Display.Connector)
    ensures var k := Listed([], c);
            && Display.QueryRc(resource, k) == 0 && Display.Answerable(resource, k)
            && Display.Taken(resource, k) == Display.Snapshot(true, [], 0, 0, 0, 0)
    ensures Display.ParseAllRc([]) == 0
  {
    assert Display.Met(resource, Listed([], c)).connectors == [];
  }

  lemma OneIsListed(resource: Option<Display.Listing>, c: Display.Connector)
    requires Asleep(c)
    ensures var k := Listed([c.id], c);
            && Display.QueryRc(resource, k) == 0 && Display.Answerable(resource, k)
            && Display.Taken(resource, k) == Display.Snapshot(true, [Display.InfoOf(c)], 1, 1, 1, 1)
  {
    OneIsConnected(c);
    OneInfo(c);
    assert Display.Met(resource, Listed([c.id], c)).connectors == [c];
  }

  lemma OneInfo(c: Display.Connector)
    ensures Display.InfosOf([c]) == [Display.InfoOf(c)]
  {
    var infos := Display.InfosOf([c]);
    assert |infos| == 1 && infos[0] == Display.InfoOf([c][0]);
  }

  lemma OneIsConnected(c: Display.Connector)
    requires Asleep(c)
    ensures Display.ConnectedOnly([c]) == [c] && Display.FirstError([c]) == 0
  {
    assert [c][..0] == [];
    assert Display.ConnectedOnly([]) == [] && Display.FirstError([]) == 0;
  }

  // An EDID of zeros has no serial number; only without any EDID is none looked for.
  lemma MonitorParses(id: nat, edidLen: nat)
    ensures Display.ParseAllRc([Display.InfoOf(Monitor(id, edidLen))]) == if edidLen == 0 then 0 else -Edid.EINVAL
  {
    var info := Display.InfoOf(Monitor(id, edidLen));
    assert info.edid == Display.NoEdid() && info.edidLen == edidLen;
    assert forall i :: 0 <= i < 4 ==> info.edid[54 + 18 * i..59 + 18 * i][3] == 0;
    assert Display.FirstFailing([info], 1) == 1;
  }

  // The tab comes up with nothing connected, then a monitor is plugged in whose EDID has no
  // serial number: however often the tab is updated, the monitor is on record and not on
  // screen. The next init, without a change of any kind, puts it there.
  method MonitorIsMissed(times: nat, names: Display.NameTables) returns (before: nat, recorded: nat, after: nat)
    requires times > 0
    ensures before == 0 && recorded == 1 && after == 1
  {
    var tab := new Display.DisplayTab(names);
    var monitor := Monitor(31, 128);
    NothingIsListed(tab.resource, monitor);
    var ret := tab.Init(0, Listed([], monitor));
    OneIsListed(tab.resource, monitor);
    MonitorParses(31, 128);
    var rets := tab.RefreshRepeatedly(Listed([31], monitor), times);
    before, recorded := |tab.drawn.displays|, tab.shown.alive;
    ret := tab.Init(0, Listed([], monitor));
    after := |tab.drawn.displays|;
  }

  // Device 0 has a monitor and the query for device 1 fails: the next init for device 1 draws
  // the monitor of device 0 and reports success.
  method OtherDevicesMonitor(names: Display.NameTables) returns (failed: int, ret: int, drawn: nat)
    ensures failed == -5 && ret == 0 && drawn == 1
  {
    var tab := new Display.DisplayTab(names);
    var monitor := Monitor(31, 0);
    OneIsListed(tab.resource, monitor);
    MonitorParses(31, 0);
    ret := tab.Init(0, Listed([31], monitor));
    var refusal := Display.Kernel(-5, None, _ => monitor);
    failed := tab.Init(1, refusal);
    ret := tab.Init(1, refusal);
    drawn := |tab.drawn.displays|;
  }

  // Each of two devices has a monitor, asleep both of them. The query for device 1 succeeds and
  // finds connector 32, and still connector 31 of device 0 is drawn for it, now and after any
  // number of updates.
  method OneMonitorForTwo(times: nat, names: Display.NameTables) returns (ret: int, device: int, drawn: nat)
    ensures ret == 0 && device == 1 && drawn == 31
  {
    var tab := new Display.DisplayTab(names);
    OneIsListed(tab.resource, Monitor(31, 0));
    MonitorParses(31, 0);
    ret := tab.Init(0, Listed([31], Monitor(31, 0)));
    assert tab.shown.Value().displays[0].connectorId == 31;
    ghost var record := tab.shown.Value();
    OneIsListed(tab.resource, Monitor(32, 0));
    ret := tab.Init(1, Listed([32], Monitor(32, 0)));
    for i := 0 to times
      invariant tab.Valid() && ret == 0 && tab.device == 1
      invariant tab.shown.Value() == record && tab.drawn == record
    {
      OneIsListed(tab.resource, Monitor(32, 0));
      ret := tab.Refresh(Listed([32], Monitor(32, 0)));
    }
    device, drawn := tab.device, tab.drawn.displays[0].connectorId;
  }

  // No memory for the temporary buffer during the very first query: it returns 0, and there is
  // no listing to go through.
  lemma NoListingAtFirst(connector: nat -> Display.Connector)
    ensures Resources.ReturnsNothing(FailingAlloc(0), 0, 0)
    ensures !Display.Answerable(None, Display.Kernel(0, None, connector))
  {
    EveryFailureOccurs();
  }

  // ---------- tabHandleInput, see Navigation.Context.Run ----------

  // The init of the main window fails for the second of two tabs: that tab is active and the
  // star is still on the first.
  method StarStaysBehind() returns (tab: int, column: string)
    ensures tab == 1 && column == "* "
  {
    var c := new Navigation.Context(2, 1);
    var ret := c.DispatchInput(Navigation.Press(Navigation.PageDown, -22));
    tab, column := c.activeTab, c.tabColumn[..];
  }

  // Back again, with another failure, and the star is right: what counts is where it was last
  // set, not whether the last init failed.
  method StarIsFoundAgain() returns (tab: int, column: string)
    ensures tab == 0 && column == "* "
  {
    var c := new Navigation.Context(2, 1);
    var ret := c.DispatchInput(Navigation.Press(Navigation.PageDown, -22));
    ret := c.DispatchInput(Navigation.Press(Navigation.PageUp, -22));
    tab, column := c.activeTab, c.tabColumn[..];
  }

  // ---------- barSetValue, see Bar.PercentExact ----------

  // A full bar that reads empty.
  lemma FullBarReadsEmpty()
    ensures Bar.Percent(42949673, 42949673) == 0
  {
  }

  // ---------- barSetValue at width 4, see BarRow.WindowBar.SetValue ----------

  // The label of a value of at most five digits, out of 100 and without a unit.
  lemma ShortLabel(value: nat)
    requires value <= 100
    ensures |BarRow.LabelText(value, 100, "")| == 18
  {
    assert Decimal.Power10(3) == 1000;
    Decimal.NumeralLength(value, 3);
    Decimal.NumeralLength(100, 3);
  }

  lemma EmptyHead()
    ensures |BarRow.HeadText("")| == 8
  {
  }

  // A bar of width 4 on a blank row.
  method NarrowBar() returns (bar: BarRow.WindowBar)
    ensures fresh(bar) && fresh(bar.row) && bar.Valid() && bar.width == 4 && bar.max == 100 && bar.unit == ""
    ensures bar.lastLabelSize == 18 && bar.cursor == bar.labelStart + 18
    ensures forall c :: bar.barStart <= c < bar.barStart + 4 ==> bar.row[c] == ' '
  {
    var row := new char[80](_ => ' ');
    ShortLabel(0);
    EmptyHead();
    bar := new BarRow.WindowBar.Create(row, "", "", 0, 4);
  }

  lemma OutOfHundred(value: nat)
    requires value <= 100
    ensures Bar.Percent(value, 100) == value
  {
  }

  method SetOnNarrow(bar: BarRow.WindowBar, value: nat)
    requires bar.Valid() && bar.width == 4 && bar.max == 100 && bar.unit == "" && value <= 100
    requires bar.lastLabelSize == 18 && bar.cursor == bar.labelStart + 18
    modifies bar, bar.row
    ensures bar.Valid() && bar.TextAt(BarRow.PercentText(value), old(bar.cursor))
    ensures forall c :: 0 <= c < bar.labelStart ==> bar.row[c] == old(bar.row[c])
    ensures bar.labelStart == old(bar.labelStart) && bar.barStart == old(bar.barStart)
  {
    ShortLabel(value);
    OutOfHundred(value);
    bar.SetValue(value);
  }

  // Whatever value is set, all is blank between its brackets, and the percentage stands behind
  // its label.
  method PercentBehindLabel(value: nat) returns (inside: string, behind: string)
    requires value <= 100
    ensures inside == "    " && behind == BarRow.PercentText(value)
  {
    var bar := NarrowBar();
    var at := bar.cursor;
    SetOnNarrow(bar, value);
    BarRow.FourCharacters(value);
    inside := bar.row[bar.barStart..bar.barStart + 4];
    behind := bar.row[at..at + 4];
  }
}
