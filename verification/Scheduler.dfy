/** The refresh timers of tui/window.c, tui/mainwindow.c and tui/tabinfo.c: a period for each
    window, checked on every poll, and inside the main window a period for the active tab. */
module Scheduler {
  import opened Words
  import opened WindowTypes

  type Time = UInt64

  /** How a handler ends: its return code, and the clock read after it. */
  datatype Reply = Reply(rc: int, done: Time)

  /** What one call of WindowsUpdate meets: the clock at its start, the handlers' replies, and
      for mainUpdate the clock it reads, whether the driver is loaded and the tab's reply.
      reinit says that the device window's handler finds a new driver and so brings the main
      window up again in a way that resets the tab's timer (see MainInit). */
  datatype PollData = PollData(
    now: Time, replies: seq<Reply>, reinit: bool, mainNow: Time, driverLoaded: bool, tab: Reply)

  type Poll = p: PollData | |p.replies| == WINDOWS
    witness PollData(0, [Reply(0, 0), Reply(0, 0), Reply(0, 0), Reply(0, 0)], false, 0, false, Reply(0, 0))

  /** The timestamps of the windows and of the active tab. */
  datatype Timers = Timers(last: seq<Time>, tab: Time)

  datatype Periods = Periods(windows: seq<Time>, tab: Time)

  ghost predicate Shaped(s: Timers, p: Periods) {
    |s.last| == WINDOWS && |p.windows| == WINDOWS
  }

  // now >= last + period, the sum being a uint64_t.
  predicate Due(last: Time, period: Time, now: Time) {
    period > 0 && now >= (last + period) % UINT64_SIZE
  }

  // ---------- what one poll does ----------

  ghost function TabBeforeMain(s: Timers, p: Periods, poll: Poll): Time
    requires Shaped(s, p)
  {
    if poll.reinit && Due(s.last[DEVICE], p.windows[DEVICE], poll.now) then 0 else s.tab
  }

  ghost predicate TabDue(s: Timers, p: Periods, poll: Poll)
    requires Shaped(s, p)
  {
    poll.driverLoaded && Due(TabBeforeMain(s, p, poll), p.tab, poll.mainNow)
  }

  // The return code of window i's handler; the main window's is that of its tab, if it is due.
  ghost function HandlerRc(s: Timers, p: Periods, poll: Poll, i: nat): int
    requires Shaped(s, p) && i < WINDOWS
  {
    if i != MAIN then poll.replies[i].rc else if TabDue(s, p, poll) then poll.tab.rc else 0
  }

  ghost predicate Fails(s: Timers, p: Periods, poll: Poll, i: nat)
    requires Shaped(s, p) && i < WINDOWS
  {
    Due(s.last[i], p.windows[i], poll.now) && HandlerRc(s, p, poll, i) != 0
  }

  // No window before i fails.
  ghost predicate Reached(s: Timers, p: Periods, poll: Poll, i: nat)
    requires Shaped(s, p) && i <= WINDOWS
  {
    forall j :: 0 <= j < i ==> !Fails(s, p, poll, j)
  }

  ghost predicate Updated(s: Timers, p: Periods, poll: Poll, i: nat)
    requires Shaped(s, p) && i < WINDOWS
  {
    Reached(s, p, poll, i + 1) && Due(s.last[i], p.windows[i], poll.now)
  }

  ghost predicate TabRefreshed(s: Timers, p: Periods, poll: Poll)
    requires Shaped(s, p)
  {
    Updated(s, p, poll, MAIN) && TabDue(s, p, poll)
  }

  // The timestamps after a poll: those of the windows updated successfully are the clock
  // after their handlers, and all the others, from a failing window on, are as they were.
  ghost predicate Polled(s: Timers, p: Periods, poll: Poll, s': Timers)
    requires Shaped(s, p)
  {
    && Shaped(s', p)
    && (forall i :: 0 <= i < WINDOWS ==>
          s'.last[i] == if Updated(s, p, poll, i) then poll.replies[i].done else s.last[i])
    && s'.tab == if TabRefreshed(s, p, poll) then poll.tab.done else TabBeforeMain(s, p, poll)
  }

  // ---------- what bringing the windows up does ----------

  /** The return codes of the windows' inits, the tab's in place of the main window's, and
      whether the tab is shown without a driver as well, which those for the system and for
      the program itself are. */
  datatype InitData = InitData(
    deviceRc: int, tabsRc: int, tabRc: int, statusRc: int, driverLoaded: bool, tabNeedsDriver: bool) {
    const rcs: seq<int> := [deviceRc, tabsRc, tabRc, statusRc]
  }

  ghost predicate ShowsTab(data: InitData) {
    data.driverLoaded || !data.tabNeedsDriver
  }

  ghost function InitRc(data: InitData, i: nat): int
    requires i < WINDOWS
  {
    if i == MAIN && !ShowsTab(data) then 0 else data.rcs[i]
  }

  // The first window, from i on, whose init fails; WINDOWS when there is none.
  ghost function FirstFailingInit(data: InitData, i: nat): (f: nat)
    requires i <= WINDOWS
    ensures i <= f <= WINDOWS
    ensures f < WINDOWS ==> InitRc(data, f) != 0
    ensures forall j :: i <= j < f ==> InitRc(data, j) == 0
    decreases WINDOWS - i
  {
    if i == WINDOWS || InitRc(data, i) != 0 then i else FirstFailingInit(data, i + 1)
  }

  lemma InitsAre(data: InitData)
    ensures InitRc(data, 0) == data.deviceRc && InitRc(data, 1) == data.tabsRc && InitRc(data, 3) == data.statusRc
    ensures InitRc(data, 2) == if data.driverLoaded || !data.tabNeedsDriver then data.tabRc else 0
  {
  }

  class WindowContext {
    const periods: Periods
    const last: array<Time>
    var tabLast: Time

    constructor (periods: Periods)
      requires |periods.windows| == WINDOWS
      ensures Valid() && this.periods == periods && fresh(last)
    {
      this.periods := periods;
      last := new Time[WINDOWS](_ => 0);
      tabLast := 0;
    }

    ghost predicate Valid() {
      last.Length == WINDOWS && |periods.windows| == WINDOWS
    }

    ghost function Value(): Timers
      reads this, last
    {
      Timers(last[..], tabLast)
    }

    // mainInit: without a driver a tab that needs one is not brought up. TabinfoInit resets the
    // tab's timer whatever the tab's own init returns.
    method MainInit(data: InitData) returns (ret: int)
      modifies this`tabLast
      ensures ret == InitRc(data, MAIN)
      ensures tabLast == if ShowsTab(data) then 0 else old(tabLast)
      ensures data.tabNeedsDriver && !data.driverLoaded ==> ret == 0 && tabLast == old(tabLast)
      ensures !data.tabNeedsDriver || data.driverLoaded ==> ret == data.tabRc && tabLast == 0
    {
      ret := 0;
      if data.tabNeedsDriver && !data.driverLoaded {
        return;
      }
      tabLast := 0;
      ret := data.tabRc;
    }

    // WindowsInit resets the windows' timers up to and including the first whose init fails,
    // and by way of the main window's init the tab's.
    method WindowsInit(data: InitData) returns (ret: int)
      requires Valid()
      modifies this`tabLast, last
      ensures var f := FirstFailingInit(data, 0);
              && ret == (if f < WINDOWS then InitRc(data, f) else 0)
              && (forall i :: 0 <= i < WINDOWS ==> last[i] == if i <= f then 0 else old(last[i]))
              && tabLast == if MAIN <= f && ShowsTab(data) then 0 else old(tabLast)
      ensures var ok0 := data.deviceRc == 0;
              var ok1 := ok0 && data.tabsRc == 0;
              var shown := data.driverLoaded || !data.tabNeedsDriver;
              var ok2 := ok1 && (shown ==> data.tabRc == 0);
              && last[0] == 0 && last[1] == (if ok0 then 0 else old(last[1]))
              && last[2] == (if ok1 then 0 else old(last[2])) && last[3] == (if ok2 then 0 else old(last[3]))
              && tabLast == (if ok1 && shown then 0 else old(tabLast))
              && ret == if !ok0 then data.deviceRc else if !ok1 then data.tabsRc
                        else if !ok2 then data.tabRc else data.statusRc
    {
      InitsAre(data);
      ret := 0;
      for i := 0 to WINDOWS
        invariant i <= FirstFailingInit(data, 0) == FirstFailingInit(data, i) && ret == 0
        invariant forall j :: 0 <= j < WINDOWS ==> last[j] == if j < i then 0 else old(last[j])
        invariant tabLast == if MAIN < i && ShowsTab(data) then 0 else old(tabLast)
      {
        last[i] := 0;
        if i == MAIN {
          ret := MainInit(data);
        } else {
          ret := data.rcs[i];
        }
        if ret != 0 { return; }
      }
    }

    // mainUpdate
    method MainUpdate(poll: Poll) returns (ret: int)
      modifies this`tabLast
      ensures ret == if poll.driverLoaded && Due(old(tabLast), periods.tab, poll.mainNow) then poll.tab.rc else 0
      ensures tabLast == if poll.driverLoaded && Due(old(tabLast), periods.tab, poll.mainNow) && poll.tab.rc == 0
                         then poll.tab.done else old(tabLast)
    {
      ret := 0;
      if poll.driverLoaded {
        if Due(tabLast, periods.tab, poll.mainNow) {
          ret := poll.tab.rc;
          if ret != 0 { return; }
          tabLast := poll.tab.done;
        }
      }
    }

    // WindowUpdate on window i.
    method WindowUpdate(i: nat, poll: Poll) returns (ret: int)
      requires i < WINDOWS
      modifies this`tabLast
      ensures i == DEVICE ==> tabLast == (if poll.reinit then 0 else old(tabLast)) && ret == poll.replies[i].rc
      ensures i != DEVICE && i != MAIN ==> tabLast == old(tabLast) && ret == poll.replies[i].rc
      ensures i == MAIN ==>
                var refresh := poll.driverLoaded && Due(old(tabLast), periods.tab, poll.mainNow);
                && ret == (if refresh then poll.tab.rc else 0)
                && tabLast == if refresh && poll.tab.rc == 0 then poll.tab.done else old(tabLast)
    {
      if i == MAIN {
        ret := MainUpdate(poll);
      } else {
        if i == DEVICE && poll.reinit { tabLast := 0; }
        ret := poll.replies[i].rc;
      }
    }

    method WindowsUpdate(poll: Poll) returns (ret: int)
      requires Valid()
      modifies this`tabLast, last
      ensures Polled(old(Value()), periods, poll, Value())
      ensures ret == 0 <==> Reached(old(Value()), periods, poll, WINDOWS)
      ensures ret != 0 ==>
                exists i :: && 0 <= i < WINDOWS && Reached(old(Value()), periods, poll, i)
                            && Fails(old(Value()), periods, poll, i) && ret == HandlerRc(old(Value()), periods, poll, i)
    {
      ghost var s := Value();
      ret := 0;
      for i := 0 to WINDOWS
        invariant ret == 0 && Reached(s, periods, poll, i)
        invariant forall j :: 0 <= j < i ==>
                    last[j] == if Updated(s, periods, poll, j) then poll.replies[j].done else s.last[j]
        invariant forall j :: i <= j < WINDOWS ==> last[j] == s.last[j]
        invariant tabLast == if i == 0 then s.tab
                             else if i > MAIN && TabRefreshed(s, periods, poll) then poll.tab.done
                             else TabBeforeMain(s, periods, poll)
      {
        if Due(last[i], periods.windows[i], poll.now) {
          ret := WindowUpdate(i, poll);
          if ret != 0 {
            assert Fails(s, periods, poll, i);
            return;
          }
          last[i] := poll.replies[i].done;
        }
      }
    }
  }
}
