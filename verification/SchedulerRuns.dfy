/** Facts about every run of the refresh timers. */
module SchedulerRuns {
  import opened Words
  import opened WindowTypes
  import opened Arithmetic
  import opened Scheduler

  // ---------- one window over any run ----------

  /** A successful update of a window: the clock at the start of its poll, and after its handler. */
  datatype Update = Update(start: Time, end: Time)

  /** What the main loop does next: a poll, or a key. A key may switch the tab or the device
      and so put another timer and period in the place of the active tab's, or reset that
      timer; it reaches no window's timestamp. */
  datatype Step = PollStep(poll: Poll) | KeyStep(tab: Time, tabPeriod: Time)

  /** The timers and the periods in force; of those only the tab's ever changes. */
  datatype State = State(timers: Timers, periods: Periods)

  ghost predicate Stepped(s: State, step: Step, s': State)
    requires Shaped(s.timers, s.periods)
  {
    match step
    case PollStep(poll) => s'.periods == s.periods && Polled(s.timers, s.periods, poll, s'.timers)
    case KeyStep(tab, period) => s' == State(s.timers.(tab := tab), s.periods.(tab := period))
  }

  ghost predicate StepAt(states: seq<State>, steps: seq<Step>, k: nat)
    requires |states| == |steps| + 1 && k < |steps|
  {
    Shaped(states[k].timers, states[k].periods) && Stepped(states[k], steps[k], states[k + 1])
  }

  // States and steps alternate: states[k + 1] is what steps[k] makes of states[k].
  ghost predicate IsRun(states: seq<State>, steps: seq<Step>) {
    && |states| == |steps| + 1
    && Shaped(states[0].timers, states[0].periods)
    && forall k :: 0 <= k < |steps| ==> StepAt(states, steps, k)
  }

  /** A step as one window sees it: the clock at the start of the poll, the clock after the
      window's handler, and whether the window was updated. */
  datatype Visit = Visit(now: Time, done: Time, hit: bool)

  ghost function VisitOf(s: State, step: Step, w: nat): Visit
    requires Shaped(s.timers, s.periods) && w < WINDOWS
  {
    match step
    case PollStep(poll) => Visit(poll.now, poll.replies[w].done, Updated(s.timers, s.periods, poll, w))
    case KeyStep(_, _) => Visit(0, 0, false)
  }

  ghost function VisitsOf(states: seq<State>, steps: seq<Step>, w: nat): seq<Visit>
    requires IsRun(states, steps) && w < WINDOWS
  {
    seq(|steps|, k requires 0 <= k < |steps| => assert StepAt(states, steps, k); VisitOf(states[k], steps[k], w))
  }

  // What a visit does to the window's timestamp. The clock does not go back while the handler
  // runs, and is not near the end of its range.
  ghost predicate VisitStep(v: Visit, period: Time, last: Time, last': Time) {
    if v.hit then Due(last, period, v.now) && last' == v.done && v.now <= v.done && v.done + period < UINT64_SIZE
    else last' == last
  }

  ghost predicate ClockIsMonotone(steps: seq<Step>, period: Time, w: nat)
    requires w < WINDOWS
  {
    forall k :: 0 <= k < |steps| && steps[k].PollStep? ==>
      var poll := steps[k].poll;
      poll.now <= poll.replies[w].done && poll.replies[w].done + period < UINT64_SIZE
  }

  // The successful updates among the first n visits, in order.
  ghost function UpdatesOf(visits: seq<Visit>, n: nat): seq<Update>
    requires n <= |visits|
  {
    if n == 0 then []
    else UpdatesOf(visits, n - 1) + if visits[n - 1].hit then [Update(visits[n - 1].now, visits[n - 1].done)] else []
  }

  ghost function Updates(states: seq<State>, steps: seq<Step>, w: nat): seq<Update>
    requires IsRun(states, steps) && w < WINDOWS
  {
    UpdatesOf(VisitsOf(states, steps, w), |steps|)
  }

  ghost predicate ApartAt(us: seq<Update>, period: nat, k: nat)
    requires 0 < k < |us|
  {
    us[k].start >= us[k - 1].end + period
  }

  ghost predicate SpacedBy(us: seq<Update>, period: nat) {
    && (forall k :: 0 <= k < |us| ==> us[k].start <= us[k].end)
    && (forall k :: 0 < k < |us| ==> ApartAt(us, period, k))
  }

  lemma SpacingGrows(us: seq<Update>, u: Update, period: nat)
    requires SpacedBy(us, period) && u.start <= u.end && (us != [] ==> u.start >= us[|us| - 1].end + period)
    ensures SpacedBy(us + [u], period)
  {
    forall k | 0 < k < |us| + 1
      ensures ApartAt(us + [u], period, k)
    {
      assert k < |us| ==> ApartAt(us, period, k);
    }
  }

  // The updates us of a window whose timestamp was first at the beginning and is last at the end.
  ghost predicate SpacedUpTo(us: seq<Update>, period: nat, first: Time, last: Time) {
    && SpacedBy(us, period)
    && (us != [] ==> period > 0 && us[0].start >= first + period)
    && last == (if us == [] then first else us[|us| - 1].end)
    && last + period < UINT64_SIZE
  }

  ghost predicate LoggedAt(visits: seq<Visit>, period: Time, lasts: seq<Time>, k: nat)
    requires |lasts| == |visits| + 1 && k < |visits|
  {
    VisitStep(visits[k], period, lasts[k], lasts[k + 1])
  }

  // lasts are the window's timestamps before, between and after the visits.
  ghost predicate IsLog(visits: seq<Visit>, period: Time, lasts: seq<Time>) {
    |lasts| == |visits| + 1 && forall k :: 0 <= k < |visits| ==> LoggedAt(visits, period, lasts, k)
  }

  // One visit more.
  lemma VisitIsSpaced(us: seq<Update>, v: Visit, period: Time, first: Time, last: Time, last': Time)
    requires SpacedUpTo(us, period, first, last) && VisitStep(v, period, last, last')
    ensures SpacedUpTo(us + if v.hit then [Update(v.now, v.done)] else [], period, first, last')
  {
    if v.hit {
      SpacingGrows(us, Update(v.now, v.done), period);
    } else {
      assert us + [] == us;
    }
  }

  lemma {:induction false} VisitsAreSpaced(visits: seq<Visit>, period: Time, lasts: seq<Time>, n: nat)
    requires IsLog(visits, period, lasts) && n <= |visits| && lasts[0] + period < UINT64_SIZE
    ensures SpacedUpTo(UpdatesOf(visits, n), period, lasts[0], lasts[n])
  {
    if n > 0 {
      VisitsAreSpaced(visits, period, lasts, n - 1);
      assert LoggedAt(visits, period, lasts, n - 1);
      VisitIsSpaced(UpdatesOf(visits, n - 1), visits[n - 1], period, lasts[0], lasts[n - 1], lasts[n]);
    }
  }

  // Every state of a run has all the timers, and the windows' periods of the first state.
  ghost predicate LikeFirst(states: seq<State>, k: nat)
    requires k < |states|
  {
    Shaped(states[k].timers, states[k].periods) && states[k].periods.windows == states[0].periods.windows
  }

  lemma {:induction false} RunIsShaped(states: seq<State>, steps: seq<Step>, n: nat)
    requires IsRun(states, steps) && n <= |steps|
    ensures forall k :: 0 <= k <= n ==> LikeFirst(states, k)
  {
    if n == 0 {
      assert LikeFirst(states, 0);
    } else {
      RunIsShaped(states, steps, n - 1);
      assert LikeFirst(states, n - 1) && StepAt(states, steps, n - 1);
      assert LikeFirst(states, n);
    }
  }

  ghost function LastsOf(states: seq<State>, w: nat): seq<Time>
    requires w < WINDOWS && forall k :: 0 <= k < |states| ==> LikeFirst(states, k)
  {
    seq(|states|, k requires 0 <= k < |states| => assert LikeFirst(states, k); states[k].timers.last[w])
  }

  lemma VisitOfStep(s: State, step: Step, s': State, w: nat)
    requires Shaped(s.timers, s.periods) && Stepped(s, step, s') && w < WINDOWS
    requires ClockIsMonotone([step], s.periods.windows[w], w)
    ensures VisitStep(VisitOf(s, step, w), s.periods.windows[w], s.timers.last[w], s'.timers.last[w])
  {
    assert [step][0] == step;
  }

  lemma RunIsLogged(states: seq<State>, steps: seq<Step>, w: nat)
    requires IsRun(states, steps) && w < WINDOWS && forall k :: 0 <= k < |states| ==> LikeFirst(states, k)
    requires ClockIsMonotone(steps, states[0].periods.windows[w], w)
    ensures IsLog(VisitsOf(states, steps, w), states[0].periods.windows[w], LastsOf(states, w))
  {
    forall k | 0 <= k < |steps|
      ensures LoggedAt(VisitsOf(states, steps, w), states[0].periods.windows[w], LastsOf(states, w), k)
    {
      assert StepAt(states, steps, k) && LikeFirst(states, k);
      VisitOfStep(states[k], steps[k], states[k + 1], w);
    }
  }

  // Whatever keys are pressed between the polls, consecutive updates are at least a period
  // apart, the first at least a period after the timestamp at the beginning, and the timestamp
  // at the end is that of the last one.
  lemma UpdatesAreSpaced(states: seq<State>, steps: seq<Step>, w: nat)
    requires IsRun(states, steps) && w < WINDOWS
    requires ClockIsMonotone(steps, states[0].periods.windows[w], w)
    requires states[0].timers.last[w] + states[0].periods.windows[w] < UINT64_SIZE
    ensures |states[|steps|].timers.last| == WINDOWS
    ensures SpacedUpTo(Updates(states, steps, w), states[0].periods.windows[w],
                       states[0].timers.last[w], states[|steps|].timers.last[w])
  {
    RunIsShaped(states, steps, |steps|);
    assert LikeFirst(states, |steps|);
    RunIsLogged(states, steps, w);
    VisitsAreSpaced(VisitsOf(states, steps, w), states[0].periods.windows[w], LastsOf(states, w), |steps|);
  }

  lemma {:induction false} SpacingAddsUp(us: seq<Update>, period: nat, i: nat, j: nat)
    requires i <= j < |us|
    requires SpacedBy(us, period)
    ensures us[j].start - us[i].start >= (j - i) * period
  {
    if i < j {
      SpacingAddsUp(us, period, i, j - 1);
      assert ApartAt(us, period, j);
      assert (j - i) * period == (j - 1 - i) * period + period;
    }
  }

  // Any stretch of updates whose starts lie within a span of time is no longer than span / period + 1.
  lemma RateIsBounded(states: seq<State>, steps: seq<Step>, w: nat, us: seq<Update>, i: nat, j: nat, span: nat)
    requires IsRun(states, steps) && w < WINDOWS
    requires ClockIsMonotone(steps, states[0].periods.windows[w], w)
    requires states[0].timers.last[w] + states[0].periods.windows[w] < UINT64_SIZE
    requires us == Updates(states, steps, w)
    requires i <= j < |us| && us[j].start - us[i].start <= span
    ensures states[0].periods.windows[w] > 0 && j - i + 1 <= span / states[0].periods.windows[w] + 1
  {
    UpdatesAreSpaced(states, steps, w);
    SpacedRate(us, states[0].periods.windows[w], i, j, span);
  }

  lemma SpacedRate(us: seq<Update>, period: nat, i: nat, j: nat, span: nat)
    requires SpacedBy(us, period) && period > 0
    requires i <= j < |us| && us[j].start - us[i].start <= span
    ensures j - i <= span / period
  {
    SpacingAddsUp(us, period, i, j);
    AtMostQuotient(j - i, period, span);
  }

  // A failing update leaves its own timestamp alone and skips exactly the later windows.
  lemma FailureSkipsLaterWindows(s: Timers, p: Periods, poll: Poll, s': Timers, f: nat)
    requires Shaped(s, p) && Polled(s, p, poll, s') && f < WINDOWS
    requires Reached(s, p, poll, f) && Fails(s, p, poll, f)
    ensures forall i :: f <= i < WINDOWS ==> s'.last[i] == s.last[i]
    ensures forall i :: 0 <= i < f ==>
              s'.last[i] == if Due(s.last[i], p.windows[i], poll.now) then poll.replies[i].done else s.last[i]
  {
  }

  // ---------- the active tab, with instantaneous and error-free handlers ----------

  ghost predicate Instant(poll: Poll, t: Time) {
    && poll.now == t && poll.mainNow == t && poll.driverLoaded && !poll.reinit
    && poll.tab == Reply(0, t) && forall i :: 0 <= i < WINDOWS ==> poll.replies[i] == Reply(0, t)
  }

  /** The two timers that matter to the active tab. */
  datatype Nested = Nested(main: Time, tab: Time)

  ghost function Tick(s: Nested, mainPeriod: Time, tabPeriod: Time, t: Time): Nested {
    if !Due(s.main, mainPeriod, t) then s
    else if Due(s.tab, tabPeriod, t) then Nested(t, t)
    else Nested(t, s.tab)
  }

  ghost predicate Refreshes(s: Nested, mainPeriod: Time, tabPeriod: Time, t: Time) {
    Due(s.main, mainPeriod, t) && Due(s.tab, tabPeriod, t)
  }

  // With such handlers a poll does just that to the two timers.
  lemma InstantPollTicks(s: Timers, p: Periods, poll: Poll, s': Timers, t: Time)
    requires Shaped(s, p) && Polled(s, p, poll, s') && Instant(poll, t)
    ensures Nested(s'.last[MAIN], s'.tab) == Tick(Nested(s.last[MAIN], s.tab), p.windows[MAIN], p.tab, t)
    ensures TabRefreshed(s, p, poll) <==> Refreshes(Nested(s.last[MAIN], s.tab), p.windows[MAIN], p.tab, t)
  {
  }

  ghost function RefreshTimes(s: Nested, mainPeriod: Time, tabPeriod: Time, ts: seq<Time>): seq<Time>
    decreases |ts|
  {
    if ts == [] then []
    else
      var more := RefreshTimes(Tick(s, mainPeriod, tabPeriod, ts[0]), mainPeriod, tabPeriod, ts[1..]);
      if Refreshes(s, mainPeriod, tabPeriod, ts[0]) then [ts[0]] + more else more
  }

  // Polls at most d apart, starting at most d after now.
  ghost predicate Spaced(now: Time, ts: seq<Time>, d: nat) {
    && (ts != [] ==> now <= ts[0] <= now + d)
    && (forall k :: 0 < k < |ts| ==> ts[k - 1] <= ts[k] <= ts[k - 1] + d)
  }

  // The timers at time now, a poll, once the tab has been refreshed: the main window is not
  // due, and when it was last updated the tab was not due (or was refreshed just then).
  ghost predicate Settled(s: Nested, now: Time, mainPeriod: Time, tabPeriod: Time) {
    s.tab <= s.main <= now < s.main + mainPeriod && s.main < s.tab + tabPeriod
  }

  lemma TickSettles(s: Nested, now: Time, t: Time, mainPeriod: Time, tabPeriod: Time)
    requires mainPeriod > 0 && tabPeriod > 0
    requires Settled(s, now, mainPeriod, tabPeriod) && now <= t
    requires t + mainPeriod + tabPeriod < UINT64_SIZE
    ensures Settled(Tick(s, mainPeriod, tabPeriod, t), t, mainPeriod, tabPeriod)
    ensures Refreshes(s, mainPeriod, tabPeriod, t) ==>
              Tick(s, mainPeriod, tabPeriod, t) == Nested(t, t) && s.tab + tabPeriod <= t
    ensures !Refreshes(s, mainPeriod, tabPeriod, t) ==>
              Tick(s, mainPeriod, tabPeriod, t).tab == s.tab && t < s.tab + tabPeriod + mainPeriod
  {
  }

  ghost predicate GapAt(rs: seq<Time>, k: nat, lo: nat, hi: nat)
    requires 0 < k < |rs|
  {
    rs[k - 1] + lo <= rs[k] < rs[k - 1] + hi
  }

  ghost predicate GapsWithin(rs: seq<Time>, lo: nat, hi: nat) {
    forall k :: 0 < k < |rs| ==> GapAt(rs, k, lo, hi)
  }

  lemma GapsGrow(first: Time, rs: seq<Time>, lo: nat, hi: nat)
    requires rs != [] && GapsWithin(rs, lo, hi) && first + lo <= rs[0] < first + hi
    ensures GapsWithin([first] + rs, lo, hi)
  {
    forall k | 0 < k < |rs| + 1
      ensures GapAt([first] + rs, k, lo, hi)
    {
      assert k > 1 ==> GapAt(rs, k - 1, lo, hi);
    }
  }

  // Consecutive refreshes of the tab, the one before the run included, are at least its period
  // and less than its period, the main window's and the polling distance apart. While there is
  // none, the clock stays below the sum of the two periods since the last one.
  lemma {:induction false} RefreshGaps(s: Nested, now: Time, mainPeriod: Time, tabPeriod: Time, ts: seq<Time>, d: nat)
    requires mainPeriod > 0 && tabPeriod > 0 && Settled(s, now, mainPeriod, tabPeriod) && Spaced(now, ts, d)
    requires forall k :: 0 <= k < |ts| ==> ts[k] + mainPeriod + tabPeriod < UINT64_SIZE
    ensures var rs := [s.tab] + RefreshTimes(s, mainPeriod, tabPeriod, ts);
            && GapsWithin(rs, tabPeriod, tabPeriod + mainPeriod + d)
            && (ts != [] ==> rs[|rs| - 1] <= ts[|ts| - 1] < rs[|rs| - 1] + tabPeriod + mainPeriod)
    decreases |ts|
  {
    if ts != [] {
      var t := ts[0];
      var s' := Tick(s, mainPeriod, tabPeriod, t);
      TickSettles(s, now, t, mainPeriod, tabPeriod);
      SpacedTail(now, ts, d);
      RefreshGaps(s', t, mainPeriod, tabPeriod, ts[1..], d);
      if Refreshes(s, mainPeriod, tabPeriod, t) {
        GapsGrow(s.tab, [t] + RefreshTimes(s', mainPeriod, tabPeriod, ts[1..]), tabPeriod, tabPeriod + mainPeriod + d);
      }
    }
  }

  lemma SpacedTail(now: Time, ts: seq<Time>, d: nat)
    requires ts != [] && Spaced(now, ts, d)
    ensures Spaced(ts[0], ts[1..], d)
  {
  }

  // A run that starts with a refresh goes on like one that starts behind it.
  lemma RefreshedFirst(s: Nested, mainPeriod: Time, tabPeriod: Time, ts: seq<Time>, d: nat)
    requires ts != [] && mainPeriod > 0 && tabPeriod > 0 && Spaced(ts[0], ts[1..], d)
    requires Refreshes(s, mainPeriod, tabPeriod, ts[0])
    requires forall k :: 0 <= k < |ts| ==> ts[k] + mainPeriod + tabPeriod < UINT64_SIZE
    ensures var rs := RefreshTimes(s, mainPeriod, tabPeriod, ts);
            && rs != [] && rs[0] == ts[0]
            && GapsWithin(rs, tabPeriod, tabPeriod + mainPeriod + d)
            && ts[|ts| - 1] < rs[|rs| - 1] + tabPeriod + mainPeriod
  {
    var t, rest := ts[0], ts[1..];
    assert Settled(Nested(t, t), t, mainPeriod, tabPeriod);
    assert RefreshTimes(s, mainPeriod, tabPeriod, ts) == [t] + RefreshTimes(Nested(t, t), mainPeriod, tabPeriod, rest);
    assert forall k :: 0 <= k < |rest| ==> rest[k] == ts[k + 1];
    RefreshGaps(Nested(t, t), t, mainPeriod, tabPeriod, rest, d);
  }

  // The first refresh after a reset of the tab's timer: now is the time of the reset, prev
  // that of the last poll, and the main window has not been due since.
  lemma {:induction false} FirstRefresh(s: Nested, now: Time, prev: Time, mainPeriod: Time, tabPeriod: Time,
                                        ts: seq<Time>, d: nat)
    requires mainPeriod > 0 && tabPeriod > 0 && s.tab == 0 && s.main <= now <= prev && tabPeriod <= now
    requires (prev == now || prev < s.main + mainPeriod) && Spaced(prev, ts, d)
    requires now + mainPeriod < UINT64_SIZE
    requires forall k :: 0 <= k < |ts| ==> ts[k] + mainPeriod + tabPeriod < UINT64_SIZE
    ensures var rs := RefreshTimes(s, mainPeriod, tabPeriod, ts);
            if rs == [] then ts != [] ==> ts[|ts| - 1] < s.main + mainPeriod
            else
              && s.main + mainPeriod <= rs[0] < now + mainPeriod + d
              && GapsWithin(rs, tabPeriod, tabPeriod + mainPeriod + d)
              && ts != [] && ts[|ts| - 1] < rs[|rs| - 1] + tabPeriod + mainPeriod
    decreases |ts|
  {
    if ts != [] {
      var t := ts[0];
      SpacedTail(prev, ts, d);
      if Due(s.main, mainPeriod, t) {
        RefreshedFirst(s, mainPeriod, tabPeriod, ts, d);
      } else {
        assert Tick(s, mainPeriod, tabPeriod, t) == s && !Refreshes(s, mainPeriod, tabPeriod, t);
        FirstRefresh(s, now, t, mainPeriod, tabPeriod, ts[1..], d);
      }
    }
  }

  // The times, from step k on, at which a run refreshes the active tab.
  ghost function TabRefreshes(states: seq<State>, steps: seq<Step>, k: nat): seq<Time>
    requires IsRun(states, steps) && k <= |steps|
    decreases |steps| - k
  {
    if k == |steps| then []
    else
      var more := TabRefreshes(states, steps, k + 1);
      var s, step := states[k], steps[k];
      if StepAt(states, steps, k) && step.PollStep? && TabRefreshed(s.timers, s.periods, step.poll)
      then [step.poll.mainNow] + more else more
  }

  // The times, from step k on, of the polls.
  ghost function PollTimes(steps: seq<Step>, k: nat): seq<Time>
    requires k <= |steps|
    decreases |steps| - k
  {
    if k == |steps| then []
    else
      var more := PollTimes(steps, k + 1);
      if steps[k].PollStep? then [steps[k].poll.now] + more else more
  }

  // Every poll is instantaneous, and no key touches the active tab's timer or period.
  ghost predicate QuietAt(states: seq<State>, steps: seq<Step>, k: nat)
    requires |states| == |steps| + 1 && k < |steps|
  {
    match steps[k]
    case PollStep(poll) => Instant(poll, poll.now)
    case KeyStep(tab, period) => tab == states[k].timers.tab && period == states[k].periods.tab
  }

  ghost predicate QuietRun(states: seq<State>, steps: seq<Step>) {
    IsRun(states, steps) && forall k :: 0 <= k < |steps| ==> QuietAt(states, steps, k)
  }

  ghost function NestedOf(s: Timers): Nested
    requires |s.last| == WINDOWS
  {
    Nested(s.last[MAIN], s.tab)
  }

  lemma {:induction false} RunTicks(states: seq<State>, steps: seq<Step>, k: nat)
    requires QuietRun(states, steps) && k <= |steps| && Shaped(states[k].timers, states[k].periods)
    ensures TabRefreshes(states, steps, k) ==
            RefreshTimes(NestedOf(states[k].timers), states[k].periods.windows[MAIN], states[k].periods.tab,
                         PollTimes(steps, k))
    decreases |steps| - k
  {
    if k < |steps| {
      var s, p := states[k].timers, states[k].periods;
      assert StepAt(states, steps, k) && QuietAt(states, steps, k);
      if steps[k].PollStep? {
        var poll := steps[k].poll;
        InstantPollTicks(s, p, poll, states[k + 1].timers, poll.now);
        assert PollTimes(steps, k)[1..] == PollTimes(steps, k + 1);
      }
      RunTicks(states, steps, k + 1);
    }
  }

  // No sum of a time and both periods leaves the range of the clock.
  ghost predicate InRange(now: Time, ts: seq<Time>, p: Periods)
    requires |p.windows| == WINDOWS
  {
    && now + p.windows[MAIN] + p.tab < UINT64_SIZE
    && forall k :: 0 <= k < |ts| ==> ts[k] + p.windows[MAIN] + p.tab < UINT64_SIZE
  }

  // The bound on every run of the window timers that starts at a refresh of the active tab, at
  // time now.
  lemma ActiveTabGaps(states: seq<State>, steps: seq<Step>, now: Time, d: nat)
    requires QuietRun(states, steps) && Spaced(now, PollTimes(steps, 0), d)
    requires InRange(now, PollTimes(steps, 0), states[0].periods)
    requires states[0].periods.windows[MAIN] > 0 && states[0].periods.tab > 0
    requires NestedOf(states[0].timers) == Nested(now, now)
    ensures var ts, rs := PollTimes(steps, 0), [now] + TabRefreshes(states, steps, 0);
            var main, tab := states[0].periods.windows[MAIN], states[0].periods.tab;
            && GapsWithin(rs, tab, tab + main + d)
            && (ts != [] ==> rs[|rs| - 1] <= ts[|ts| - 1] < rs[|rs| - 1] + tab + main)
  {
    var p := states[0].periods;
    RunTicks(states, steps, 0);
    RefreshGaps(NestedOf(states[0].timers), now, p.windows[MAIN], p.tab, PollTimes(steps, 0), d);
  }

  // The same from a reset of the active tab's timer on, at time now: the first refresh is less
  // than the main window's period and the polling distance away, whatever the tab's period.
  lemma ActiveTabAfterReset(states: seq<State>, steps: seq<Step>, now: Time, d: nat)
    requires QuietRun(states, steps) && Spaced(now, PollTimes(steps, 0), d)
    requires InRange(now, PollTimes(steps, 0), states[0].periods)
    requires states[0].periods.windows[MAIN] > 0 && 0 < states[0].periods.tab <= now
    requires states[0].timers.tab == 0 && states[0].timers.last[MAIN] <= now
    ensures var ts, rs := PollTimes(steps, 0), TabRefreshes(states, steps, 0);
            var main, tab, last := states[0].periods.windows[MAIN], states[0].periods.tab, states[0].timers.last[MAIN];
            if rs == [] then ts != [] ==> ts[|ts| - 1] < last + main
            else
              && last + main <= rs[0] < now + main + d
              && GapsWithin(rs, tab, tab + main + d)
              && ts != [] && ts[|ts| - 1] < rs[|rs| - 1] + tab + main
  {
    var p := states[0].periods;
    RunTicks(states, steps, 0);
    FirstRefresh(NestedOf(states[0].timers), now, now, p.windows[MAIN], p.tab, PollTimes(steps, 0), d);
  }
}
