/** What the display tab has on record and on screen over any run of its hooks: inits, which
    come with every switch of the tab or the device and after every help page, and updates. */
module DisplayRuns {
  import opened Options
  import opened Display

  datatype Event =
    | Init(device: nat, kernel: Kernel)
    | Refresh(kernel: Kernel)

  // ---------- runs as seen from outside ----------

  // The device that was active at the last init, -1 before the first.
  ghost function DeviceAfter(es: seq<Event>): int {
    if es == [] then -1
    else
      var e := es[|es| - 1];
      if e.Init? then e.device else DeviceAfter(es[..|es| - 1])
  }

  // After es, e asks the kernel: an update always does, an init when the device is another one.
  ghost predicate Asks(es: seq<Event>, e: Event) {
    e.Refresh? || e.device != DeviceAfter(es)
  }

  ghost function ResourceAfter(es: seq<Event>): Option<Listing> {
    if es == [] then None
    else
      var front, e := es[..|es| - 1], es[|es| - 1];
      if Asks(front, e) then Held(ResourceAfter(front), e.kernel) else ResourceAfter(front)
  }

  ghost predicate Answered(es: seq<Event>, e: Event) {
    Asks(es, e) && QueryRc(ResourceAfter(es), e.kernel) == 0
  }

  ghost function Answer(es: seq<Event>, e: Event): Snapshot {
    Taken(ResourceAfter(es), e.kernel)
  }

  // The snapshot of the last query that succeeded.
  ghost function LastAnswer(es: seq<Event>): Option<Snapshot> {
    if es == [] then None
    else
      var front, e := es[..|es| - 1], es[|es| - 1];
      if Answered(front, e) then Some(Answer(front, e)) else LastAnswer(front)
  }

  // A snapshot is recorded when it differs from the one before on the watched fields.
  ghost predicate Records(es: seq<Event>, e: Event) {
    Answered(es, e) && (LastAnswer(es).None? || !Agree(LastAnswer(es).value, Answer(es, e)))
  }

  ghost function LastRecord(es: seq<Event>): Option<Snapshot> {
    if es == [] then None
    else
      var front, e := es[..|es| - 1], es[|es| - 1];
      if Records(front, e) then Some(Answer(front, e)) else LastRecord(front)
  }

  ghost function ParseFails(es: seq<Event>, e: Event): bool {
    ParseAllRc(Answer(es, e).displays) != 0
  }

  ghost function EventRc(es: seq<Event>, e: Event): int {
    if !Asks(es, e) then 0
    else if !Answered(es, e) then QueryRc(ResourceAfter(es), e.kernel)
    else if Records(es, e) then ParseAllRc(Answer(es, e).displays)
    else 0
  }

  // An init draws whenever it succeeds, an update only what it has just recorded.
  ghost predicate Draws(es: seq<Event>, e: Event) {
    EventRc(es, e) == 0 && (e.Init? || Records(es, e))
  }

  // What is on record: the last recorded snapshot, filled in.
  ghost function Shown(es: seq<Event>, names: NameTables): Snapshot {
    match LastRecord(es)
    case None => NOTHING
    case Some(t) => FilledInSnapshot(t, names)
  }

  // What is on screen: the record as it was at the last event that drew.
  ghost function Drawn(es: seq<Event>, names: NameTables): Snapshot {
    if es == [] then NOTHING
    else
      var front, e := es[..|es| - 1], es[|es| - 1];
      if Draws(front, e) then Shown(es, names) else Drawn(front, names)
  }

  // ---------- the code does that ----------

  lemma AgreementCarries(a: Snapshot, b: Snapshot, c: Snapshot)
    requires Agree(a, b) && b.valid
    ensures Agree(a, c) <==> Agree(b, c)
  {
  }

  // The record agrees with the last answer, whichever of its predecessors was recorded.
  lemma {:induction false} RecordAgrees(es: seq<Event>, names: NameTables)
    ensures LastAnswer(es).Some? <==> LastRecord(es).Some?
    ensures LastAnswer(es).Some? ==> LastAnswer(es).value.valid && Agree(Shown(es, names), LastAnswer(es).value)
    ensures Shown(es, names).valid <==> LastAnswer(es).Some?
  {
    if es != [] {
      var front, e := es[..|es| - 1], es[|es| - 1];
      RecordAgrees(front, names);
      if Records(front, e) {
        FilledInAgrees(Answer(front, e), names);
      } else if Answered(front, e) {
        AgreementCarries(Shown(front, names), LastAnswer(front).value, Answer(front, e));
      }
    }
  }

  // Hence the test that the code makes, on the record, is the test on the last answer.
  lemma RecordsIs(es: seq<Event>, e: Event, names: NameTables)
    requires Answered(es, e)
    ensures Records(es, e) <==> !Agree(Shown(es, names), Answer(es, e))
  {
    RecordAgrees(es, names);
    if LastAnswer(es).Some? {
      AgreementCarries(Shown(es, names), LastAnswer(es).value, Answer(es, e));
    }
  }

  /** The values of the tab's variables after es. */
  ghost predicate Follows(tab: DisplayTab, es: seq<Event>)
    reads tab, tab.latest, tab.shown, tab.shown.infos
  {
    && tab.Valid() && tab.device == DeviceAfter(es) && tab.resource == ResourceAfter(es)
    && tab.shown.Value() == Shown(es, tab.names) && tab.drawn == Drawn(es, tab.names)
  }

  // No query goes through a pointer that is NULL or stale, or finds too many displays.
  ghost predicate Safe(es: seq<Event>, e: Event) {
    Asks(es, e) ==> Answerable(ResourceAfter(es), e.kernel)
  }

  method Handle(tab: DisplayTab, e: Event, ghost es: seq<Event>) returns (ret: int)
    requires Follows(tab, es) && Safe(es, e)
    modifies tab, tab.latest, tab.latest.infos, tab.shown, tab.shown.infos
    ensures Follows(tab, es + [e]) && ret == EventRc(es, e)
  {
    assert (es + [e])[..|es|] == es;
    if Answered(es, e) { RecordsIs(es, e, tab.names); }
    match e {
      case Init(device, k) => ret := tab.Init(device, k);
      case Refresh(k) => ret := tab.Refresh(k);
    }
  }

  ghost predicate SafeAt(events: seq<Event>, i: nat)
    requires i < |events|
  {
    Safe(events[..i], events[i])
  }

  ghost function RcAt(events: seq<Event>, i: nat): int
    requires i < |events|
  {
    EventRc(events[..i], events[i])
  }

  lemma OneMoreEvent(events: seq<Event>, i: nat)
    requires i < |events|
    ensures events[..i + 1] == events[..i] + [events[i]]
  {
  }

  // Any run of events on a new tab.
  method Run(tab: DisplayTab, events: seq<Event>) returns (rets: seq<int>)
    requires Follows(tab, [])
    requires forall i :: 0 <= i < |events| ==> SafeAt(events, i)
    modifies tab, tab.latest, tab.latest.infos, tab.shown, tab.shown.infos
    ensures Follows(tab, events) && |rets| == |events|
    ensures forall i :: 0 <= i < |events| ==> rets[i] == RcAt(events, i)
  {
    rets := [];
    for i := 0 to |events|
      invariant Follows(tab, events[..i]) && |rets| == i
      invariant forall j :: 0 <= j < i ==> rets[j] == RcAt(events, j)
    {
      assert SafeAt(events, i);
      OneMoreEvent(events, i);
      var ret := Handle(tab, events[i], events[..i]);
      rets := rets + [ret];
    }
    assert events[..|events|] == events;
  }

  // ---------- when the record is on screen ----------

  ghost predicate DrawsAt(es: seq<Event>, i: nat)
    requires i < |es|
  {
    Draws(es[..i], es[i])
  }

  ghost predicate RecordsAt(es: seq<Event>, i: nat)
    requires i < |es|
  {
    Records(es[..i], es[i])
  }

  // The last recorded snapshot has been drawn: some event draws and none records after it.
  ghost predicate IsDrawn(es: seq<Event>) {
    exists i :: 0 <= i < |es| && DrawsAt(es, i) && forall j :: i < j < |es| ==> !RecordsAt(es, j)
  }

  // Event i is the last that records a snapshot, that fails to parse, and nothing draws after
  // it, which is to say that no init succeeds.
  ghost predicate Missed(es: seq<Event>, i: nat)
    requires i < |es|
  {
    && RecordsAt(es, i) && ParseFails(es[..i], es[i])
    && forall j :: i < j < |es| ==> !RecordsAt(es, j) && !DrawsAt(es, j)
  }

  // What holds of an event holds of it in every prefix that has it.
  lemma InFront(es: seq<Event>, i: nat)
    requires 0 <= i < |es| - 1
    ensures var front := es[..|es| - 1];
            && front[..i] == es[..i] && front[i] == es[i]
            && (DrawsAt(front, i) <==> DrawsAt(es, i)) && (RecordsAt(front, i) <==> RecordsAt(es, i))
  {
  }

  lemma {:induction false} DrawnOne(es: seq<Event>, names: NameTables) returns (i: nat)
    requires LastRecord(es).Some? && !(exists j :: 0 <= j < |es| && Missed(es, j))
    ensures i < |es| && DrawsAt(es, i) && forall j :: i < j < |es| ==> !RecordsAt(es, j)
    ensures Drawn(es, names) == Shown(es, names)
  {
    var front, e, n := es[..|es| - 1], es[|es| - 1], |es| - 1;
    if Draws(front, e) {
      i := n;
    } else {
      assert Records(front, e) ==> Missed(es, n);
      forall j | 0 <= j < |front|
        ensures !Missed(front, j)
      {
        InFront(es, j);
        if Missed(front, j) {
          forall m | j < m < |es|
            ensures !RecordsAt(es, m) && !DrawsAt(es, m)
          {
            if m < n { InFront(es, m); }
          }
          assert Missed(es, j);
        }
      }
      i := DrawnOne(front, names);
      InFront(es, i);
      forall j | i < j < |es|
        ensures !RecordsAt(es, j)
      {
        if j < n { InFront(es, j); }
      }
    }
  }

  // After a snapshot was missed the screen is what it was before the event that recorded it,
  // and that snapshot is still the record.
  lemma {:induction false} MissedStays(es: seq<Event>, i: nat, names: NameTables)
    requires i < |es| && Missed(es, i)
    ensures !IsDrawn(es)
    ensures Drawn(es, names) == Drawn(es[..i], names)
    ensures LastRecord(es) == Some(Answer(es[..i], es[i]))
  {
    var front, n := es[..|es| - 1], |es| - 1;
    assert es[..n] == front && !DrawsAt(es, n);
    if i < n {
      InFront(es, i);
      forall j | i < j < n
        ensures !RecordsAt(front, j) && !DrawsAt(front, j)
      {
        InFront(es, j);
      }
      MissedStays(front, i, names);
    }
    forall j | 0 <= j < |es| && DrawsAt(es, j)
      ensures exists m :: j < m < |es| && RecordsAt(es, m)
    {
      assert j < i && RecordsAt(es, i);
    }
  }

  // The record has been drawn exactly when it was not missed.
  lemma DrawnUnlessMissed(es: seq<Event>, names: NameTables)
    requires LastRecord(es).Some?
    ensures IsDrawn(es) <==> !exists i :: 0 <= i < |es| && Missed(es, i)
    ensures IsDrawn(es) ==> Drawn(es, names) == Shown(es, names)
  {
    if i :| 0 <= i < |es| && Missed(es, i) {
      MissedStays(es, i, names);
    } else {
      var i := DrawnOne(es, names);
    }
  }

  // As far as contents go: the screen shows something else than the record exactly when the
  // record was missed and had not been on screen, by chance, before the event that recorded it.
  lemma ScreenIsStale(es: seq<Event>, names: NameTables)
    requires LastRecord(es).Some?
    ensures Drawn(es, names) != Shown(es, names) <==>
              exists i :: 0 <= i < |es| && Missed(es, i) && Drawn(es[..i], names) != Shown(es, names)
  {
    DrawnUnlessMissed(es, names);
    forall i | 0 <= i < |es| && Missed(es, i)
      ensures Drawn(es, names) == Drawn(es[..i], names)
    {
      MissedStays(es, i, names);
    }
  }

  // An init for the device that is active already draws the record, missed or not, whatever
  // device that came from.
  lemma ReInitDraws(es: seq<Event>, k: Kernel, names: NameTables)
    requires DeviceAfter(es) >= 0
    ensures var e := Init(DeviceAfter(es), k);
            EventRc(es, e) == 0 && Shown(es + [e], names) == Shown(es, names) == Drawn(es + [e], names)
  {
  }

  // ---------- whose record it is ----------

  // The device that was active when the record was made.
  ghost function RecordDevice(es: seq<Event>): int {
    if es == [] then -1
    else
      var front, e := es[..|es| - 1], es[|es| - 1];
      if Records(front, e) then DeviceAfter(es) else RecordDevice(front)
  }

  // Event i made the record, with the answer that it was given for the device then active.
  ghost predicate IsLastRecord(es: seq<Event>, i: nat)
    requires i < |es|
  {
    && RecordsAt(es, i) && LastRecord(es) == Some(Answer(es[..i], es[i]))
    && RecordDevice(es) == DeviceAfter(es[..i + 1])
    && forall j :: i < j < |es| ==> !RecordsAt(es, j)
  }

  lemma RecordStays(es: seq<Event>, i: nat)
    requires i < |es| - 1 && IsLastRecord(es[..|es| - 1], i) && !RecordsAt(es, |es| - 1)
    ensures IsLastRecord(es, i)
  {
    var front, n := es[..|es| - 1], |es| - 1;
    InFront(es, i);
    assert front[..i + 1] == es[..i + 1] && es[..n] == front;
    forall j | i < j < |es|
      ensures !RecordsAt(es, j)
    {
      if j < n { InFront(es, j); }
    }
  }

  lemma {:induction false} RecordComesFrom(es: seq<Event>) returns (i: nat)
    requires LastRecord(es).Some?
    ensures i < |es| && IsLastRecord(es, i)
  {
    var front, n := es[..|es| - 1], |es| - 1;
    assert es[..n] == front && es[..n + 1] == es;
    if RecordsAt(es, n) {
      i := n;
    } else {
      i := RecordComesFrom(front);
      RecordStays(es, i);
    }
  }

  ghost predicate SwitchesAt(es: seq<Event>, i: nat)
    requires i < |es|
  {
    es[i].Init? && Asks(es[..i], es[i])
  }

  // Event i is the last switch, to another device than the record's, and from there on nothing
  // is recorded: every query fails, or is answered like the last one before on the watched fields.
  ghost predicate LeftBehind(es: seq<Event>, i: nat)
    requires i < |es|
  {
    && SwitchesAt(es, i) && RecordDevice(es[..i]) != es[i].device
    && (forall j :: i <= j < |es| ==> !RecordsAt(es, j))
    && (forall j :: i < j < |es| ==> !SwitchesAt(es, j))
  }

  lemma LeftBehindInFront(es: seq<Event>, i: nat)
    requires i < |es| - 1
    ensures LeftBehind(es, i) <==>
              LeftBehind(es[..|es| - 1], i) && !RecordsAt(es, |es| - 1) && !SwitchesAt(es, |es| - 1)
  {
    var front, n := es[..|es| - 1], |es| - 1;
    assert forall j :: 0 <= j < n ==> front[..j] == es[..j] && front[j] == es[j];
    assert forall j :: 0 <= j < n ==> (RecordsAt(front, j) <==> RecordsAt(es, j));
    assert forall j :: 0 <= j < n ==> (SwitchesAt(front, j) <==> SwitchesAt(es, j));
  }

  // Only then is the record, if there is one, that of another device than the active one.
  lemma {:induction false} ForeignRecord(es: seq<Event>)
    ensures RecordDevice(es) != DeviceAfter(es) <==> exists i :: 0 <= i < |es| && LeftBehind(es, i)
  {
    if es != [] {
      var front, e, n := es[..|es| - 1], es[|es| - 1], |es| - 1;
      assert es[..n] == front;
      ForeignRecord(front);
      assert SwitchesAt(es, n) ==> (LeftBehind(es, n) <==> !RecordsAt(es, n) && RecordDevice(front) != e.device);
      forall i | 0 <= i < n
        ensures LeftBehind(es, i) <==> LeftBehind(front, i) && !RecordsAt(es, n) && !SwitchesAt(es, n)
      {
        LeftBehindInFront(es, i);
      }
    }
  }

  // ---------- the static pointer ----------

  // Event i asks, and gpuGetModeResouce stores something: with 0 a listing, with an error one
  // whose lists are freed.
  ghost predicate StoresAt(es: seq<Event>, i: nat)
    requires i < |es|
  {
    Asks(es[..i], es[i]) && es[i].kernel.stored.Some?
  }

  ghost predicate LastDelivery(es: seq<Event>, i: nat)
    requires i < |es|
  {
    StoresAt(es, i) && es[i].kernel.resourceRc == 0 && forall j :: i < j < |es| ==> !StoresAt(es, j)
  }

  lemma DeliveryInFront(es: seq<Event>, i: nat)
    requires i < |es| - 1
    ensures LastDelivery(es, i) <==> LastDelivery(es[..|es| - 1], i) && !StoresAt(es, |es| - 1)
  {
    var front, n := es[..|es| - 1], |es| - 1;
    assert forall j :: 0 <= j < n ==> front[..j] == es[..j] && front[j] == es[j];
    assert forall j :: 0 <= j < n ==> (StoresAt(front, j) <==> StoresAt(es, j));
  }

  // There is a listing to go on with exactly when one was delivered and nothing was stored since.
  lemma {:induction false} ListingIsUsable(es: seq<Event>)
    ensures ResourceAfter(es).Some? <==> exists i :: 0 <= i < |es| && LastDelivery(es, i)
    ensures forall i :: 0 <= i < |es| && LastDelivery(es, i) ==> ResourceAfter(es) == es[i].kernel.stored
  {
    if es != [] {
      var front, n := es[..|es| - 1], |es| - 1;
      assert es[..n] == front;
      ListingIsUsable(front);
      assert LastDelivery(es, n) <==> StoresAt(es, n) && es[n].kernel.resourceRc == 0;
      forall i | 0 <= i < n
        ensures LastDelivery(es, i) <==> LastDelivery(front, i) && !StoresAt(es, n)
      {
        DeliveryInFront(es, i);
      }
    }
  }
}
