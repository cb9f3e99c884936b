/** The display tab's queries and the memory they hold: query_display_info keeps the resource in a
    static pointer and never frees one. */
module DisplayMemory {
  import opened Options
  import opened ModeResource
  import Display

  // What the tab reads of a resource.
  ghost function ListingOf(live: Memory, r: Resource): Display.Listing {
    var t := Contents(live, r.ids);
    Display.Listing(seq(|t.connectors|, i requires 0 <= i < |t.connectors| => t.connectors[i]),
                    r.counts.encoders, r.counts.crtcs, r.counts.fbs)
  }

  // gpuGetModeResouce as the tab sees it.
  ghost function KernelOf(live: Memory, ret: int, stored: Option<Resource>, connector: nat -> Display.Connector)
    : Display.Kernel
  {
    Display.Kernel(ret, if stored.Some? then Some(ListingOf(live, stored.value)) else None, connector)
  }

  // Beyond base exactly the resources in held are live, each with its lists.
  ghost predicate HoldsAll(live: Memory, base: Memory, held: seq<Resource>)
    decreases |held|, 1
  {
    if held == [] then live == base else exists mid: Memory :: OnTop(live, mid, base, held)
  }

  // The last of them is what live has and mid has not.
  ghost predicate OnTop(live: Memory, mid: Memory, base: Memory, held: seq<Resource>)
    requires held != []
    decreases |held|, 0
  {
    HoldsAll(mid, base, held[..|held| - 1]) && Owns(live, mid, held[|held| - 1])
  }

  lemma HoldsOneMore(live: Memory, mid: Memory, base: Memory, held: seq<Resource>, r: Resource)
    requires HoldsAll(mid, base, held) && Owns(live, mid, r)
    ensures HoldsAll(live, base, held + [r])
  {
    assert (held + [r])[..|held|] == held;
    assert OnTop(live, mid, base, held + [r]);
  }

  lemma KeepsOn(live: Memory, mid: Memory, base: Memory)
    requires Keeps(live, mid) && Keeps(mid, base)
    ensures Keeps(live, base) && base.Keys <= mid.Keys <= live.Keys
  {
  }

  lemma OwnedIsLive(live: Memory, mid: Memory, r: Resource)
    requires Owns(live, mid, r)
    ensures r.self in live && r.self !in mid && |live.Keys| > |mid.Keys| && Keeps(live, mid)
  {
    assert forall p :: p in mid[r.self := []] ==> p in live && live[p] == mid[r.self := []][p];
    Subset(mid.Keys + {r.self}, live.Keys);
  }

  // The structs in held are live, beyond base, and different ones.
  ghost predicate AreLive(live: Memory, base: Memory, held: seq<Resource>) {
    && (forall i :: 0 <= i < |held| ==> held[i].self in live && held[i].self !in base)
    && (forall i, j :: 0 <= i < j < |held| ==> held[i].self != held[j].self)
  }

  lemma OneMoreIsLive(live: Memory, mid: Memory, base: Memory, front: seq<Resource>, r: Resource)
    requires AreLive(mid, base, front) && mid.Keys <= live.Keys && base.Keys <= mid.Keys
    requires r.self in live && r.self !in mid
    ensures AreLive(live, base, front + [r])
  {
  }

  // So there is at least one allocation more for each of them, and nothing of base is freed.
  lemma {:induction false} HeldIsLive(live: Memory, base: Memory, held: seq<Resource>)
    requires HoldsAll(live, base, held)
    ensures |live.Keys| >= |base.Keys| + |held| && AreLive(live, base, held)
    ensures Keeps(live, base)
    decreases |held|
  {
    if held != [] {
      var front, r := held[..|held| - 1], held[|held| - 1];
      var mid: Memory :| OnTop(live, mid, base, held);
      HeldIsLive(mid, base, front);
      OwnedIsLive(live, mid, r);
      KeepsOn(live, mid, base);
      OneMoreIsLive(live, mid, base, front, r);
      assert held == front + [r];
    }
  }

  lemma {:induction false} Subset<T>(a: set<T>, b: set<T>)
    requires a <= b
    ensures |a| <= |b|
  {
    if a != {} {
      var x :| x in a;
      Subset(a - {x}, b - {x});
    }
  }

  // ---------- any run of queries, whatever fails ----------

  // The resource and its lists are live, and the lists are t.
  ghost predicate Intact(live: Memory, r: Resource, t: Topology) {
    && r.self in live && Contents(live, r.ids) == t
    && forall k :: 0 <= k < 4 ==> r.ids.At(k) == 0 || r.ids.At(k) in live
  }

  // All of held are intact as the kernel's state at the ioctls numbered in instants.
  ghost predicate AllIntact(env: Environment, live: Memory, base: Memory, held: seq<Resource>, instants: seq<nat>) {
    && |held| == |instants| && AreLive(live, base, held)
    && forall i :: 0 <= i < |held| ==> Intact(live, held[i], env.topology(instants[i]))
  }

  lemma IntactStays(live: Memory, before: Memory, r: Resource, t: Topology)
    requires Intact(before, r, t) && Keeps(live, before) && 0 !in live && 0 !in before
    ensures Intact(live, r, t)
  {
    Kinds(r.ids);
  }

  lemma AllStayIntact(env: Environment, live: Memory, before: Memory, base: Memory, held: seq<Resource>,
                      instants: seq<nat>)
    requires AllIntact(env, before, base, held, instants) && Keeps(live, before) && 0 !in live && 0 !in before
    ensures AllIntact(env, live, base, held, instants)
  {
    forall i | 0 <= i < |held|
      ensures Intact(live, held[i], env.topology(instants[i]))
    {
      IntactStays(live, before, held[i], env.topology(instants[i]));
    }
  }

  lemma OneMoreIsIntact(env: Environment, live: Memory, before: Memory, base: Memory, held: seq<Resource>,
                        instants: seq<nat>, r: Resource, n: nat)
    requires AllIntact(env, before, base, held, instants) && 0 !in live && 0 !in before && Keeps(before, base)
    requires Snapshot(env, n, live, before, r)
    ensures AllIntact(env, live, base, held + [r], instants + [n])
  {
    OwnedIsLive(live, before, r);
    KeepsOn(live, before, base);
    AllStayIntact(env, live, before, base, held, instants);
    OneMoreIsLive(live, before, base, held, r);
    assert forall k :: 0 <= k < 4 && r.ids.At(k) != 0 ==> Owned(r.ids, r.ids.At(k));
    assert Intact(live, r, env.topology(n));
  }

  ghost predicate SettlesAt(env: Environment, i: nat, stop: nat) {
    !Moves(env, i + 2 * stop)
  }

  // Some pass after ioctl number i sees the same counts twice, or an ioctl that fails.
  ghost predicate SettlesFrom(env: Environment, i: nat) {
    exists stop: nat :: SettlesAt(env, i, stop)
  }

  // What holds of a query whatever fails.
  method Fetch(process: Process) returns (ret: int, stored: Option<Resource>)
    requires process.Valid() && SettlesFrom(process.env, process.ioctls)
    modifies process
    ensures process.Valid() && old(process.ioctls) < process.ioctls && Keeps(process.live, old(process.live))
    ensures ret == 0 && stored.Some? ==>
              Snapshot(process.env, process.ioctls - 1, process.live, old(process.live), stored.value)
  {
    ghost var stop: nat :| SettlesAt(process.env, process.ioctls, stop);
    ret, stored := process.GetModeResource(stop);
  }

  // One query.
  method AskOnce(process: Process, ghost base: Memory, ghost held: seq<Resource>, ghost instants: seq<nat>)
    returns (delivered: bool, ghost held': seq<Resource>, ghost instants': seq<nat>)
    requires process.Valid() && SettlesFrom(process.env, process.ioctls)
    requires AllIntact(process.env, process.live, base, held, instants) && Keeps(process.live, base)
    modifies process
    ensures process.Valid() && Keeps(process.live, old(process.live)) && Keeps(process.live, base)
    ensures AllIntact(process.env, process.live, base, held', instants')
    ensures held <= held' && |held'| == |held| + if delivered then 1 else 0
  {
    ghost var before := process.live;
    var ret, stored := Fetch(process);
    delivered, held', instants' := ret == 0 && stored.Some?, held, instants;
    KeepsOn(process.live, before, base);
    if delivered {
      ghost var n := process.ioctls - 1;
      OneMoreIsIntact(process.env, process.live, before, base, held, instants, stored.value, n);
      held', instants' := held + [stored.value], instants + [n];
    } else {
      AllStayIntact(process.env, process.live, before, base, held, instants);
    }
  }

  // n queries, whichever ioctls and allocations fail and whatever leaks: every resource that is
  // delivered stays live, with the lists it was delivered with, and so does all there was before.
  method AskWhateverFails(process: Process, n: nat)
    returns (delivered: nat, ghost held: seq<Resource>, ghost instants: seq<nat>)
    requires process.Valid() && forall i: nat :: SettlesFrom(process.env, i)
    modifies process
    ensures process.Valid() && delivered == |held| <= n
    ensures AllIntact(process.env, process.live, old(process.live), held, instants)
    ensures Keeps(process.live, old(process.live))
  {
    ghost var base := process.live;
    delivered, held, instants := 0, [], [];
    for i := 0 to n
      invariant process.Valid() && delivered == |held| <= i
      invariant AllIntact(process.env, process.live, base, held, instants) && Keeps(process.live, base)
    {
      var one;
      one, held, instants := AskOnce(process, base, held, instants);
      if one { delivered := delivered + 1; }
    }
  }

  // ---------- runs without a leak ----------

  // One query. What is held grows by the resource that is delivered; without a delivery it
  // stays, unless the pass leaks.
  method Ask(process: Process, ghost stop: nat, ghost base: Memory, ghost held: seq<Resource>)
    returns (ret: int, stored: Option<Resource>)
    requires process.Valid() && HoldsAll(process.live, base, held)
    requires !Moves(process.env, process.ioctls + 2 * stop)
    modifies process
    ensures process.Valid()
    ensures var last := LastPass(process.env, Pass(old(process.ioctls), old(process.allocs)), stop);
            && (Delivers(process.env, last.ioctl, last.alloc) <==> ret == 0 && stored.Some?)
            && (Delivers(process.env, last.ioctl, last.alloc) ==> HoldsAll(process.live, base, held + [stored.value]))
            && (ReturnsNothing(process.env, last.ioctl, last.alloc) <==> ret == 0 && stored.None?)
            && (!Delivers(process.env, last.ioctl, last.alloc) && !Leaks(process.env, last.ioctl, last.alloc) ==>
                  HoldsAll(process.live, base, held))
  {
    ghost var mid, first := process.live, Pass(process.ioctls, process.allocs);
    ret, stored := process.GetModeResource(stop);
    ghost var last := LastPass(process.env, first, stop);
    OutcomeForetold(process.env, last, Done(ret, stored), process.ioctls, process.live, mid);
    if ret == 0 && stored.Some? {
      HoldsOneMore(process.live, mid, base, held, stored.value);
    }
  }

  // n queries, none of which fails, leave n resources live.
  method AskTimes(process: Process, n: nat, ghost quiet: nat) returns (ghost held: seq<Resource>)
    requires process.Valid() && NeverFails(process.env)
    requires forall i :: i >= quiet ==> process.env.topology(i) == process.env.topology(quiet)
    modifies process
    ensures process.Valid() && |held| == n
    ensures HoldsAll(process.live, old(process.live), held)
    ensures |process.live.Keys| >= |old(process.live.Keys)| + n
  {
    ghost var base := process.live;
    held := [];
    for i := 0 to n
      invariant process.Valid() && |held| == i && HoldsAll(process.live, base, held)
    {
      FinitelyManyChangesSettle(process.env, process.ioctls, quiet);
      ghost var last := LastPass(process.env, Pass(process.ioctls, process.allocs), quiet);
      AllWell(process.env, Pass(process.ioctls, process.allocs), quiet);
      var ret, stored := Ask(process, quiet, base, held);
      held := held + [stored.value];
    }
    HeldIsLive(process.live, base, held);
  }

  ghost predicate NeverFails(env: Environment) {
    (forall i: nat :: env.ioctlRc(i) == 0) && (forall a: nat :: env.allocOk(a))
  }

  lemma RetriesOrDelivers(env: Environment, i: nat, a: nat)
    requires NeverFails(env)
    ensures Retries(env, i, a) || Delivers(env, i, a)
  {
  }

  lemma {:induction false} AllWell(env: Environment, pass: Pass, stop: nat)
    requires NeverFails(env) && !Moves(env, pass.ioctl + 2 * stop)
    ensures var last := LastPass(env, pass, stop); Delivers(env, last.ioctl, last.alloc)
    decreases stop
  {
    RetriesOrDelivers(env, pass.ioctl, pass.alloc);
    if Retries(env, pass.ioctl, pass.alloc) { AllWell(env, NextPass(env, pass), stop - 1); }
  }

  // The static pointer after a query: the resource that was delivered, read at the kernel's
  // state at the last ioctl; the one from before when there was no memory for a new one or the
  // kernel refused; and unusable when a list of the new one could not be had.
  lemma PointerAfter(env: Environment, last: Pass, ret: int, stored: Option<Resource>, ioctls: nat, live: Memory,
                     base: Memory, connector: nat -> Display.Connector, before: Option<Display.Listing>)
    requires EndsAs(env, last, Done(ret, stored)) && Leaves(env, last, Done(ret, stored), ioctls, live, base)
    ensures var after := Display.Held(before, KernelOf(live, ret, stored, connector));
            if Delivers(env, last.ioctl, last.alloc) then
              var t := env.topology(ioctls - 1);
              after.Some? && after.value.connectorIds == t.connectors && after.value.encoderCount == |t.encoders|
              && after.value.crtcCount == |t.crtcs| && after.value.fbCount == |t.fbs|
            else if CopyFails(env, last.ioctl, last.alloc) then after == None
            else after == before
    // A query that goes on although there is no listing: only without a usable one from before,
    // and then exactly when memory was short for the temporaries or the struct.
    ensures ret == 0 && Display.Held(before, KernelOf(live, ret, stored, connector)).None? <==>
              before.None? && ReturnsNothing(env, last.ioctl, last.alloc)
  {
    OutcomeForetold(env, last, Done(ret, stored), ioctls, live, base);
  }
}
