/** gpuGetModeResouce and gpuFreeModeResource of core/gpumode.c: a snapshot taken with two
    ioctls from a kernel whose topology may change at any time. */
module ModeResource {
  import opened Options
  import opened Words

  type Id = UInt32

  /** One thing for each of the four kinds of object that drm_mode_card_res lists. */
  datatype Four<+T> = Four(connectors: T, encoders: T, crtcs: T, fbs: T) {
    function At(k: nat): T
      requires k < 4
    {
      if k == 0 then connectors else if k == 1 then encoders else if k == 2 then crtcs else fbs
    }

    function Put(k: nat, x: T): Four<T>
      requires k < 4
    {
      if k == 0 then Four(x, encoders, crtcs, fbs)
      else if k == 1 then Four(connectors, x, crtcs, fbs)
      else if k == 2 then Four(connectors, encoders, x, fbs)
      else Four(connectors, encoders, crtcs, x)
    }
  }

  lemma PutAt<T>(f: Four<T>, k: nat, x: T)
    requires k < 4
    ensures forall j :: 0 <= j < 4 ==> f.Put(k, x).At(j) == if j == k then x else f.At(j)
  {
  }

  type Topology = Four<seq<Id>>
  type Counts = Four<nat>
  type Buffers = Four<nat>  // addresses, 0 for none
  type Memory = map<nat, seq<Id>>

  const NONE: Four<nat> := Four(0, 0, 0, 0)

  function CountsOf(t: Topology): Counts {
    Four(|t.connectors|, |t.encoders|, |t.crtcs|, |t.fbs|)
  }

  /** struct GpuModeResource, at address self. */
  datatype Resource = Resource(self: nat, counts: Counts, ids: Buffers)

  /** What the process cannot control: the topology and the return code at each ioctl, and
      whether each allocation succeeds. */
  datatype Environment = Environment(topology: nat -> Topology, ioctlRc: nat -> int, allocOk: nat -> bool)

  const ENOMEM := 12

  function Zeros(n: nat): seq<Id> {
    seq(n, _ => 0)
  }

  ghost function IdsAt(live: Memory, p: nat): seq<Id> {
    if p in live then live[p] else []
  }

  ghost function Contents(live: Memory, b: Buffers): Topology {
    Four(IdsAt(live, b.connectors), IdsAt(live, b.encoders), IdsAt(live, b.crtcs), IdsAt(live, b.fbs))
  }

  ghost predicate Owned(b: Buffers, p: nat) {
    p != 0 && exists k :: 0 <= k < 4 && b.At(k) == p
  }

  // The allocations are those of base and, distinct from them and from each other, b's.
  ghost predicate Extends(live: Memory, base: Memory, b: Buffers) {
    && 0 !in live
    && (forall p :: p in live <==> p in base || Owned(b, p))
    && (forall p :: p in base ==> !Owned(b, p) && live[p] == base[p])
    && (forall j, k :: 0 <= j < k < 4 ==> b.At(j) == 0 || b.At(j) != b.At(k))
  }

  // What was live in base still is, contents and all.
  ghost predicate Keeps(live: Memory, base: Memory) {
    forall p :: p in base ==> p in live && live[p] == base[p]
  }

  // As Extends, with room for exactly so many ids in each buffer.
  ghost predicate Holds(live: Memory, base: Memory, b: Buffers, counts: Counts) {
    Extends(live, base, b) && CountsOf(Contents(live, b)) == counts
  }

  // The ioctl writes at most the supplied capacity.
  function Filled(buffer: seq<Id>, ids: seq<Id>): seq<Id> {
    seq(|buffer|, i requires 0 <= i < |buffer| => if i < |ids| then ids[i] else buffer[i])
  }

  function FillAt(live: Memory, p: nat, ids: seq<Id>): Memory {
    if p in live then live[p := Filled(live[p], ids)] else live
  }

  lemma FillKeeps(live: Memory, base: Memory, b: Buffers, capacity: Counts, k: nat, ids: seq<Id>)
    requires Holds(live, base, b, capacity) && k < 4
    ensures Holds(FillAt(live, b.At(k), ids), base, b, capacity)
    ensures forall q :: q != b.At(k) ==> IdsAt(FillAt(live, b.At(k), ids), q) == IdsAt(live, q)
    ensures capacity.At(k) == |ids| ==> IdsAt(FillAt(live, b.At(k), ids), b.At(k)) == ids
  {
    var p := b.At(k);
    assert p in live ==> Owned(b, p);
    assert forall q :: |IdsAt(FillAt(live, p, ids), q)| == |IdsAt(live, q)|;
    Kinds(b);
    Kinds(capacity);
  }

  lemma Grow(live: Memory, base: Memory, b: Buffers, k: nat, p: nat, ids: seq<Id>)
    requires Extends(live, base, b) && k < 4 && b.At(k) == 0
    requires p !in live && p != 0
    ensures Extends(live[p := ids], base, b.Put(k, p))
  {
    var b' := b.Put(k, p);
    PutAt(b, k, p);
    assert b'.At(k) == p;
    forall q | Owned(b, q)
      ensures Owned(b', q)
    {
      var j :| 0 <= j < 4 && b.At(j) == q;
      assert b'.At(j) == q;
    }
    forall j | 0 <= j < 4 && b.At(j) != 0
      ensures b.At(j) in live
    {
      assert Owned(b, b.At(j));
    }
  }

  lemma BuffersShow(live: Memory, base: Memory, b: Buffers, counts: Counts)
    requires Holds(live, base, b, counts)
    ensures counts != NONE ==> live != base
  {
    OwnedAddresses(b);
    assert forall p :: p != 0 && p in live && p !in base ==> p in AddressSet(b);
    if live == base {
      assert forall p :: p in AddressSet(b) ==> p in live && p !in base;
      assert AddressSet(b) == {};
      assert b.connectors !in AddressSet(b) && b.encoders !in AddressSet(b);
      assert b.crtcs !in AddressSet(b) && b.fbs !in AddressSet(b);
    }
  }

  lemma Shrink(live: Memory, base: Memory, b: Buffers, k: nat)
    requires Extends(live, base, b) && k < 4
    ensures b.At(k) == 0 || b.At(k) in live
    ensures Extends(live - {b.At(k)}, base, b.Put(k, 0))
  {
    var b' := b.Put(k, 0);
    PutAt(b, k, 0);
    assert b.At(k) != 0 ==> Owned(b, b.At(k));
    forall q | q != b.At(k)
      ensures Owned(b', q) <==> Owned(b, q)
    {
      if Owned(b, q) {
        var j :| 0 <= j < 4 && b.At(j) == q;
        assert b'.At(j) == q;
      }
    }
    forall j | 0 <= j < 4
      ensures b'.At(j) == 0 || b'.At(j) != b.At(k)
    {
    }
  }

  lemma NothingOnTop(live: Memory, base: Memory)
    ensures Extends(live, base, NONE) ==> live == base
  {
  }

  // Allocations number i to j-1 all succeed.
  ghost predicate Succeed(env: Environment, i: nat, j: nat) {
    forall a :: i <= a < j ==> env.allocOk(a)
  }

  lemma Chain(env: Environment, i: nat, j: nat, k: nat)
    requires i <= j <= k && Succeed(env, i, j)
    ensures Succeed(env, i, k) <==> Succeed(env, j, k)
  {
  }

  class Process {
    const env: Environment
    var ioctls: nat     // ioctls made so far
    var allocs: nat     // allocations tried so far; addresses are never reused
    var live: Memory    // the live allocations

    constructor (env: Environment)
      ensures Valid() && this.env == env && ioctls == 0 && allocs == 0 && live == map[]
    {
      this.env := env;
      ioctls, allocs, live := 0, 0, map[];
    }

    ghost predicate Valid()
      reads this
    {
      forall p :: p in live ==> 0 < p <= allocs
    }

    // xAlloc: zeroed memory, or 0.
    method Alloc(count: nat) returns (p: nat)
      requires Valid()
      modifies this
      ensures Valid() && ioctls == old(ioctls) && allocs == old(allocs) + 1
      ensures if env.allocOk(old(allocs)) then p == allocs && live == old(live)[p := Zeros(count)]
              else p == 0 && live == old(live)
    {
      p := 0;
      if env.allocOk(allocs) {
        p := allocs + 1;
        live := live[p := Zeros(count)];
      }
      allocs := allocs + 1;
    }

    // xFree: legal on 0 and on live addresses only, so a caller that verifies never frees twice.
    method Free(p: nat)
      requires Valid() && (p == 0 || p in live)
      modifies this
      ensures Valid() && ioctls == old(ioctls) && allocs == old(allocs)
      ensures live == old(live) - {p}
    {
      live := live - {p};
    }

    // DRM_IOCTL_MODE_GETRESOURCES on buffers of the given capacities: fills the buffers and
    // reports the true counts; a failing ioctl writes nothing.
    method GetResources(b: Buffers, capacity: Counts, ghost base: Memory) returns (rc: int, counts: Counts)
      requires Valid() && Holds(live, base, b, capacity)
      modifies this
      ensures Valid() && allocs == old(allocs) && ioctls == old(ioctls) + 1
      ensures rc == env.ioctlRc(old(ioctls))
      ensures Holds(live, base, b, capacity)
      ensures rc != 0 ==> live == old(live) && counts == capacity
      ensures rc == 0 ==> var t := env.topology(old(ioctls));
                          counts == CountsOf(t) && (counts == capacity ==> Contents(live, b) == t)
    {
      rc := env.ioctlRc(ioctls);
      counts := capacity;
      if rc == 0 {
        var t := env.topology(ioctls);
        counts := CountsOf(t);
        FillKeeps(live, base, b, capacity, 0, t.connectors);
        live := FillAt(live, b.connectors, t.connectors);
        FillKeeps(live, base, b, capacity, 1, t.encoders);
        live := FillAt(live, b.encoders, t.encoders);
        FillKeeps(live, base, b, capacity, 2, t.crtcs);
        live := FillAt(live, b.crtcs, t.crtcs);
        FillKeeps(live, base, b, capacity, 3, t.fbs);
        live := FillAt(live, b.fbs, t.fbs);
      }
      ioctls := ioctls + 1;
    }

    // A buffer for count ids of the k-th kind, none when there are none to hold.
    method AllocIds(count: nat, ghost base: Memory, ghost b: Buffers, ghost k: nat) returns (p: nat, ok: bool)
      requires Valid() && Extends(live, base, b) && k < 4 && b.At(k) == 0
      modifies this
      ensures Valid() && ioctls == old(ioctls)
      ensures allocs == old(allocs) + Tries(count) && (ok <==> Succeed(env, old(allocs), allocs))
      ensures Extends(live, base, b.Put(k, p))
      ensures if p == 0 then live == old(live) && (count == 0 || !ok)
              else ok && count != 0 && p !in old(live) && live == old(live)[p := Zeros(count)]
    {
      p, ok := 0, true;
      PutAt(b, k, 0);
      assert b.Put(k, 0) == b;
      if count != 0 {
        Grow(live, base, b, k, allocs + 1, Zeros(count));
        p := Alloc(count);
        ok := p != 0;
      }
    }

    // Lines 24-43: four buffers, giving up at the first that cannot be had.
    method AllocBuffers(counts: Counts) returns (b: Buffers, ok: bool)
      requires Valid()
      modifies this
      ensures Valid() && ioctls == old(ioctls) && old(allocs) <= allocs
      ensures ok <==> Succeed(env, old(allocs), allocs)
      ensures ok <==> Succeed(env, old(allocs), old(allocs) + AllTries(counts))
      ensures ok ==> allocs == old(allocs) + AllTries(counts)
      ensures Extends(live, old(live), b)
      ensures ok ==> Holds(live, old(live), b, counts) && (counts == NONE ==> live == old(live))
    {
      b := NONE;
      var p;
      p, ok := AllocIds(counts.connectors, old(live), b, 0);
      b := b.(connectors := p);
      if !ok { return; }
      p, ok := AllocIds(counts.encoders, old(live), b, 1);
      b := b.(encoders := p);
      if !ok { return; }
      p, ok := AllocIds(counts.crtcs, old(live), b, 2);
      b := b.(crtcs := p);
      if !ok { return; }
      p, ok := AllocIds(counts.fbs, old(live), b, 3);
      b := b.(fbs := p);
    }

    // xFree of the k-th buffer of b.
    method FreeIds(p: nat, ghost base: Memory, ghost b: Buffers, ghost k: nat)
      requires Valid() && Extends(live, base, b) && k < 4 && b.At(k) == p
      modifies this
      ensures Valid() && ioctls == old(ioctls) && allocs == old(allocs)
      ensures Extends(live, base, b.Put(k, 0))
    {
      Shrink(live, base, b, k);
      Free(p);
    }

    // Lines 53-56 and 108-111.
    method FreeBuffers(b: Buffers, ghost base: Memory)
      requires Valid() && Extends(live, base, b)
      modifies this
      ensures Valid() && ioctls == old(ioctls) && allocs == old(allocs)
      ensures live == base
    {
      FreeIds(b.fbs, base, b, 3);
      FreeIds(b.crtcs, base, b.(fbs := 0), 2);
      FreeIds(b.encoders, base, b.(fbs := 0, crtcs := 0), 1);
      FreeIds(b.connectors, base, b.(fbs := 0, crtcs := 0, encoders := 0), 0);
      NothingOnTop(live, base);
    }

    // One of lines 69-91: a copy of the k-th list, whose ids are at src.
    method CopyIds(src: nat, count: nat, ghost base: Memory, ghost b: Buffers, ghost k: nat) returns (p: nat, ok: bool)
      requires Valid() && Extends(live, base, b) && k < 4 && b.At(k) == 0
      requires if src == 0 then count == 0 else src in base && |base[src]| == count
      modifies this
      ensures Valid() && ioctls == old(ioctls)
      ensures allocs == old(allocs) + Tries(count) && (ok <==> Succeed(env, old(allocs), allocs))
      ensures Extends(live, base, b.Put(k, p))
      ensures if p == 0 then live == old(live) && (count == 0 || !ok)
              else ok && src != 0 && p !in old(live) && live == old(live)[p := base[src]]
    {
      ghost var before := live;
      p, ok := AllocIds(count, base, b, k);
      if p != 0 {
        assert src in before && before[src] == base[src];
        live := live[p := live[src]];
        Grow(before, base, b, k, p, base[src]);
      }
    }

    // Lines 69-91: copies of the four lists in tmp. A copy that cannot be had stops nothing.
    method CopyAll(tmp: Buffers, counts: Counts, ghost base: Memory) returns (ids: Buffers, ok: bool)
      requires Valid() && live == base && Sources(base, tmp, counts)
      modifies this
      ensures Valid() && ioctls == old(ioctls)
      ensures allocs == old(allocs) + AllTries(counts) && (ok <==> Succeed(env, old(allocs), allocs))
      ensures Extends(live, base, ids)
      ensures ok ==> Contents(live, ids) == Contents(base, tmp)
    {
      var ok0, ok1, ok2, ok3;
      ids := NONE;
      var p;
      p, ok0 := CopyIds(tmp.connectors, counts.connectors, base, ids, 0);
      ids := ids.(connectors := p);
      p, ok1 := CopyIds(tmp.encoders, counts.encoders, base, ids, 1);
      ids := ids.(encoders := p);
      p, ok2 := CopyIds(tmp.crtcs, counts.crtcs, base, ids, 2);
      ids := ids.(crtcs := p);
      p, ok3 := CopyIds(tmp.fbs, counts.fbs, base, ids, 3);
      ids := ids.(fbs := p);
      ok := ok0 && ok1 && ok2 && ok3;
    }

    // Lines 100-103 and 118-121.
    method FreeCopies(ids: Buffers, ghost base: Memory)
      requires Valid() && Extends(live, base, ids)
      modifies this
      ensures Valid() && ioctls == old(ioctls) && allocs == old(allocs)
      ensures live == base
    {
      FreeIds(ids.connectors, base, ids, 0);
      FreeIds(ids.encoders, base, ids.(connectors := 0), 1);
      FreeIds(ids.crtcs, base, ids.(connectors := 0, encoders := 0), 2);
      FreeIds(ids.fbs, base, ids.(connectors := 0, encoders := 0, crtcs := 0), 3);
      NothingOnTop(live, base);
    }

    // Lines 108-111 below a complete resource.
    method FreeTemporaries(tmp: Buffers, ghost before: Memory, ghost base: Memory, ghost counts: Counts,
                           ghost self: nat, ghost ids: Buffers)
      requires Valid() && Holds(before, base, tmp, counts) && self !in before && self != 0
      requires Extends(live, before[self := []], ids)
      modifies this
      ensures Valid() && ioctls == old(ioctls) && allocs == old(allocs)
      ensures Extends(live, base[self := []], ids) && Contents(live, ids) == Contents(old(live), ids)
    {
      ghost var end := live - AddressSet(tmp);
      Exchange(live, before, base, tmp, counts, self, ids);
      FreeBuffers(tmp, end);
    }

    // Lines 64-113: the struct at self, allocated on top of before, is filled from the
    // temporary buffers tmp.
    method FillResource(self: nat, tmp: Buffers, counts: Counts, ghost before: Memory, ghost base: Memory)
      returns (ret: int, r: Resource)
      requires Valid() && Holds(before, base, tmp, counts)
      requires self != 0 && self !in before && live == before[self := []]
      modifies this
      ensures Valid() && ioctls == old(ioctls) && allocs == old(allocs) + AllTries(counts)
      ensures ret == if Succeed(env, old(allocs), allocs) then 0 else -ENOMEM
      ensures r.self == self && r.counts == counts
      ensures ret == 0 ==> Owns(live, base, r) && Contents(live, r.ids) == Contents(before, tmp)
      ensures ret != 0 ==> live == old(live)
    {
      SourcesStay(before, base, tmp, counts, self);
      var ids, ok := CopyAll(tmp, counts, old(live));
      r := Resource(self, counts, ids);
      if !ok {
        FreeCopies(ids, old(live));
        return -ENOMEM, r;
      }
      ret := 0;
      FreeTemporaries(tmp, before, base, counts, self, ids);
    }

    // Lines 60-113: the resource is copied out of the temporary buffers tmp.
    method Publish(tmp: Buffers, counts: Counts, ghost base: Memory) returns (ret: int, resource: Option<Resource>)
      requires Valid() && Holds(live, base, tmp, counts)
      modifies this
      ensures Valid() && ioctls == old(ioctls) && old(allocs) < allocs
      ensures resource.None? <==> !env.allocOk(old(allocs))
      ensures ret == 0 && resource.Some? <==> Succeed(env, old(allocs), allocs)
      ensures resource.Some? ==> allocs == old(allocs) + 1 + AllTries(counts)
      ensures ret == 0 && resource.Some? ==>
                && resource.value.counts == counts && Owns(live, base, resource.value)
                && Contents(live, resource.value.ids) == Contents(old(live), tmp)
      ensures resource.None? ==> ret == 0 && live == base
      ensures ret != 0 ==>
                && ret == -ENOMEM && resource.Some?
                && resource.value.self !in old(live) && live == old(live)[resource.value.self := []]
    {
      var self := Alloc(0);
      if self == 0 {
        FreeBuffers(tmp, base);
        return 0, None;
      }
      var r;
      ret, r := FillResource(self, tmp, counts, old(live), base);
      resource := Some(r);
    }

    // Lines 45-113: the second ioctl, into buffers of the capacities the first reported.
    method Collect(buffers: Buffers, counts: Counts, ghost base: Memory) returns (outcome: Outcome)
      requires Valid() && Holds(live, base, buffers, counts) && (counts == NONE <==> live == base)
      modifies this
      ensures Valid() && old(allocs) <= allocs && ioctls == old(ioctls) + 1
      ensures Collected(env, old(ioctls), old(allocs), counts, outcome)
      ensures if outcome.Retry? then allocs == old(allocs)
              else outcome.Delivered() <==> env.ioctlRc(old(ioctls)) == 0 && Succeed(env, old(allocs), allocs)
      ensures outcome.Delivered() ==> Snapshot(env, old(ioctls), live, base, outcome.resource.value)
      ensures Keeps(live, base)
      ensures !outcome.Delivered() ==>
                (live == base <==>
                 outcome.Retry? || outcome == Done(0, None) || (counts == NONE && outcome.resource.None?))
    {
      var ret, now := GetResources(buffers, counts, base);
      if ret != 0 {
        return Done(ret, None);
      }
      if now != counts {
        FreeBuffers(buffers, base);
        return Retry;
      }
      var resource;
      ret, resource := Publish(buffers, counts, base);
      return Done(ret, resource);
    }

    // Lines 22-113: what follows a first ioctl that reported counts.
    method Proceed(counts: Counts) returns (outcome: Outcome)
      requires Valid()
      modifies this
      ensures Valid() && old(allocs) <= allocs
      ensures if Succeed(env, old(allocs), old(allocs) + AllTries(counts))
              then ioctls == old(ioctls) + 1
                   && Collected(env, old(ioctls), old(allocs) + AllTries(counts), counts, outcome)
              else ioctls == old(ioctls) && outcome == Done(0, None)
      ensures outcome.Delivered() ==> Snapshot(env, old(ioctls), live, old(live), outcome.resource.value)
      ensures Keeps(live, old(live))
      ensures !outcome.Delivered() ==>
                (live != old(live) <==>
                 outcome.Done? && outcome.ret != 0 && (outcome.resource.Some? || AllTries(counts) > 0))
      ensures outcome.Retry? ==> allocs == old(allocs) + AllTries(counts)
      ensures outcome.Retry? || outcome.ret == 0 || outcome.resource.Some? ==>
                (outcome.Retry? || outcome.Delivered() <==> Succeed(env, old(allocs), allocs))
    {
      ghost var base := live;
      var buffers, ok := AllocBuffers(counts);
      if !ok {
        FreeBuffers(buffers, base);
        return Done(0, None);
      }
      ghost var a := allocs;
      assert counts != NONE <==> live != base by { BuffersShow(live, base, buffers, counts); }
      outcome := Collect(buffers, counts, base);
      Chain(env, old(allocs), a, allocs);
    }

    // Lines 16-113: one pass from the retry label. The kernel may be in any state at either
    // ioctl, and any allocation may fail. How the pass ends, and whether it leaves more behind
    // than a delivered resource, is settled by the environment it starts in.
    method Attempt() returns (outcome: Outcome)
      requires Valid()
      modifies this
      ensures Valid() && old(allocs) <= allocs
      ensures EndsAs(env, Pass(old(ioctls), old(allocs)), outcome)
      ensures Leaves(env, Pass(old(ioctls), old(allocs)), outcome, ioctls, live, old(live))
      ensures outcome.Retry? ==> ioctls == old(ioctls) + 2 && allocs == old(allocs) + FirstTries(env, old(ioctls))
      ensures outcome.Retry? ==> live == old(live)
      ensures outcome.Retry? || outcome.ret == 0 || outcome.resource.Some? ==>
                (outcome.Retry? || outcome.Delivered() <==> Succeed(env, old(allocs), allocs))
      ensures outcome.Done? && outcome.ret != 0 && outcome.resource.None? ==> outcome.ret == env.ioctlRc(ioctls - 1)
    {
      ghost var base := live;
      var ret, counts := GetResources(NONE, NONE, base);
      if ret != 0 {
        return Done(ret, None);
      }
      assert live == base;
      outcome := Proceed(counts);
    }

    // A pass on the way to the last one. All allocations from number first on have succeeded.
    method AttemptTowards(ghost last: Pass, ghost left: nat, ghost first: nat, ghost base: Memory)
      returns (outcome: Outcome)
      requires Valid() && live == base && EndsWith(env, Pass(ioctls, allocs), left, last)
      requires first <= allocs && Succeed(env, first, allocs)
      modifies this
      ensures Valid() && old(allocs) <= allocs && old(ioctls) < ioctls
      ensures if outcome.Done? then EndsAs(env, last, outcome) && Leaves(env, last, outcome, ioctls, live, base)
              else left > 0 && live == base && EndsWith(env, Pass(ioctls, allocs), left - 1, last)
      ensures outcome.Retry? || outcome.ret == 0 || outcome.resource.Some? ==>
                (outcome.Retry? || outcome.Delivered() <==> Succeed(env, first, allocs))
      ensures outcome.Done? && outcome.ret != 0 && outcome.resource.None? ==> outcome.ret == env.ioctlRc(ioctls - 1)
    {
      ghost var pass := Pass(ioctls, allocs);
      outcome := Attempt();
      EndsOrRetries(env, pass, outcome, left, last);
      Chain(env, first, pass.alloc, allocs);
    }

    // gpuGetModeResouce. Some pass must come to an end by itself: the pass number stop from
    // here finds a failing ioctl or the same counts twice.
    method GetModeResource(ghost stop: nat) returns (ret: int, resource: Option<Resource>)
      requires Valid() && !Moves(env, ioctls + 2 * stop)
      modifies this
      ensures Valid() && old(ioctls) < ioctls
      ensures var last := LastPass(env, Pass(old(ioctls), old(allocs)), stop);
              && EndsAs(env, last, Done(ret, resource))
              && Leaves(env, last, Done(ret, resource), ioctls, live, old(live))
      ensures ret == 0 || resource.Some? ==>
                (Done(ret, resource).Delivered() <==> Succeed(env, old(allocs), allocs))
      ensures ret != 0 && resource.None? ==> ret == env.ioctlRc(ioctls - 1)
    {
      ghost var base, left := live, stop;
      ghost var last := LastPass(env, Pass(ioctls, allocs), stop);
      while true
        invariant Valid() && live == base && old(allocs) <= allocs && old(ioctls) <= ioctls
        invariant Succeed(env, old(allocs), allocs) && EndsWith(env, Pass(ioctls, allocs), left, last)
        decreases left
      {
        var outcome := AttemptTowards(last, left, old(allocs), base);
        if outcome.Done? {
          assert outcome == Done(outcome.ret, outcome.resource);
          return outcome.ret, outcome.resource;
        }
        left := left - 1;
      }
    }

    // gpuFreeModeResource
    method FreeModeResource(r: Resource, ghost base: Memory)
      requires Valid() && Owns(live, base, r)
      modifies this
      ensures Valid() && live == base
    {
      FreeCopies(r.ids, base[r.self := []]);
      Free(r.self);
    }
  }

  /** How a pass ends: back to the retry label, or a return code and what was stored through modeResource. */
  datatype Outcome = Retry | Done(ret: int, resource: Option<Resource>) {
    predicate Delivered() {
      Done? && ret == 0 && resource.Some?
    }
  }

  // Both ioctls of the pass that starts with number n succeed, with different counts.
  ghost predicate Moves(env: Environment, n: nat) {
    env.ioctlRc(n) == 0 && env.ioctlRc(n + 1) == 0 && CountsOf(env.topology(n)) != CountsOf(env.topology(n + 1))
  }

  ghost predicate Settled(env: Environment, n: nat) {
    env.ioctlRc(n) == 0 && env.ioctlRc(n + 1) == 0 && CountsOf(env.topology(n)) == CountsOf(env.topology(n + 1))
  }

  // The allocations it takes to hold so many ids, and to hold those of all four kinds.
  function Tries(count: nat): nat {
    if count == 0 then 0 else 1
  }

  function AllTries(counts: Counts): nat {
    Tries(counts.connectors) + Tries(counts.encoders) + Tries(counts.crtcs) + Tries(counts.fbs)
  }

  // The temporary buffers of a pass whose first ioctl is number i.
  function FirstTries(env: Environment, i: nat): nat {
    AllTries(CountsOf(env.topology(i)))
  }

  // Ioctl number i succeeds, and with a allocations before it so do those of the temporary buffers.
  ghost predicate ReachesSecondIoctl(env: Environment, i: nat, a: nat) {
    env.ioctlRc(i) == 0 && Succeed(env, a, a + FirstTries(env, i))
  }

  // A temporary buffer cannot be had, or the resource struct cannot.
  ghost predicate ReturnsNothing(env: Environment, i: nat, a: nat) {
    var n := FirstTries(env, i);
    env.ioctlRc(i) == 0 && (!Succeed(env, a, a + n) || (Settled(env, i) && !env.allocOk(a + n)))
  }

  // The struct can be had, but one of the lists in it cannot.
  ghost predicate CopyFails(env: Environment, i: nat, a: nat) {
    var n := FirstTries(env, i);
    Settled(env, i) && Succeed(env, a, a + n + 1) && !Succeed(env, a + n + 1, a + 2 * n + 1)
  }

  ghost predicate Delivers(env: Environment, i: nat, a: nat) {
    Settled(env, i) && Succeed(env, a, a + 2 * FirstTries(env, i) + 1)
  }

  ghost predicate SecondIoctlFails(env: Environment, i: nat, a: nat) {
    ReachesSecondIoctl(env, i, a) && env.ioctlRc(i + 1) != 0
  }

  // Memory stays behind that nobody owns: the temporary buffers, and on a failed copy the struct.
  ghost predicate Leaks(env: Environment, i: nat, a: nat) {
    CopyFails(env, i, a) || (SecondIoctlFails(env, i, a) && FirstTries(env, i) > 0)
  }

  ghost predicate Retries(env: Environment, i: nat, a: nat) {
    Moves(env, i) && Succeed(env, a, a + FirstTries(env, i))
  }

  /** A pass from the retry label, by the numbers of its first ioctl and its first allocation. */
  datatype Pass = Pass(ioctl: nat, alloc: nat)

  // How a pass ends, in the order in which things can go wrong.
  ghost predicate EndsAs(env: Environment, pass: Pass, outcome: Outcome) {
    var Pass(i, a) := pass;
    if ReachesSecondIoctl(env, i, a)
    then Collected(env, i + 1, a + FirstTries(env, i), CountsOf(env.topology(i)), outcome)
    else outcome == Done(env.ioctlRc(i), None)
  }

  // What a pass leaves behind on top of base, all of which stays, when so many ioctls have been made in all.
  ghost predicate Leaves(env: Environment, pass: Pass, outcome: Outcome, ioctls: nat, live: Memory, base: Memory) {
    var Pass(i, a) := pass;
    && ioctls == i + (if ReachesSecondIoctl(env, i, a) then 2 else 1)
    && Keeps(live, base)
    && if outcome.Delivered() then Snapshot(env, ioctls - 1, live, base, outcome.resource.value)
       else live != base <==>
              outcome.Done? && outcome.ret != 0 &&
              (outcome.resource.Some? || (ReachesSecondIoctl(env, i, a) && FirstTries(env, i) > 0))
  }

  // The same from the second ioctl on, with buffers for counts.
  ghost predicate Collected(env: Environment, i: nat, a: nat, counts: Counts, outcome: Outcome) {
    var rc, now, n := env.ioctlRc(i), CountsOf(env.topology(i)), AllTries(counts);
    if rc != 0 then outcome == Done(rc, None)
    else if now != counts then outcome.Retry?
    else if !env.allocOk(a) then outcome == Done(0, None)
    else if Succeed(env, a + 1, a + 1 + n) then outcome.Delivered()
    else outcome.Done? && outcome.ret == -ENOMEM && outcome.resource.Some?
  }

  ghost predicate EndsWith(env: Environment, pass: Pass, stop: nat, last: Pass) {
    !Moves(env, pass.ioctl + 2 * stop) && last == LastPass(env, pass, stop)
  }

  // A pass is the last one, or the loop goes on with the next.
  lemma EndsOrRetries(env: Environment, pass: Pass, outcome: Outcome, stop: nat, last: Pass)
    requires EndsAs(env, pass, outcome) && EndsWith(env, pass, stop, last)
    ensures if outcome.Done? then last == pass else stop > 0 && EndsWith(env, NextPass(env, pass), stop - 1, last)
  {
  }

  // Which outcome a pass has, and whether it leaks, can be told before it starts.
  lemma OutcomeForetold(env: Environment, pass: Pass, outcome: Outcome, ioctls: nat, live: Memory, base: Memory)
    requires EndsAs(env, pass, outcome) && Leaves(env, pass, outcome, ioctls, live, base)
    ensures var Pass(i, a) := pass;
            && (outcome.Retry? <==> Retries(env, i, a))
            && (outcome.Delivered() <==> Delivers(env, i, a))
            && (outcome == Done(0, None) <==> ReturnsNothing(env, i, a))
            && (outcome.Done? && outcome.ret != 0 && outcome.resource.Some? <==> CopyFails(env, i, a))
            && (CopyFails(env, i, a) ==> outcome.ret == -12)
            && (outcome.Done? && outcome.ret != 0 && outcome.resource.None? <==>
                  env.ioctlRc(i) != 0 || SecondIoctlFails(env, i, a))
            && (!outcome.Delivered() ==> (live != base <==> Leaks(env, i, a)))
  {
  }

  ghost function NextPass(env: Environment, pass: Pass): Pass {
    Pass(pass.ioctl + 2, pass.alloc + FirstTries(env, pass.ioctl))
  }

  // The pass that ends the retry loop.
  ghost function LastPass(env: Environment, pass: Pass, stop: nat): Pass
    requires !Moves(env, pass.ioctl + 2 * stop)
    decreases stop
  {
    if Retries(env, pass.ioctl, pass.alloc)
    then LastPass(env, NextPass(env, pass), stop - 1)
    else pass
  }

  // r is all that is live beyond base, and its four lists are complete and are those of the
  // kernel at one instant, ioctl number n.
  ghost predicate Snapshot(env: Environment, n: nat, live: Memory, base: Memory, r: Resource) {
    && Owns(live, base, r)
    && Contents(live, r.ids) == env.topology(n)
    && r.counts == CountsOf(env.topology(n))
  }

  // When the topology changes only finitely often there is a pass at which the retry loop ends.
  lemma FinitelyManyChangesSettle(env: Environment, n: nat, quiet: nat)
    requires forall i :: i >= quiet ==> env.topology(i) == env.topology(quiet)
    ensures !Moves(env, n + 2 * quiet)
  {
  }

  // The allocations are those of base and the resource with its lists.
  ghost predicate Owns(live: Memory, base: Memory, r: Resource) {
    r.self != 0 && r.self !in base && Extends(live, base[r.self := []], r.ids)
  }

  lemma Kinds<T>(f: Four<T>)
    ensures f.At(0) == f.connectors && f.At(1) == f.encoders && f.At(2) == f.crtcs && f.At(3) == f.fbs
  {
  }

  ghost predicate Sources(base: Memory, tmp: Buffers, counts: Counts) {
    && 0 !in base
    && CountsOf(Contents(base, tmp)) == counts
    && (tmp.connectors == 0 || tmp.connectors in base)
    && (tmp.encoders == 0 || tmp.encoders in base)
    && (tmp.crtcs == 0 || tmp.crtcs in base)
    && (tmp.fbs == 0 || tmp.fbs in base)
  }

  lemma SourcesStay(live: Memory, base: Memory, tmp: Buffers, counts: Counts, self: nat)
    requires Holds(live, base, tmp, counts) && self !in live && self != 0
    ensures var base2 := live[self := []];
            Sources(base2, tmp, counts) && Contents(base2, tmp) == Contents(live, tmp)
  {
    Kinds(tmp);
    Kinds(counts);
    OwnedAddresses(tmp);
  }

  ghost function AddressSet(b: Buffers): set<nat> {
    {b.connectors, b.encoders, b.crtcs, b.fbs} - {0}
  }

  lemma OwnedAddresses(b: Buffers)
    ensures forall p :: Owned(b, p) <==> p in AddressSet(b)
  {
    Kinds(b);
  }

  // live is base, the temporary buffers, the resource struct and its lists, allocated in that
  // order; without the temporaries it is what the resource owns on top of base.
  lemma Exchange(live: Memory, before: Memory, base: Memory, tmp: Buffers, counts: Counts, self: nat, ids: Buffers)
    requires Holds(before, base, tmp, counts) && self !in before && self != 0
    requires Extends(live, before[self := []], ids)
    ensures var end := live - AddressSet(tmp);
            && Extends(live, end, tmp)
            && Extends(end, base[self := []], ids)
            && Contents(end, ids) == Contents(live, ids)
  {
    var end := live - AddressSet(tmp);
    ExtendsIs(before, base, tmp);
    ExtendsIs(live, before[self := []], ids);
    ExtendsIs(live, end, tmp);
    ExtendsIs(end, base[self := []], ids);
  }

  // Extends in terms of sets.
  lemma ExtendsIs(live: Memory, base: Memory, b: Buffers)
    ensures Extends(live, base, b) <==>
              && 0 !in live && live.Keys == base.Keys + AddressSet(b) && base.Keys !! AddressSet(b)
              && (forall p :: p in base ==> p in live && live[p] == base[p])
              && (forall j, k :: 0 <= j < k < 4 ==> b.At(j) == 0 || b.At(j) != b.At(k))
  {
    OwnedAddresses(b);
  }
}
