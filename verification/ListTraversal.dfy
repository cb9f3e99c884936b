/** The list_for_each_entry family of utils/list.h. */
module ListTraversal {
  import opened CircularList
  import opened ListForest

  ghost function Reversed<T>(s: seq<T>): seq<T> {
    if s == [] then [] else Reversed(s[1..]) + [s[0]]
  }

  lemma {:induction false} ReversedSnoc<T>(s: seq<T>, x: T)
    ensures Reversed(s + [x]) == [x] + Reversed(s)
  {
    if s != [] {
      ReversedSnoc(s[1..], x);
      assert (s + [x])[1..] == s[1..] + [x];
    }
  }

  // list_for_each_entry_from, started at node i of the ring; i == |r| is the head, come
  // round again. The loops of _entry and _entry_continue are this one after their first step.
  method ForEachFrom(start: ListHead, head: ListHead, ghost r: seq<ListHead>, ghost i: nat)
    returns (visited: seq<ListHead>)
    requires Ring(r) && 1 <= i <= |r| && r[0] == head
    requires start == if i == |r| then head else r[i]
    ensures visited == r[i..]
  {
    var pos := start;
    visited := [];
    ghost var k := i;
    while pos != head
      invariant i <= k <= |r| && visited == r[i..k]
      invariant pos == if k == |r| then head else r[k]
      decreases |r| - k
    {
      visited := visited + [pos];
      pos := pos.next;
      k := k + 1;
    }
  }

  method ForEachEntry(head: ListHead, ghost s: seq<ListHead>) returns (visited: seq<ListHead>)
    requires Ring([head] + s)
    ensures visited == s
  {
    ghost var r := [head] + s;
    assert r[0].next == After(r, 0);
    visited := ForEachFrom(head.next, head, r, 1);
  }

  method ForEachEntryContinue(pos: ListHead, head: ListHead, ghost s: seq<ListHead>, ghost k: nat)
    returns (visited: seq<ListHead>)
    requires Ring([head] + s) && k < |s| && s[k] == pos
    ensures visited == s[k + 1..]
  {
    ghost var r := [head] + s;
    assert r[k + 1] == pos;
    visited := ForEachFrom(pos.next, head, r, k + 2);
  }

  // The reverse loops, started at node i of the ring; i == 0 is the head.
  method ForEachFromReverse(start: ListHead, head: ListHead, ghost r: seq<ListHead>, ghost i: nat)
    returns (visited: seq<ListHead>)
    requires Ring(r) && i < |r| && r[0] == head && start == r[i]
    ensures visited == Reversed(r[1..i + 1])
  {
    var pos := start;
    visited := [];
    ghost var k: int := i;
    while pos != head
      invariant 0 <= k <= i && pos == r[k]
      invariant visited == Reversed(r[k + 1..i + 1])
      decreases k
    {
      assert r[k..i + 1] == [pos] + r[k + 1..i + 1];
      visited := visited + [pos];
      pos := pos.prev;
      k := k - 1;
    }
  }

  method ForEachEntryReverse(head: ListHead, ghost s: seq<ListHead>) returns (visited: seq<ListHead>)
    requires Ring([head] + s)
    ensures visited == Reversed(s)
  {
    ghost var r := [head] + s;
    assert r[0].prev == Before(r, 0);
    visited := ForEachFromReverse(head.prev, head, r, |s|);
    assert r[1..|s| + 1] == s;
  }

  method ForEachEntryContinueReverse(pos: ListHead, head: ListHead, ghost s: seq<ListHead>, ghost k: nat)
    returns (visited: seq<ListHead>)
    requires Ring([head] + s) && k < |s| && s[k] == pos
    ensures visited == Reversed(s[..k])
  {
    ghost var r := [head] + s;
    assert r[k + 1] == pos;
    visited := ForEachFromReverse(pos.prev, head, r, k);
    assert r[1..k + 1] == s[..k];
  }

  /** What the body of a safe traversal does with the node it is at. */
  datatype Action = Keep | Delete | DeleteInit | MoveTo(head: ListHead)

  ghost function Survivors(s: seq<ListHead>, acts: seq<Action>, n: nat): seq<ListHead>
    requires n <= |s| && n <= |acts|
  {
    if n == 0 then [] else Survivors(s, acts, n - 1) + if acts[n - 1].Keep? then [s[n - 1]] else []
  }

  ghost function MovedTo(s: seq<ListHead>, acts: seq<Action>, n: nat, h: ListHead): seq<ListHead>
    requires n <= |s| && n <= |acts|
  {
    if n == 0 then []
    else MovedTo(s, acts, n - 1, h) + if acts[n - 1] == MoveTo(h) then [s[n - 1]] else []
  }

  ghost function AfterAction(m: Forest, pos: ListHead, a: Action): Forest {
    match a
    case Keep => m
    case Delete => Detach(m, pos)
    case DeleteInit => Detach(m, pos)[pos := [pos]]
    case MoveTo(h) => if h in m then Detach(m, pos)[h := Remove(m[h], pos) + [pos]] else m
  }

  method Act(pos: ListHead, a: Action, ghost m: Forest)
    requires Valid(m) && pos in Nodes(m) && (a.MoveTo? ==> a.head in m && a.head != pos)
    modifies Nodes(m)
    ensures Valid(AfterAction(m, pos, a))
  {
    match a {
      case Keep =>
      case Delete => DeleteFrom(pos, m);
      case DeleteInit => DeleteAndInit(pos, m);
      case MoveTo(h) => MoveToTail(pos, h, m);
    }
  }

  lemma ElementIsNoHead(m: Forest, head: ListHead, k: nat)
    requires WellFormed(m) && head in m && 1 <= k < |m[head]|
    ensures m[head][k] !in m
  {
    assert m[head][k] in m[head] && m[head][0] == head;
  }

  // What an action on pos, an element of head's list, does to everything but that list.
  ghost predicate Effects(m: Forest, m': Forest, head: ListHead, pos: ListHead, a: Action) {
    && Nodes(m') <= Nodes(m)
    && (forall h :: h in m && h != head ==> h in m' && m'[h] == m[h] + if a == MoveTo(h) then [pos] else [])
    && (a.Delete? ==> pos !in Nodes(m'))
    && (if a.DeleteInit? then m'.Keys == m.Keys + {pos} && m'[pos] == [pos] else m'.Keys == m.Keys)
  }

  lemma ActionNodes(m: Forest, pos: ListHead, a: Action)
    requires WellFormed(m) && pos in Nodes(m) && (a.MoveTo? ==> a.head in m && a.head != pos)
    ensures Nodes(AfterAction(m, pos, a)) <= Nodes(m)
    ensures a.Delete? ==> pos !in Nodes(AfterAction(m, pos, a))
  {
    DetachKeepsForm(m, pos);
    match a
    case DeleteInit => StepNodes(m, DelInit(pos));
    case MoveTo(h) => StepNodes(m, MoveTail(pos, h));
    case _ =>
  }

  lemma ActionEffects(m: Forest, head: ListHead, k: nat, a: Action)
    requires WellFormed(m) && head in m && 1 <= k < |m[head]|
    requires a.MoveTo? ==> a.head in m && a.head != head
    ensures var m' := AfterAction(m, m[head][k], a);
            && Effects(m, m', head, m[head][k], a)
            && head in m' && m'[head] == if a.Keep? then m[head] else Without(m[head], k)
  {
    var r, pos := m[head], m[head][k];
    assert r[0] == head && pos in r;
    ElementIsNoHead(m, head, k);
    assert forall h :: h in m && h != head ==> pos !in m[h];
    assert IndexOf(r, pos) == k;
    DetachLists(m, pos);
    assert pos in Nodes(m);
    ActionNodes(m, pos, a);
  }

  lemma PrefixGrows<T>(s: seq<T>, n: nat)
    requires n < |s|
    ensures s[..n] + [s[n]] == s[..n + 1]
  {
  }

  lemma Regroup<T>(a: seq<T>, b: seq<T>, c: seq<T>)
    ensures a + b + c == a + (b + c)
  {
  }

  // The state of a safe traversal of head's elements s that has done the first n actions
  // and left forest m'.
  ghost predicate Progress(m: Forest, m': Forest, head: ListHead, s: seq<ListHead>, acts: seq<Action>, n: nat)
    requires n <= |acts| && n <= |s|
  {
    && head in m' && m'[head] == [head] + Survivors(s, acts, n) + s[n..]
    && OthersGrown(m, m', head, s, acts, n)
    && RemovedSoFar(m, m', s, acts, n)
  }

  // Nodes deleted with list_del are gone, and the new rings are those of list_del_init.
  ghost predicate RemovedSoFar(m: Forest, m': Forest, s: seq<ListHead>, acts: seq<Action>, n: nat)
    requires n <= |acts| && n <= |s|
  {
    && (forall i :: 0 <= i < n && acts[i].DeleteInit? ==> s[i] in m' && m'[s[i]] == [s[i]])
    && (forall i :: 0 <= i < n && acts[i].Delete? ==> s[i] !in Nodes(m'))
    && (forall h :: h in m' && h !in m ==> exists i :: 0 <= i < n && acts[i].DeleteInit? && s[i] == h)
  }

  lemma HeadStep(head: ListHead, s: seq<ListHead>, acts: seq<Action>, n: nat)
    requires n < |s| && n < |acts|
    ensures var r := [head] + Survivors(s, acts, n) + s[n..];
            [head] + Survivors(s, acts, n + 1) + s[n + 1..] ==
            if acts[n].Keep? then r else Without(r, 1 + |Survivors(s, acts, n)|)
  {
    var front, rest := [head] + Survivors(s, acts, n), s[n + 1..];
    assert s[n..] == [s[n]] + rest;
    Regroup(front, [s[n]], rest);
    if acts[n].Keep? {
      Regroup([head], Survivors(s, acts, n), [s[n]]);
    } else {
      assert Survivors(s, acts, n + 1) == Survivors(s, acts, n);
      assert Without(front + s[n..], |front|) == front + rest;
    }
  }

  ghost predicate OthersGrown(m: Forest, m': Forest, head: ListHead, s: seq<ListHead>, acts: seq<Action>, n: nat)
    requires n <= |acts| && n <= |s|
  {
    forall h :: h in m && h != head ==> h in m' && m'[h] == m[h] + MovedTo(s, acts, n, h)
  }

  lemma OthersStep(m: Forest, m': Forest, m'': Forest, head: ListHead, s: seq<ListHead>, acts: seq<Action>, n: nat)
    requires n < |s| && n < |acts| && OthersGrown(m, m', head, s, acts, n) && Effects(m', m'', head, s[n], acts[n])
    ensures OthersGrown(m, m'', head, s, acts, n + 1)
  {
    forall h | h in m && h != head
      ensures h in m'' && m''[h] == m[h] + MovedTo(s, acts, n + 1, h)
    {
      Regroup(m[h], MovedTo(s, acts, n, h), if acts[n] == MoveTo(h) then [s[n]] else []);
    }
  }

  ghost predicate NoHeads(m: Forest, head: ListHead, s: seq<ListHead>) {
    forall i :: 0 <= i < |s| ==> s[i] !in m && s[i] != head
  }

  lemma RemovedStep(m: Forest, m': Forest, m'': Forest, head: ListHead, s: seq<ListHead>, acts: seq<Action>, n: nat)
    requires n < |s| && n < |acts| && RemovedSoFar(m, m', s, acts, n) && Effects(m', m'', head, s[n], acts[n])
    requires NoHeads(m, head, s) && (acts[n].MoveTo? ==> acts[n].head in m)
    ensures RemovedSoFar(m, m'', s, acts, n + 1)
  {
    forall h | h in m'' && h !in m
      ensures exists i :: 0 <= i < n + 1 && acts[i].DeleteInit? && s[i] == h
    {
      if h in m' {
        var i :| 0 <= i < n && acts[i].DeleteInit? && s[i] == h;
      } else {
        assert s[n] == h;
      }
    }
  }

  lemma ProgressStep(m: Forest, m': Forest, m'': Forest, head: ListHead, s: seq<ListHead>, acts: seq<Action>, n: nat)
    requires n < |s| && n < |acts| && Progress(m, m', head, s, acts, n) && Effects(m', m'', head, s[n], acts[n])
    requires NoHeads(m, head, s) && (acts[n].MoveTo? ==> acts[n].head in m)
    requires head in m''
    requires m''[head] == if acts[n].Keep? then m'[head] else Without(m'[head], 1 + |Survivors(s, acts, n)|)
    ensures Progress(m, m'', head, s, acts, n + 1)
  {
    HeadStep(head, s, acts, n);
    OthersStep(m, m', m'', head, s, acts, n);
    RemovedStep(m, m', m'', head, s, acts, n);
  }

  // An action at the n-th node takes the traversal one node further.
  lemma ActionProgresses(m: Forest, now: Forest, head: ListHead, s: seq<ListHead>, acts: seq<Action>, n: nat)
    requires WellFormed(now) && n < |s| && n < |acts| && Progress(m, now, head, s, acts, n) && NoHeads(m, head, s)
    requires acts[n].MoveTo? ==> acts[n].head in m && acts[n].head != head
    ensures s[n] in Nodes(now) && (acts[n].MoveTo? ==> acts[n].head in now && acts[n].head != s[n])
    ensures var next := AfterAction(now, s[n], acts[n]);
            Nodes(next) <= Nodes(now) && Progress(m, next, head, s, acts, n + 1)
  {
    var k := 1 + |Survivors(s, acts, n)|;
    assert now[head][k] == s[n] && s[n] in now[head];
    ActionEffects(now, head, k, acts[n]);
    ProgressStep(m, now, AfterAction(now, s[n], acts[n]), head, s, acts, n);
  }

  lemma NextNode(m: Forest, now: Forest, head: ListHead, s: seq<ListHead>, acts: seq<Action>, n: nat)
    requires Valid(now) && n < |s| && n <= |acts| && Progress(m, now, head, s, acts, n)
    ensures s[n] != head && s[n].next == if n + 1 < |s| then s[n + 1] else head
  {
    NextInRing(head, Survivors(s, acts, n), s[n..]);
  }

  // The body of the loop at its n-th node.
  method Body(pos: ListHead, a: Action, ghost now: Forest, ghost m: Forest, ghost head: ListHead,
              ghost s: seq<ListHead>, ghost acts: seq<Action>, ghost n: nat) returns (ghost next: Forest)
    requires Valid(now) && n < |s| && n < |acts| && pos == s[n] && a == acts[n]
    requires Progress(m, now, head, s, acts, n) && NoHeads(m, head, s)
    requires a.MoveTo? ==> a.head in m && a.head != head
    modifies Nodes(now)
    ensures Valid(next) && Nodes(next) <= Nodes(now) && Progress(m, next, head, s, acts, n + 1)
    ensures n + 1 < |s| ==> s[n + 1] != head && s[n + 1].next == if n + 2 < |s| then s[n + 2] else head
  {
    next := AfterAction(now, pos, a);
    ActionProgresses(m, now, head, s, acts, n);
    Act(pos, a, now);
    if n + 1 < |s| { NextNode(m, next, head, s, acts, n + 1); }
  }

  lemma NextInRing(head: ListHead, done: seq<ListHead>, rest: seq<ListHead>)
    requires Ring([head] + done + rest) && rest != []
    ensures rest[0] != head && rest[0].next == if |rest| > 1 then rest[1] else head
  {
    var r := [head] + done + rest;
    assert r[1 + |done|] == rest[0] && r[0] == head;
    assert rest[0].next == After(r, 1 + |done|);
  }

  lemma ProgressAtStart(m: Forest, head: ListHead, s: seq<ListHead>, acts: seq<Action>)
    requires Valid(m) && head in m && s == m[head][1..]
    ensures NoHeads(m, head, s) && Progress(m, m, head, s, acts, 0)
    ensures head.next == if s == [] then head else s[0]
    ensures s != [] ==> s[0] != head && s[0].next == if |s| > 1 then s[1] else head
  {
    forall i | 0 <= i < |s|
      ensures s[i] !in m && s[i] != head
    {
      ElementIsNoHead(m, head, i + 1);
    }
    assert m[head] == [head] + [] + s;
    assert head.next == After(m[head], 0);
    if s != [] { NextInRing(head, [], s); }
  }

  // list_for_each_entry_safe with any body that, at its i-th node, keeps it, deletes it or
  // moves it to another list, as acts[i] says.
  method ForEachEntrySafe(head: ListHead, acts: seq<Action>, ghost m: Forest)
    returns (visited: seq<ListHead>, ghost m': Forest)
    requires Valid(m) && head in m && |acts| + 1 == |m[head]|
    requires forall i :: 0 <= i < |acts| && acts[i].MoveTo? ==> acts[i].head in m && acts[i].head != head
    modifies Nodes(m)
    ensures visited == m[head][1..]
    ensures Valid(m')
    ensures head in m' && m'[head] == [head] + Survivors(visited, acts, |acts|)
    ensures forall h :: h in m && h != head ==> h in m' && m'[h] == m[h] + MovedTo(visited, acts, |acts|, h)
    ensures forall i :: 0 <= i < |acts| && acts[i].DeleteInit? ==> visited[i] in m' && m'[visited[i]] == [visited[i]]
    ensures forall i :: 0 <= i < |acts| && acts[i].Delete? ==> visited[i] !in Nodes(m')
    ensures forall h :: h in m' && h !in m ==> exists i :: 0 <= i < |acts| && acts[i].DeleteInit? && visited[i] == h
  {
    ghost var s := m[head][1..];
    m' := m;
    ProgressAtStart(m, head, s, acts);
    var pos := head.next;
    var tmp := pos.next;
    var n := 0;
    visited := [];
    while pos != head
      invariant 0 <= n <= |s| && visited == s[..n]
      invariant Valid(m') && Nodes(m') <= Nodes(m) && Progress(m, m', head, s, acts, n)
      invariant pos == if n < |s| then s[n] else head
      invariant n < |s| ==> tmp == if n + 1 < |s| then s[n + 1] else head
      decreases |s| - n
    {
      m' := Body(pos, acts[n], m', m, head, s, acts, n);
      PrefixGrows(s, n);
      visited := visited + [pos];
      n := n + 1;
      pos := tmp;
      tmp := pos.next;
    }
    Regroup([head], Survivors(s, acts, |s|), s[|s|..]);
  }
}
