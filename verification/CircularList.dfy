/** The intrusive circular list of utils/list.h at pointer level. A ring is a cyclic
    sequence of nodes; heads and elements share the one node type, so a list with
    head h and elements s is the ring [h] + s. */
module CircularList {

  class ListHead {
    var next: ListHead
    var prev: ListHead

    // LIST_HEAD_INIT: a node that is a ring by itself.
    constructor ()
      ensures next == this && prev == this
    {
      next, prev := this, this;
    }
  }

  ghost predicate Distinct<T>(s: seq<T>) {
    forall i, j :: 0 <= i < j < |s| ==> s[i] != s[j]
  }

  // Every node's next is its cyclic successor and every node's prev its cyclic predecessor.
  ghost predicate Ring(r: seq<ListHead>)
    reads r
  {
    && Distinct(r)
    && forall i {:trigger r[i].next} {:trigger r[i].prev} :: 0 <= i < |r| ==>
         r[i].next == After(r, i) && r[i].prev == Before(r, i)
  }

  ghost function After<T>(r: seq<T>, i: nat): T
    requires i < |r|
  {
    if i + 1 == |r| then r[0] else r[i + 1]
  }

  ghost function Before<T>(r: seq<T>, i: nat): T
    requires i < |r|
  {
    if i == 0 then r[|r| - 1] else r[i - 1]
  }

  ghost function Rotate<T>(r: seq<T>, k: nat): seq<T>
    requires k <= |r|
  {
    r[k..] + r[..k]
  }

  ghost function Without<T>(r: seq<T>, k: nat): seq<T>
    requires k < |r|
  {
    r[..k] + r[k + 1..]
  }

  // A ring has no first node: any rotation of it is the same ring.
  lemma RotatedRing(r: seq<ListHead>, k: nat)
    requires Ring(r) && k <= |r|
    ensures Ring(Rotate(r, k))
  {
  }

  lemma NeighboursInRing(r: seq<ListHead>, k: nat)
    requires Ring(r) && k < |r|
    ensures r[k].prev in r && r[k].next in r
  {
  }

  // A ring is all the pointers: two states that both form ring r agree on every link of r.
  twostate lemma RingFixesLinks(r: seq<ListHead>)
    requires old(Ring(r)) && Ring(r)
    ensures forall i :: 0 <= i < |r| ==> r[i].next == old(r[i].next) && r[i].prev == old(r[i].prev)
  {
    forall i | 0 <= i < |r|
      ensures r[i].next == old(r[i].next) && r[i].prev == old(r[i].prev)
    {
    }
  }

  method InitListHead(list: ListHead)
    modifies list
    ensures Ring([list])
  {
    list.next, list.prev := list, list;
  }

  // __list_add: close the ring r, opened between its last node and its first, over entry.
  // For an empty r the three arguments are one node.
  method ListAddBetween(entry: ListHead, prev: ListHead, next: ListHead, ghost r: seq<ListHead>)
    requires Ring(r) && entry !in r
    requires prev == (if r == [] then entry else r[|r| - 1])
    requires next == (if r == [] then entry else r[0])
    modifies entry, prev, next
    ensures Ring(r + [entry])
  {
    next.prev := entry;
    entry.next := next;
    entry.prev := prev;
    prev.next := entry;
  }

  method ListAdd(entry: ListHead, head: ListHead, ghost s: seq<ListHead>)
    requires Ring([head] + s) && entry !in [head] + s
    modifies entry, head, head.next
    ensures Ring([head] + ([entry] + s))
  {
    ghost var r := [head] + s;
    RotatedRing(r, 1);
    ListAddBetween(entry, head, head.next, Rotate(r, 1));
    ghost var t := Rotate(r, 1) + [entry];
    RotatedRing(t, |s|);
    assert Rotate(t, |s|) == [head] + ([entry] + s);
  }

  method ListAddTail(entry: ListHead, head: ListHead, ghost s: seq<ListHead>)
    requires Ring([head] + s) && entry !in [head] + s
    modifies entry, head, head.prev
    ensures Ring([head] + (s + [entry]))
  {
    assert head == ([head] + s)[0];
    ListAddBetween(entry, head.prev, head, [head] + s);
    assert [head] + s + [entry] == [head] + (s + [entry]);
  }

  // The ring r without node k, opened where that node was.
  ghost function OpenedAfter<T>(r: seq<T>, k: nat): seq<T>
    requires k < |r|
  {
    r[k + 1..] + r[..k]
  }

  lemma OpenedRing<T>(r: seq<T>, k: nat)
    requires k < |r| && Distinct(r)
    ensures var rest := OpenedAfter(r, k);
            && r[k] !in rest
            && Rotate(r, k + 1) == rest + [r[k]]
            && Rotate(rest + [r[k]], |r| - (k + 1)) == r
            && Rotate(Without(r, k), k) == rest
            && Rotate(rest, |r| - (k + 1)) == Without(r, k)
            && Before(r, k) == (if rest == [] then r[k] else rest[|rest| - 1])
            && After(r, k) == (if rest == [] then r[k] else rest[0])
  {
  }

  // __list_del: close the ring over its last node, whose neighbours are prev and next.
  method ListDelBetween(prev: ListHead, next: ListHead, ghost rest: seq<ListHead>, ghost entry: ListHead)
    requires Ring(rest + [entry]) && prev == entry.prev && next == entry.next
    modifies prev, next
    ensures Ring(rest)
    ensures entry.next == old(entry.next) && entry.prev == old(entry.prev)
  {
    ghost var r, n := rest + [entry], |rest|;
    assert r[n] == entry && prev == Before(r, n) && next == After(r, n);
    assert forall i :: 0 <= i < n ==> r[i] != r[n];
    assert forall i :: 0 <= i < n ==> rest[i] == r[i];
    assert Distinct(rest);
    assert forall i :: 0 <= i < n - 1 ==> rest[i].next == rest[i + 1] && rest[i] != prev;
    assert forall i :: 0 < i < n ==> rest[i].prev == rest[i - 1] && rest[i] != next;
    next.prev := prev;
    prev.next := next;
  }

  // list_del: the ring closes over the gap and the removed node keeps its own links.
  method ListDel(entry: ListHead, ghost r: seq<ListHead>, ghost k: nat)
    requires Ring(r) && k < |r| && r[k] == entry
    modifies entry.prev, entry.next
    ensures Ring(Without(r, k))
    ensures entry.next == old(entry.next) && entry.prev == old(entry.prev)
  {
    ghost var rest := OpenedAfter(r, k);
    OpenedRing(r, k);
    RotatedRing(r, k + 1);
    ListDelBetween(entry.prev, entry.next, rest, entry);
    RotatedRing(rest, |r| - (k + 1));
  }

  method ListDelInit(entry: ListHead, ghost r: seq<ListHead>, ghost k: nat)
    requires Ring(r) && k < |r| && r[k] == entry
    modifies entry, entry.prev, entry.next
    ensures Ring(Without(r, k)) && Ring([entry])
  {
    ListDel(entry, r, k);
    InitListHead(entry);
  }

  method ListEmpty(head: ListHead, ghost s: seq<ListHead>) returns (empty: bool)
    requires Ring([head] + s)
    ensures empty <==> s == []
  {
    ghost var r := [head] + s;
    assert head == r[0];
    empty := head.next == head;
  }

  // list_move_tail with a node as its own target, statement by statement: the node is a
  // proper link of a ring afterwards exactly when it had no other node on its ring.
  method MoveTailOntoItself(list: ListHead, ghost s: seq<ListHead>)
    requires Ring([list] + s)
    modifies list, list.prev, list.next
    ensures list.next.prev == list <==> s == []
    ensures list.next == list
  {
    ghost var r := [list] + s;
    assert list == r[0] && list.prev == Before(r, 0);
    list.next.prev := list.prev;
    list.prev.next := list.next;
    var prev := list.prev;
    list.prev := list;
    list.next := list;
    list.prev := prev;
    prev.next := list;
  }

  // ---------- deletion is reversible ----------

  ghost function IndexOf<T>(s: seq<T>, e: T): (k: nat)
    requires e in s
    ensures k < |s| && s[k] == e
  {
    if s[0] == e then 0 else 1 + IndexOf(s[1..], e)
  }

  ghost function Remove<T>(s: seq<T>, e: T): seq<T> {
    if e in s then Without(s, IndexOf(s, e)) else s
  }

  lemma RemoveKeeps<T>(s: seq<T>, e: T)
    requires Distinct(s)
    ensures Distinct(Remove(s, e))
    ensures forall x :: x in Remove(s, e) ==> x in s && x != e
    ensures forall x :: x in s && x != e ==> x in Remove(s, e)
  {
  }

  // The ring that is left of r after the first n nodes of es are deleted, in order.
  ghost function Minus<T>(r: seq<T>, es: seq<T>, n: nat): seq<T>
    requires n <= |es|
  {
    if n == 0 then r else Remove(Minus(r, es, n - 1), es[n - 1])
  }

  lemma {:induction false} MinusMembers<T>(r: seq<T>, es: seq<T>, n: nat)
    requires n <= |es| && Distinct(r)
    ensures Distinct(Minus(r, es, n))
    ensures forall x :: x in Minus(r, es, n) ==> x in r && x !in es[..n]
    ensures forall x :: x in r && x !in es[..n] ==> x in Minus(r, es, n)
  {
    if n > 0 {
      MinusMembers(r, es, n - 1);
      RemoveKeeps(Minus(r, es, n - 1), es[n - 1]);
      assert es[..n] == es[..n - 1] + [es[n - 1]];
    }
  }

  lemma MinusStep<T>(r: seq<T>, es: seq<T>, n: nat)
    requires n < |es| && Distinct(r) && Distinct(es) && es[n] in r
    ensures Distinct(Minus(r, es, n))
    ensures es[n] in Minus(r, es, n)
    ensures forall i :: 0 <= i < n ==> es[i] !in Minus(r, es, n)
    ensures forall e :: e in Minus(r, es, n) ==> e in r
  {
    MinusMembers(r, es, n);
    assert forall i :: 0 <= i < n ==> es[i] in es[..n];
  }

  /** The links of a node. */
  datatype Links = Links(prev: ListHead, next: ListHead)

  ghost function PlaceIn(entry: ListHead, r: seq<ListHead>): Links {
    if entry in r then Links(Before(r, IndexOf(r, entry)), After(r, IndexOf(r, entry))) else Links(entry, entry)
  }

  /** The deletions of the nodes of es, in order: the rings before and after each of them, and
      the links the nodes have when they are deleted. */
  datatype History = History(rings: seq<seq<ListHead>>, places: seq<Links>) {

    ghost predicate Of(r: seq<ListHead>, es: seq<ListHead>) {
      && |rings| == |es| + 1 && |places| == |es| && rings[0] == r
      && forall n :: 0 <= n < |es| ==> StepAt(r, es, n)
    }

    ghost predicate StepAt(r: seq<ListHead>, es: seq<ListHead>, n: nat)
      requires |rings| == |es| + 1 && |places| == |es| && n < |es|
    {
      && Distinct(rings[n]) && es[n] in rings[n]
      && rings[n + 1] == Remove(rings[n], es[n]) && places[n] == PlaceIn(es[n], rings[n])
      && (forall i :: 0 <= i < n ==> es[i] !in rings[n])
      && (forall e :: e in rings[n] ==> e in r)
    }
  }

  ghost function HistoryOf(r: seq<ListHead>, es: seq<ListHead>): History {
    History(seq(|es| + 1, n requires 0 <= n <= |es| => Minus(r, es, n)),
            seq(|es|, n requires 0 <= n < |es| => PlaceIn(es[n], Minus(r, es, n))))
  }

  lemma HistoryIs(r: seq<ListHead>, es: seq<ListHead>)
    requires Distinct(r) && Distinct(es) && forall e :: e in es ==> e in r
    ensures HistoryOf(r, es).Of(r, es)
  {
    forall n | 0 <= n < |es|
      ensures HistoryOf(r, es).StepAt(r, es, n)
    {
      MinusStep(r, es, n);
    }
  }

  // The first n nodes of es, outside the ring by now, still have these links.
  ghost predicate Remember(es: seq<ListHead>, places: seq<Links>, n: nat)
    requires n <= |es| && n <= |places|
    reads es
  {
    forall i :: 0 <= i < n ==> es[i].prev == places[i].prev && es[i].next == places[i].next
  }

  // __list_add(e, e.prev, e.next) undoes list_del(e).
  method Relink(entry: ListHead, ghost r: seq<ListHead>, ghost k: nat)
    requires Distinct(r) && k < |r| && r[k] == entry && Ring(Without(r, k))
    requires entry.prev == Before(r, k) && entry.next == After(r, k)
    modifies entry, entry.prev, entry.next
    ensures Ring(r)
  {
    ghost var rest := OpenedAfter(r, k);
    OpenedRing(r, k);
    RotatedRing(Without(r, k), k);
    ListAddBetween(entry, entry.prev, entry.next, rest);
    RotatedRing(rest + [entry], |r| - (k + 1));
  }

  // list_del of the n-th node, in the ring that the deletions before it have left.
  method DelOne(es: seq<ListHead>, n: nat, ghost places: seq<Links>, ghost now: seq<ListHead>,
                ghost r: seq<ListHead>)
    requires n < |es| == |places| && Ring(now) && es[n] in now && places[n] == PlaceIn(es[n], now)
    requires Remember(es, places, n) && forall i :: 0 <= i < n ==> es[i] !in now
    requires forall e :: e in now ==> e in r
    modifies r
    ensures Ring(Remove(now, es[n])) && Remember(es, places, n + 1)
  {
    ghost var k := IndexOf(now, es[n]);
    NeighboursInRing(now, k);
    ListDel(es[n], now, k);
  }

  // list_del of any nodes of the ring in any order, adjacent ones and the whole ring included.
  method DelAll(es: seq<ListHead>, ghost r: seq<ListHead>, ghost h: History)
    requires Ring(r) && h.Of(r, es)
    modifies r
    ensures Ring(h.rings[|es|]) && Remember(es, h.places, |es|)
  {
    for n := 0 to |es|
      invariant Ring(h.rings[n]) && Remember(es, h.places, n)
    {
      assert h.StepAt(r, es, n);
      DelOne(es, n, h.places, h.rings[n], r);
    }
  }

  // The deletion of the n-th node, from the ring earlier, is undone.
  method RelinkOne(es: seq<ListHead>, n: nat, ghost places: seq<Links>, ghost earlier: seq<ListHead>,
                   ghost r: seq<ListHead>)
    requires n < |es| == |places| && Distinct(earlier) && es[n] in earlier && places[n] == PlaceIn(es[n], earlier)
    requires Ring(Remove(earlier, es[n])) && Remember(es, places, n + 1)
    requires (forall i :: 0 <= i < n ==> es[i] !in earlier) && forall e :: e in earlier ==> e in r
    modifies r
    ensures Ring(earlier) && Remember(es, places, n)
  {
    assert es[n].prev in earlier && es[n].next in earlier;
    Relink(es[n], earlier, IndexOf(earlier, es[n]));
  }

  // Relinking the deleted nodes in reverse order restores the ring r.
  method RelinkAll(es: seq<ListHead>, ghost r: seq<ListHead>, ghost h: History)
    requires h.Of(r, es) && Ring(h.rings[|es|]) && Remember(es, h.places, |es|)
    modifies r
    ensures Ring(r)
  {
    var n := |es|;
    while n > 0
      invariant 0 <= n <= |es|
      invariant Ring(h.rings[n]) && Remember(es, h.places, n)
    {
      n := n - 1;
      assert h.StepAt(r, es, n);
      RelinkOne(es, n, h.places, h.rings[n], r);
    }
  }

  method DelAllThenRelinkAll(es: seq<ListHead>, ghost r: seq<ListHead>)
    requires Ring(r) && Distinct(es) && forall e :: e in es ==> e in r
    modifies r
    ensures Ring(r)
    ensures forall i :: 0 <= i < |r| ==> r[i].next == old(r[i].next) && r[i].prev == old(r[i].prev)
  {
    ghost var h := HistoryOf(r, es);
    HistoryIs(r, es);
    DelAll(es, r, h);
    RelinkAll(es, r, h);
    RingFixesLinks(r);
  }
}
