/** Many lists at once: runs of the operations of utils/list.h over any number of heads. */
module ListForest {
  import opened CircularList

  /** Each list head with its ring, the head first and then the elements in order. A node
      that is a ring by itself is a head with no elements. */
  type Forest = map<ListHead, seq<ListHead>>

  ghost function Nodes(m: Forest): set<ListHead> {
    set h, x | h in m && x in m[h] :: x
  }

  // Rings start at their heads, and no node is on two of them.
  ghost predicate WellFormed(m: Forest) {
    && (forall h :: h in m ==> |m[h]| > 0 && m[h][0] == h && Distinct(m[h]))
    && (forall h, g, x :: h in m && g in m && x in m[h] && x in m[g] ==> h == g)
  }

  ghost predicate Valid(m: Forest)
    reads Nodes(m)
  {
    WellFormed(m) && forall h :: h in m ==> (set x | x in m[h]) <= Nodes(m) && Ring(m[h])
  }

  datatype Op =
    | Init(entry: ListHead)
    | Add(entry: ListHead, head: ListHead)
    | AddTail(entry: ListHead, head: ListHead)
    | Del(entry: ListHead)
    | DelInit(entry: ListHead)
    | MoveTail(entry: ListHead, head: ListHead)

  // Not on anybody else's list: unknown to the forest, or a ring by itself.
  ghost predicate Loose(m: Forest, e: ListHead) {
    e !in Nodes(m) || (e in m && |m[e]| == 1)
  }

  // What the operations ask of their callers.
  ghost predicate Legal(m: Forest, op: Op) {
    WellFormed(m) &&
    match op
    case Init(e) => Loose(m, e)
    case Add(e, h) => Loose(m, e) && h in m && e != h
    case AddTail(e, h) => Loose(m, e) && h in m && e != h
    case Del(e) => e in Nodes(m)
    case DelInit(e) => e in Nodes(m)
    case MoveTail(e, h) => e in Nodes(m) && h in m && e != h
  }

  // e leaves its list. When e is the head, the elements stay behind as one ring in the
  // same cyclic order, headed by the first of them.
  ghost function Detach(m: Forest, e: ListHead): Forest {
    var others := map h | h in m && h != e :: Remove(m[h], e);
    if e in m && |m[e]| > 1 then others[m[e][1] := m[e][1..]] else others
  }

  ghost function Step(m: Forest, op: Op): Forest
    requires Legal(m, op)
  {
    match op
    case Init(e) => m[e := [e]]
    case Add(e, h) => Detach(m, e)[h := [h, e] + m[h][1..]]
    case AddTail(e, h) => Detach(m, e)[h := m[h] + [e]]
    case Del(e) => Detach(m, e)
    case DelInit(e) => Detach(m, e)[e := [e]]
    case MoveTail(e, h) => Detach(m, e)[h := Remove(m[h], e) + [e]]
  }

  lemma DetachLists(m: Forest, e: ListHead)
    requires WellFormed(m)
    ensures forall h :: h in m && h != e ==>
              && h in Detach(m, e) && Detach(m, e)[h] == Remove(m[h], e)
              && h in Remove(m[h], e) && Remove(m[h], e)[0] == h
    ensures forall h :: h in m && h != e && e !in m[h] ==> Detach(m, e)[h] == m[h]
    ensures forall h :: h in Detach(m, e) && h !in m ==>
              e in m && |m[e]| > 1 && h == m[e][1] && Detach(m, e)[h] == m[e][1..]
    ensures e !in Detach(m, e)
  {
    if e in m && |m[e]| > 1 {
      assert m[e][1] in m[e] && m[e][1] != e;
      assert m[e][1] !in m;
    }
    forall h | h in m && h != e
      ensures Remove(m[h], e)[0] == h
    {
      assert m[h][0] == h;
    }
  }

  lemma DetachMembers(m: Forest, e: ListHead, h: ListHead)
    requires WellFormed(m) && h in Detach(m, e)
    ensures Distinct(Detach(m, e)[h])
    ensures e !in Detach(m, e)[h]
    ensures var g := if h in m then h else e; g in m && forall x :: x in Detach(m, e)[h] ==> x in m[g]
  {
    DetachLists(m, e);
    if h in m {
      RemoveKeeps(m[h], e);
    } else {
      assert forall i :: 0 < i < |m[e]| ==> m[e][i] != m[e][0];
    }
  }

  lemma DetachKeepsForm(m: Forest, e: ListHead)
    requires WellFormed(m)
    ensures WellFormed(Detach(m, e))
    ensures Nodes(Detach(m, e)) == Nodes(m) - {e}
  {
    var d := Detach(m, e);
    DetachLists(m, e);
    forall h | h in d { DetachMembers(m, e, h); }
    forall x | x in Nodes(m) && x != e
      ensures x in Nodes(d)
    {
      var h :| h in m && x in m[h];
      if h == e {
        assert x in m[e][1..];
        assert m[e][1] in d;
      } else {
        RemoveKeeps(m[h], e);
        assert h in d && x in d[h];
      }
    }
  }

  ghost function HeadOf(m: Forest, e: ListHead): (h: ListHead)
    requires e in Nodes(m)
    ensures h in m && e in m[h]
  {
    var h :| h in m && e in m[h];
    h
  }

  method InsertHead(e: ListHead, h: ListHead, ghost m: Forest)
    requires Valid(m) && h in m && e !in Nodes(m)
    modifies e, Nodes(m)
    ensures Valid(m[h := [h, e] + m[h][1..]])
  {
    assert m[h] == [h] + m[h][1..];
    NeighboursInRing(m[h], 0);
    assert h in Nodes(m) && h.next in Nodes(m);
    ListAdd(e, h, m[h][1..]);
    assert [h, e] + m[h][1..] == [h] + ([e] + m[h][1..]);
  }

  method InsertTail(e: ListHead, h: ListHead, ghost m: Forest)
    requires Valid(m) && h in m && e !in Nodes(m)
    modifies e, Nodes(m)
    ensures Valid(m[h := m[h] + [e]])
  {
    assert m[h] == [h] + m[h][1..];
    NeighboursInRing(m[h], 0);
    assert h in Nodes(m) && h.prev in Nodes(m);
    ListAddTail(e, h, m[h][1..]);
    assert m[h] + [e] == [h] + (m[h][1..] + [e]);
  }

  // list_del on any node, elements and heads alike.
  method DeleteFrom(e: ListHead, ghost m: Forest)
    requires Valid(m) && e in Nodes(m)
    modifies Nodes(m)
    ensures Valid(Detach(m, e))
    ensures e.next == old(e.next) && e.prev == old(e.prev)
  {
    ghost var g := HeadOf(m, e);
    ghost var k := IndexOf(m[g], e);
    NeighboursInRing(m[g], k);
    assert e.prev in Nodes(m) && e.next in Nodes(m);
    DetachLists(m, e);
    DetachKeepsForm(m, e);
    ListDel(e, m[g], k);
    ghost var d := Detach(m, e);
    forall h | h in d
      ensures Ring(d[h])
    {
      if h !in m {
        assert m[e][0] == e && m[e][1..] == Without(m[e], 0);
      } else if h == g {
        assert d[h] == Without(m[g], k);
      } else {
        assert d[h] == m[h];
      }
    }
  }

  ghost predicate Targets(op: Op, g: ListHead) {
    match op
    case Add(_, h) => g == h
    case AddTail(_, h) => g == h
    case MoveTail(_, h) => g == h
    case _ => false
  }

  // A list that neither holds the operand nor is the target keeps its elements.
  lemma OtherListsStay(m: Forest, op: Op, g: ListHead)
    requires Legal(m, op) && g in m && op.entry !in m[g] && !Targets(op, g)
    ensures g in Step(m, op) && Step(m, op)[g] == m[g]
  {
    assert m[g][0] == g;
    DetachLists(m, op.entry);
  }

  // list_del_init on a head empties it, and its elements stay one ring in the same cyclic order.
  lemma DelInitOnHead(m: Forest, h: ListHead)
    requires Legal(m, DelInit(h)) && h in m && |m[h]| > 1
    ensures Step(m, DelInit(h)) == m[h := [h]][m[h][1] := m[h][1..]]
  {
  }

  // A node that is not on anybody's list leaves the forest without a change of pointers.
  lemma LooseDetached(m: Forest, e: ListHead)
    requires Valid(m) && Loose(m, e)
    ensures Valid(Detach(m, e)) && e !in Nodes(Detach(m, e))
    ensures forall h :: h in m && h != e ==> h in Detach(m, e) && Detach(m, e)[h] == m[h]
  {
    DetachLists(m, e);
    DetachKeepsForm(m, e);
    assert forall h :: h in m && h != e ==> e !in m[h];
  }

  // INIT_LIST_HEAD
  method Initialise(e: ListHead, ghost m: Forest)
    requires Valid(m) && Loose(m, e)
    modifies e
    ensures Valid(m[e := [e]])
  {
    LooseDetached(m, e);
    InitListHead(e);
    assert m[e := [e]] == Detach(m, e)[e := [e]];
  }

  // list_del_init
  method DeleteAndInit(e: ListHead, ghost m: Forest)
    requires Valid(m) && e in Nodes(m)
    modifies Nodes(m)
    ensures Valid(Detach(m, e)[e := [e]])
  {
    DetachKeepsForm(m, e);
    DeleteFrom(e, m);
    Initialise(e, Detach(m, e));
  }

  // list_move_tail
  method MoveToTail(e: ListHead, h: ListHead, ghost m: Forest)
    requires Valid(m) && e in Nodes(m) && h in m && h != e
    modifies Nodes(m)
    ensures Valid(Detach(m, e)[h := Remove(m[h], e) + [e]])
  {
    DetachLists(m, e);
    DetachKeepsForm(m, e);
    DeleteFrom(e, m);
    InsertTail(e, h, Detach(m, e));
  }

  // Every operation takes the pointers from the old forest to the specified new one. As
  // only the operand and the forest's nodes are written, nothing else changes.
  method Apply(op: Op, ghost m: Forest)
    requires Valid(m) && Legal(m, op)
    modifies op.entry, Nodes(m)
    ensures Valid(Step(m, op))
    ensures op.Add? ==> op.head.next == op.entry && op.entry.prev == op.head
    ensures op.AddTail? || op.MoveTail? ==> op.head.prev == op.entry && op.entry.next == op.head
    ensures op.Init? || op.DelInit? ==> op.entry.next == op.entry && op.entry.prev == op.entry
  {
    ApplyStep(op, m);
    EndsOf(m, op);
  }

  // Where the entry is afterwards, by the links.
  lemma EndsOf(m: Forest, op: Op)
    requires Legal(m, op) && Valid(Step(m, op))
    ensures op.Add? ==> op.head.next == op.entry && op.entry.prev == op.head
    ensures op.AddTail? || op.MoveTail? ==> op.head.prev == op.entry && op.entry.next == op.head
    ensures op.Init? || op.DelInit? ==> op.entry.next == op.entry && op.entry.prev == op.entry
  {
    var n := Step(m, op);
    match op {
      case Add(e, h) =>
        FirstAndLast(n[h]);
        assert n[h][1] == e;
      case AddTail(e, h) => FirstAndLast(n[h]);
      case MoveTail(e, h) =>
        DetachLists(m, e);
        FirstAndLast(n[h]);
      case Init(e) => FirstAndLast(n[e]);
      case DelInit(e) => FirstAndLast(n[e]);
      case Del(_) =>
    }
  }

  lemma FirstAndLast(r: seq<ListHead>)
    requires Ring(r) && r != []
    ensures r[0].prev == r[|r| - 1] && r[|r| - 1].next == r[0]
    ensures |r| > 1 ==> r[0].next == r[1] && r[1].prev == r[0]
  {
  }

  method ApplyStep(op: Op, ghost m: Forest)
    requires Valid(m) && Legal(m, op)
    modifies op.entry, Nodes(m)
    ensures Valid(Step(m, op))
  {
    match op {
      case Init(e) =>
        Initialise(e, m);
      case Add(e, h) =>
        LooseDetached(m, e);
        InsertHead(e, h, Detach(m, e));
      case AddTail(e, h) =>
        LooseDetached(m, e);
        InsertTail(e, h, Detach(m, e));
      case Del(e) =>
        DeleteFrom(e, m);
      case DelInit(e) =>
        DeleteAndInit(e, m);
      case MoveTail(e, h) =>
        MoveToTail(e, h, m);
    }
  }

  // Each operation is legal where its predecessors leave the forest.
  ghost predicate LegalRun(m: Forest, ops: seq<Op>)
    decreases |ops|
  {
    ops != [] ==> Legal(m, ops[0]) && LegalRun(Step(m, ops[0]), ops[1..])
  }

  ghost function RunOf(m: Forest, ops: seq<Op>): Forest
    requires LegalRun(m, ops)
    decreases |ops|
  {
    if ops == [] then m else RunOf(Step(m, ops[0]), ops[1..])
  }

  ghost function Operands(ops: seq<Op>): set<ListHead> {
    set i | 0 <= i < |ops| :: ops[i].entry
  }

  lemma StepNodes(m: Forest, op: Op)
    requires Legal(m, op)
    ensures Nodes(Step(m, op)) <= Nodes(m) + {op.entry}
  {
    DetachLists(m, op.entry);
    DetachKeepsForm(m, op.entry);
    var d, n := Detach(m, op.entry), Step(m, op);
    forall h | h in n
      ensures forall x :: x in n[h] ==> x in Nodes(m) || x == op.entry
    {
      if h in d && n[h] == d[h] {
        assert forall x :: x in d[h] ==> x in Nodes(d);
      } else if op.Add? || op.AddTail? {
        assert forall x :: x in m[h] ==> x in Nodes(m);
      } else if op.MoveTail? {
        RemoveKeeps(m[h], op.entry);
        assert forall x :: x in m[h] ==> x in Nodes(m);
      }
    }
  }

  // Any finite legal run over any number of heads.
  method Run(ops: seq<Op>, ghost m: Forest)
    requires Valid(m) && LegalRun(m, ops)
    modifies Nodes(m) + Operands(ops)
    ensures Valid(RunOf(m, ops))
    decreases |ops|
  {
    if ops != [] {
      assert ops[0].entry in Operands(ops);
      StepNodes(m, ops[0]);
      Apply(ops[0], m);
      assert Operands(ops[1..]) <= Operands(ops);
      Run(ops[1..], Step(m, ops[0]));
    }
  }
}
