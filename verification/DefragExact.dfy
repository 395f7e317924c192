/** When a reassembled MSDU is exact (WIFI/defrag.c), and where the guarantees end. */
module DefragExact {
  import opened Common
  import opened Seqno
  import opened Defrag

  /** How much longer a node's running length is than the bytes its queue assembles to. */
  function Surplus(n: Node): int {
    n.msduLen - Expected(n.queue)
  }

  /** The surplus of a queue when `f` begins it on node `n`: nothing for a first fragment, which
      restarts the node; otherwise the length the node was left with counts on. */
  function BeginsWith(n: Node, f: Frag): int {
    if f.num == 0 then 0 else n.msduLen - (f.offset + Header(f))
  }

  lemma AppendSurplus(n: Node, f: Frag)
    requires FragOk(f)
    ensures Surplus(Append(n, f)) == if n.queue == [] then n.msduLen - (f.offset + Header(f)) else Surplus(n)
  {
    var q := n.queue + [f];
    assert q[..|q| - 1] == n.queue;
  }

  /** The surplus of the queue that `f` joins as its `i`-th node; `marks` are those recorded when
      the open queues began. */
  function Mark(nodes: seq<Node>, marks: seq<int>, f: Frag, i: nat): int
    requires i < |nodes| == |marks|
  {
    if f.num == 0 || nodes[i].queue == [] then BeginsWith(nodes[i], f) else marks[i]
  }

  /** The marks after a fragment: one is written only when a queue begins, and it moves with its node. */
  function Marked(nodes: seq<Node>, marks: seq<int>, f: Frag): (r: seq<int>)
    requires NodesOk(nodes) && |marks| == |nodes|
    ensures |r| == |marks|
  {
    var t := Target(nodes, f);
    if t.None? then marks
    else
      var i := t.value;
      var marks' := marks[i := Mark(nodes, marks, f, i)];
      var (marks'', j) := if f.num > 0 then (marks', i) else (ToFront(marks', i), 0);
      if f.more then marks'' else ToBack(marks'', j)
  }

  predicate MarksOk(nodes: seq<Node>, marks: seq<int>) {
    |marks| == |nodes| && forall i :: 0 <= i < |nodes| && nodes[i].queue != [] ==> marks[i] == Surplus(nodes[i])
  }

  lemma MarkIsSurplus(nodes: seq<Node>, marks: seq<int>, f: Frag, i: nat)
    requires FragOk(f) && MarksOk(nodes, marks) && i < |nodes|
    ensures var (nodes', j) := Collected(nodes, f, i); Surplus(nodes'[j]) == Mark(nodes, marks, f, i)
  {
    hide Surplus, Expected;
    if f.num > 0 {
      AppendSurplus(nodes[i].(last := f.num), f);
      SameSurplus(nodes[i], nodes[i].(last := f.num));
    } else {
      AppendSurplus(Start(f), f);
    }
  }

  lemma SameSurplus(n: Node, n': Node)
    requires n'.queue == n.queue && n'.msduLen == n.msduLen
    ensures Surplus(n') == Surplus(n)
  {
  }

  lemma MarksMove(nodes: seq<Node>, marks: seq<int>, i: nat, n: Node, mark: int)
    requires MarksOk(nodes, marks) && i < |nodes| && (n.queue != [] ==> mark == Surplus(n))
    ensures var nodes', marks' := nodes[i := n], marks[i := mark];
      && MarksOk(nodes', marks')
      && MarksOk(ToFront(nodes', i), ToFront(marks', i)) && MarksOk(ToBack(nodes', i), ToBack(marks', i))
  {
    hide Surplus;
  }

  lemma StepMarks(nodes: seq<Node>, marks: seq<int>, f: Frag)
    requires NodesOk(nodes) && FragOk(f) && MarksOk(nodes, marks)
    ensures MarksOk(Step(nodes, f).0, Marked(nodes, marks, f))
  {
    hide Surplus, Target, MarksOk, Assembled, ToFront, ToBack, Mark;
    var t := Target(nodes, f);
    if t.Some? {
      var i := t.value;
      var (nodes', j) := Collected(nodes, f, i);
      MarksLength(nodes, marks);
      var mark := Mark(nodes, marks, f, i);
      MarkIsSurplus(nodes, marks, f, i);
      var n := if f.num > 0 then Append(nodes[i].(last := f.num), f) else Append(Start(f), f);
      FrontAt(nodes[i := n], i);
      FrontAt(marks[i := mark], i);
      MarksMove(nodes, marks, i, n, mark);
      var marks' := if f.num > 0 then marks[i := mark] else ToFront(marks[i := mark], i);
      assert marks'[j] == mark;
      MarksMove(nodes', marks', j, nodes'[j].(queue := []), mark);
      assert marks'[j := mark] == marks';
    }
  }

  lemma MarksLength(nodes: seq<Node>, marks: seq<int>)
    requires MarksOk(nodes, marks)
    ensures |marks| == |nodes|
  {
  }

  /** The marks after a run; purging a queue leaves them alone. */
  function RunMarks(nodes: seq<Node>, marks: seq<int>, es: seq<Event>): seq<int>
    requires EntryInv(nodes) && EventsOk(es) && |marks| == |nodes|
    decreases |es|
  {
    if es == [] then marks
    else RunMarks(After(nodes, es[0]), if es[0].Fragment? then Marked(nodes, marks, es[0].f) else marks, es[1..])
  }

  lemma {:induction false} RunKeepsMarks(nodes: seq<Node>, marks: seq<int>, es: seq<Event>)
    requires EntryInv(nodes) && EventsOk(es) && MarksOk(nodes, marks)
    ensures MarksOk(Run(nodes, es), RunMarks(nodes, marks, es))
    decreases |es|
  {
    if es != [] {
      var e := es[0];
      if e.Fragment? {
        assert EventOk(e);
        StepMarks(nodes, marks, e.f);
      }
      RunKeepsMarks(After(nodes, e), if e.Fragment? then Marked(nodes, marks, e.f) else marks, es[1..]);
    }
    hide Step, Marked, NodeInv, Surplus;
  }

  /** The copy fills the buffer exactly when its queue began without a surplus. A positive mark is
      how many announced bytes are never written, a negative one how many bytes are written beyond
      the node->msdu_len bytes allocated. */
  lemma OutputExactly(nodes: seq<Node>, marks: seq<int>, f: Frag)
    requires NodesOk(nodes) && FragOk(f) && MarksOk(nodes, marks) && Step(nodes, f).1.Some?
    ensures var (i, w) := (Target(nodes, f).value, Step(nodes, f).1.value);
      var (nodes', j) := Collected(nodes, f, i);
      var n := nodes'[j];
      && n.queue != [] && (forall k :: 0 <= k < |n.queue| ==> FragOk(n.queue[k]))
      && n.msduLen - |w.data| == Mark(nodes, marks, f, i)
      && (Exact(n.queue, n.msduLen, w) <==> Mark(nodes, marks, f, i) == 0)
  {
    hide Target, Assembled, Expected, Mark, MarksOk, ToFront, ToBack;
    var i := Target(nodes, f).value;
    var (nodes', j) := Collected(nodes, f, i);
    QueueOk(nodes, f, i);
    MarksLength(nodes, marks);
    MarkIsSurplus(nodes, marks, f, i);
    AssembledLength(nodes'[j].queue);
  }

  /** Over every run from the start: the next output is exact if and only if its queue began with
      fragment 0 or on a node whose length was by chance that fragment's offset and header. */
  lemma ExactTheorem(es: seq<Event>, f: Frag)
    requires EventsOk(es) && FragOk(f) && Step(Run(INIT, es), f).1.Some?
    ensures var nodes, marks := Run(INIT, es), RunMarks(INIT, [0, 0, 0], es);
      var (i, w) := (Target(nodes, f).value, Step(nodes, f).1.value);
      var (nodes', j) := Collected(nodes, f, i);
      var n := nodes'[j];
      && |marks| == |nodes| && n.queue != [] && (forall k :: 0 <= k < |n.queue| ==> FragOk(n.queue[k]))
      && n.msduLen - |w.data| == Mark(nodes, marks, f, i)
      && (Exact(n.queue, n.msduLen, w) <==> Mark(nodes, marks, f, i) == 0)
  {
    hide Run, RunMarks, Step, NodeInv, Target;
    InitInv();
    RunKeepsMarks(INIT, [0, 0, 0], es);
    MarksLength(Run(INIT, es), RunMarks(INIT, [0, 0, 0], es));
    OutputExactly(Run(INIT, es), RunMarks(INIT, [0, 0, 0], es), f);
  }

  // ---------------------------------------------------------------------
  // Where the guarantees end

  /** Zeroed nodes look like station 0, identifier 0, sequence 0, fragment 0: on a fresh entry a
      first fragment is refused exactly for that key and the half of the numbers not after 0. */
  lemma FirstFragmentRefusedExactly(f: Frag)
    requires f.num == 0
    ensures Target(INIT, f).None? <==> f.sta == 0 && f.tid == 0 && Leq(f.sn, 0)
  {
  }

  const ZEROED := Node(0, 0, 0, 0, 0, [])

  predicate ZeroKey(sta: nat, tid: nat) {
    sta == 0 && tid == 0
  }

  /** Whoever has key (0, 0) is still zeroed. */
  predicate OnlyZeroed(nodes: seq<Node>) {
    forall i :: 0 <= i < |nodes| && ZeroKey(nodes[i].sta, nodes[i].tid) ==> nodes[i] == ZEROED
  }

  lemma OthersKeepZeroed(nodes: seq<Node>, e: Event)
    requires EntryInv(nodes) && EventOk(e) && OnlyZeroed(nodes)
    requires e.Fragment? ==> !ZeroKey(e.f.sta, e.f.tid)
    ensures OnlyZeroed(After(nodes, e))
  {
    hide NodeInv, Lookup, Assembled, Collected, OnlyZeroed;
    match e
    case Recover(sta) => PurgeKeepsZeroed(nodes, sta);
    case Fragment(f) =>
      var t := Target(nodes, f);
      if t.Some? {
        TargetHasKey(nodes, f);
        var (nodes', i) := Collected(nodes, f, t.value);
        CollectedKeepsZeroed(nodes, f, t.value);
        if !f.more {
          ToBackKeepsZeroed(nodes', i);
        }
      }
  }

  lemma PurgeKeepsZeroed(nodes: seq<Node>, sta: nat)
    requires OnlyZeroed(nodes)
    ensures OnlyZeroed(Purge(nodes, sta))
  {
    assert ZEROED.(queue := []) == ZEROED;
  }

  lemma TargetHasKey(nodes: seq<Node>, f: Frag)
    requires nodes != [] && Target(nodes, f).Some?
    ensures f.num > 0 ==> SameKey(nodes[Target(nodes, f).value], f)
  {
  }

  lemma CollectedKeepsZeroed(nodes: seq<Node>, f: Frag, i: nat)
    requires OnlyZeroed(nodes) && FragOk(f) && !ZeroKey(f.sta, f.tid) && i < |nodes|
    requires f.num > 0 ==> SameKey(nodes[i], f)
    ensures var (nodes', j) := Collected(nodes, f, i);
      OnlyZeroed(nodes') && !ZeroKey(nodes'[j].sta, nodes'[j].tid)
  {
  }

  lemma ToBackKeepsZeroed(nodes: seq<Node>, i: nat)
    requires OnlyZeroed(nodes) && i < |nodes| && !ZeroKey(nodes[i].sta, nodes[i].tid)
    ensures OnlyZeroed(ToBack(nodes[i := nodes[i].(queue := [])], i))
  {
  }

  lemma {:induction false} RunKeepsZeroed(nodes: seq<Node>, es: seq<Event>)
    requires EntryInv(nodes) && EventsOk(es) && OnlyZeroed(nodes)
    requires forall k :: 0 <= k < |es| && es[k].Fragment? ==> !ZeroKey(es[k].f.sta, es[k].f.tid)
    ensures OnlyZeroed(Run(nodes, es))
    decreases |es|
  {
    hide After, EntryInv, OnlyZeroed;
    if es != [] {
      OthersKeepZeroed(nodes, es[0]);
      RunKeepsZeroed(After(nodes, es[0]), es[1..]);
    }
  }

  /** As long as no fragment of station 0, identifier 0 has come, whatever else has, the first one is
      refused exactly while a zeroed node remains and for the half of the numbers not after 0. */
  lemma ZeroKeyRefusedExactly(es: seq<Event>, f: Frag)
    requires EventsOk(es) && forall k :: 0 <= k < |es| && es[k].Fragment? ==> !ZeroKey(es[k].f.sta, es[k].f.tid)
    requires f.num == 0 && ZeroKey(f.sta, f.tid)
    ensures Target(Run(INIT, es), f).None? <==> ZEROED in Run(INIT, es) && Leq(f.sn, 0)
  {
    hide Run, NodeInv, Leq;
    InitInv();
    RunKeepsZeroed(INIT, es);
    var nodes := Run(INIT, es);
    if ZEROED in nodes {
      var i :| 0 <= i < |nodes| && nodes[i] == ZEROED;
      assert SameKey(nodes[i], f);
    }
  }

  /** A queue that does not begin with fragment 0 need not be exact: for a second fragment on a fresh
      entry 14 bytes are copied to a buffer of none. */
  lemma OrphanNotExact()
    ensures var f := Frag(0, 0, 0, 1, false, true, 0, 14, seq(14, _ => 0));
      FragOk(f) && NodesOk(INIT) && var w := Step(INIT, f).1; w.Some? && w.value.len == 0 && |w.value.data| == 14
  {
    var f := Frag(0, 0, 0, 1, false, true, 0, 14, seq(14, _ => 0));
    assert Lookup(INIT, f) == 0;
    assert Target(INIT, f) == Some(0);
    var (nodes', i) := Collected(INIT, f, 0);
    assert nodes'[i].queue == [f] && nodes'[i].msduLen == 0;
    assert Assembled([f]) == f.data[..14];
  }

  const HEAD: Frag := Frag(1, 0, 1, 0, true, true, 0, 20, seq(20, _ => 0))
  const REST: Frag := Frag(1, 0, 1, 1, false, true, 0, 18, seq(18, _ => 0))

  /** The usual way there: the first fragment is purged by a recovery and the second one arrives. The
      node still counts the lost payload, so 24 bytes are announced and 18 are written. */
  lemma OrphanAfterRecover()
    ensures var es := [Fragment(HEAD), Recover(1)];
      && EventsOk(es) && FragOk(REST)
      && var w := Step(Run(INIT, es), REST).1; w.Some? && w.value.len == 24 && |w.value.data| == 18
  {
    hide NodeInv;
    InitInv();
    var es := [Fragment(HEAD), Recover(1)];
    var n := Append(Start(HEAD), HEAD);
    var z := Node(0, 0, 0, 0, 0, []);
    NewKey(INIT, HEAD);
    PurgeFirst([n, z, z], 1);
    TwoSteps(INIT, es);
    OrphanStep(n.(queue := []), z);
  }

  lemma OrphanStep(n: Node, z: Node)
    requires n == Node(1, 0, 1, 0, 20, []) && z == Node(0, 0, 0, 0, 0, [])
    ensures FragOk(REST) && NodesOk([n, z, z])
    ensures var w := Step([n, z, z], REST).1; w.Some? && w.value.len == 24 && |w.value.data| == 18
  {
    var nodes := [n, z, z];
    LookupIs(nodes, REST, 0);
    assert Target(nodes, REST) == Some(0);
    var (nodes', i) := Collected(nodes, REST, 0);
    assert nodes'[i].queue == [REST] && nodes'[i].msduLen == 24;
    assert Assembled([REST]) == REST.data[..18];
  }

  lemma TwoSteps(nodes: seq<Node>, es: seq<Event>)
    requires EntryInv(nodes) && EventsOk(es) && |es| == 2
    ensures Run(nodes, es) == After(After(nodes, es[0]), es[1])
  {
    hide After, EntryInv;
    assert Run(nodes, es) == Run(After(nodes, es[0]), es[1..]);
    assert es[1..][1..] == [];
  }
}
