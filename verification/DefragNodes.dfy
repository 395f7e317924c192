/** Which of the three reassembly nodes is given up for a new MSDU (WIFI/defrag.c). */
module DefragNodes {
  import opened Common
  import opened Defrag

  /** The first node of the fragment's station and traffic identifier. */
  predicate FirstOfKey(nodes: seq<Node>, f: Frag, i: int) {
    && 0 <= i < |nodes| && nodes[i].sta == f.sta && nodes[i].tid == f.tid
    && forall j :: 0 <= j < i ==> !(nodes[j].sta == f.sta && nodes[j].tid == f.tid)
  }

  /** Which node a fragment goes to. A later fragment goes to the first node of its key, if that waits
      for it. A first fragment goes to that node if its number is ahead of the one there by less than
      half the space, and is refused otherwise; without such a node it takes the last one. */
  lemma TargetLaw(nodes: seq<Node>, f: Frag, i: int)
    requires nodes != [] && FirstOfKey(nodes, f, i)
    ensures var n := nodes[i];
      var ahead := (n.sn < f.sn && f.sn - n.sn < 2048) || (f.sn < n.sn && n.sn - f.sn >= 2048);
      var goes := if f.num > 0 then n.sn == f.sn && n.last + 1 == f.num else ahead;
      Target(nodes, f) == if goes then Some(i) else None
  {
    assert Lookup(nodes, f) == i;
  }

  lemma NewKeyLaw(nodes: seq<Node>, f: Frag)
    requires nodes != [] && forall i :: 0 <= i < |nodes| ==> !(nodes[i].sta == f.sta && nodes[i].tid == f.tid)
    ensures Target(nodes, f) == if f.num > 0 then None else Some(|nodes| - 1)
  {
  }

  /** Nodes that collect something come before nodes that do not. */
  predicate OpenFirst(nodes: seq<Node>) {
    forall i, j :: 0 <= i < j < |nodes| && nodes[j].queue != [] ==> nodes[i].queue != []
  }

  lemma FrontOpenFirst(nodes: seq<Node>, i: nat, n: Node)
    requires OpenFirst(nodes) && i < |nodes| && n.queue != []
    ensures OpenFirst(ToFront(nodes[i := n], i))
  {
    var r := ToFront(nodes[i := n], i);
    assert forall k :: 0 < k < |r| ==> r[k] == if k <= i then nodes[k - 1] else nodes[k];
  }

  lemma InPlaceOpenFirst(nodes: seq<Node>, i: nat, n: Node)
    requires OpenFirst(nodes) && i < |nodes| && n.queue != []
    ensures OpenFirst(nodes[i := n]) <==> i == 0 || nodes[i].queue != [] || nodes[i - 1].queue != []
  {
    var r := nodes[i := n];
    if i > 0 && OpenFirst(r) {
      assert r[i].queue != [] && r[i - 1] == nodes[i - 1];
    }
  }

  lemma BackOpenFirst(nodes: seq<Node>, i: nat, n: Node)
    requires i < |nodes| && n.queue == []
    requires forall j, k :: 0 <= j < k < |nodes| && j != i && k != i && nodes[k].queue != [] ==> nodes[j].queue != []
    ensures OpenFirst(ToBack(nodes[i := n], i))
  {
    var r := ToBack(nodes[i := n], i);
    assert forall k :: 0 <= k < |r| - 1 ==> r[k] == if k < i then nodes[k] else nodes[k + 1];
  }

  /** The fragment opens an idle node from the middle of an MSDU, behind another idle node. */
  predicate Jumps(nodes: seq<Node>, f: Frag)
    requires nodes != []
  {
    var t := Target(nodes, f);
    f.num > 0 && f.more && t.Some? && t.value > 0 && nodes[t.value].queue == [] && nodes[t.value - 1].queue == []
  }

  /** What an event must not do for open nodes to stay in front: open a node behind an idle one, or
      purge a node in front of one that another station's MSDU keeps open. */
  predicate Orderly(nodes: seq<Node>, e: Event)
    requires nodes != []
  {
    match e
    case Fragment(f) => !Jumps(nodes, f)
    case Recover(sta) =>
      forall i, j :: 0 <= i < j < |nodes| && nodes[i].sta == sta && nodes[j].sta != sta ==> nodes[j].queue == []
  }

  lemma StepOpenFirst(nodes: seq<Node>, f: Frag)
    requires NodesOk(nodes) && FragOk(f) && OpenFirst(nodes)
    ensures OpenFirst(Step(nodes, f).0) <==> !Jumps(nodes, f)
  {
    hide Assembled, Lookup, ToFront, ToBack;
    var t := Target(nodes, f);
    if t.Some? {
      var i := t.value;
      var (nodes', j) := Collected(nodes, f, i);
      if f.num == 0 {
        FrontOpenFirst(nodes, i, Append(Start(f), f));
      } else {
        InPlaceOpenFirst(nodes, i, Append(nodes[i].(last := f.num), f));
      }
      if !f.more {
        BackOpenFirst(nodes', j, nodes'[j].(queue := []));
      }
    }
  }

  /** Starting a node moves it to the front and finishing it moves it to the back, so an event keeps
      open nodes in front exactly when it is orderly. */
  lemma OrderlyExactly(nodes: seq<Node>, e: Event)
    requires EntryInv(nodes) && EventOk(e) && OpenFirst(nodes)
    ensures OpenFirst(After(nodes, e)) <==> Orderly(nodes, e)
  {
    if e.Fragment? {
      StepOpenFirst(nodes, e.f);
      hide Step, Jumps;
    } else {
      var r := Purge(nodes, e.sta);
      assert forall i :: 0 <= i < |r| ==> (r[i].queue == [] <==> nodes[i].queue == [] || nodes[i].sta == e.sta);
      if OpenFirst(r) {
        forall i, j | 0 <= i < j < |nodes| && nodes[i].sta == e.sta && nodes[j].sta != e.sta
          ensures nodes[j].queue == []
        {
          assert r[i].queue == [];
        }
      }
    }
  }

  predicate OrderlyRun(nodes: seq<Node>, es: seq<Event>)
    requires EntryInv(nodes) && EventsOk(es)
    decreases |es|
  {
    es == [] || (Orderly(nodes, es[0]) && OrderlyRun(After(nodes, es[0]), es[1..]))
  }

  predicate AlwaysOpenFirst(nodes: seq<Node>, es: seq<Event>)
    requires EntryInv(nodes) && EventsOk(es)
    decreases |es|
  {
    OpenFirst(nodes) && (es == [] || AlwaysOpenFirst(After(nodes, es[0]), es[1..]))
  }

  /** Open nodes stay in front throughout a run exactly when all its events are orderly. */
  lemma {:induction false} OrderlyRunExactly(nodes: seq<Node>, es: seq<Event>)
    requires EntryInv(nodes) && EventsOk(es) && OpenFirst(nodes)
    ensures AlwaysOpenFirst(nodes, es) <==> OrderlyRun(nodes, es)
    ensures OrderlyRun(nodes, es) ==> OpenFirst(Run(nodes, es))
    decreases |es|
  {
    hide After, Orderly, OpenFirst, EntryInv;
    if es != [] {
      OrderlyExactly(nodes, es[0]);
      if OpenFirst(After(nodes, es[0])) {
        OrderlyRunExactly(After(nodes, es[0]), es[1..]);
      } else {
        assert !AlwaysOpenFirst(After(nodes, es[0]), es[1..]);
      }
    }
  }

  /** A later fragment only joins a queue that has begun. */
  predicate NoOrphan(nodes: seq<Node>, f: Frag)
    requires nodes != []
  {
    f.num > 0 && Target(nodes, f).Some? ==> nodes[Target(nodes, f).value].queue != []
  }

  predicate PlainRun(nodes: seq<Node>, es: seq<Event>)
    requires EntryInv(nodes) && EventsOk(es)
    decreases |es|
  {
    es == [] || (es[0].Fragment? && NoOrphan(nodes, es[0].f) && PlainRun(After(nodes, es[0]), es[1..]))
  }

  /** In particular a run without purges and orphans is orderly. */
  lemma {:induction false} PlainIsOrderly(nodes: seq<Node>, es: seq<Event>)
    requires EntryInv(nodes) && EventsOk(es) && PlainRun(nodes, es)
    ensures OrderlyRun(nodes, es)
    decreases |es|
  {
    if es != [] {
      PlainIsOrderly(After(nodes, es[0]), es[1..]);
    }
    hide After, EntryInv;
  }

  /** After every orderly run, a first fragment of a new station or identifier displaces an
      unfinished MSDU if and only if all three nodes are collecting one. */
  lemma DisplacesOnlyWhenFull(es: seq<Event>, f: Frag)
    requires EventsOk(es) && OrderlyRun(INIT, es)
    requires f.num == 0 && Lookup(Run(INIT, es), f) == |Run(INIT, es)|
    ensures var nodes := Run(INIT, es);
      && |nodes| == MAX_DEFRAG_NUM && Target(nodes, f) == Some(MAX_DEFRAG_NUM - 1)
      && (nodes[MAX_DEFRAG_NUM - 1].queue != [] <==> forall i :: 0 <= i < |nodes| ==> nodes[i].queue != [])
  {
    hide Run, OrderlyRun, Lookup, NodeInv;
    InitInv();
    OrderlyRunExactly(INIT, es);
  }

  function FirstOf(sta: nat): Frag {
    Frag(sta, 0, 1, 0, true, true, 0, 14, seq(14, _ => 0))
  }

  function Opened(sta: nat): Node {
    Append(Start(FirstOf(sta)), FirstOf(sta))
  }

  const PURGE_RUN: seq<Event> :=
    [Fragment(FirstOf(1)), Fragment(FirstOf(2)), Fragment(FirstOf(3)), Recover(3)]

  const PURGED: seq<Node> := [Opened(3).(queue := []), Opened(2), Opened(1)]

  lemma ThreeStations()
    ensures EventsOk(PURGE_RUN)
    ensures var r := After(After(After(INIT, PURGE_RUN[0]), PURGE_RUN[1]), PURGE_RUN[2]);
      r == [Opened(3), Opened(2), Opened(1)] && After(r, PURGE_RUN[3]) == PURGED
  {
    hide After, NodeInv;
    InitInv();
    NewKey(INIT, FirstOf(1));
    NewKey(After(INIT, PURGE_RUN[0]), FirstOf(2));
    NewKey(After(After(INIT, PURGE_RUN[0]), PURGE_RUN[1]), FirstOf(3));
    PurgeFirst(After(After(After(INIT, PURGE_RUN[0]), PURGE_RUN[1]), PURGE_RUN[2]), 3);
  }

  /** The condition is needed: purging the newest node leaves an idle node in front, and the next
      station displaces the oldest unfinished MSDU all the same. */
  lemma DisplacesBesideIdle()
    ensures EventsOk(PURGE_RUN) && !OrderlyRun(INIT, PURGE_RUN)
    ensures var nodes := Run(INIT, PURGE_RUN);
      && |nodes| == 3 && nodes[0].queue == [] && nodes[2].queue == [FirstOf(1)]
      && Target(nodes, FirstOf(4)) == Some(2)
  {
    hide After, NodeInv, Run, OrderlyRun, Target;
    InitInv();
    ThreeStations();
    FourSteps(INIT, PURGE_RUN);
    var open := [Opened(3), Opened(2), Opened(1)];
    assert Opened(1).queue == [FirstOf(1)];
    assert open[0].sta == 3 && open[2].sta == 1 && open[2].queue != [];
    assert !Orderly(open, Recover(3));
    NewKey(PURGED, FirstOf(4));
  }

  lemma FourSteps(nodes: seq<Node>, es: seq<Event>)
    requires EntryInv(nodes) && EventsOk(es) && |es| == 4
    ensures var r := After(After(After(nodes, es[0]), es[1]), es[2]);
      Run(nodes, es) == After(r, es[3]) && (OrderlyRun(nodes, es) ==> Orderly(r, es[3]))
  {
    hide After, Orderly, EntryInv;
    OneStep(nodes, es);
    OneStep(After(nodes, es[0]), es[1..]);
    OneStep(After(After(nodes, es[0]), es[1]), es[1..][1..]);
    OneStep(After(After(After(nodes, es[0]), es[1]), es[2]), es[1..][1..][1..]);
  }

  lemma OneStep(nodes: seq<Node>, es: seq<Event>)
    requires EntryInv(nodes) && EventsOk(es) && es != []
    ensures var r := After(nodes, es[0]);
      && Run(nodes, es) == Run(r, es[1..]) && (|es| == 1 ==> Run(nodes, es) == r)
      && (OrderlyRun(nodes, es) ==> Orderly(nodes, es[0]) && OrderlyRun(r, es[1..]))
  {
    hide After, Orderly, EntryInv;
  }
}
