/** A fragmented MSDU comes out whole, also when other MSDUs are being collected (WIFI/defrag.c). */
module DefragRoundTrip {
  import opened Common
  import opened Defrag
  import opened DefragNodes

  /** The fragments of one MSDU, in order. */
  predicate Train(q: seq<Frag>) {
    && q != []
    && forall k :: 0 <= k < |q| ==>
         && FragOk(q[k]) && q[k].num == k && q[k].more == (k + 1 < |q|)
         && q[k].sn == q[0].sn && q[k].sta == q[0].sta && q[k].tid == q[0].tid
  }

  predicate KeyOf(e: Event, f0: Frag) {
    e.Fragment? && e.f.sta == f0.sta && e.f.tid == f0.tid
  }

  /** The fragments of the station and identifier of `f0` among the events. */
  function Mine(es: seq<Event>, f0: Frag): seq<Frag> {
    if es == [] then [] else (if KeyOf(es[0], f0) then [es[0].f] else []) + Mine(es[1..], f0)
  }

  /** The event neither purges the station of `f0` nor takes its node for another key. */
  predicate Spares(nodes: seq<Node>, e: Event, f0: Frag)
    requires nodes != []
  {
    match e
    case Fragment(f) => KeyOf(e, f0) || Target(nodes, f) != Some(Lookup(nodes, f0))
    case Recover(sta) => sta != f0.sta
  }

  predicate Spared(nodes: seq<Node>, es: seq<Event>, f0: Frag)
    requires EntryInv(nodes) && EventsOk(es)
    decreases |es|
  {
    es == [] || (Spares(nodes, es[0], f0) && Spared(After(nodes, es[0]), es[1..], f0))
  }

  /** Moving or rewriting the node of another key keeps the first node of this one. */
  lemma OthersMove(nodes: seq<Node>, f0: Frag, k: nat, n: Node)
    requires k < |nodes| && Lookup(nodes, f0) < |nodes| && k != Lookup(nodes, f0) && !SameKey(n, f0)
    ensures var i, r := Lookup(nodes, f0), nodes[k := n];
      && Lookup(r, f0) == i
      && Lookup(ToFront(r, k), f0) < |nodes| && ToFront(r, k)[Lookup(ToFront(r, k), f0)] == nodes[i]
      && Lookup(ToBack(r, k), f0) < |nodes| && ToBack(r, k)[Lookup(ToBack(r, k), f0)] == nodes[i]
  {
    hide SameKey;
    var i, r := Lookup(nodes, f0), nodes[k := n];
    LookupIs(r, f0, i);
    LookupIs(ToFront(r, k), f0, if k < i then i else i + 1);
    LookupIs(ToBack(r, k), f0, if k < i then i - 1 else i);
  }

  /** The node of `f0` is where Lookup finds it, and is `n`. */
  predicate Finds(nodes: seq<Node>, f0: Frag, n: Node) {
    Lookup(nodes, f0) < |nodes| && nodes[Lookup(nodes, f0)] == n
  }

  lemma CollectedSpares(nodes: seq<Node>, f: Frag, k: nat, f0: Frag, n: Node)
    requires FragOk(f) && nodes != [] && Target(nodes, f) == Some(k)
    requires Finds(nodes, f0, n) && k != Lookup(nodes, f0) && !KeyOf(Fragment(f), f0)
    ensures var (nodes', j) := Collected(nodes, f, k);
      Finds(nodes', f0, n) && j != Lookup(nodes', f0) && !SameKey(nodes'[j], f0)
  {
    hide Lookup, ToFront, ToBack;
    OthersMove(nodes, f0, k, if f.num > 0 then Append(nodes[k].(last := f.num), f) else Append(Start(f), f));
    FrontAt(nodes[k := Append(Start(f), f)], k);
  }

  /** Our node stays where it can be found, with what it has collected. */
  lemma SparedKept(nodes: seq<Node>, e: Event, f0: Frag, n: Node)
    requires EntryInv(nodes) && EventOk(e) && Finds(nodes, f0, n)
    requires Spares(nodes, e, f0) && !KeyOf(e, f0)
    ensures Finds(After(nodes, e), f0, n)
  {
    hide Lookup, NodeInv, ToFront, ToBack, Assembled, Target, Collected;
    match e {
      case Fragment(f) =>
        var t := Target(nodes, f);
        if t.Some? {
          CollectedSpares(nodes, f, t.value, f0, n);
          var (nodes', j) := Collected(nodes, f, t.value);
          OthersMove(nodes', f0, j, nodes'[j].(queue := []));
          FrontAt(nodes'[j := nodes'[j].(queue := [])], j);
        }
      case Recover(sta) =>
        LookupIs(Purge(nodes, sta), f0, Lookup(nodes, f0));
    }
  }

  /** The node has the first `k` fragments of the train. */
  predicate Has(n: Node, q: seq<Frag>, k: nat)
    requires q != [] && k <= |q|
  {
    n.queue == q[..k] && n.last == k - 1 && n.sn == q[0].sn && SameKey(n, q[0])
  }

  /** A later fragment of our train finds its node. */
  lemma NextStep(nodes: seq<Node>, q: seq<Frag>, k: nat, n: Node)
    requires EntryInv(nodes) && Train(q) && 0 < k < |q| && Finds(nodes, q[0], n) && Has(n, q, k)
    ensures var n' := Append(n.(last := k), q[k]);
      && Has(n', q, k + 1)
      && Step(nodes, q[k]).0 == (if q[k].more then nodes[Lookup(nodes, q[0]) := n'] else Step(nodes, q[k]).0)
      && n'.queue != [] && (forall j :: 0 <= j < |n'.queue| ==> FragOk(n'.queue[j]))
      && (!q[k].more ==> Step(nodes, q[k]).1 == Some(Whole(n'.msduLen - n'.queue[0].offset, Assembled(n'.queue))))
  {
    hide Lookup, Assembled, NodeInv, ToBack, ToFront;
    var i, f := Lookup(nodes, q[0]), q[k];
    LookupIs(nodes, f, i);
    assert Target(nodes, f) == Some(i);
    QueueOk(nodes, f, i);
    assert q[..k + 1] == q[..k] + [f];
  }

  lemma {:induction false} TrainCollects(nodes: seq<Node>, es: seq<Event>, q: seq<Frag>, k: nat, m: nat, n: Node)
    requires EntryInv(nodes) && EventsOk(es) && Train(q) && 0 < k <= m < |q|
    requires Finds(nodes, q[0], n) && Has(n, q, k) && Spared(nodes, es, q[0]) && Mine(es, q[0]) == q[k..m]
    ensures var r := Run(nodes, es); Lookup(r, q[0]) < |r| && Has(r[Lookup(r, q[0])], q, m)
    decreases |es|
  {
    hide Has, Lookup, EntryInv, Step, Spares, Purge;
    if es != [] {
      var e := es[0];
      if KeyOf(e, q[0]) {
        assert q[k..m][0] == e.f && q[k..m][1..] == q[k + 1..m];
        assert Mine(es[1..], q[0]) == q[k + 1..m];
        NextStep(nodes, q, k, n);
        var n' := Append(n.(last := k), q[k]);
        NextFound(nodes, q, k, n');
        TrainCollects(After(nodes, e), es[1..], q, k + 1, m, n');
      } else {
        assert Mine(es[1..], q[0]) == q[k..m];
        SparedKept(nodes, e, q[0], n);
        TrainCollects(After(nodes, e), es[1..], q, k, m, n);
      }
    }
  }

  lemma NextFound(nodes: seq<Node>, q: seq<Frag>, k: nat, n: Node)
    requires Train(q) && 0 < k < |q| && Lookup(nodes, q[0]) < |nodes| && Has(n, q, k + 1)
    ensures Finds(nodes[Lookup(nodes, q[0]) := n], q[0], n)
  {
    LookupIs(nodes[Lookup(nodes, q[0]) := n], q[0], Lookup(nodes, q[0]));
    hide Lookup;
  }

  lemma FirstStep(nodes: seq<Node>, q: seq<Frag>)
    requires EntryInv(nodes) && Train(q) && 1 < |q| && Target(nodes, q[0]).Some?
    ensures var n := Append(Start(q[0]), q[0]); Finds(Step(nodes, q[0]).0, q[0], n) && Has(n, q, 1)
  {
    hide Lookup, Assembled, NodeInv;
    assert q[..1] == [q[0]] && [] + [q[0]] == [q[0]];
    LookupIs(Step(nodes, q[0]).0, q[0], 0);
  }

  /** A train comes out whole with its last fragment, whatever other fragments come between, as
      long as its first fragment is accepted and its node is neither purged nor taken. */
  lemma {:induction false} RoundTrip(nodes: seq<Node>, es: seq<Event>, q: seq<Frag>)
    requires EntryInv(nodes) && EventsOk(es) && Train(q) && 1 < |q| && Target(nodes, q[0]).Some?
    requires es != [] && es[0] == Fragment(q[0]) && Mine(es, q[0]) == q[..|q| - 1]
    requires Spared(After(nodes, es[0]), es[1..], q[0])
    ensures Step(Run(nodes, es), q[|q| - 1]).1 == Some(Whole(Expected(q) - q[0].offset, Assembled(q)))
  {
    hide Has, Lookup, EntryInv, Step, Spares, Spared, Target, Assembled;
    var k := |q| - 1;
    FirstStep(nodes, q);
    assert q[..k][1..] == q[1..k] && Mine(es[1..], q[0]) == q[1..k];
    TrainCollects(After(nodes, es[0]), es[1..], q, 1, k, Append(Start(q[0]), q[0]));
    var r := Run(nodes, es);
    LastStep(r, q, r[Lookup(r, q[0])]);
  }

  lemma {:induction false} LastStep(nodes: seq<Node>, q: seq<Frag>, n: Node)
    requires EntryInv(nodes) && Train(q) && 1 < |q| && Finds(nodes, q[0], n) && Has(n, q, |q| - 1)
    ensures Step(nodes, q[|q| - 1]).1 == Some(Whole(Expected(q) - q[0].offset, Assembled(q)))
  {
    var k: nat := |q| - 1;
    NextStep(nodes, q, k, n);
    assert NodeInv(n);
    AppendKeepsInv(n, q[k]);
    assert q[..k + 1] == q;
    hide Step, Assembled;
  }

  /** No first fragment of a new key arrives while every node is collecting. */
  predicate Uncrowded(nodes: seq<Node>, es: seq<Event>)
    requires EntryInv(nodes) && EventsOk(es)
    decreases |es|
  {
    es == [] || (Roomy(nodes, es[0]) && Uncrowded(After(nodes, es[0]), es[1..]))
  }

  predicate Roomy(nodes: seq<Node>, e: Event) {
    e.Fragment? && e.f.num == 0 && Lookup(nodes, e.f) == |nodes|
    ==> exists i :: 0 <= i < |nodes| && nodes[i].queue == []
  }

  /** The event is not a purge of the station of `f0`, nor the beginning or the end of an MSDU of its key. */
  predicate Between(e: Event, f0: Frag) {
    && (e.Recover? ==> e.sta != f0.sta)
    && (KeyOf(e, f0) ==> e.f.num > 0 && e.f.more)
  }

  lemma RoomySpares(nodes: seq<Node>, e: Event, f0: Frag)
    requires EntryInv(nodes) && OpenFirst(nodes) && Roomy(nodes, e) && Between(e, f0)
    requires Lookup(nodes, f0) < |nodes| && nodes[Lookup(nodes, f0)].queue != []
    ensures Spares(nodes, e, f0)
  {
    hide Lookup, NodeInv;
  }

  lemma MineStaysOpen(nodes: seq<Node>, e: Event, f0: Frag)
    requires EntryInv(nodes) && EventOk(e) && KeyOf(e, f0) && Between(e, f0)
    requires Lookup(nodes, f0) < |nodes| && nodes[Lookup(nodes, f0)].queue != []
    ensures var r := After(nodes, e); Lookup(r, f0) < |r| && r[Lookup(r, f0)].queue != []
  {
    hide Lookup, NodeInv, Assembled;
    var i := Lookup(nodes, f0);
    LookupIs(nodes, e.f, i);
    LookupIs(After(nodes, e), f0, i);
  }

  /** With at most three MSDUs open at a time and orderly events, an open node is never taken. */
  lemma {:induction false} UncrowdedSpares(nodes: seq<Node>, es: seq<Event>, f0: Frag)
    requires EntryInv(nodes) && EventsOk(es) && OpenFirst(nodes) && OrderlyRun(nodes, es) && Uncrowded(nodes, es)
    requires Lookup(nodes, f0) < |nodes| && nodes[Lookup(nodes, f0)].queue != []
    requires forall k :: 0 <= k < |es| ==> Between(es[k], f0)
    ensures Spared(nodes, es, f0)
    decreases |es|
  {
    hide After, Orderly, OpenFirst, EntryInv, Lookup, Roomy, Between, Spares;
    if es != [] {
      var e := es[0];
      RoomySpares(nodes, e, f0);
      OrderlyExactly(nodes, e);
      if KeyOf(e, f0) {
        MineStaysOpen(nodes, e, f0);
      } else {
        SparedKept(nodes, e, f0, nodes[Lookup(nodes, f0)]);
      }
      UncrowdedSpares(After(nodes, e), es[1..], f0);
    }
  }

  /** A train interleaved with the fragments of other stations and identifiers comes out whole as
      long as at most three MSDUs are open at a time. */
  lemma {:induction false} InterleavedRoundTrip(nodes: seq<Node>, es: seq<Event>, q: seq<Frag>)
    requires EntryInv(nodes) && EventsOk(es) && OpenFirst(nodes) && Train(q) && 1 < |q| && Target(nodes, q[0]).Some?
    requires es != [] && es[0] == Fragment(q[0]) && Mine(es, q[0]) == q[..|q| - 1]
    requires forall k :: 0 <= k < |es| ==> es[k] != Recover(q[0].sta)
    requires OrderlyRun(nodes, es) && Uncrowded(After(nodes, es[0]), es[1..])
    ensures Step(Run(nodes, es), q[|q| - 1]).1 == Some(Whole(Expected(q) - q[0].offset, Assembled(q)))
  {
    hide After, Orderly, OpenFirst, EntryInv, Lookup, Spared, Step, Run, Uncrowded;
    var rest := es[1..];
    FirstStep(nodes, q);
    OrderlyExactly(nodes, es[0]);
    FirstOpens(nodes, q);
    RestBetween(es, q);
    UncrowdedSpares(After(nodes, es[0]), rest, q[0]);
    RoundTrip(nodes, es, q);
  }

  lemma RestBetween(es: seq<Event>, q: seq<Frag>)
    requires Train(q) && 1 < |q| && es != [] && es[0] == Fragment(q[0]) && Mine(es, q[0]) == q[..|q| - 1]
    requires forall k :: 0 <= k < |es| ==> es[k] != Recover(q[0].sta)
    ensures forall k :: 0 <= k < |es[1..]| ==> Between(es[1..][k], q[0])
  {
    var rest := es[1..];
    assert q[..|q| - 1][1..] == q[1..|q| - 1] && Mine(rest, q[0]) == q[1..|q| - 1];
    forall k | 0 <= k < |rest| ensures Between(rest[k], q[0]) {
      assert rest[k] == es[k + 1];
      if KeyOf(rest[k], q[0]) {
        MineAt(rest, q, 1, |q| - 1, k);
      }
    }
  }

  lemma FirstOpens(nodes: seq<Node>, q: seq<Frag>)
    requires EntryInv(nodes) && Train(q) && 1 < |q| && Target(nodes, q[0]).Some?
    ensures var r := After(nodes, Fragment(q[0])); Lookup(r, q[0]) < |r| && r[Lookup(r, q[0])].queue != []
  {
    FirstStep(nodes, q);
    hide Step, Lookup, NodeInv;
  }

  lemma {:induction false} MineAt(es: seq<Event>, q: seq<Frag>, k: nat, m: nat, j: nat)
    requires Train(q) && 0 < k <= m < |q| && Mine(es, q[0]) == q[k..m] && j < |es| && KeyOf(es[j], q[0])
    ensures es[j].f.num > 0 && es[j].f.more
    decreases |es|
  {
    if KeyOf(es[0], q[0]) {
      assert q[k..m][0] == es[0].f && q[k..m][1..] == q[k + 1..m];
      assert Mine(es[1..], q[0]) == q[k + 1..m];
      if j > 0 {
        MineAt(es[1..], q, k + 1, m, j - 1);
      }
    } else {
      assert Mine(es[1..], q[0]) == q[k..m];
      MineAt(es[1..], q, k, m, j - 1);
    }
  }
}
