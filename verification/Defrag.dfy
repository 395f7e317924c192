/** Reassembly of fragmented MSDUs (WIFI/defrag.c): three nodes kept in least-recently-started
    order, each collecting the fragments of one MSDU. */
module Defrag {
  import opened Common
  import opened Seqno

  const MAX_DEFRAG_NUM := 3
  const ETH_HLEN := 14
  const ETH_ALEN := 6

  /** A received fragment: the descriptor fields and the buffer they describe. */
  datatype Frag = Frag(sta: nat, tid: nat, sn: Seq12, num: nat, more: bool, snap: bool,
                       offset: nat, len: nat, data: seq<Byte>)

  /** The Ethernet header the hardware puts in front of every fragment. */
  function Header(f: Frag): nat {
    if f.snap then ETH_HLEN else 2 * ETH_ALEN
  }

  predicate FragOk(f: Frag) {
    Header(f) <= f.len && f.offset + f.len <= |f.data|
  }

  /** struct rx_defrag_node */
  datatype Node = Node(sta: nat, tid: nat, sn: Seq12, last: nat, msduLen: nat, queue: seq<Frag>)

  datatype Whole = Whole(len: int, data: seq<Byte>)

  // ---------------------------------------------------------------------
  // The step

  predicate SameKey(n: Node, f: Frag) {
    n.sta == f.sta && n.tid == f.tid
  }

  /** The first node of the fragment's station and traffic identifier, or the length. */
  function Lookup(nodes: seq<Node>, f: Frag): (i: nat)
    ensures i <= |nodes| && (i < |nodes| ==> SameKey(nodes[i], f))
    ensures forall j :: 0 <= j < i ==> !SameKey(nodes[j], f)
  {
    if nodes == [] || SameKey(nodes[0], f) then 0 else 1 + Lookup(nodes[1..], f)
  }

  /** The node a fragment belongs to (get_defrag_node). */
  function Target(nodes: seq<Node>, f: Frag): (r: Option<nat>)
    requires nodes != []
    ensures r.Some? ==> r.value < |nodes|
  {
    var i := Lookup(nodes, f);
    if f.num > 0 then
      if i < |nodes| && nodes[i].sn == f.sn && nodes[i].last + 1 == f.num then Some(i) else None
    else if i < |nodes| then
      if !Leq(f.sn, nodes[i].sn) then Some(i) else None
    else Some(|nodes| - 1)
  }

  function Payload(f: Frag): seq<Byte>
    requires FragOk(f)
  {
    f.data[f.offset + Header(f)..f.offset + f.len]
  }

  function Append(n: Node, f: Frag): Node
    requires FragOk(f)
  {
    n.(msduLen := n.msduLen + (f.len - Header(f)), queue := n.queue + [f])
  }

  function Start(f: Frag): Node {
    Node(f.sta, f.tid, f.sn, f.num, Header(f) + f.offset, [])
  }

  function ToFront<T>(xs: seq<T>, i: nat): seq<T>
    requires i < |xs|
  {
    [xs[i]] + xs[..i] + xs[i + 1..]
  }

  function ToBack<T>(xs: seq<T>, i: nat): seq<T>
    requires i < |xs|
  {
    xs[..i] + xs[i + 1..] + [xs[i]]
  }

  /** The list after the fragment joined its node, and where that node is. */
  function Collected(nodes: seq<Node>, f: Frag, i: nat): (r: (seq<Node>, nat))
    requires i < |nodes| && FragOk(f)
    ensures |r.0| == |nodes| && r.1 < |r.0|
  {
    if f.num > 0 then (nodes[i := Append(nodes[i].(last := f.num), f)], i)
    else (ToFront(nodes[i := Append(Start(f), f)], i), 0)
  }

  /** The first fragment whole, then the payload of each later one, in queue order. */
  function Assembled(q: seq<Frag>): seq<Byte>
    requires q != [] && forall k :: 0 <= k < |q| ==> FragOk(q[k])
    decreases |q|
  {
    if |q| == 1 then (assert FragOk(q[0]); q[0].data[..q[0].offset + q[0].len])
    else Assembled(q[..|q| - 1]) + Payload(q[|q| - 1])
  }

  predicate NodesOk(nodes: seq<Node>) {
    nodes != [] && forall i :: 0 <= i < |nodes| ==> forall k :: 0 <= k < |nodes[i].queue| ==> FragOk(nodes[i].queue[k])
  }

  function Step(nodes: seq<Node>, f: Frag): (seq<Node>, Option<Whole>)
    requires NodesOk(nodes) && FragOk(f)
  {
    var t := Target(nodes, f);
    if t.None? then (nodes, None)
    else
      var (nodes', i) := Collected(nodes, f, t.value);
      if f.more then (nodes', None)
      else
        var n := nodes'[i];
        QueueOk(nodes, f, t.value);
        (ToBack(nodes'[i := n.(queue := [])], i),
         Some(Whole(n.msduLen - n.queue[0].offset, Assembled(n.queue))))
  }

  lemma QueueOk(nodes: seq<Node>, f: Frag, i: nat)
    requires NodesOk(nodes) && FragOk(f) && i < |nodes|
    ensures var (nodes', j) := Collected(nodes, f, i);
      nodes'[j].queue != [] && forall k :: 0 <= k < |nodes'[j].queue| ==> FragOk(nodes'[j].queue[k])
  {
  }

  lemma FrontAt<T>(xs: seq<T>, i: nat)
    requires i < |xs|
    ensures |ToFront(xs, i)| == |ToBack(xs, i)| == |xs| && ToFront(xs, i)[0] == xs[i]
  {
  }

  lemma LookupIs(nodes: seq<Node>, f0: Frag, i: nat)
    requires i < |nodes| && SameKey(nodes[i], f0) && forall j :: 0 <= j < i ==> !SameKey(nodes[j], f0)
    ensures Lookup(nodes, f0) == i
  {
    hide SameKey;
    var k := Lookup(nodes, f0);
    assert k <= i;
  }

  // ---------------------------------------------------------------------
  // What every run keeps

  /** The bytes a queue will assemble to. */
  function Expected(q: seq<Frag>): int {
    if q == [] then 0
    else if |q| == 1 then q[0].offset + q[0].len
    else Expected(q[..|q| - 1]) + (q[|q| - 1].len - Header(q[|q| - 1]))
  }

  /** A queue that begins with fragment 0 holds fragments 0, 1, 2, ... of one MSDU, and the node's
      running length is what they assemble to. */
  predicate NodeInv(n: Node) {
    n.queue != [] && n.queue[0].num == 0 ==>
      && n.msduLen == Expected(n.queue) && n.last == |n.queue| - 1
      && forall k :: 0 <= k < |n.queue| ==>
           n.queue[k].num == k && n.queue[k].sn == n.sn && SameKey(n, n.queue[k])
  }

  predicate EntryInv(nodes: seq<Node>) {
    NodesOk(nodes) && forall i :: 0 <= i < |nodes| ==> NodeInv(nodes[i])
  }

  lemma AppendKeepsInv(n: Node, f: Frag)
    requires NodeInv(n) && FragOk(f) && n.sn == f.sn && SameKey(n, f) && n.last + 1 == f.num
    ensures NodeInv(Append(n.(last := f.num), f))
  {
    var q := n.queue + [f];
    assert q[..|q| - 1] == n.queue;
  }

  lemma StartKeepsInv(f: Frag)
    requires FragOk(f)
    ensures NodeInv(Append(Start(f), f)) && Append(Start(f), f).queue == [f]
  {
    assert [] + [f] == [f];
  }

  lemma CollectedKeepsInv(nodes: seq<Node>, f: Frag, i: nat)
    requires EntryInv(nodes) && FragOk(f) && Target(nodes, f) == Some(i)
    ensures EntryInv(Collected(nodes, f, i).0)
  {
    if f.num > 0 {
      AppendKeepsInv(nodes[i], f);
    } else {
      StartKeepsInv(f);
    }
    hide NodeInv, FragOk;
  }

  lemma {:induction false} AssembledLength(q: seq<Frag>)
    requires q != [] && forall k :: 0 <= k < |q| ==> FragOk(q[k])
    ensures |Assembled(q)| == Expected(q)
    decreases |q|
  {
    if |q| > 1 {
      AssembledLength(q[..|q| - 1]);
    }
  }

  /** What an output claims: the copied bytes fill the announced buffer, and the length stored in
      the first fragment's descriptor is the total without the offset. */
  predicate Exact(q: seq<Frag>, msduLen: int, w: Whole)
    requires q != [] && forall k :: 0 <= k < |q| ==> FragOk(q[k])
  {
    && w.data == Assembled(q) && |w.data| == msduLen
    && w.len == |w.data| - q[0].offset
  }

  /** Each step keeps the invariant, and a queue started by fragment 0 reassembles exactly: its
      fragments are 0 to last of one MSDU, for any mix of header kinds. */
  lemma StepTheorem(nodes: seq<Node>, f: Frag)
    requires EntryInv(nodes) && FragOk(f)
    ensures EntryInv(Step(nodes, f).0) && |Step(nodes, f).0| == |nodes|
    ensures Step(nodes, f).1.Some? ==>
      var (nodes', i) := Collected(nodes, f, Target(nodes, f).value);
      var n := nodes'[i];
      && n.queue != [] && (forall k :: 0 <= k < |n.queue| ==> FragOk(n.queue[k]))
      && n.queue[|n.queue| - 1] == f
      && (n.queue[0].num == 0 ==>
            && Exact(n.queue, n.msduLen, Step(nodes, f).1.value)
            && forall k :: 0 <= k < |n.queue| ==> n.queue[k].num == k && n.queue[k].sn == f.sn)
  {
    var t := Target(nodes, f);
    if t.Some? {
      CollectedKeepsInv(nodes, f, t.value);
      QueueOk(nodes, f, t.value);
      var (nodes', i) := Collected(nodes, f, t.value);
      var n := nodes'[i];
      AssembledLength(n.queue);
      BackKeepsInv(nodes', i);
      LastQueued(nodes, f, t.value);
    }
    hide Assembled, Expected, ToBack, ToFront, Lookup;
  }

  lemma LastQueued(nodes: seq<Node>, f: Frag, i: nat)
    requires NodesOk(nodes) && FragOk(f) && Target(nodes, f) == Some(i)
    ensures var (nodes', j) := Collected(nodes, f, i);
      nodes'[j].queue != [] && nodes'[j].queue[|nodes'[j].queue| - 1] == f && nodes'[j].sn == f.sn
  {
  }

  lemma BackKeepsInv(nodes: seq<Node>, i: nat)
    requires EntryInv(nodes) && i < |nodes|
    ensures var r := ToBack(nodes[i := nodes[i].(queue := [])], i); EntryInv(r) && |r| == |nodes|
  {
  }

  // ---------------------------------------------------------------------
  // Runs

  datatype Event = Fragment(f: Frag) | Recover(sta: nat)

  /** sprdwl_defrag_recover: the queues of a station are purged, the nodes keep their state. */
  function Purge(nodes: seq<Node>, sta: nat): (r: seq<Node>)
    ensures |r| == |nodes|
  {
    seq(|nodes|, i requires 0 <= i < |nodes| => if nodes[i].sta == sta then nodes[i].(queue := []) else nodes[i])
  }

  predicate EventOk(e: Event) {
    e.Fragment? ==> FragOk(e.f)
  }

  function After(nodes: seq<Node>, e: Event): (r: seq<Node>)
    requires EntryInv(nodes) && EventOk(e)
    ensures EntryInv(r) && |r| == |nodes|
  {
    match e
    case Fragment(f) =>
      StepTheorem(nodes, f);
      Step(nodes, f).0
    case Recover(sta) => Purge(nodes, sta)
  }

  predicate EventsOk(es: seq<Event>) {
    forall k :: 0 <= k < |es| ==> EventOk(es[k])
  }

  /** The nodes after a run. */
  function Run(nodes: seq<Node>, es: seq<Event>): (r: seq<Node>)
    requires EntryInv(nodes) && EventsOk(es)
    ensures EntryInv(r) && |r| == |nodes|
    decreases |es|
  {
    if es == [] then nodes else Run(After(nodes, es[0]), es[1..])
  }

  /** The zeroed nodes of sprdwl_defrag_init. */
  const INIT: seq<Node> := [Node(0, 0, 0, 0, 0, []), Node(0, 0, 0, 0, 0, []), Node(0, 0, 0, 0, 0, [])]

  /** In every state reached from the start, whatever was fragmented, dropped, replaced or purged,
      the next output of a queue started by fragment 0 is exact and made of fragments 0 to last. */
  lemma RunTheorem(es: seq<Event>, f: Frag)
    requires EventsOk(es) && FragOk(f) && Step(Run(INIT, es), f).1.Some?
    ensures var nodes := Run(INIT, es);
      var (nodes', i) := Collected(nodes, f, Target(nodes, f).value);
      var n := nodes'[i];
      && n.queue != [] && (forall k :: 0 <= k < |n.queue| ==> FragOk(n.queue[k]))
      && (n.queue[0].num == 0 ==>
            && Exact(n.queue, n.msduLen, Step(nodes, f).1.value)
            && forall k :: 0 <= k < |n.queue| ==> n.queue[k].num == k && n.queue[k].sn == f.sn)
  {
    hide Run, Step, NodeInv, Target, Collected, Exact;
    InitInv();
    StepTheorem(Run(INIT, es), f);
  }

  lemma InitInv()
    ensures EntryInv(INIT)
  {
  }

  /** A first fragment of a new key takes the last node to the front. */
  lemma NewKey(nodes: seq<Node>, f: Frag)
    requires EntryInv(nodes) && |nodes| == 3 && FragOk(f) && f.num == 0 && f.more
    requires forall i :: 0 <= i < 3 ==> !SameKey(nodes[i], f)
    ensures Target(nodes, f) == Some(2)
    ensures After(nodes, Fragment(f)) == [Append(Start(f), f), nodes[0], nodes[1]]
  {
    hide NodeInv, Assembled;
  }

  lemma PurgeFirst(nodes: seq<Node>, sta: nat)
    requires EntryInv(nodes) && |nodes| == 3 && nodes[0].sta == sta && nodes[1].sta != sta && nodes[2].sta != sta
    ensures After(nodes, Recover(sta)) == [nodes[0].(queue := []), nodes[1], nodes[2]]
  {
  }

  // ---------------------------------------------------------------------
  // Buffers

  /** The fragments the nodes keep. */
  function Queued(nodes: seq<Node>): multiset<Frag> {
    if nodes == [] then multiset{} else multiset(nodes[0].queue) + Queued(nodes[1..])
  }

  /** The buffers a fragment's step gives back: a refused fragment, what a restarted node kept,
      and, as a whole MSDU is copied, everything that was collected for it. */
  function FreedBy(nodes: seq<Node>, f: Frag): seq<Frag>
    requires NodesOk(nodes) && FragOk(f)
  {
    var t := Target(nodes, f);
    if t.None? then [f]
    else
      var (nodes', i) := Collected(nodes, f, t.value);
      (if f.num > 0 then [] else nodes[t.value].queue) + (if f.more then [] else nodes'[i].queue)
  }

  lemma {:induction false} QueuedAppend(a: seq<Node>, b: seq<Node>)
    ensures Queued(a + b) == Queued(a) + Queued(b)
  {
    if a == [] {
      assert a + b == b;
    } else {
      assert (a + b)[1..] == a[1..] + b;
      QueuedAppend(a[1..], b);
    }
  }

  lemma QueuedOne(n: Node)
    ensures Queued([n]) == multiset(n.queue)
  {
    assert Queued([n][1..]) == multiset{};
  }

  /** Which fragments are kept does not depend on where the node is. */
  lemma QueuedAround(nodes: seq<Node>, i: nat, n: Node)
    requires i < |nodes|
    ensures var rest := Queued(nodes[..i]) + Queued(nodes[i + 1..]);
      && Queued(nodes) == rest + multiset(nodes[i].queue)
      && Queued(nodes[i := n]) == rest + multiset(n.queue)
      && Queued(ToFront(nodes[i := n], i)) == rest + multiset(n.queue)
      && Queued(ToBack(nodes[i := n], i)) == rest + multiset(n.queue)
  {
    hide Queued;
    var a, b := nodes[..i], nodes[i + 1..];
    assert nodes == a + ([nodes[i]] + b) && nodes[i := n] == a + ([n] + b);
    assert ToFront(nodes[i := n], i) == [n] + a + b && ToBack(nodes[i := n], i) == a + b + [n];
    QueuedOne(n);
    QueuedOne(nodes[i]);
    QueuedAppend(a, [nodes[i]] + b);
    QueuedAppend([nodes[i]], b);
    QueuedAppend(a, [n] + b);
    QueuedAppend([n], b);
    QueuedAppend([n] + a, b);
    QueuedAppend([n], a);
    QueuedAppend(a + b, [n]);
    QueuedAppend(a, b);
  }

  lemma CollectedConserves(nodes: seq<Node>, f: Frag, i: nat)
    requires i < |nodes| && FragOk(f)
    ensures Queued(Collected(nodes, f, i).0) + multiset(if f.num > 0 then [] else nodes[i].queue)
         == Queued(nodes) + multiset{f}
  {
    hide Queued, ToFront;
    if f.num > 0 {
      QueuedAround(nodes, i, Append(nodes[i].(last := f.num), f));
    } else {
      QueuedAround(nodes, i, Append(Start(f), f));
      StartKeepsInv(f);
    }
  }

  /** Every fragment is kept by a node or given back, once. */
  lemma StepConserves(nodes: seq<Node>, f: Frag)
    requires NodesOk(nodes) && FragOk(f)
    ensures Queued(Step(nodes, f).0) + multiset(FreedBy(nodes, f)) == Queued(nodes) + multiset{f}
  {
    hide Queued, Collected, Assembled, ToBack, ToFront, Target;
    var t := Target(nodes, f);
    if t.Some? {
      var (nodes', i) := Collected(nodes, f, t.value);
      CollectedConserves(nodes, f, t.value);
      if !f.more {
        QueuedAround(nodes', i, nodes'[i].(queue := []));
      }
    }
  }
}
