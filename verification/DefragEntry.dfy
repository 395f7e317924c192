/** The reassembly entry of WIFI/defrag.c with its loops. */
module DefragEntry {
  import opened Common
  import opened Seqno
  import opened Defrag

  class Entry {
    var nodes: seq<Node>
    var freed: seq<Frag>

    ghost predicate Valid()
      reads this
    {
      EntryInv(nodes) && |nodes| == MAX_DEFRAG_NUM
    }

    constructor ()
      ensures Valid() && nodes == INIT && freed == []
    {
      nodes, freed := INIT, [];
      InitInv();
    }

    /** The search loop of find_defrag_node and init_first_defrag_node. */
    method Search(f: Frag) returns (i: nat)
      ensures i == Lookup(nodes, f)
    {
      i := 0;
      assert nodes[0..] == nodes;
      while i < |nodes| && !SameKey(nodes[i], f)
        invariant i <= |nodes| && Lookup(nodes, f) == i + Lookup(nodes[i..], f)
      {
        assert nodes[i..][1..] == nodes[i + 1..];
        i := i + 1;
      }
    }

    /** The copy loop of defrag_single_data_process. */
    method Copy(q: seq<Frag>) returns (data: seq<Byte>)
      requires q != [] && forall k :: 0 <= k < |q| ==> FragOk(q[k])
      ensures data == Assembled(q)
    {
      assert FragOk(q[0]);
      data := q[0].data[..q[0].offset + q[0].len];
      var k := 1;
      assert q[..1] == [q[0]];
      while k < |q|
        invariant 1 <= k <= |q| && data == Assembled(q[..k])
      {
        var f := q[k];
        assert FragOk(f);
        assert q[..k + 1][..k] == q[..k];
        var fragLen, fragOffset := f.len - Header(f), f.offset + Header(f);
        data := data + f.data[fragOffset..fragOffset + fragLen];
        k := k + 1;
      }
      assert q[..|q|] == q;
    }

    /** get_defrag_node */
    method GetNode(f: Frag) returns (t: Option<nat>)
      requires nodes != []
      ensures t == Target(nodes, f)
    {
      var i := Search(f);
      if f.num > 0 {
        if i < |nodes| && nodes[i].sn == f.sn && nodes[i].last + 1 == f.num {
          return Some(i);
        }
        return None;
      }
      if i < |nodes| {
        return if !Leq(f.sn, nodes[i].sn) then Some(i) else None;
      }
      t := Some(|nodes| - 1);
    }

    /** defrag_data_process: an unfragmented frame passes through, a fragment takes the step. */
    method Process(f: Frag) returns (out: Option<Whole>)
      requires Valid() && FragOk(f)
      modifies this
      ensures Valid()
      ensures f.num == 0 && !f.more ==>
                nodes == old(nodes) && freed == old(freed) && out == Some(Whole(f.len, f.data))
      ensures f.num > 0 || f.more ==>
                (nodes, out) == Step(old(nodes), f) && freed == old(freed) + FreedBy(old(nodes), f)
    {
      hide Lookup, Assembled, NodeInv;
      if f.num == 0 && !f.more {
        return Some(Whole(f.len, f.data));
      }
      StepTheorem(nodes, f);
      out := None;
      var t := GetNode(f);
      if t.None? {
        freed := freed + [f];
        return;
      }
      var i := t.value;
      QueueOk(nodes, f, i);
      if f.num > 0 {
        nodes := nodes[i := Append(nodes[i].(last := f.num), f)];
      } else {
        freed := freed + nodes[i].queue;
        nodes := ToFront(nodes[i := Append(Start(f), f)], i);
        i := 0;
      }
      if !f.more {
        var n := nodes[i];
        var data := Copy(n.queue);
        out := Some(Whole(n.msduLen - n.queue[0].offset, data));
        freed := freed + n.queue;
        nodes := ToBack(nodes[i := n.(queue := [])], i);
      }
    }

    /** sprdwl_defrag_recover, for the station found */
    method Recover(sta: nat)
      requires Valid()
      modifies this
      ensures Valid() && nodes == Purge(old(nodes), sta)
      ensures forall i :: 0 <= i < |nodes| ==>
                nodes[i] == if old(nodes)[i].sta == sta then old(nodes)[i].(queue := []) else old(nodes)[i]
      ensures multiset(freed) + Queued(nodes) == old(multiset(freed) + Queued(nodes))
    {
      hide NodeInv, Queued, ToFront, ToBack;
      ghost var n0 := nodes;
      var i := 0;
      while i < |nodes|
        invariant i <= |nodes| == |n0| && EntryInv(nodes)
        invariant forall k :: 0 <= k < i ==> nodes[k] == Purge(n0, sta)[k]
        invariant forall k :: i <= k < |n0| ==> nodes[k] == n0[k]
        invariant multiset(freed) + Queued(nodes) == old(multiset(freed) + Queued(nodes))
      {
        if nodes[i].sta == sta {
          QueuedAround(nodes, i, nodes[i].(queue := []));
          PurgedInv(nodes[i]);
          freed := freed + nodes[i].queue;
          nodes := nodes[i := nodes[i].(queue := [])];
        }
        i := i + 1;
      }
      assert nodes == Purge(n0, sta);
    }
  }

  lemma PurgedInv(n: Node)
    ensures NodeInv(n.(queue := []))
  {
  }
}
