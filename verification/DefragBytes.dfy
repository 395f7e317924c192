/** Which bytes a reassembled MSDU is made of (WIFI/defrag.c), stated of the received buffers. */
module DefragBytes {
  import opened Common
  import opened Defrag
  import opened DefragNodes
  import opened DefragRoundTrip

  /** The Ethernet header in front of a fragment: 14 bytes, or 12 without a SNAP header. */
  function HeaderSize(f: Frag): nat {
    if f.snap then 14 else 12
  }

  /** The number of bytes a fragment adds: the first one all up to its end, a later one its payload. */
  function Adds(q: seq<Frag>, k: nat): int
    requires k < |q|
  {
    if k == 0 then q[0].offset + q[0].len else q[k].len - HeaderSize(q[k])
  }

  /** Where the bytes of fragment `k` begin. */
  function Before(q: seq<Frag>, k: nat): int
    requires k <= |q|
  {
    if k == 0 then 0 else Before(q, k - 1) + Adds(q, k - 1)
  }

  /** Where the bytes that fragment `k` adds stand in its buffer. */
  function Source(q: seq<Frag>, k: nat): int
    requires k < |q|
  {
    if k == 0 then 0 else q[k].offset + HeaderSize(q[k])
  }

  predicate AllOk(q: seq<Frag>) {
    q != [] && forall k :: 0 <= k < |q| ==> FragOk(q[k])
  }

  lemma {:induction false} BeforePrefix(q: seq<Frag>, n: nat, k: nat)
    requires k <= n <= |q|
    ensures Before(q[..n], k) == Before(q, k)
    decreases k
  {
    if k > 0 {
      BeforePrefix(q, n, k - 1);
    }
  }

  lemma {:induction false} BeforeAll(q: seq<Frag>)
    requires AllOk(q)
    ensures Before(q, |q|) == |Assembled(q)|
    decreases |q|
  {
    var n := |q| - 1;
    assert FragOk(q[n]);
    if n > 0 {
      BeforeAll(q[..n]);
      BeforePrefix(q, n, n);
    } else {
      assert Before(q, 0) == 0;
    }
  }

  /** The bytes of fragment `k`, one by one. */
  lemma {:induction false} ByteAt(q: seq<Frag>, k: nat, i: nat)
    requires AllOk(q) && k < |q| && i < Adds(q, k)
    ensures 0 <= Before(q, k) && Before(q, k) + i < |Assembled(q)|
    ensures 0 <= Source(q, k) + i < |q[k].data|
    ensures Assembled(q)[Before(q, k) + i] == q[k].data[Source(q, k) + i]
    decreases |q|
  {
    var n := |q| - 1;
    assert FragOk(q[k]) && FragOk(q[n]);
    if n > 0 {
      BeforeAll(q[..n]);
      BeforePrefix(q, n, n);
      if k < n {
        BeforePrefix(q, n, k);
        ByteAt(q[..n], k, i);
        assert q[..n][k] == q[k];
      }
    }
  }

  // ---------------------------------------------------------------------
  // Payload round trip

  function Concat(parts: seq<seq<Byte>>): seq<Byte> {
    if parts == [] then [] else Concat(parts[..|parts| - 1]) + parts[|parts| - 1]
  }

  /** The part stands behind the fragment's Ethernet header, which starts at its offset, up to its end. */
  predicate CarriesPart(f: Frag, part: seq<Byte>) {
    && FragOk(f) && |part| == f.len - HeaderSize(f)
    && part == f.data[f.offset + HeaderSize(f)..f.offset + f.len]
  }

  /** The fragments carry the parts of a payload; `head` is what the first one has before its part. */
  predicate Carries(q: seq<Frag>, head: seq<Byte>, parts: seq<seq<Byte>>) {
    && q != [] && |parts| == |q| && (forall k :: 0 <= k < |q| ==> CarriesPart(q[k], parts[k]))
    && head == q[0].data[..q[0].offset + HeaderSize(q[0])]
  }

  lemma CarriesFewer(q: seq<Frag>, head: seq<Byte>, parts: seq<seq<Byte>>, n: nat)
    requires Carries(q, head, parts) && 0 < n <= |q|
    ensures Carries(q[..n], head, parts[..n])
  {
    hide CarriesPart;
    assert CarriesPart(q[0], parts[0]);
    assert forall k :: 0 <= k < n ==> q[..n][k] == q[k] && parts[..n][k] == parts[k];
    HeadFits(q[0], parts[0]);
  }

  lemma HeadFits(f: Frag, part: seq<Byte>)
    requires CarriesPart(f, part)
    ensures f.offset + HeaderSize(f) <= f.offset + f.len <= |f.data| && FragOk(f)
  {
  }

  lemma CarriesOk(q: seq<Frag>, head: seq<Byte>, parts: seq<seq<Byte>>)
    requires Carries(q, head, parts)
    ensures AllOk(q)
  {
    forall k | 0 <= k < |q| ensures FragOk(q[k]) {
      assert CarriesPart(q[k], parts[k]);
    }
  }

  lemma PartIsPayload(f: Frag, part: seq<Byte>)
    requires CarriesPart(f, part)
    ensures Payload(f) == part
  {
  }

  lemma FirstCarries(f: Frag, head: seq<Byte>, part: seq<Byte>)
    requires CarriesPart(f, part) && head == f.data[..f.offset + HeaderSize(f)]
    ensures f.data[..f.offset + f.len] == head + part
  {
  }

  lemma ConcatLast(parts: seq<seq<Byte>>)
    requires parts != []
    ensures Concat(parts) == Concat(parts[..|parts| - 1]) + parts[|parts| - 1]
    ensures |parts| == 1 ==> Concat(parts) == parts[0]
  {
    if |parts| == 1 {
      assert parts[..0] == [] && Concat([]) == [] && [] + parts[0] == parts[0];
    }
  }

  lemma AssembledLast(q: seq<Frag>)
    requires AllOk(q)
    ensures |q| == 1 ==> Assembled(q) == q[0].data[..q[0].offset + q[0].len]
    ensures |q| > 1 ==> Assembled(q) == Assembled(q[..|q| - 1]) + Payload(q[|q| - 1])
  {
  }

  /** Reassembling the parts gives the payload back, behind the first fragment's head. */
  lemma {:induction false} CutAndJoin(q: seq<Frag>, head: seq<Byte>, parts: seq<seq<Byte>>)
    requires Carries(q, head, parts)
    ensures AllOk(q) && Assembled(q) == head + Concat(parts)
    decreases |q|
  {
    hide Concat, Assembled, CarriesPart, AllOk, HeaderSize, Payload;
    var n := |q| - 1;
    CarriesOk(q, head, parts);
    AssembledLast(q);
    ConcatLast(parts);
    assert CarriesPart(q[n], parts[n]);
    if n == 0 {
      FirstCarries(q[0], head, parts[0]);
    } else {
      CarriesFewer(q, head, parts, n);
      CutAndJoin(q[..n], head, parts[..n]);
      PartIsPayload(q[n], parts[n]);
      Associates(head, Concat(parts[..n]), parts[n]);
    }
  }

  lemma Associates(a: seq<Byte>, b: seq<Byte>, c: seq<Byte>)
    ensures a + b + c == a + (b + c)
  {
  }

  /** A payload cut into a train of fragments comes out as that payload, behind the first fragment's head
      and with its length, whatever other fragments come between, while at most three MSDUs are
      open. */
  lemma {:induction false} PayloadRoundTrip(nodes: seq<Node>, es: seq<Event>, q: seq<Frag>,
                                            head: seq<Byte>, parts: seq<seq<Byte>>)
    requires EntryInv(nodes) && EventsOk(es) && OpenFirst(nodes) && Train(q) && 1 < |q| && Target(nodes, q[0]).Some?
    requires es != [] && es[0] == Fragment(q[0]) && Mine(es, q[0]) == q[..|q| - 1]
    requires forall k :: 0 <= k < |es| ==> es[k] != Recover(q[0].sta)
    requires OrderlyRun(nodes, es) && Uncrowded(After(nodes, es[0]), es[1..])
    requires Carries(q, head, parts)
    ensures Step(Run(nodes, es), q[|q| - 1]).1
         == Some(Whole(|head| + |Concat(parts)| - q[0].offset, head + Concat(parts)))
  {
    hide Carries, Step, Run, Uncrowded, OrderlyRun, OpenFirst, EntryInv, Assembled, Expected, Target, After;
    InterleavedRoundTrip(nodes, es, q);
    CutAndJoin(q, head, parts);
    AssembledLength(q);
  }
}
