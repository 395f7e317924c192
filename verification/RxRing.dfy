/** Facts about the power-of-two ring that stores the reorder window. */
module RxRing {
  import opened Common
  import opened Seqno
  import opened BlockAckSession
  import opened BlockAckTheorems
  import BlockAckConservation

  /** struct rx_ba_pkt: a slot is in use when it counts at least one MSDU. */
  datatype Slot = Slot(frames: seq<Skb>, pn: Pn, sn: Seq12, cipher: nat, last: bool, count: nat)

  const EMPTY := Slot([], Pn(0, 0), 0, 0, false, 0)

  /** The sizes get_index_size yields for windows of at most 2048. */
  predicate RingSize(n: int) {
    n in {64, 128, 256, 512, 1024, 2048, 4096}
  }

  /** seq & index_mask, the mask being one less than a power of two. */
  function Index(u: int, n: int): (i: int)
    requires RingSize(n)
    ensures 0 <= i < n
  {
    u % n
  }

  /** What the slot of number `u` holds. */
  function Content(b: Buffer, u: int): Slot {
    if u in b then Slot(b[u].frames, b[u].pn, u % MODULUS, b[u].cipher, b[u].last, b[u].count) else EMPTY
  }

  /** One turn of the ring from `lo` shows the buffer. */
  predicate RingHolds(ring: seq<Slot>, b: Buffer, lo: int) {
    RingSize(|ring|) && forall u :: lo <= u < lo + |ring| ==> ring[Index(u, |ring|)] == Content(b, u)
  }

  lemma NoMultipleBetween(d: int, n: int)
    requires 0 < n && -n < d * n < n
    ensures d == 0
  {
  }

  lemma RemainderUnique(a: int, q: int, r: int, n: int)
    requires 0 <= r < n && a == q * n + r
    ensures a % n == r
  {
    var d := q - a / n;
    assert d * n == q * n - (a / n) * n;
    NoMultipleBetween(d, n);
  }

  lemma RemainderShift(a: int, k: int, n: int)
    requires 0 < n
    ensures (a + k * n) % n == a % n
  {
    assert a + k * n == (a / n + k) * n + a % n;
    RemainderUnique(a + k * n, a / n + k, a % n, n);
  }

  /** The ring size divides 4096, so residues find the slot of the unbounded number. */
  lemma IndexOfResidue(u: int, n: int)
    requires RingSize(n)
    ensures Index(u % MODULUS, n) == Index(u, n)
  {
    var c := if n == 64 then 64 else if n == 128 then 32 else if n == 256 then 16 else if n == 512 then 8
             else if n == 1024 then 4 else if n == 2048 then 2 else 1;
    var q := u / MODULUS;
    assert MODULUS * q == (c * q) * n by {
      assert c * n == MODULUS;
      assert (c * n) * q == (c * q) * n;
    }
    RemainderShift(u % MODULUS, c * q, n);
  }

  lemma IndexInjective(u: int, v: int, n: int)
    requires RingSize(n) && -n < u - v < n && Index(u, n) == Index(v, n)
    ensures u == v
  {
    var d := u / n - v / n;
    assert u - v == d * n;
    NoMultipleBetween(d, n);
  }

  /** The representative of `u` in the turn that starts at `lo`. */
  lemma IndexTurn(u: int, lo: int, n: int) returns (v: int)
    requires RingSize(n) && lo + n <= u
    ensures lo <= v < lo + n && v <= u - n && Index(v, n) == Index(u, n)
  {
    var q := (u - lo) / n;
    v := lo + (u - lo) % n;
    assert u == v + q * n;
    RemainderShift(v, q, n);
    assert 1 <= q;
    assert n <= q * n;
  }

  /** Writing one slot. */
  lemma RingUpdate(ring: seq<Slot>, b: Buffer, lo: int, u: int, c: Buffer)
    requires RingHolds(ring, b, lo) && lo <= u < lo + |ring|
    requires forall v :: v != u ==> (v in b <==> v in c) && (v in b ==> b[v] == c[v])
    ensures RingHolds(ring[Index(u, |ring|) := Content(c, u)], c, lo)
  {
    var n := |ring|;
    var ring' := ring[Index(u, n) := Content(c, u)];
    forall v | lo <= v < lo + n ensures ring'[Index(v, n)] == Content(c, v) {
      if v != u {
        if Index(v, n) == Index(u, n) {
          IndexInjective(v, u, n);
        }
        assert Content(c, v) == Content(b, v);
      }
    }
  }

  /** The window may advance over slots that hold nothing any more. */
  lemma RingShift(ring: seq<Slot>, b: Buffer, lo: int, lo': int)
    requires RingHolds(ring, b, lo) && lo <= lo'
    requires forall u :: u in b ==> lo' <= u < lo + |ring|
    ensures RingHolds(ring, b, lo')
  {
    var n := |ring|;
    forall u | lo' <= u < lo' + n ensures ring[Index(u, n)] == Content(b, u) {
      if lo + n <= u {
        var v := IndexTurn(u, lo, n);
        assert ring[Index(v, n)] == Content(b, v);
      }
    }
  }

  lemma CutBelowStep(b: Buffer, k: int)
    ensures k in b ==> |CutBelow(b, k)| == 1 + |CutBelow(b, k + 1)|
    ensures k !in b ==> CutBelow(b, k + 1) == CutBelow(b, k)
  {
    if k in b {
      assert CutBelow(b, k).Keys == CutBelow(b, k + 1).Keys + {k};
    }
  }

  lemma CutBelowTwice(b: Buffer, lo: int, hi: int)
    requires lo <= hi
    ensures CutBelow(CutBelow(b, lo), hi) == CutBelow(b, hi)
  {
  }

  lemma {:induction false} RunEndUnique(b: Buffer, c: Buffer, from: int, limit: int, limit': int)
    requires forall u :: from <= u ==> (Complete(b, u) <==> Complete(c, u))
    requires forall u :: limit <= u ==> !Complete(b, u)
    requires forall u :: limit' <= u ==> !Complete(c, u)
    ensures RunEnd(b, from, limit) == RunEnd(c, from, limit')
  {
    var e, e' := RunEnd(b, from, limit), RunEnd(c, from, limit');
    assert !Complete(b, e) && !Complete(c, e');
    assert e < e' ==> Complete(c, e);
    assert e' < e ==> Complete(b, e');
  }

  lemma {:induction false} DeliverRangeSplit(b: Buffer, k: Sink, lo: int, mid: int, hi: int)
    requires lo <= mid <= hi
    ensures DeliverRange(b, k, lo, hi) == DeliverRange(CutBelow(b, mid), DeliverRange(b, k, lo, mid), mid, hi)
    decreases hi - mid
  {
    if mid < hi {
      DeliverRangeSplit(b, k, lo, mid, hi - 1);
      hide Deliver;
    }
  }

  lemma MoveToTwice(s: Session, mid: int, e: int)
    requires s.start <= mid <= e
    ensures MoveTo(MoveTo(s, mid), e) == MoveTo(s, e)
  {
    CutBelowTwice(s.buf, mid, e);
    DeliverRangeSplit(s.buf, s.sink, s.start, mid, e);
    hide DeliverRange, CutBelow;
  }

  lemma MoveToHere(s: Session)
    requires WindowInv(s)
    ensures MoveTo(s, s.start) == s
  {
    assert CutBelow(s.buf, s.start) == s.buf;
  }

  /** The run from the head goes on exactly while the head is complete. */
  lemma RunStep(s: Session, k: int)
    requires WindowInv(s) && s.start <= k <= s.start + s.size
    ensures var limit := s.start + s.size;
      && (Complete(MoveTo(s, k).buf, k) ==> k < limit && RunEnd(s.buf, k, limit) == RunEnd(s.buf, k + 1, limit))
      && (!Complete(MoveTo(s, k).buf, k) ==> RunEnd(s.buf, k, limit) == k)
  {
    hide DeliverRange;
  }

  lemma MoveOverEmpty(s: Session)
    requires s.buf == map[]
    ensures MoveTo(s, s.start + 1) == s.(start := s.start + 1)
  {
    assert DeliverRange(s.buf, s.sink, s.start, s.start) == s.sink;
    assert CutBelow(s.buf, s.start + 1) == map[];
  }

  /** Moving over the head releases it if it is buffered. */
  lemma MoveOverHead(s: Session)
    requires WindowInv(s)
    ensures var s' := MoveTo(s, s.start + 1);
      && WindowInv(s')
      && s'.sink == (if s.start in s.buf then Deliver(s.sink, s.start, s.buf[s.start]) else s.sink)
      && |s'.buf| == |s.buf| - (if s.start in s.buf then 1 else 0)
  {
    assert DeliverRange(s.buf, s.sink, s.start, s.start) == s.sink;
    assert CutBelow(s.buf, s.start) == s.buf;
    CutBelowStep(s.buf, s.start);
    MoveToKeepsWindow(s, s.start + 1);
    hide Deliver;
  }

  lemma RingOverHead(ring: seq<Slot>, s: Session)
    requires WindowInv(s) && RingHolds(ring, s.buf, s.start) && s.size <= |ring|
    ensures RingHolds(ring[Index(s.start, |ring|) := EMPTY], CutBelow(s.buf, s.start + 1), s.start + 1)
    ensures s.start !in s.buf ==> RingHolds(ring, CutBelow(s.buf, s.start + 1), s.start + 1)
  {
    var c := CutBelow(s.buf, s.start + 1);
    var ring' := ring[Index(s.start, |ring|) := EMPTY];
    RingUpdate(ring, s.buf, s.start, s.start, c);
    assert Content(c, s.start) == EMPTY;
    RingShift(ring', c, s.start, s.start + 1);
    if s.start !in s.buf {
      assert c == s.buf;
      RingShift(ring, c, s.start, s.start + 1);
    }
    hide RingHolds;
  }

  /** A counter that runs past 4095 finds the same slot as the number it stands for. */
  lemma IndexOfCounter(sn: int, u: int, n: int)
    requires RingSize(n) && sn % MODULUS == u % MODULUS
    ensures Index(sn, n) == Index(u, n)
  {
    IndexOfResidue(sn, n);
    IndexOfResidue(u, n);
  }

  /** Flushing to `to` and then draining is one move of the window. */
  lemma AdvanceInTwo(s: Session, to: int)
    requires WindowInv(s) && s.start <= to
    ensures Drain(MoveTo(s, to)) == Advance(s, to)
  {
    var s1 := MoveTo(s, to);
    MoveToKeepsWindow(s, to);
    RunEndUnique(s.buf, s1.buf, to, s.start + s.size, to + s.size);
    MoveToTwice(s, to, RunEnd(s.buf, to, s.start + s.size));
    hide DeliverRange, CutBelow;
  }

  /** The buffers of an output list, in order. */
  function Flat(out: seq<Output>): seq<Skb> {
    if out == [] then []
    else Flat(out[..|out| - 1]) + (match out[|out| - 1] case Released(_, m) => m.frames case Bypassed(skb) => [skb])
  }

  lemma FlatPush(out: seq<Output>, o: Output)
    ensures Flat(out + [o]) == Flat(out) + (match o case Released(_, m) => m.frames case Bypassed(skb) => [skb])
  {
    assert (out + [o])[..|out|] == out;
  }

  // ---------------------------------------------------------------------
  // The timeout scan

  /** The driver's test on win_tail ends the scan at ScanEnd. */
  lemma ScanTest(s: Session, k: int)
    requires s.start <= k <= ScanEnd(s)
    ensures Leq(k % MODULUS, s.tail) <==> k < ScanEnd(s)
  {
    if Leq(s.start % MODULUS, s.tail) {
      var t := ScanEnd(s) - 1;
      assert t % MODULUS == s.tail;
      LeqIsOrder(k, t);
    }
  }

  /** The scan may run past the ring; slots seen again were not complete before. */
  lemma ScanSlot(ring: seq<Slot>, s: Session, k: int)
    requires WindowInv(s) && RingHolds(ring, s.buf, s.start) && s.size <= |ring| && s.start <= k
    requires forall v :: s.start <= v < k ==> !Complete(s.buf, v)
    ensures ring[Index(k, |ring|)].last <==> Complete(s.buf, k)
  {
    if k < s.start + |ring| {
      assert ring[Index(k, |ring|)] == Content(s.buf, k);
    } else {
      var v := IndexTurn(k, s.start, |ring|);
      assert ring[Index(v, |ring|)] == Content(s.buf, v) && !Complete(s.buf, v);
    }
  }

  lemma FirstStep(b: Buffer, k: int, end: int)
    requires k <= end
    ensures k < end && !Complete(b, k) ==> FirstComplete(b, k, end) == FirstComplete(b, k + 1, end)
    ensures k == end || Complete(b, k) ==> FirstComplete(b, k, end) == k
  {
  }

  // ---------------------------------------------------------------------
  // Everything the ring holds

  function RingFrames(ring: seq<Slot>): multiset<Skb> {
    if ring == [] then multiset{} else RingFrames(ring[..|ring| - 1]) + multiset(ring[|ring| - 1].frames)
  }

  lemma RingFramesStep(ring: seq<Slot>, i: nat)
    requires i < |ring|
    ensures RingFrames(ring[..0]) == multiset{} && RingFrames(ring[..|ring|]) == RingFrames(ring)
    ensures RingFrames(ring[..i + 1]) == RingFrames(ring[..i]) + multiset(ring[i].frames)
  {
    assert ring[..i + 1][..i] == ring[..i] && ring[..|ring|] == ring;
  }

  lemma {:induction false} RingFramesUpdate(ring: seq<Slot>, i: int, slot: Slot, x: Skb)
    requires 0 <= i < |ring|
    ensures RingFrames(ring)[x] + multiset(slot.frames)[x]
         == RingFrames(ring[i := slot])[x] + multiset(ring[i].frames)[x]
  {
    var rest := ring[..|ring| - 1];
    if i == |ring| - 1 {
      assert ring[i := slot][..|ring| - 1] == rest;
    } else {
      RingFramesUpdate(rest, i, slot, x);
      assert ring[i := slot][..|ring| - 1] == rest[i := slot];
    }
  }

  lemma {:induction false} RingFramesEmpty(ring: seq<Slot>)
    requires forall i :: 0 <= i < |ring| ==> ring[i] == EMPTY
    ensures RingFrames(ring) == multiset{}
  {
    if ring != [] {
      RingFramesEmpty(ring[..|ring| - 1]);
    }
  }

  lemma AllEmpty(ring: seq<Slot>, lo: int, i: int)
    requires RingHolds(ring, map[], lo) && 0 <= i < |ring|
    ensures ring[i] == EMPTY
  {
    var n := |ring|;
    var u := lo + (i - lo) % n;
    assert u == i + (-((i - lo) / n)) * n;
    RemainderShift(i, -((i - lo) / n), n);
    RemainderUnique(i, 0, i, n);
    assert ring[Index(u, n)] == Content(map[], u);
  }

  /** Slot by slot or number by number, the ring holds the same buffers. */
  lemma {:induction false} RingFramesHeld(ring: seq<Slot>, b: Buffer, lo: int, hi: int, x: Skb)
    requires lo <= hi <= lo + |ring| && RingHolds(ring, b, lo) && forall u :: u in b ==> lo <= u < hi
    ensures RingFrames(ring)[x] == HeldIn(b, lo, hi)[x]
    decreases hi - lo
  {
    if lo == hi {
      KeysBound(b.Keys, lo, hi);
      assert b == map[];
      forall i | 0 <= i < |ring| ensures ring[i] == EMPTY {
        AllEmpty(ring, lo, i);
      }
      RingFramesEmpty(ring);
    } else {
      var i, c := Index(lo, |ring|), CutBelow(b, lo + 1);
      assert ring[i] == Content(b, lo);
      RingUpdate(ring, b, lo, lo, c);
      var ring' := ring[i := EMPTY];
      assert Content(c, lo) == EMPTY;
      RingShift(ring', c, lo, lo + 1);
      RingFramesHeld(ring', c, lo + 1, hi, x);
      RingFramesUpdate(ring, i, EMPTY, x);
      HeldFirst(b, lo, hi, x);
      hide RingHolds, RingFrames, HeldIn;
    }
  }

  lemma RingFramesAreHeld(ring: seq<Slot>, s: Session)
    requires WindowInv(s) && RingHolds(ring, s.buf, s.start) && s.size <= |ring|
    ensures RingFrames(ring) == Held(s)
  {
    hide RingFrames, HeldIn, RingHolds;
    forall x: Skb ensures RingFrames(ring)[x] == Held(s)[x] {
      RingFramesHeld(ring, s.buf, s.start, s.start + s.size, x);
    }
  }

  lemma HeldFirst(b: Buffer, lo: int, hi: int, x: Skb)
    requires lo < hi
    ensures HeldIn(b, lo, hi)[x] == multiset(Content(b, lo).frames)[x] + HeldIn(CutBelow(b, lo + 1), lo + 1, hi)[x]
  {
    BlockAckConservation.HeldSplit(b, lo, lo + 1, hi, x);
    assert HeldIn(b, lo, lo) == multiset{};
    BlockAckConservation.HeldSame(b, CutBelow(b, lo + 1), lo + 1, hi);
  }

  /** Writing the slot of `u` with what insert_msdu makes of it. */
  lemma RingInsert(ring: seq<Slot>, s: Session, u: int, m: Msdu, skb: Option<Skb>)
    requires WindowInv(s) && RingHolds(ring, s.buf, s.start) && s.size <= |ring| && s.start <= u < s.start + s.size
    ensures var c := Inserted(s.buf, u, m, skb);
      RingHolds(ring[Index(u, |ring|) := Content(c, u)], c, s.start)
    ensures |Inserted(s.buf, u, m, skb)| == |s.buf| + if u in s.buf then 0 else 1
  {
    var c := Inserted(s.buf, u, m, skb);
    RingUpdate(ring, s.buf, s.start, u, c);
    assert c.Keys == s.buf.Keys + {u};
  }

  // ---------------------------------------------------------------------
  // Occupied slots

  /** The slots in use. */
  function Occupied(ring: seq<Slot>): set<int> {
    set i | 0 <= i < |ring| && ring[i].count != 0
  }

  /** The slots of the numbers below `hi`. */
  function Indices(b: Buffer, lo: int, hi: int, n: int): set<int>
    requires RingSize(n)
  {
    set u | lo <= u < hi && u in b :: Index(u, n)
  }

  lemma IndicesStep(b: Buffer, lo: int, k: int, n: int)
    requires RingSize(n) && lo <= k < lo + n
    ensures var before, after := Indices(b, lo, k, n), Indices(b, lo, k + 1, n);
      if k in b then Index(k, n) !in before && after == before + {Index(k, n)} else after == before
  {
    hide Index, RingSize;
    if Index(k, n) in Indices(b, lo, k, n) {
      var v :| lo <= v < k && v in b && Index(v, n) == Index(k, n);
      IndexInjective(k, v, n);
    }
  }

  /** Numbers less than a turn apart use different slots. */
  lemma {:induction false} IndicesCount(b: Buffer, lo: int, hi: int, n: int)
    requires RingSize(n) && lo <= hi <= lo + n && forall u :: u in b ==> lo <= u
    ensures |Indices(b, lo, hi, n)| == |b| - |CutBelow(b, hi)|
    decreases hi - lo
  {
    hide Index, RingSize, CutBelow;
    if lo == hi {
      assert CutBelow(b, hi) == b by {
        CutNothing(b, hi);
      }
    } else {
      IndicesCount(b, lo, hi - 1, n);
      CutBelowStep(b, hi - 1);
      IndicesStep(b, lo, hi - 1, n);
    }
  }

  lemma CutNothing(b: Buffer, lo: int)
    requires forall u :: u in b ==> lo <= u
    ensures CutBelow(b, lo) == b
  {
  }

  /** Every slot belongs to one number of the turn that starts at `lo`. */
  lemma SlotOwner(lo: int, i: int, n: int) returns (u: int)
    requires RingSize(n) && 0 <= i < n
    ensures lo <= u < lo + n && Index(u, n) == i
  {
    var q := (i - lo) / n;
    u := lo + (i - lo) % n;
    assert u == i + (-q) * n;
    RemainderShift(i, -q, n);
    RemainderUnique(i, 0, i, n);
  }

  /** An occupied slot `i` carries a sequence number inside the window that the mask maps to `i`. */
  lemma OccupiedInWindow(ring: seq<Slot>, s: Session, i: int)
    requires WindowInv(s) && RingHolds(ring, s.buf, s.start) && i in Occupied(ring)
    ensures Sub(ring[i].sn, s.start % MODULUS) < s.size && Index(ring[i].sn, |ring|) == i
    ensures exists u :: u in s.buf && Index(u, |ring|) == i
  {
    var u := SlotOwner(s.start, i, |ring|);
    assert ring[i] == Content(s.buf, u) && u in s.buf;
    SubIsDistance(s.start, u);
    IndexOfResidue(u, |ring|);
  }

  /** There are as many occupied slots as buffered MPDUs. */
  lemma OccupiedCount(ring: seq<Slot>, s: Session)
    requires WindowInv(s) && RingHolds(ring, s.buf, s.start) && s.size <= |ring|
    ensures |Occupied(ring)| == |s.buf|
  {
    var n, hi := |ring|, s.start + s.size;
    IndicesCount(s.buf, s.start, hi, n);
    assert CutBelow(s.buf, hi) == map[];
    forall i | i in Occupied(ring) ensures i in Indices(s.buf, s.start, hi, n) {
      OccupiedInWindow(ring, s, i);
    }
    forall i | i in Indices(s.buf, s.start, hi, n) ensures i in Occupied(ring) {
      var u :| s.start <= u < hi && u in s.buf && Index(u, n) == i;
      assert ring[Index(u, n)] == Content(s.buf, u);
    }
    assert Occupied(ring) == Indices(s.buf, s.start, hi, n);
  }

  // ---------------------------------------------------------------------
  // The driver's comparisons on the window fields

  /** seqno_leq(seq, win_limit) fails exactly for a frame beyond the window. */
  lemma LimitTest(start: int, size: nat, sn: Seq12)
    requires 1 <= size < HALF && start <= Unwrap(start, sn)
    ensures Leq(sn, Add(start, size - 1)) <==> Unwrap(start, sn) < start + size
  {
    var u := Unwrap(start, sn);
    LeqIsOrder(u, start + size - 1);
    LeqIsOrder(start, u);
  }

  lemma SlideWindow(start: int, size: nat)
    ensures Add(start % MODULUS, 1) == (start + 1) % MODULUS
    ensures Add(Add(start, size - 1), 1) == Add(start + 1, size - 1)
    ensures Sub((start + 1) % MODULUS, 1) == Sub(start + 1, 1)
  {
    AddResidue(start, 1);
    AddResidue(start + size - 1, 1);
    AddResidue(start + 1, -1);
  }

  /** Room for `u` starts at SEQNO_SUB(seq, win_size - 1). */
  lemma RoomStart(u: int, size: nat)
    ensures Sub(u % MODULUS, size - 1) == (u - size + 1) % MODULUS
  {
  }
}
