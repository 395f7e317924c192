/** Release order: MPDUs leave the window in strictly increasing sequence order. */
module BlockAckOrder {
  import opened Common
  import opened Seqno
  import opened BlockAckSession
  import opened BlockAckTheorems

  /** Window releases are strictly increasing, all below `bound`. */
  predicate LogOrdered(out: seq<Output>, bound: int) {
    && (forall i, j :: 0 <= i < j < |out| && out[i].Released? && out[j].Released? ==> out[i].sn < out[j].sn)
    && (forall i :: 0 <= i < |out| && out[i].Released? ==> out[i].sn < bound)
  }

  lemma {:induction false} DeliverRangeOrdered(b: Buffer, k: Sink, lo: int, hi: int)
    requires lo <= hi && LogOrdered(k.out, lo)
    ensures LogOrdered(DeliverRange(b, k, lo, hi).out, hi)
    decreases hi - lo
  {
    if lo < hi {
      DeliverRangeOrdered(b, k, lo, hi - 1);
    }
  }

  lemma MoveToOrdered(s: Session, e: int)
    requires s.start <= e && LogOrdered(s.sink.out, s.start)
    ensures LogOrdered(MoveTo(s, e).sink.out, e)
  {
    DeliverRangeOrdered(s.buf, s.sink, s.start, e);
  }

  predicate OrderInv(s: Session) {
    LogOrdered(s.sink.out, s.start)
  }

  lemma MakeRoomOrdered(s: Session, u: int)
    requires WindowInv(s) && OrderInv(s) && s.start <= u
    ensures OrderInv(MakeRoom(s, u))
  {
    if s.start + s.size <= u {
      MoveToOrdered(s, RunEnd(s.buf, u - s.size + 1, s.start + s.size));
    }
  }

  lemma SettleOrdered(s: Session, before: int, u: int, last: bool)
    requires OrderInv(s)
    ensures OrderInv(Settle(s, before, u, last))
  {
    hide LogOrdered;
    MoveToOrdered(s, RunEnd(s.buf, s.start, s.start + s.size));
  }

  lemma InWindowOrdered(s: Session, m: Msdu, skb: Option<Skb>)
    requires WindowInv(s) && OrderInv(s) && Geq(m.sn, s.start % MODULUS)
    ensures OrderInv(InWindow(s, m, skb))
  {
    var u := Unwrap(s.start, m.sn);
    var s0 := s.(init := 0);
    MakeRoomOrdered(s0, u);
    SettleOrdered(Insert(MakeRoom(s0, u), u, m, skb), s.start, u, m.last);
  }

  lemma TimeoutOrdered(s: Session)
    requires OrderInv(s)
    ensures OrderInv(Timeout(s))
  {
    hide LogOrdered;
    var s0 := s.(due := false, init := 0);
    MoveToOrdered(s0, RunEnd(s.buf, FirstComplete(s.buf, s.start, ScanEnd(s)), s.start + s.size));
  }

  lemma PushOrdered(out: seq<Output>, o: Output, lo: int, hi: int)
    requires LogOrdered(out, lo) && lo <= hi && (o.Released? ==> lo <= o.sn < hi)
    ensures LogOrdered(out, hi) && LogOrdered(out + [o], hi)
  {
  }

  lemma ReceiveOrdered(s: Session, m: Msdu, skb: Option<Skb>)
    requires WindowInv(s) && OrderInv(s) && Enabled(s, Receive(m, skb))
    ensures OrderInv(Arrive(s, m, skb))
  {
    hide LogOrdered, InWindow, Single, Frames;
    PushOrdered(s.sink.out, Released(s.start, Single(m, skb)), s.start, s.start + 1);
    if skb.Some? {
      PushOrdered(s.sink.out, Bypassed(skb.value), s.start, s.start);
    }
    if Geq(m.sn, s.start % MODULUS) {
      InWindowOrdered(s, m, skb);
    }
  }

  lemma StepOrdered(s: Session, e: Event)
    requires SessionInv(s) && Enabled(s, e) && OrderInv(s)
    ensures OrderInv(Step(s, e))
  {
    hide LogOrdered, Arrive, Timeout;
    match e {
      case Receive(m, skb) => ReceiveOrdered(s, m, skb);
      case TimerCallback => TimeoutOrdered(s);
      case DeleteSession(drain) =>
        var s0 := s.(armed := false, due := false, deleted := true);
        MoveToOrdered(s0, RunEnd(s.buf, s.start, s.start + s.size));
      case _ =>
    }
  }

  lemma {:induction false} RunOrdered(s: Session, es: seq<Event>)
    requires SessionInv(s) && EnabledRun(s, es) && OrderInv(s)
    ensures OrderInv(Run(s, es))
    decreases |es|
  {
    if es != [] {
      StepOrdered(s, es[0]);
      StepKeepsInv(s, es[0]);
      RunOrdered(Step(s, es[0]), es[1..]);
    }
  }

  /** Over every run the MPDUs released from the window have strictly increasing unbounded
      sequence numbers: none is reordered and none comes out twice. */
  lemma InOrderTheorem(start: Seq12, size: nat, es: seq<Event>)
    requires 1 <= size < HALF && EnabledRun(Fresh(start, size), es)
    ensures var out := Run(Fresh(start, size), es).sink.out;
      forall i, j :: 0 <= i < j < |out| && out[i].Released? && out[j].Released? ==> out[i].sn < out[j].sn
  {
    RunOrdered(Fresh(start, size), es);
  }
}
