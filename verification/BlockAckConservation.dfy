/** No buffer is lost or duplicated: every buffer given to a session is passed up, freed or
    held, and nothing else is. */
module BlockAckConservation {
  import opened Common
  import opened Seqno
  import opened BlockAckSession
  import opened BlockAckTheorems

  function Skbs(o: Output): multiset<Skb> {
    match o
    case Released(_, m) => multiset(m.frames)
    case Bypassed(skb) => multiset{skb}
  }

  function Passed(out: seq<Output>): multiset<Skb> {
    if out == [] then multiset{} else Passed(out[..|out| - 1]) + Skbs(out[|out| - 1])
  }

  function SinkTotal(k: Sink): multiset<Skb> {
    Passed(k.out) + k.freed
  }

  function Total(s: Session): multiset<Skb> {
    SinkTotal(s.sink) + Held(s) + s.leaked
  }

  // The lemmas count one buffer `x` at a time.

  lemma SameTotal(s: Session, s': Session)
    requires s'.buf == s.buf && s'.start == s.start && s'.size == s.size && s'.sink == s.sink && s'.leaked == s.leaked
    ensures Total(s') == Total(s)
  {
  }

  lemma PassedPush(out: seq<Output>, o: Output)
    ensures Passed(out + [o]) == Passed(out) + Skbs(o)
  {
    assert (out + [o])[..|out|] == out;
  }

  lemma DeliverConserves(k: Sink, u: int, m: Mpdu, x: Skb)
    ensures SinkTotal(Deliver(k, u, m))[x] == SinkTotal(k)[x] + multiset(m.frames)[x]
  {
    PassedPush(k.out, Released(u, m));
    hide Passed;
  }

  lemma {:induction false} DeliverRangeConserves(b: Buffer, k: Sink, lo: int, hi: int, x: Skb)
    ensures SinkTotal(DeliverRange(b, k, lo, hi))[x] == SinkTotal(k)[x] + HeldIn(b, lo, hi)[x]
    decreases hi - lo
  {
    if lo < hi {
      DeliverRangeConserves(b, k, lo, hi - 1, x);
      if hi - 1 in b {
        DeliverConserves(DeliverRange(b, k, lo, hi - 1), hi - 1, b[hi - 1], x);
      }
      hide SinkTotal, Deliver;
    }
  }

  lemma {:induction false} HeldSplit(b: Buffer, lo: int, mid: int, hi: int, x: Skb)
    requires lo <= mid <= hi
    ensures HeldIn(b, lo, hi)[x] == HeldIn(b, lo, mid)[x] + HeldIn(b, mid, hi)[x]
    decreases hi - mid
  {
    if mid < hi {
      HeldSplit(b, lo, mid, hi - 1, x);
    }
  }

  lemma {:induction false} HeldSame(b: Buffer, c: Buffer, lo: int, hi: int)
    requires forall u :: lo <= u < hi ==> (u in b <==> u in c) && (u in b ==> b[u] == c[u])
    ensures HeldIn(b, lo, hi) == HeldIn(c, lo, hi)
    decreases hi - lo
  {
    if lo < hi {
      HeldSame(b, c, lo, hi - 1);
    }
  }

  lemma {:induction false} HeldNone(b: Buffer, lo: int, hi: int)
    requires forall u :: lo <= u < hi ==> u !in b
    ensures HeldIn(b, lo, hi) == multiset{}
    decreases hi - lo
  {
    if lo < hi {
      HeldNone(b, lo, hi - 1);
    }
  }

  lemma CutHeld(b: Buffer, lo: int, top: int, e: int, n: nat, x: Skb)
    requires lo <= e && lo <= top && top <= e + n && forall u :: u in b ==> lo <= u < top
    ensures HeldIn(b, lo, top)[x] == HeldIn(b, lo, e)[x] + HeldIn(CutBelow(b, e), e, e + n)[x]
  {
    hide HeldIn;
    var c := CutBelow(b, e);
    if e <= top {
      HeldSplit(b, lo, e, top, x);
      HeldSame(b, c, e, top);
      HeldSplit(c, e, top, e + n, x);
      HeldNone(c, top, e + n);
    } else {
      HeldSplit(b, lo, top, e, x);
      HeldNone(b, top, e);
      HeldNone(c, e, e + n);
    }
  }

  lemma MoveToConserves(s: Session, e: int, x: Skb)
    requires WindowInv(s) && s.start <= e
    ensures Total(MoveTo(s, e))[x] == Total(s)[x]
  {
    hide HeldIn, DeliverRange, Passed, CutBelow;
    DeliverRangeConserves(s.buf, s.sink, s.start, e, x);
    CutHeld(s.buf, s.start, s.start + s.size, e, s.size, x);
  }

  lemma EntryConserves(b: Buffer, u: int, m: Msdu, skb: Option<Skb>)
    ensures HeldIn(Inserted(b, u, m, skb), u, u + 1) == HeldIn(b, u, u + 1) + multiset(Frames(skb))
  {
    var c := Inserted(b, u, m, skb);
    assert HeldIn(b, u, u) == multiset{} && HeldIn(c, u, u) == multiset{};
    if u in b {
      assert c[u].frames == b[u].frames + Frames(skb);
    }
  }

  lemma HeldAround(b: Buffer, lo: int, u: int, top: int, x: Skb)
    requires lo <= u < top
    ensures HeldIn(b, lo, top)[x] == HeldIn(b, lo, u)[x] + HeldIn(b, u, u + 1)[x] + HeldIn(b, u + 1, top)[x]
  {
    HeldSplit(b, lo, u, top, x);
    HeldSplit(b, u, u + 1, top, x);
    hide HeldIn;
  }

  lemma InsertedHeld(b: Buffer, lo: int, top: int, u: int, m: Msdu, skb: Option<Skb>, x: Skb)
    requires lo <= u < top
    ensures HeldIn(Inserted(b, u, m, skb), lo, top)[x] == HeldIn(b, lo, top)[x] + multiset(Frames(skb))[x]
  {
    hide HeldIn, Join, Single, Frames;
    var c := Inserted(b, u, m, skb);
    HeldAround(b, lo, u, top, x);
    HeldAround(c, lo, u, top, x);
    HeldSame(b, c, lo, u);
    HeldSame(b, c, u + 1, top);
    EntryConserves(b, u, m, skb);
  }

  lemma InsertConserves(s: Session, u: int, m: Msdu, skb: Option<Skb>, x: Skb)
    requires s.start <= u < s.start + s.size
    ensures Total(Insert(s, u, m, skb))[x] == Total(s)[x] + multiset(Frames(skb))[x]
  {
    hide HeldIn, SinkTotal, Inserted;
    InsertedHeld(s.buf, s.start, s.start + s.size, u, m, skb, x);
  }

  lemma SettleConserves(s: Session, before: int, u: int, last: bool, x: Skb)
    requires WindowInv(s)
    ensures Total(Settle(s, before, u, last))[x] == Total(s)[x]
  {
    hide Total, MoveTo;
    MoveToConserves(s, RunEnd(s.buf, s.start, s.start + s.size), x);
    SameTotal(if last && u == s.start then Drain(s) else s, Settle(s, before, u, last));
  }

  lemma MakeRoomConserves(s: Session, u: int, x: Skb)
    requires WindowInv(s) && s.start <= u
    ensures Total(MakeRoom(s, u))[x] == Total(s)[x]
  {
    hide HeldIn, SinkTotal, MoveTo;
    if s.start + s.size <= u {
      MoveToConserves(s, RunEnd(s.buf, u - s.size + 1, s.start + s.size), x);
    }
  }

  lemma RejectConserves(s: Session, skb: Option<Skb>, x: Skb)
    ensures Total(Reject(s, skb))[x] == Total(s)[x] + multiset(Frames(skb))[x]
  {
    hide HeldIn, Passed;
  }

  lemma BypassConserves(s: Session, skb: Option<Skb>, x: Skb)
    requires skb.Some?
    ensures Total(Bypass(s, skb))[x] == Total(s)[x] + multiset(Frames(skb))[x]
  {
    PassedPush(s.sink.out, Bypassed(skb.value));
    hide HeldIn, Passed;
  }

  lemma InWindowConserves(s: Session, m: Msdu, skb: Option<Skb>, x: Skb)
    requires SessionInv(s) && s.active && Enabled(s, Receive(m, skb)) && Geq(m.sn, s.start % MODULUS)
    ensures Total(InWindow(s, m, skb))[x] == Total(s)[x] + multiset(Frames(skb))[x]
  {
    hide Total, MakeRoom, Settle, Insert, Reject;
    var u := Unwrap(s.start, m.sn);
    var s0 := s.(init := 0);
    var s1 := MakeRoom(s0, u);
    MakeRoomKeepsWindow(s0, u);
    MakeRoomConserves(s0, u, x);
    if CanInsert(s1.buf, u, m) {
      InsertConserves(s1, u, m, skb, x);
      InsertKeepsWindow(s1, u, m, skb);
      SettleConserves(Insert(s1, u, m, skb), s.start, u, m.last, x);
    } else {
      RejectConserves(s1, skb, x);
    }
    SameTotal(s, s0);
  }

  lemma FastPathConserves(s: Session, m: Msdu, skb: Option<Skb>, x: Skb)
    requires WindowInv(s) && OnFastPath(s, m)
    ensures Total(FastPath(s, m, skb))[x] == Total(s)[x] + multiset(Frames(skb))[x]
  {
    DeliverConserves(s.sink, s.start, Single(m, skb), x);
    HeldNone(s.buf, s.start, s.start + s.size);
    HeldNone(s.buf, s.start + 1, s.start + 1 + s.size);
    hide HeldIn, SinkTotal, Deliver;
  }

  lemma ReceiveConserves(s: Session, m: Msdu, skb: Option<Skb>, x: Skb)
    requires SessionInv(s) && Enabled(s, Receive(m, skb))
    ensures Total(Arrive(s, m, skb))[x] == Total(s)[x] + multiset(Frames(skb))[x]
  {
    hide HeldIn, SinkTotal, FastPath, InWindow, Reject;
    if s.active && OnFastPath(s, m) {
      FastPathConserves(s, m, skb, x);
    } else if s.active && Geq(m.sn, s.start % MODULUS) {
      InWindowConserves(s, m, skb, x);
    } else if !s.active || Bypasses(s, m) {
      BypassConserves(s, skb, x);
    } else {
      RejectConserves(s, skb, x);
    }
  }

  lemma EmptyTotal(s: Session)
    requires s.buf == map[]
    ensures Total(s) == SinkTotal(s.sink) + s.leaked
  {
    HeldNone(s.buf, s.start, s.start + s.size);
    hide HeldIn, SinkTotal;
  }

  lemma FlushConserves(s: Session, x: Skb)
    ensures Total(s.(buf := map[], sink := s.sink.(freed := s.sink.freed + Held(s))))[x] == Total(s)[x]
  {
    EmptyTotal(s.(buf := map[], sink := s.sink.(freed := s.sink.freed + Held(s))));
    hide HeldIn, Passed;
  }

  lemma LeakConserves(s: Session, x: Skb)
    ensures Total(s.(buf := map[], leaked := s.leaked + Held(s)))[x] == Total(s)[x]
  {
    EmptyTotal(s.(buf := map[], leaked := s.leaked + Held(s)));
    hide HeldIn, Passed;
  }

  lemma DeleteConserves(s: Session, drain: bool, x: Skb)
    requires SessionInv(s)
    ensures Total(Delete(s, drain))[x] == Total(s)[x]
  {
    hide Total, MoveTo, HeldIn;
    var s0 := s.(armed := false, due := false, deleted := true);
    SameTotal(s, s0);
    if s.active {
      MoveToConserves(s0, RunEnd(s.buf, s.start, s.start + s.size), x);
      var s1 := if drain then Drain(s0) else s0;
      var s2 := s1.(active := false, timeouts := 0);
      SameTotal(s1, s2);
      FlushConserves(s2, x);
    } else {
      LeakConserves(s0, x);
    }
  }

  lemma TimeoutConserves(s: Session, x: Skb)
    requires SessionInv(s)
    ensures Total(Timeout(s))[x] == Total(s)[x]
  {
    hide Total, MoveTo;
    var s0 := s.(due := false, init := 0);
    SameTotal(s, s0);
    var e := RunEnd(s.buf, FirstComplete(s.buf, s.start, ScanEnd(s)), s.start + s.size);
    MoveToConserves(s0, e, x);
    var s' := Timeout(s);
    SameTotal(if s.active && s.buf != map[] && !s.armed then MoveTo(s0, e) else s, s');
  }

  function ArrivedIn(e: Event): multiset<Skb> {
    if e.Receive? then multiset(Frames(e.skb)) else multiset{}
  }

  lemma StepConserves(s: Session, e: Event, x: Skb)
    requires SessionInv(s) && Enabled(s, e)
    ensures Total(Step(s, e))[x] == Total(s)[x] + ArrivedIn(e)[x]
  {
    hide HeldIn, Passed, Arrive, Timeout, Delete;
    match e {
      case Receive(m, skb) => ReceiveConserves(s, m, skb, x);
      case TimerCallback => TimeoutConserves(s, x);
      case DeleteSession(drain) => DeleteConserves(s, drain, x);
      case _ =>
    }
  }

  function Arrived(es: seq<Event>): multiset<Skb> {
    if es == [] then multiset{} else ArrivedIn(es[0]) + Arrived(es[1..])
  }

  lemma {:induction false} RunConserves(s: Session, es: seq<Event>, x: Skb)
    requires SessionInv(s) && EnabledRun(s, es)
    ensures Total(Run(s, es))[x] == Total(s)[x] + Arrived(es)[x]
    decreases |es|
  {
    if es != [] {
      StepConserves(s, es[0], x);
      StepKeepsInv(s, es[0]);
      RunConserves(Step(s, es[0]), es[1..], x);
    }
    hide Total, Step, SessionInv;
  }

  lemma RunTotal(start: Seq12, size: nat, es: seq<Event>)
    requires 1 <= size < HALF && EnabledRun(Fresh(start, size), es)
    ensures Total(Run(Fresh(start, size), es)) == Arrived(es)
  {
    var s0, s := Fresh(start, size), Run(Fresh(start, size), es);
    HeldNone(s0.buf, start, start + size);
    assert Total(s0) == multiset{};
    hide Total, Run, EnabledRun, Arrived;
    forall x: Skb ensures Total(s)[x] == Arrived(es)[x] {
      RunConserves(s0, es, x);
    }
  }

  /** Over every run the buffers that arrived are exactly those passed up, freed, still held in
      the window, or leaked by deleting a session the timeout had deactivated. */
  lemma ConservationTheorem(start: Seq12, size: nat, es: seq<Event>)
    requires 1 <= size < HALF && EnabledRun(Fresh(start, size), es)
    ensures var s := Run(Fresh(start, size), es);
      Arrived(es) == Passed(s.sink.out) + s.sink.freed + Held(s) + s.leaked
  {
    RunTotal(start, size, es);
    hide Run, EnabledRun, Arrived, HeldIn, Passed;
  }

  lemma StepLeaks(s: Session, e: Event)
    requires Enabled(s, e)
    ensures !Step(s, e).deleted ==> Step(s, e).leaked == s.leaked
  {
    if e.Receive? {
      ReceiveFrame(s, e.m, e.skb);
    }
    hide Arrive, DeliverRange, HeldIn, CutBelow;
  }

  lemma {:induction false} LeakNeedsDelete(s: Session, es: seq<Event>)
    requires EnabledRun(s, es) && !Run(s, es).deleted
    ensures Run(s, es).leaked == s.leaked
    decreases |es|
  {
    if es != [] {
      StepLeaks(s, es[0]);
      assert es[1..] == [] || Enabled(Step(s, es[0]), es[1..][0]);
      LeakNeedsDelete(Step(s, es[0]), es[1..]);
      hide Step;
    }
  }

  lemma DeleteTotal(s: Session, drain: bool)
    requires SessionInv(s)
    ensures var d := Delete(s, drain);
      d.buf == map[] && SinkTotal(d.sink) + d.leaked == Total(s)
  {
    var d := Delete(s, drain);
    EmptyTotal(d);
    hide Delete, SinkTotal, Total;
    forall x: Skb ensures Total(d)[x] == Total(s)[x] {
      DeleteConserves(s, drain, x);
    }
  }

  /** Deleting a session accounts for every buffer when the session is still active; a session
      deactivated by timeouts leaks exactly what it held (WIFI/reorder.c frees only if active). */
  lemma DeletionTheorem(start: Seq12, size: nat, es: seq<Event>, drain: bool)
    requires 1 <= size < HALF && EnabledRun(Fresh(start, size), es)
    requires !Run(Fresh(start, size), es).deleted
    ensures var s := Run(Fresh(start, size), es);
      var d := Delete(s, drain);
      && d.buf == map[]
      && Arrived(es) == Passed(d.sink.out) + d.sink.freed + d.leaked
      && d.leaked == (if s.active then multiset{} else Held(s))
  {
    RunTotal(start, size, es);
    RunKeepsInv(Fresh(start, size), es);
    LeakNeedsDelete(Fresh(start, size), es);
    DeleteTotal(Run(Fresh(start, size), es), drain);
    hide Run, EnabledRun, Arrived, HeldIn, Passed;
  }
}
