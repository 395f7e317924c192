/** How the MSDUs of an A-MSDU become one MPDU (WIFI/reorder.c), stated of what arrives and what the
    session then holds or hands up. */
module BlockAckMpdu {
  import opened Common
  import opened Seqno
  import opened BlockAckSession
  import opened BlockAckTheorems

  /** The event carries an MSDU of number `u`. */
  predicate IsPart(e: Event, u: int) {
    e.Receive? && e.m.sn == u % 4096
  }

  /** The events of `es` that carry an MSDU of number `u`. */
  function Parts(es: seq<Event>, u: int): seq<Event>
    ensures forall i :: 0 <= i < |Parts(es, u)| ==> Parts(es, u)[i].Receive?
  {
    if es == [] then [] else (if IsPart(es[0], u) then [es[0]] else []) + Parts(es[1..], u)
  }

  /** The buffers of received frames, in order. */
  function Bufs(ps: seq<Event>): seq<Skb>
    requires forall i :: 0 <= i < |ps| ==> ps[i].Receive?
  {
    if ps == [] then []
    else Bufs(ps[..|ps| - 1]) + (if ps[|ps| - 1].skb.Some? then [ps[|ps| - 1].skb.value] else [])
  }

  /** With TKIP or CCMP, which are ciphers 1 and 2, all parts carry the first one's packet number. */
  predicate OnePn(first: Msdu, m: Msdu) {
    first.cipher == 1 || first.cipher == 2 ==> m.pn == first.pn
  }

  /** Between the parts anything else may happen that does not move the window beyond `u` or end the
      session. */
  predicate Undisturbed(s: Session, es: seq<Event>, u: int)
    requires EnabledRun(s, es)
    decreases |es|
  {
    es == []
    || var s' := Step(s, es[0]);
       (IsPart(es[0], u) || (s'.active && !s'.deleted && s'.start <= u)) && Undisturbed(s', es[1..], u)
  }

  /** `u` is in the window of a working session. */
  predicate InReach(s: Session, u: int) {
    SessionInv(s) && s.active && !s.deleted && s.start <= u < s.start + s.size
  }

  /** The session holds the unfinished MPDU that began with `first` and has these buffers. */
  predicate Collecting(s: Session, u: int, first: Msdu, frames: seq<Skb>) {
    && u in s.buf && !s.buf[u].last
    && s.buf[u].frames == frames && s.buf[u].pn == first.pn && s.buf[u].cipher == first.cipher
  }

  // ---------------------------------------------------------------------
  // One step

  lemma ReachUnwraps(s: Session, u: int)
    requires InReach(s, u)
    ensures Unwrap(s.start, u % 4096) == u && Geq(u % 4096, s.start % 4096)
  {
    hide SessionInv;
    InvSize(s);
    LeqIsOrder(s.start, u);
    ResidueInjective(Unwrap(s.start, u % 4096), u);
  }

  lemma InvSize(s: Session)
    requires SessionInv(s)
    ensures 1 <= s.size < HALF && WindowInv(s)
  {
  }

  /** What the session makes of an MSDU whose number is in the window. */
  lemma PartStep(s: Session, u: int, m: Msdu, skb: Option<Skb>)
    requires InReach(s, u) && m.sn == u % 4096 && Enabled(s, Receive(m, skb)) && !OnFastPath(s, m)
    ensures var s0 := s.(init := 0);
      Step(s, Receive(m, skb)) ==
        if CanInsert(s.buf, u, m) then Settle(Insert(s0, u, m, skb), s.start, u, m.last) else Reject(s0, skb)
  {
    ReachUnwraps(s, u);
    hide Settle, Insert, Reject, CanInsert, SessionInv, Unwrap, Leq;
  }

  lemma InsertedPart(s: Session, u: int, m: Msdu, skb: Option<Skb>)
    ensures var b := Insert(s, u, m, skb).buf;
      && u in b && b[u].last == m.last
      && b[u].frames == (if u in s.buf then s.buf[u].frames else []) + (if skb.Some? then [skb.value] else [])
      && (u in s.buf ==> b[u].pn == s.buf[u].pn && b[u].cipher == s.buf[u].cipher)
      && (u !in s.buf ==> b[u].pn == m.pn && b[u].cipher == m.cipher)
  {
  }

  lemma SettleKeepsPart(s: Session, before: int, u: int, last: bool)
    requires !(last && u == s.start)
    ensures var s' := Settle(s, before, u, last);
      s'.buf == s.buf && s'.start == s.start && s'.active == s.active && s'.deleted == s.deleted && s'.size == s.size
  {
  }

  lemma ReachStays(s: Session, u: int, m: Msdu, skb: Option<Skb>)
    requires InReach(s, u) && m.sn == u % 4096 && Enabled(s, Receive(m, skb)) && !OnFastPath(s, m)
    requires CanInsert(s.buf, u, m) && !(m.last && u == s.start)
    ensures var s' := Step(s, Receive(m, skb));
      InReach(s', u) && s'.start == s.start && s'.buf == Insert(s.(init := 0), u, m, skb).buf
  {
    hide CanInsert, SessionInv, Insert, Settle, OnFastPath;
    PartStep(s, u, m, skb);
    StepKeepsInv(s, Receive(m, skb));
    InsertFrame(s.(init := 0), u, m, skb);
    SettleKeepsPart(Insert(s.(init := 0), u, m, skb), s.start, u, m.last);
    hide Step;
  }

  lemma InsertFrame(s: Session, u: int, m: Msdu, skb: Option<Skb>)
    ensures var s' := Insert(s, u, m, skb);
      s'.start == s.start && s'.active == s.active && s'.deleted == s.deleted && s'.size == s.size
  {
  }

  /** The first MSDU of an unfinished MPDU. */
  lemma BeginsPart(s: Session, u: int, m: Msdu, skb: Option<Skb>)
    requires InReach(s, u) && u !in s.buf && m.sn == u % 4096 && !m.last && Enabled(s, Receive(m, skb))
    ensures var s' := Step(s, Receive(m, skb));
      InReach(s', u) && Collecting(s', u, m, if skb.Some? then [skb.value] else [])
  {
    hide Step, Insert, SessionInv;
    ReachStays(s, u, m, skb);
    InsertedPart(s.(init := 0), u, m, skb);
  }

  /** A further MSDU that is not the last. */
  lemma JoinsPart(s: Session, u: int, first: Msdu, frames: seq<Skb>, m: Msdu, skb: Option<Skb>)
    requires InReach(s, u) && Collecting(s, u, first, frames) && m.sn == u % 4096 && !m.last && OnePn(first, m)
    requires Enabled(s, Receive(m, skb))
    ensures var s' := Step(s, Receive(m, skb));
      InReach(s', u) && Collecting(s', u, first, frames + if skb.Some? then [skb.value] else [])
  {
    hide Step, Insert, SessionInv;
    assert CanInsert(s.buf, u, m);
    ReachStays(s, u, m, skb);
    InsertedPart(s.(init := 0), u, m, skb);
  }

  /** The part with buffers `x` is added to the MPDU of `u`; nothing else is held or handed up. */
  predicate Added(s: Session, s': Session, u: int, x: seq<Skb>, last: bool)
    requires u in s.buf
  {
    && u in s'.buf && s'.buf == s.buf[u := s'.buf[u]] && s'.sink == s.sink && s'.start == s.start
    && s'.buf[u].frames == s.buf[u].frames + x && s'.buf[u].last == last
    && s'.buf[u].pn == s.buf[u].pn && s'.buf[u].cipher == s.buf[u].cipher
  }

  /** A further part is taken if and only if the MPDU is unfinished and, with TKIP or CCMP, has the same
      packet number; otherwise it is freed and the session holds and hands up what it did before. */
  lemma PartTakenExactly(s: Session, u: int, m: Msdu, skb: Option<Skb>)
    requires InReach(s, u) && u in s.buf && m.sn == u % 4096 && Enabled(s, Receive(m, skb))
    ensures var p, s' := s.buf[u], Step(s, Receive(m, skb));
      var x := if skb.Some? then [skb.value] else [];
      if !p.last && (p.cipher == 1 || p.cipher == 2 ==> p.pn == m.pn) then
        (m.last && u == s.start) || Added(s, s', u, x, m.last)
      else s'.buf == s.buf && s'.start == s.start && s'.sink == s.sink.(freed := s.sink.freed + multiset(x))
  {
    hide SessionInv, Step, Drain;
    PartStep(s, u, m, skb);
  }

  // ---------------------------------------------------------------------
  // Other events

  /** What is buffered at or ahead of the new window start, under another number, stays. */
  lemma OtherKeeps(s: Session, e: Event, u: int)
    requires InReach(s, u) && u in s.buf && Enabled(s, e) && !IsPart(e, u)
    requires var s' := Step(s, e); s'.active && !s'.deleted && s'.start <= u
    ensures var s' := Step(s, e); InReach(s', u) && u in s'.buf && s'.buf[u] == s.buf[u]
  {
    StepKeepsInv(s, e);
    StartForward(s, e);
    hide SessionInv, DeliverRange, RunEnd, FirstComplete;
    match e {
      case Receive(m, skb) => OtherFrame(s, m, skb, u);
      case _ =>
    }
  }

  lemma StartForward(s: Session, e: Event)
    requires SessionInv(s) && Enabled(s, e)
    ensures s.start <= Step(s, e).start
  {
    hide DeliverRange, CutBelow, Deliver, HeldIn, Leq, InWindow;
    if e.Receive? && s.active && Geq(e.m.sn, s.start % MODULUS) {
      InWindowForward(s, e.m, e.skb);
    }
  }

  lemma InWindowForward(s: Session, m: Msdu, skb: Option<Skb>)
    requires SessionInv(s) && Geq(m.sn, s.start % MODULUS)
    ensures s.start <= InWindow(s, m, skb).start
  {
    hide SessionInv, MakeRoom, Settle, Insert, CanInsert, Unwrap;
    InvSize(s);
    var u := Unwrap(s.start, m.sn);
    var s0 := s.(init := 0);
    MakeRoomKeepsWindow(s0, u);
    InsertFrame(MakeRoom(s0, u), u, m, skb);
    SettleForward(Insert(MakeRoom(s0, u), u, m, skb), s.start, u, m.last);
  }

  lemma OtherFrame(s: Session, m: Msdu, skb: Option<Skb>, u: int)
    requires InReach(s, u) && u in s.buf && Enabled(s, Receive(m, skb)) && m.sn != u % 4096
    requires Arrive(s, m, skb).start <= u
    ensures var s' := Arrive(s, m, skb); u in s'.buf && s'.buf[u] == s.buf[u]
  {
    hide SessionInv, DeliverRange, RunEnd, Unwrap, Leq, Deliver, Join, Single;
    InvSize(s);
    if s.active && !OnFastPath(s, m) && Geq(m.sn, s.start % MODULUS) {
      OtherInWindow(s, m, skb, u);
    }
    hide InWindow;
  }

  lemma OtherInWindow(s: Session, m: Msdu, skb: Option<Skb>, u: int)
    requires InReach(s, u) && u in s.buf && m.sn != u % 4096 && Geq(m.sn, s.start % MODULUS)
    requires InWindow(s, m, skb).start <= u
    ensures var s' := InWindow(s, m, skb); u in s'.buf && s'.buf[u] == s.buf[u]
  {
    hide SessionInv, MakeRoom, Settle, Insert, CanInsert, Unwrap, Leq;
    var v := Unwrap(s.start, m.sn);
    var s0 := s.(init := 0);
    var s1 := MakeRoom(s0, v);
    if CanInsert(s1.buf, v, m) {
      var s2 := Insert(s1, v, m, skb);
      InsertFrame(s1, v, m, skb);
      SettleForward(s2, s.start, v, m.last);
      MakeRoomOther(s0, v, u);
      InsertOther(s1, v, m, skb, u);
      SettleOther(s2, s.start, v, m.last, u);
    } else {
      MakeRoomOther(s0, v, u);
    }
  }

  lemma MakeRoomOther(s: Session, v: int, u: int)
    requires u in s.buf && MakeRoom(s, v).start <= u
    ensures var b := MakeRoom(s, v).buf; u in b && b[u] == s.buf[u]
  {
    hide DeliverRange, RunEnd;
  }

  lemma InsertOther(s: Session, v: int, m: Msdu, skb: Option<Skb>, u: int)
    requires u in s.buf && u != v
    ensures var b := Insert(s, v, m, skb).buf; u in b && b[u] == s.buf[u]
  {
  }

  lemma SettleForward(s: Session, before: int, v: int, last: bool)
    ensures s.start <= Settle(s, before, v, last).start
  {
    hide DeliverRange, CutBelow;
  }

  lemma SettleOther(s: Session, before: int, v: int, last: bool, u: int)
    requires u in s.buf && Settle(s, before, v, last).start <= u
    ensures var b := Settle(s, before, v, last).buf; u in b && b[u] == s.buf[u]
  {
    hide DeliverRange, RunEnd;
  }

  // ---------------------------------------------------------------------
  // The whole MPDU

  lemma BufsPush(ps: seq<Event>, e: Event)
    requires (forall i :: 0 <= i < |ps| ==> ps[i].Receive?) && e.Receive?
    ensures Bufs(ps + [e]) == Bufs(ps) + if e.skb.Some? then [e.skb.value] else []
  {
    assert (ps + [e])[..|ps|] == ps;
  }

  /** The parts are further MSDUs of the MPDU that began with `first`, none of them the last. */
  predicate MoreParts(ps: seq<Event>, first: Msdu)
    requires forall i :: 0 <= i < |ps| ==> ps[i].Receive?
  {
    forall i :: 0 <= i < |ps| ==> !ps[i].m.last && OnePn(first, ps[i].m)
  }

  lemma PartsCons(es: seq<Event>, u: int, first: Msdu)
    requires es != [] && MoreParts(Parts(es, u), first)
    ensures MoreParts(Parts(es[1..], u), first)
    ensures Parts(es, u) == (if IsPart(es[0], u) then [es[0]] else []) + Parts(es[1..], u)
    ensures IsPart(es[0], u) ==> !es[0].m.last && OnePn(first, es[0].m)
  {
    hide OnePn;
    var ps, qs := Parts(es, u), Parts(es[1..], u);
    if IsPart(es[0], u) {
      assert ps[0] == es[0] && forall i :: 0 <= i < |qs| ==> qs[i] == ps[i + 1];
    } else {
      assert ps == qs;
    }
  }

  /** Parts after the first, with anything harmless in between, are collected in order of arrival. */
  lemma {:induction false} PartsCollect(s: Session, es: seq<Event>, u: int, first: Msdu, past: seq<Event>)
    requires (forall i :: 0 <= i < |past| ==> past[i].Receive?)
    requires InReach(s, u) && Collecting(s, u, first, Bufs(past)) && EnabledRun(s, es) && Undisturbed(s, es, u)
    requires MoreParts(Parts(es, u), first)
    ensures var s' := Run(s, es); InReach(s', u) && Collecting(s', u, first, Bufs(past + Parts(es, u)))
    decreases |es|
  {
    hide InReach, Step, Bufs, Collecting, OnePn, Parts, IsPart, MoreParts, Enabled;
    if es == [] {
      NoParts(u);
      assert past + [] == past;
    } else {
      PartsCons(es, u, first);
      var e, rest := es[0], es[1..];
      if IsPart(e, u) {
        PartIs(e, u);
        JoinsPart(s, u, first, Bufs(past), e.m, e.skb);
        BufsPush(past, e);
        PartsCollect(Step(s, e), rest, u, first, past + [e]);
        Regroup(past, [e], Parts(rest, u));
      } else {
        StaysCollecting(s, e, u, first, Bufs(past));
        PartsCollect(Step(s, e), rest, u, first, past);
        Regroup(past, [], Parts(rest, u));
      }
    }
  }

  lemma NoParts(u: int)
    ensures Parts([], u) == []
  {
  }

  lemma Regroup(a: seq<Event>, b: seq<Event>, c: seq<Event>)
    ensures a + b + c == a + (b + c) && a + [] == a
  {
  }

  lemma PartIs(e: Event, u: int)
    requires IsPart(e, u)
    ensures e.Receive? && e.m.sn == u % 4096 && e == Receive(e.m, e.skb)
  {
  }

  lemma StaysCollecting(s: Session, e: Event, u: int, first: Msdu, frames: seq<Skb>)
    requires InReach(s, u) && Collecting(s, u, first, frames) && Enabled(s, e) && !IsPart(e, u)
    requires var s' := Step(s, e); s'.active && !s'.deleted && s'.start <= u
    ensures InReach(Step(s, e), u) && Collecting(Step(s, e), u, first, frames)
  {
    hide InReach, Step;
    OtherKeeps(s, e, u);
  }

  /** All parts but the last have come. */
  lemma UnfinishedMpdu(s: Session, es: seq<Event>, u: int)
    requires InReach(s, u) && u !in s.buf && EnabledRun(s, es) && Undisturbed(s, es, u)
    requires es != [] && IsPart(es[0], u) && MoreParts(Parts(es, u), es[0].m)
    ensures var s' := Run(s, es); InReach(s', u) && Collecting(s', u, es[0].m, Bufs(Parts(es, u)))
  {
    hide InReach, Step, Bufs, Parts, MoreParts, Collecting;
    PartsCons(es, u, es[0].m);
    BeginsPart(s, u, es[0].m, es[0].skb);
    OneBuf(es[0]);
    PartsCollect(Step(s, es[0]), es[1..], u, es[0].m, [es[0]]);
  }

  lemma OneBuf(e: Event)
    requires e.Receive?
    ensures Bufs([e]) == if e.skb.Some? then [e.skb.value] else []
  {
    assert [e][..0] == [];
    assert Bufs([]) == [];
  }

  /** An MPDU is handed up unless its cipher is TKIP or CCMP, which are 1 and 2, and its packet number
      is not larger than the last one; a pending reset lets it pass if both words are not larger. */
  predicate PassesReplay(k: Sink, first: Msdu) {
    var n, before := first.pn.hi * 0x1_0000_0000 + first.pn.lo, k.pn.hi * 0x1_0000_0000 + k.pn.lo;
    || (first.cipher != 1 && first.cipher != 2)
    || n > before
    || (k.resetPn && first.pn.hi <= k.pn.hi && first.pn.lo <= k.pn.lo)
  }

  /** What becomes of the buffers of an MPDU that leaves the window: they are the next entry of the list,
      or they are freed. */
  predicate HandedUp(k: Sink, k': Sink, u: int, frames: seq<Skb>, first: Msdu) {
    frames == []
    || if PassesReplay(k, first) then
         && |k.out| < |k'.out| && k'.out[..|k.out|] == k.out
         && k'.out[|k.out|].Released? && k'.out[|k.out|].sn == u && k'.out[|k.out|].mpdu.frames == frames
       else k.freed + multiset(frames) <= k'.freed
  }

  lemma DeliverHandsUp(k: Sink, u: int, p: Mpdu, first: Msdu)
    requires p.pn == first.pn && p.cipher == first.cipher
    ensures HandedUp(k, Deliver(k, u, p), u, p.frames, first)
  {
  }

  /** Later deliveries only add to the list and to what is freed. */
  lemma {:induction false} RangeAfterHead(b: Buffer, k: Sink, lo: int, hi: int)
    requires lo < hi && lo in b
    ensures var k1, k2 := Deliver(k, lo, b[lo]), DeliverRange(b, k, lo, hi);
      k1.out <= k2.out && k1.freed <= k2.freed
    decreases hi - lo
  {
    if lo + 1 < hi {
      RangeAfterHead(b, k, lo, hi - 1);
      if hi - 1 in b {
        DeliverAdds(DeliverRange(b, k, lo, hi - 1), hi - 1, b[hi - 1]);
      }
      hide Deliver;
    } else {
      assert DeliverRange(b, k, lo, lo) == k;
      hide Deliver;
    }
  }

  lemma DeliverAdds(k: Sink, u: int, p: Mpdu)
    ensures k.out <= Deliver(k, u, p).out && k.freed <= Deliver(k, u, p).freed
  {
  }

  lemma MoreHandedUp(k: Sink, k1: Sink, k2: Sink, u: int, frames: seq<Skb>, first: Msdu)
    requires HandedUp(k, k1, u, frames, first) && k1.out <= k2.out && k1.freed <= k2.freed
    ensures HandedUp(k, k2, u, frames, first)
  {
    hide PassesReplay;
  }

  /** The complete head of the window leaves it. */
  lemma HeadLeaves(s: Session, u: int, first: Msdu)
    requires s.start == u && Complete(s.buf, u) && 1 <= s.size
    requires s.buf[u].pn == first.pn && s.buf[u].cipher == first.cipher
    ensures var s' := Settle(s, u, u, true);
      u < s'.start && u !in s'.buf && HandedUp(s.sink, s'.sink, u, s.buf[u].frames, first)
  {
    hide Deliver, DeliverRange, HandedUp;
    var e := RunEnd(s.buf, u, u + s.size);
    assert u < e;
    DeliverHandsUp(s.sink, u, s.buf[u], first);
    RangeAfterHead(s.buf, s.sink, u, e);
    MoreHandedUp(s.sink, Deliver(s.sink, u, s.buf[u]), DeliverRange(s.buf, s.sink, u, e), u, s.buf[u].frames, first);
  }

  lemma FastPart(s: Session, u: int, m: Msdu, skb: Option<Skb>)
    requires InReach(s, u) && m.sn == u % 4096 && OnFastPath(s, m) && Enabled(s, Receive(m, skb))
    ensures var s' := Step(s, Receive(m, skb));
      && u == s.start && u < s'.start && u !in s'.buf
      && HandedUp(s.sink, s'.sink, u, if skb.Some? then [skb.value] else [], m)
  {
    InvSize(s);
    ResidueInjective(u, s.start);
    DeliverHandsUp(s.sink, u, Single(m, skb), m);
    hide SessionInv, Deliver, HandedUp;
  }

  /** The last part completes it: the MPDU waits whole if it is not the head of the window, and leaves
      the window at once if it is. */
  lemma LastPart(s: Session, u: int, first: Msdu, frames: seq<Skb>, m: Msdu, skb: Option<Skb>)
    requires InReach(s, u) && m.sn == u % 4096 && m.last && Enabled(s, Receive(m, skb))
    requires if frames == [] && u !in s.buf then first == m else Collecting(s, u, first, frames) && OnePn(first, m)
    ensures var s' := Step(s, Receive(m, skb));
      var all := frames + if skb.Some? then [skb.value] else [];
      && (u != s.start ==> u in s'.buf && s'.buf[u].last && s'.buf[u].frames == all && s'.sink == s.sink)
      && (u == s.start ==> u < s'.start && u !in s'.buf && HandedUp(s.sink, s'.sink, u, all, first))
  {
    hide SessionInv, Step, Drain, HandedUp, Insert, OnFastPath;
    if OnFastPath(s, m) {
      FastPart(s, u, m, skb);
      FastIsEmpty(s, m);
      assert [] + Frames(skb) == Frames(skb);
    } else {
      PartStep(s, u, m, skb);
      assert CanInsert(s.buf, u, m);
      var s0 := s.(init := 0);
      InsertedPart(s0, u, m, skb);
      InsertFrame(s0, u, m, skb);
      InsertSink(s0, u, m, skb);
      InvSize(s);
      if u == s.start {
        HeadLeaves(Insert(s0, u, m, skb), u, first);
      } else {
        SettleSink(Insert(s0, u, m, skb), s.start, u, m.last);
        SettleKeepsPart(Insert(s0, u, m, skb), s.start, u, m.last);
      }
      hide Settle;
    }
  }

  lemma FastIsEmpty(s: Session, m: Msdu)
    requires OnFastPath(s, m)
    ensures s.buf == map[]
  {
  }

  lemma InsertSink(s: Session, u: int, m: Msdu, skb: Option<Skb>)
    ensures Insert(s, u, m, skb).sink == s.sink
  {
  }

  lemma SettleSink(s: Session, before: int, u: int, last: bool)
    requires !(last && u == s.start)
    ensures Settle(s, before, u, last).sink == s.sink
  {
  }

  /** The MSDUs of one number that arrive while it is in the window become one MPDU of their buffers in
      order of arrival, whatever comes between them. With the last one it waits whole or, at the head
      of the window, is handed up. */
  lemma MpduTheorem(s: Session, es: seq<Event>, u: int, m: Msdu, skb: Option<Skb>)
    requires InReach(s, u) && u !in s.buf && EnabledRun(s, es) && Undisturbed(s, es, u)
    requires es != [] && IsPart(es[0], u) && MoreParts(Parts(es, u), es[0].m)
    requires m.sn == u % 4096 && m.last && OnePn(es[0].m, m) && Enabled(Run(s, es), Receive(m, skb))
    ensures var s1 := Run(s, es);
      var s2 := Step(s1, Receive(m, skb));
      var all := Bufs(Parts(es, u) + [Receive(m, skb)]);
      && u in s1.buf && !s1.buf[u].last && s1.start <= u
      && (u != s1.start ==> u in s2.buf && s2.buf[u].last && s2.buf[u].frames == all && s2.sink == s1.sink)
      && (u == s1.start ==> u < s2.start && u !in s2.buf && HandedUp(s1.sink, s2.sink, u, all, es[0].m))
  {
    hide InReach, Step, Bufs, HandedUp, OnePn, Run, EnabledRun, Undisturbed;
    UnfinishedMpdu(s, es, u);
    var s1 := Run(s, es);
    LastPart(s1, u, es[0].m, Bufs(Parts(es, u)), m, skb);
    BufsPush(Parts(es, u), Receive(m, skb));
    Within(s1, u);
  }

  lemma Within(s: Session, u: int)
    requires InReach(s, u)
    ensures s.start <= u
  {
  }
}
