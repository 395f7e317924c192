/** What the ACK filter does with each message and event (WIFI/tcp_ack.c), stated of unbounded sequence
    numbers and of the fields it leaves. */
module TcpAckLaws {
  import opened Common
  import opened TcpAck

  /** `p` is the pushed sequence number, if one is pending: its residue is kept and it is less than half
      the number space away from the acknowledgement. */
  predicate PushIs(s: Slot, p: int, ack: int) {
    s.psh.Some? ==> s.psh.value == p % 0x1_0000_0000 && -0x8000_0000 < ack - p < 0x8000_0000
  }

  lemma QuickIs(s: Slot, p: int, ack: int)
    requires PushIs(s, p, ack)
    ensures Quick(s, ack) <==> s.psh.Some? && p < ack
  {
    if s.psh.Some? {
      BeforeIsOrder(ack, p);
    }
    hide Before;
  }

  /** An acknowledgement older than the newest is discarded and changes nothing else. */
  lemma OlderLaw(s: Slot, m: Msg, urgent: bool, max: int)
    requires Enabled(s, Ack(m, urgent)) && m.ack < s.newest
    ensures Step(s, Ack(m, urgent), max) == s.(dropped := s.dropped + [m])
  {
  }

  /** An ordinary acknowledgement is transmitted at once if it covers the pushed data, or if nothing of
      the flow is in transmission and the threshold is reached; otherwise it is held for the timer.
      What was held is discarded, and the push is over exactly if its data is covered. */
  lemma OrdinaryLaw(s: Slot, m: Msg, max: int, p: int)
    requires Enabled(s, Ack(m, false)) && s.newest <= m.ack && PushIs(s, p, m.ack)
    ensures var covers := s.psh.Some? && p < m.ack;
      var waiting := if s.held.Some? then [s.held.value] else [];
      Step(s, Ack(m, false), max) ==
        if covers || (s.inSend.None? && s.dropCnt + 1 >= max) then
          Slot(m.ack, None, Some(m), 0, if covers then None else s.psh, false, s.due,
               s.sent + [m], s.dropped + waiting)
        else
          Slot(m.ack, Some(m), s.inSend, s.dropCnt + 1, s.psh, true, s.due, s.sent, s.dropped + waiting)
  {
    QuickIs(s, p, m.ack);
    hide Quick;
  }

  /** An urgent acknowledgement is always transmitted, and what was held with its timer is given up. */
  lemma UrgentLaw(s: Slot, m: Msg, max: int, p: int)
    requires Enabled(s, Ack(m, true)) && s.newest <= m.ack && PushIs(s, p, m.ack)
    ensures var covers := s.psh.Some? && p < m.ack;
      Step(s, Ack(m, true), max) ==
        Slot(m.ack, None, None, max, if covers then None else s.psh, s.timer && s.held.None?, s.due,
             s.sent + [m], s.dropped + if s.held.Some? then [s.held.value] else [])
  {
    QuickIs(s, p, m.ack);
    hide Quick;
  }

  /** The flush transmits what is held unless something of the flow is still in transmission. */
  lemma FlushLaw(s: Slot, max: int)
    requires Enabled(s, Flush)
    ensures Step(s, Flush, max) ==
      if s.held.Some? && s.inSend.None? then
        Slot(s.newest, None, s.held, 0, s.psh, s.timer, false, s.sent + [s.held.value], s.dropped)
      else s.(due := false)
  {
  }

  /** The first acknowledgement of a flow is transmitted and the next one is due at once. A completed
      transmission is no longer waited for; a push is remembered; an expired timer is due. */
  lemma OtherLaw(s: Slot, m: Msg, seq32: U32, max: int)
    ensures Occupy(m, max) == Slot(m.ack, None, None, max, None, false, false, [m], [])
    ensures Step(s, Transmitted(m), max) == if s.inSend == Some(m) then s.(inSend := None) else s
    ensures Step(s, Push(seq32), max) == s.(psh := Some(seq32))
    ensures s.timer ==> Step(s, TimerExpires, max) == s.(timer := false, due := true)
  {
  }

  /** What a push does over the next acknowledgement, seen from the outside: one that covers the pushed
      data is the last message sent and leaves no push behind; one that does not is held while
      something is in transmission or the threshold is not reached, and the push stays. */
  lemma PushTheorem(s: Slot, m: Msg, max: int, p: int)
    requires Enabled(s, Ack(m, false)) && s.newest <= m.ack
    requires s.psh == Some(p % 0x1_0000_0000) && -0x8000_0000 < m.ack - p < 0x8000_0000
    ensures var s' := Step(s, Ack(m, false), max);
      && (p < m.ack ==> s'.sent == s.sent + [m] && s'.held.None? && s'.psh.None?)
      && (m.ack <= p ==>
            && s'.psh == s.psh
            && (s.inSend.Some? || s.dropCnt + 1 < max ==> s'.held == Some(m) && s'.sent == s.sent && s'.timer))
  {
    OrdinaryLaw(s, m, max, p);
    hide Step;
  }

  /** From the push on: if the next acknowledgement covers the pushed data it is transmitted at once. */
  lemma PushThenAck(s: Slot, m: Msg, max: int, p: int)
    requires -0x8000_0000 < m.ack - s.newest <= 0x8000_0000 && s.newest <= m.ack && p < m.ack < p + 0x8000_0000
    ensures var s1 := Step(s, Push(p % 0x1_0000_0000), max);
      && Enabled(s1, Ack(m, false))
      && var s2 := Step(s1, Ack(m, false), max);
         s2.sent == s.sent + [m] && s2.held.None? && s2.psh.None?
  {
    var s1 := Step(s, Push(p % 0x1_0000_0000), max);
    PushTheorem(s1, m, max, p);
    hide Quick;
  }
}
