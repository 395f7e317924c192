# Verified model of the WCN Wi-Fi driver's data path

The project models the data-path engines of the driver in Dafny and proves what they keep over
whole runs. Each engine that changes state in place is a class whose methods carry the driver's
loops and branches; each such method is proved against a small mathematical model, and the laws
are proved about that model for every input and every run.

| engine | modules |
|---|---|
| 12-bit sequence order | `Seqno` |
| receive block-ack reordering, without the ring | `BlockAckSession`, with `BlockAckTheorems`, `BlockAckLaws`, `BlockAckOrder`, `BlockAckContents`, `BlockAckMpdu`, `BlockAckReplay`, `BlockAckOpen`, `BlockAckConservation`, `BlockAckProgress`, `BlockAckStall`, `BlockAckBypass` |
| receive block-ack reordering, on the ring | `RxRing`, `RxBaNode` |
| transmit queues and the credit splitter | `TxSplit`, `TxFair`, `TxQueues`, `TxMode`, `TxConservation`, `TxSteps` |
| credit flow control over four colours | `FlowCredit`, `FlowLaws`, `FlowLedger`, `FlowControl` |
| Internet checksum | `Checksum` |
| TCP-ACK thinning | `TcpAck`, `TcpAckLaws`, `TcpAckFilter` |
| fragment reassembly | `Defrag`, `DefragExact`, `DefragNodes`, `DefragRoundTrip`, `DefragBytes`, `DefragEntry` |
| bus buffer pool | `MbufPool` |
| configuration CRC | `Crc16` |
| shared types | `Common` |

The receive engine follows section 10.24.7.6 of IEEE Std 802.11-2016. In `BlockAckSession`
sequence numbers are unbounded and the reorder buffer is a finite map; a run is any sequence of
frames, hardware filter events, timer expiries, timer callbacks, packet-number resets and
deletions. `RxBaNode` is the driver's own representation (12-bit window fields, a power-of-two ring
of slots, a counter, a timer flag, the output list); every entry point is proved to take the step
of the session it records and to enter the event in the node's history, so the theorems about runs
hold of the ring, the list handed up and the freed buffers.

Clocks and timers are events that may happen whenever the driver has armed them. Each locked
region is one step, except in `TxMode`: there every method runs to its end alone, and `TxSteps` says
what becomes of the counters when the locked regions and counter updates of several operations
interleave. Memory allocation succeeds.

Check the project with `dafny verify --verification-time-limit 0 --warn-contradictory-assumptions dfyconfig.toml`.

## Where the code keeps less than one would expect

For each of these the code is modelled as it is, a lemma gives an input on which the expected
property fails, and another gives the exact condition under which it holds (a sufficient one where
the bullet says so).

- A forward jump of 2047 or 2048 may leave `win_tail` behind the window. The session then stalls:
  the loss timer releases nothing until the session is given up (`StallAfterFarJump`,
  `StallTheorem`; exact conditions in `TailRunExactly` and `TimeoutProgressExactly`).
- The fast path sets `win_tail` where the general path may leave it (`FastPathMismatch`); they agree
  exactly when the frame is seen ahead of the tail (`FastPathExactly`), which holds in every run
  without unseen jumps (`FastPathTheorem`).
- Setting `win_start_init` to zero does not switch off the bypass for old frames: a retransmission
  whose number is at least 2048 is passed up again (`DuplicateDelivered`; `BypassTheorem`).
- A pending packet-number reset compares the two words of the number separately and can reject a
  restarted counter (`ResetMissesRestartedCounter`; `ResetAcceptsExactly`).
- Deleting a session that timeouts have deactivated leaks what it still holds (`LeakWitness`;
  `DeletionTheorem`).
- A category ratio above 100 can grant more credits than there are (`OverGrantWitness`;
  `OverGrantExactly`). Only a certification build can set one, from characters that are not digits.
- A credit reset between a grant and its report unbalances the books (`ResetInFlight`;
  `ResetInsideExactly`), and a close of everything there overdraws a colour (`CloseInFlight`;
  `CloseInsideExactly`); `BooksRunExactly` is the condition for whole runs. With a colour in debt a
  later reset deducts the wrong amount if `ring_cp` becomes zero on the way (`ResetStopsShort`;
  `ResetTakesAllExactly`).
- With a colour in debt the unsigned comparison grants packets for which there are no credits
  (`GrantFromDebt`; `AgreeExactly`, `GetNumIs`).
- A packet enqueued while a queue is being flushed can stay queued with both counters at zero
  (`EnqueueDuringFlush`; `CountersExactly` and `ClearExactly`).
- A held acknowledgement can be left with neither a timer nor a transmission that would release it
  (`HeldAckCanStrand`; `WatchedRunExactly`), and two senders that allocate at once can be given the
  same slot (`SameSlotTwice`; `AllocIndex`, `OccupySlot`).
- Zeroed reassembly nodes look like station 0, identifier 0, so a first fragment of that key can be
  refused (`FirstFragmentRefusedExactly` and `ZeroKeyRefusedExactly` are the exact conditions and name
  the inputs).
- A reassembly queue that does not begin with fragment 0, as after a recovery, keeps the node's old
  length: the buffer is too long, or the copy writes beyond it, by exactly the surplus at the
  queue's beginning (`OrphanAfterRecover`, `OrphanNotExact`; `ExactTheorem`).
- A first fragment can displace an unfinished MSDU although a node is idle, after a recovery or an
  orphan fragment (`DisplacesBesideIdle`). It does not after orderly runs (`DisplacesOnlyWhenFull`);
  orderliness is exact for open nodes staying in front (`OrderlyRunExactly`) and sufficient here.

The flush at the end of `handle_tx_status_after_close` is never reached (`AfterClose`).

## Model

| member | source | states |
|---|---|---|
| `Seqno.LeqIsOrder` | WIFI/rx_msg.h:252-260 | seqno_leq on residues is the order of the unbounded numbers whenever they are less than 2048 apart; at exactly 2048 the raw residues decide |
| `Seqno.LeqIsTotalAndAntisymmetric` | WIFI/rx_msg.h:252-265 | on every pair of residues the comparison is total and antisymmetric |
| `Seqno.LeqChain` | WIFI/rx_msg.h:252-265 | a chain is compared transitively while it stays inside half of the space, and the comparison reverses beyond it |
| `Seqno.SubIsDistance` | WIFI/rx_msg.h:9-12 | SEQNO_SUB recovers every forward distance below 4096 |
| `Seqno.Unwrap` | WIFI/rx_msg.h:252-265 | the unbounded number a residue stands for: same residue, ahead of the base exactly when seqno_geq says so, never more than 2048 away |
| `BlockAckSession.RunEnd` | WIFI/reorder.c:246-266 | the in-order run ends at the first number without a complete MPDU; everything before it is complete |
| `BlockAckSession.FirstComplete` | WIFI/reorder.c:899-915 | the loss scan stops at the first complete MPDU, or at its end if there is none |
| `BlockAckSession.ScanEnd` | WIFI/reorder.c:899-911 | the end of the loss scan never lies before win_start or more than half the space beyond it |
| `BlockAckTheorems.WindowTheorem` | WIFI/reorder.c:246-454 | over every run of arrivals, filter events, expiries, callbacks, reset requests and deletions: every buffered number lies in the window, at most win_size are buffered, the head is never a complete MPDU, and an active session with buffered frames has a timer pending or a callback due |
| `BlockAckTheorems.RunKeepsInv` | WIFI/reorder.c:246-454 | the same invariant from any state that satisfies it, and win_size never changes |
| `BlockAckTheorems.StepKeepsInv` | WIFI/reorder.c:402-454 | each step of the session keeps the window, head-of-line and timer invariant |
| `BlockAckTheorems.ReceiveKeepsInv` | WIFI/reorder.c:402-454 | an arriving frame or filter event keeps it on every path: inactive, fast, general, bypassed, rejected |
| `BlockAckTheorems.InWindowKeepsInv` | WIFI/reorder.c:365-400 | a frame at or beyond win_start keeps it, including jumps that walk the ring several times |
| `BlockAckTheorems.TimeoutKeepsInv` | WIFI/reorder.c:917-957 | the loss timeout keeps it, including the deactivation after sixty timeouts |
| `BlockAckTheorems.DeleteKeepsInv` | WIFI/reorder.c:640-671 | deletion keeps it |
| `BlockAckTheorems.MakeRoomKeepsWindow` | WIFI/reorder.c:373-382 | after making room the frame lies inside the window, the window has not moved backwards, and a jump leaves the frame's own place free |
| `BlockAckTheorems.AdvanceKeepsWindow` | WIFI/reorder.c:301-315 | a flush followed by a drain ends at a head that is not complete and never before its target |
| `BlockAckTheorems.SizeBound` | WIFI/reorder.c:332-363 | a window holds at most win_size MPDUs |
| `BlockAckOrder.InOrderTheorem` | WIFI/reorder.c:176-315 | over every run the MPDUs released from the window have strictly increasing unbounded sequence numbers, so none is reordered and none comes out twice |
| `BlockAckOrder.RunOrdered` | WIFI/reorder.c:176-315 | the released log stays ordered and below win_start from any such state |
| `BlockAckOrder.StepOrdered` | WIFI/reorder.c:402-454 | each step appends released numbers only in increasing order and below the new win_start |
| `BlockAckOrder.DeliverRangeOrdered` | WIFI/reorder.c:268-291 | releasing a range keeps the log ordered |
| `BlockAckContents.ContentsTheorem` | WIFI/reorder.c:232-363 | over every run the frames of each released MPDU, and of each buffered one, are exactly those the session took under its unbounded number, in arrival order: none lost, none from another turn of the 12-bit counter, none after the release |
| `BlockAckContents.RunContents` | WIFI/reorder.c:232-363 | the same from any state whose log explains it |
| `BlockAckContents.StepContents` | WIFI/reorder.c:332-363 | each step keeps buffered and released MPDUs equal to the log, and nothing taken at or ahead of win_start is missing from the buffer |
| `BlockAckContents.InsertContents` | WIFI/reorder.c:332-363 | taking a frame in the window appends it to the log of its number and to no other |
| `BlockAckContents.TakenNumber` | WIFI/reorder.c:365-392 | a frame is only taken under a number of its own residue, at or ahead of win_start |
| `BlockAckMpdu.MpduTheorem` | WIFI/reorder.c:332-400 | the MSDUs of one number that arrive while it is in the window of a working session, only the last marked last and with TKIP or CCMP all with one packet number, become one MPDU of their buffers in order of arrival, whatever comes between; before the last nothing of it is handed up, with it the MPDU waits whole or, at win_start, leaves at once |
| `BlockAckMpdu.UnfinishedMpdu` | WIFI/reorder.c:332-363 | all parts but the last are held as one unfinished MPDU with the first one's packet number and cipher |
| `BlockAckMpdu.LastPart` | WIFI/reorder.c:430-435 | the last part, or a single whole MSDU, completes the MPDU: it waits, or at win_start it is the next entry of the list if replay detection passes it and is freed otherwise |
| `BlockAckMpdu.PartTakenExactly` | WIFI/reorder.c:112-127 | a further MSDU of a held MPDU is taken if and only if the MPDU is unfinished and, with cipher 1 or 2, has the same packet number; otherwise it is freed and what is held and handed up is as before |
| `BlockAckMpdu.OtherKeeps` | WIFI/reorder.c:365-400 | any other event that leaves the number in the window leaves its MPDU as it is |
| `BlockAckLaws.MakeRoomLaw` | WIFI/reorder.c:373-382 | a frame beyond the window moves it just so far that the frame is its last number, and on over the whole MPDUs at its head; any other frame does not move it |
| `BlockAckLaws.DrainLaw` | WIFI/reorder.c:246-266 | a drain ends after the run of whole MPDUs at the head |
| `BlockAckLaws.TimeoutLaw` | WIFI/reorder.c:917-957 | the loss timeout acts exactly on an active session that holds something and whose timer is not armed again; it gives up the numbers before the first whole MPDU of its scan and hands on the whole ones that follow; after sixty the session is given up |
| `BlockAckLaws.DeleteLaw` | WIFI/reorder.c:640-671 | a DELBA hands on the whole MPDUs at the head and frees the rest, a peer removal frees all that is held, a session given up frees nothing |
| `BlockAckLaws.FreshLaw` | WIFI/reorder.c:44-61 | the fields of a session as it is set up |
| `BlockAckReplay.ReplayTheorem` | WIFI/reorder.c:129-216 | over every run, released TKIP and CCMP packet numbers strictly increase when no reset is requested, and at most one release per reset request fails to exceed its predecessor |
| `BlockAckReplay.RunReplay` | WIFI/reorder.c:129-216 | the number of non-increases plus a pending reset grows by at most the resets requested |
| `BlockAckReplay.StepReplay` | WIFI/reorder.c:129-216 | one step spends at most the pending reset; only a request creates one |
| `BlockAckReplay.DeliverReplay` | WIFI/reorder.c:129-174 | passing one MPDU through replay detection keeps the counter equal to the last released number |
| `BlockAckReplay.NoDropsIncreasing` | WIFI/reorder.c:129-174 | a log without non-increases is strictly increasing on every pair |
| `BlockAckReplay.ReplayLaw` | WIFI/reorder.c:129-174 | replay detection in full: another cipher than 1 and 2 is handed up as it is; a pending reset is used up exactly by a number neither of whose words is larger; else a larger number is accepted and any other freed |
| `BlockAckOpen.OpenTheorem` | WIFI/reorder.c:129-216 | over every run without ciphers 1 and 2, whatever was taken under a number the window has passed is in the list as exactly those buffers, and the replay counter never moves |
| `BlockAckOpen.OpenMove` | WIFI/reorder.c:201-216 | when the window moves over MPDUs of other ciphers, all that have buffers are in the list, and counter, pending reset and freed buffers are as before |
| `BlockAckOpen.DeliverOpen` | WIFI/reorder.c:129-174 | an MPDU of another cipher with buffers becomes the next entry of the list and changes nothing else |
| `BlockAckReplay.ResetAcceptsExactly` | WIFI/reorder.c:129-174 | a protected MPDU with a larger number is always accepted; one that is not larger is accepted if and only if a reset is pending and its low word does not exceed the stored low word |
| `BlockAckReplay.ResetMissesRestartedCounter` | WIFI/reorder.c:129-174 | witness: a run in which, with a reset pending, the first frame of a restarted counter is freed because the two words are compared separately |
| `BlockAckConservation.ConservationTheorem` | WIFI/reorder.c:332-454 | over every run the buffers that arrived are exactly, with multiplicity, those passed up, freed, held in the window, or leaked by deleting a deactivated session |
| `BlockAckConservation.DeletionTheorem` | WIFI/reorder.c:640-671 | deletion accounts for every buffer if the session is active and otherwise leaks exactly what it held |
| `BlockAckConservation.RunConserves` | WIFI/reorder.c:332-454 | arrivals are added once and nothing else changes the total, from any valid state |
| `BlockAckConservation.StepConserves` | WIFI/reorder.c:332-454 | each step adds exactly the buffer that arrived in it |
| `BlockAckConservation.ReceiveConserves` | WIFI/reorder.c:402-454 | an arrival is joined, released, rejected or bypassed exactly once |
| `BlockAckConservation.MoveToConserves` | WIFI/reorder.c:246-291 | moving the window neither loses nor duplicates a buffer, gaps and replay rejections included |
| `BlockAckConservation.TimeoutConserves` | WIFI/reorder.c:917-957 | the loss timeout conserves buffers |
| `BlockAckConservation.DeleteConserves` | WIFI/reorder.c:979-1011 | both kinds of deletion conserve buffers, leaks counted |
| `BlockAckProgress.TimeoutsEmptyTheorem` | WIFI/reorder.c:917-957 | the same from any valid state with a right win_tail |
| `BlockAckProgress.ProgressTheorem` | WIFI/reorder.c:899-957 | in every state reached without a frame beyond the window that is seen behind the old tail, as many consecutive loss timeouts as there are buffered MPDUs empty the window or end the session |
| `BlockAckProgress.SmallJumpsProgress` | WIFI/reorder.c:899-957 | in particular while no frame jumps more than 2046 ahead |
| `BlockAckProgress.TimeoutProgressExactly` | WIFI/reorder.c:899-957 | an effective timeout lowers buff_cnt if and only if something is buffered below the end of its scan or a complete MPDU sits at that end |
| `BlockAckProgress.TimeoutLowersCount` | WIFI/reorder.c:917-957 | with a right win_tail every effective timeout strictly lowers the number of buffered MPDUs |
| `BlockAckProgress.StepTail` | WIFI/reorder.c:373-382 | one step keeps win_tail right under the same condition |
| `BlockAckProgress.InWindowTail` | WIFI/reorder.c:373-382 | a frame in the window always keeps win_tail right; one beyond it does when seqno_geq sees it ahead of the old tail |
| `BlockAckProgress.JumpTail` | WIFI/reorder.c:373-382 | after a jump win_tail is right if and only if seqno_geq saw the frame ahead of the old tail |
| `BlockAckProgress.TailRunExactly` | WIFI/reorder.c:373-382 | over every run short of deletion win_tail is right throughout if and only if no frame beyond the window is seen behind the old tail |
| `BlockAckProgress.SmallJumpsSeen` | WIFI/reorder.c:373-382 | while no frame jumps more than 2046 ahead, none is seen behind the old tail |
| `BlockAckProgress.RunTail` | WIFI/reorder.c:373-382 | so win_tail names the last buffered MPDU, or win_start-1 for an empty window, over every run of such jumps |
| `BlockAckProgress.StepTailExactly` | WIFI/reorder.c:373-382 | one step keeps win_tail right if and only if it is not such a frame |
| `BlockAckProgress.LastBuffered` | WIFI/reorder.c:373-382 | the number win_tail stands for is buffered and no buffered number is larger |
| `BlockAckProgress.FastPathExactly` | WIFI/reorder.c:421-435 | the fast path leaves the same window, replay state, output and timer as the general path if and only if seqno_geq sees the frame ahead of win_tail |
| `BlockAckProgress.FastPathTheorem` | WIFI/reorder.c:176-199 | in every state reached without a frame beyond the window that is seen behind the old tail, the fast path refines the general path |
| `BlockAckProgress.SmallJumpsFastPath` | WIFI/reorder.c:176-199 | in particular while no frame jumps more than 2046 ahead |
| `BlockAckStall.FastPathMismatch` | WIFI/reorder.c:421-435 | witness: with a window of one, after whole MPDU 2048 the fast path for 2049 differs from the general path |
| `BlockAckStall.StallTheorem` | WIFI/reorder.c:899-957 | a stalled session keeps its buffer and releases nothing however often the loss timer fires, and is active exactly until the sixty-first timeout |
| `BlockAckStall.FireStalled` | WIFI/reorder.c:899-957 | one firing changes only the timeout count, or gives the session up |
| `BlockAckStall.StallAfterFarJump` | WIFI/reorder.c:373-382 | witness: a jump of 2047 stalls a fresh session |
| `BlockAckStall.LeakWitness` | WIFI/reorder.c:640-671 | witness: the run of that jump and sixty-one timeouts ends inactive, and deletion leaks its buffer |
| `BlockAckBypass.BypassTheorem` | WIFI/reorder.c:383-388 | over every run an old frame skips the window if and only if the window has not been used in the run or the frame's residue is at least 2048 |
| `BlockAckBypass.BypassExactly` | WIFI/reorder.c:383-388 | the bypass test for either value of win_start_init |
| `BlockAckBypass.OldFrameTheorem` | WIFI/reorder.c:383-454 | over every run an old frame is passed up if the session was given up, the window was never used or the residue is at least 2048, and is freed otherwise |
| `BlockAckBypass.SkippedTheorem` | WIFI/reorder.c:72-86 | over every run the frames passed up outside the window are exactly those that arrived for a session given up, or old and bypassing, in arrival order |
| `BlockAckBypass.RunInit` | WIFI/reorder.c:373-382 | over every run win_start_init is zero if the window was used, and otherwise it and win_start are as they were set up |
| `BlockAckBypass.StepInit` | WIFI/reorder.c:373-382 | a step clears win_start_init exactly when it uses the window |
| `BlockAckBypass.DuplicateDelivered` | WIFI/reorder.c:383-388 | witness: a retransmitted MPDU with number 3000 is passed up twice |
| `RxRing.IndexOfResidue` | WIFI/reorder.c:246-266 | masking a 12-bit residue finds the slot of the unbounded number |
| `RxRing.IndexInjective` | WIFI/reorder.c:332-363 | numbers less than one turn apart never share a slot |
| `RxRing.RingUpdate` | WIFI/reorder.c:332-363 | writing one slot changes exactly one number of the window |
| `RxRing.RingShift` | WIFI/reorder.c:246-315 | the window may advance over emptied slots without touching the ring |
| `RxRing.RingInsert` | WIFI/reorder.c:332-363 | writing what insert_msdu makes of a slot shows the enlarged buffer, and its size grows by one for a new number only |
| `RxRing.OccupiedInWindow` | WIFI/reorder.c:332-363 | an occupied slot i carries a number of the window that the index mask maps to i |
| `RxRing.OccupiedCount` | WIFI/reorder.c:332-363 | there are as many occupied slots as buffered MPDUs |
| `RxRing.AdvanceInTwo` | WIFI/reorder.c:301-315 | flushing with gaps and then draining is one move of the window |
| `RxRing.ScanTest` | WIFI/reorder.c:899-911 | the test against win_tail ends the scan exactly at ScanEnd |
| `RxRing.ScanSlot` | WIFI/reorder.c:899-911 | the slot the scan looks at is complete exactly when the number is, even when the scan runs past the ring |
| `RxRing.LimitTest` | WIFI/reorder.c:373-382 | the comparison with win_limit fails exactly for a frame beyond the window |
| `RxRing.RingFramesAreHeld` | WIFI/reorder.c:218-230 | slot by slot or number by number, the ring holds the same buffers |
| `RxBaNode.GetIndexSize` | WIFI/reorder.c:32-42 | the ring size is a power of two of at least 64, at least the request, and less than twice it unless it is 64 |
| `RxBaNode.FinishGeneral` | WIFI/reorder.c:430-446 | what reorder_msdu_process does with the answer of reorder_msdu completes the general path |
| `RxBaNode.BaNode.constructor` | WIFI/reorder.c:523-548 | a new node is a fresh session: window fields, empty ring, zero counters |
| `RxBaNode.BaNode.FieldInvariant` | WIFI/reorder.c:246-454 | in every valid state win_limit = win_start+win_size-1 mod 4096, every occupied slot holds a window number that the mask maps to it, buff_cnt counts the occupied slots and is at most win_size, and the slot at win_start is not complete |
| `RxBaNode.BaNode.ListInOrder` | WIFI/reorder.c:72-315 | the list handed up is that of the run recorded in the node's history: its MPDUs have strictly increasing numbers, each is exactly what was taken under its number, packet numbers fall behind at most once per reset request and never without one, and the other frames are exactly those that skipped the window, in arrival order |
| `RxBaNode.BaNode.HistoryConserves` | WIFI/reorder.c:72-454 | over the node's history, also after its deletion, every buffer that arrived is in the list, freed, held, or leaked by the deletion |
| `RxBaNode.BaNode.BuffersConserved` | WIFI/reorder.c:72-454 | in a live node what is held is what is in the ring |
| `RxBaNode.BaNode.ReplayDetection` | WIFI/reorder.c:129-174 | the answer and the new counter are those of delivering any MPDU with that number and cipher |
| `RxBaNode.BaNode.SendFrames` | WIFI/reorder.c:201-216 | the buffers of one MPDU go to the list or back to the kernel, all or none |
| `RxBaNode.BaNode.SendReorderSkb` | WIFI/reorder.c:201-216 | one slot is delivered and emptied, the others are untouched |
| `RxBaNode.BaNode.ReleaseHead` | WIFI/reorder.c:246-266 | releasing the head is one move of the window by one |
| `RxBaNode.BaNode.HeadSlot` | WIFI/reorder.c:246-291 | the tests on the slot at win_start tell whether the head is buffered and complete |
| `RxBaNode.BaNode.SendWithGap` | WIFI/reorder.c:268-291 | the loop releases everything below the given number, gaps included |
| `RxBaNode.BaNode.SendInOrder` | WIFI/reorder.c:246-266 | the loop releases exactly the run of complete MPDUs at the head and returns the new start |
| `RxBaNode.BaNode.BetweenSeqloSeqhi` | WIFI/reorder.c:293-299 | the window drains and its limit follows |
| `RxBaNode.BaNode.FlushTo` | WIFI/reorder.c:301-315 | flush to a position and drain is the session's advance |
| `RxBaNode.BaNode.InsertMsdu` | WIFI/reorder.c:332-363 | an MSDU is taken exactly when its slot is free or holds an unfinished MPDU with the same packet number; it is joined last and buff_cnt follows |
| `RxBaNode.BaNode.OpenWindow` | WIFI/reorder.c:373-382 | room is made exactly when the frame lies beyond win_limit |
| `RxBaNode.BaNode.EnterWindow` | WIFI/reorder.c:373-382 | the branch for frames at or ahead of win_start, with its answer |
| `RxBaNode.BaNode.ReorderMsdu` | WIFI/reorder.c:365-400 | the three branches: enter the window, bypass, free |
| `RxBaNode.BaNode.KfreeSkb` | WIFI/reorder.c:394-397 | a rejected buffer is freed once |
| `RxBaNode.BaNode.QueueSkb` | WIFI/reorder.c:72-86 | a bypassing buffer is appended to the list |
| `RxBaNode.BaNode.ModReorderTimer` | WIFI/reorder.c:101-110 | the timer runs exactly while something is buffered; otherwise the timeout count is cleared |
| `RxBaNode.BaNode.StopReorderTimer` | WIFI/reorder.c:439-446 | a rejected frame that finds nothing buffered stops the timer |
| `RxBaNode.BaNode.SendOrderMsdu` | WIFI/reorder.c:176-199 | the fast path slides the window by one and delivers the frame |
| `RxBaNode.BaNode.ReorderAndSettle` | WIFI/reorder.c:430-446 | the general path of the session |
| `RxBaNode.BaNode.Process` | WIFI/reorder.c:402-454 | a frame or filter event takes the session's step on the ring, with every field agreeing afterwards |
| `RxBaNode.BaNode.GetFirstSeqno` | WIFI/reorder.c:899-915 | the scan loop returns the first complete MPDU, or one past win_tail |
| `RxBaNode.BaNode.RecoverLoss` | WIFI/reorder.c:917-957 | an effective timeout is the session's timeout |
| `RxBaNode.BaNode.CountTimeout` | WIFI/reorder.c:943-957 | the timeout count and the deactivation beyond sixty |
| `RxBaNode.BaNode.TimerCallbackRuns` | WIFI/reorder.c:917-957 | the callback takes the session's step |
| `RxBaNode.BaNode.Expire` | WIFI/reorder.c:917-927 | an expiring timer takes the session's step |
| `RxBaNode.BaNode.RequestResetPn` | WIFI/reorder.c:577-588 | reset_pn takes the session's step |
| `RxBaNode.BaNode.FreeSlots` | WIFI/reorder.c:218-230 | every slot is emptied and exactly the buffers of the ring are freed |
| `RxBaNode.BaNode.FlushReorderBuffer` | WIFI/reorder.c:218-230 | what the session held is freed and buff_cnt is zero |
| `RxBaNode.BaNode.DeleteNode` | WIFI/reorder.c:640-671 | a DELBA or a peer removal takes the session's deletion step |
| `TxSplit.PeerShareBounds` | WIFI/tx_msg.c:1029-1054 | a peer with packets gets at least one credit, never more than it has or than are left, and what it leaves fits the later peers |
| `TxSplit.PeerShares` | WIFI/tx_msg.c:1029-1054 | the peers of a category together get exactly the category's credits, none more than its queue |
| `TxFair.PeerSharesFair` | WIFI/tx_msg.c:1029-1054 | every peer with packets gets, while credits are left, its proportional share of the credits and packets that remain when its turn comes, rounded down but at least one |
| `TxFair.SplitIsFair` | WIFI/tx_msg.c:994-1055 | what a split takes off the queues is fair in that sense in every category |
| `TxFair.EqualPeersTheorem` | WIFI/tx_msg.c:1029-1054 | if all peers that have packets have equally many, their shares differ by at most one |
| `TxFair.EqualQueuesTheorem` | WIFI/tx_msg.c:1029-1054 | whatever the other queues hold, two peers with equally many packets get shares that differ by at most one more than their distance |
| `TxSplit.AcShareBounds` | WIFI/tx_msg.c:994-1028 | a category gets at most its queue and the credits left, at least its percentage or its queue, and leaves no more than the later categories hold |
| `TxSplit.AcShares` | WIFI/tx_msg.c:994-1028 | the categories together get exactly the credits granted, none more than its queue |
| `TxSplit.FloorTheorem` | WIFI/tx_msg.c:994-1028 | VO, VI and BE are each served at least the smaller of their queue and their percentage of the credits that reach them |
| `TxSplit.OverGrantExactly` | WIFI/tx_msg.c:994-1028 | with any ratio, a category stays within the credits if and only if its queue or its rounded percentage does |
| `TxSplit.QosRatio` | WIFI/wl_core.c:73-84 | two digits give a ratio of at most 99 |
| `TxSplit.OverGrantWitness` | WIFI/wl_core.c:73-84 | witness: the setting "D0" is a ratio of 200, with which ten credits give a category twenty packets |
| `TxQueues.Shares` | WIFI/tx_msg.c:994-1055 | every queue's share fits the queue and a row's shares add up to its category's credits |
| `TxQueues.ExactlyGranted` | WIFI/tx_msg.c:994-1055 | the two rounding loops together move exactly the granted number of packets |
| `TxQueues.TakenModeLen` | WIFI/tx_msg.c:994-1055 | the packets moved are as many as the categories' credits |
| `TxQueues.ModeLenUpdate` | WIFI/tx_msg.c:393-425 | changing one queue changes the mode's total by the same amount |
| `TxMode.DropCountBounds` | WIFI/tx_msg.c:815-830 | a late queue drops nothing exactly when its squared length is below the limit and everything exactly when it reaches the limit |
| `TxMode.DropCountExactly` | WIFI/tx_msg.c:815-830 | it drops the largest number of packets, times the limit, that the squared length covers |
| `TxMode.AgedModeAt` | WIFI/tx_msg.c:788-857 | a queue is untouched unless its first packet is late, and then loses its first packets, as many as the drop rule says |
| `TxMode.FullShares` | WIFI/tx_msg.c:968-986 | when everything is granted the splitter's shares are the whole queues |
| `TxMode.NoCreditsLeft` | WIFI/tx_msg.c:1029-1054 | once the credits are used up the remaining peers give nothing |
| `TxMode.AcStep` | WIFI/tx_msg.c:994-1028 | one turn of the category loop hands the rest of the shares on |
| `TxMode.Mode.constructor` | WIFI/tx_msg.c:1434-1501 | empty queues and counters |
| `TxMode.Mode.Enqueue` | WIFI/tx_msg.c:138-155 | a packet goes to the tail of its peer queue, or to the head if it is urgent, and both counters grow by one |
| `TxMode.Mode.TakeHead` | WIFI/tx_msg.c:393-425 | the first packets of one queue leave it and both counters follow |
| `TxMode.Mode.AddXmitListTail` | WIFI/tx_msg.c:393-425 | the moved packets keep their queue order at the tail of the transmit list; asked for more than there are, nothing moves and the counters fit no longer |
| `TxMode.Mode.HandleTxTimeout` | WIFI/tx_msg.c:788-857 | a queue whose head is late loses exactly the first packets, as many as the drop rule names; any other queue is untouched |
| `TxMode.Mode.CountRow` | WIFI/tx_msg.c:926-952 | the counts are the queue lengths after the late packets were dropped |
| `TxMode.Mode.CountQueues` | WIFI/tx_msg.c:926-952 | the same for all categories, with the mode's total |
| `TxMode.Mode.SplitPeers` | WIFI/tx_msg.c:1029-1054 | the peer loop moves the shares of one category and never divides by zero |
| `TxMode.Mode.CategoryCredits` | WIFI/tx_msg.c:994-1028 | the four branches and the correction compute the category's share |
| `TxMode.Mode.ServeCategory` | WIFI/tx_msg.c:994-1055 | one turn of the category loop moves the category's share, peer by peer |
| `TxMode.Mode.SplitCredits` | WIFI/tx_msg.c:994-1055 | the category loop moves the shares of all categories |
| `TxMode.Mode.SendRow` | WIFI/tx_msg.c:968-986 | one category is moved whole |
| `TxMode.Mode.SendAll` | WIFI/tx_msg.c:968-986 | with credits for everything all queues are moved whole |
| `TxMode.Mode.EachModeData` | WIFI/tx_msg.c:908-1057 | exactly min(credits, packets) packets move after late ones are dropped, each queue giving up its first and fairly by category; without credits nothing moves and an error is returned |
| `TxMode.Mode.FlushRow` | WIFI/tx_msg.c:204-238 | a category is emptied in order |
| `TxMode.Mode.FlushMode` | WIFI/tx_msg.c:204-238 | a mode is emptied, its counter is zero, its packets are given back in order |
| `TxMode.Mode.FlushQos` | WIFI/tx_msg.c:173-202 | one peer queue is emptied and mode_list_num falls by its length |
| `TxConservation.RoundConserves` | WIFI/tx_msg.c:908-1057 | one round sends each packet, drops it as late, or keeps it, with multiplicity |
| `TxConservation.ModeConserves` | WIFI/tx_msg.c:393-425 | what the queues held is what was taken plus what is left, for any shares |
| `TxConservation.AgedModeIsRest` | WIFI/tx_msg.c:788-857 | dropping late packets takes the heads of the late queues and nothing else |
| `TxConservation.LateEnqueues` | WIFI/tx_msg.c:908-1057 | packets that join the tails of the queues between the counting and the cuts change nothing of what the cuts move |
| `TxSteps.CountersExactly` | WIFI/tx_msg.c:138-238 | over every interleaving of enqueuing, cutting, dropping and flushing, with each locked region and each counter update a step, l_num and mode_list_num are right up to what is under way if and only if every update takes off what its operation took from the list |
| `TxSteps.StepExactly` | WIFI/tx_msg.c:173-238 | one step keeps them right exactly when it is not an inexact update |
| `TxSteps.QuietMeansRight` | WIFI/tx_msg.c:138-155 | with nothing under way every counter equals the length it counts |
| `TxSteps.ClearExactly` | WIFI/tx_msg.c:173-202 | the updates after a flush are exact if and only if nothing is queued and no other operation owes that counter anything |
| `TxSteps.GentleTheorem` | WIFI/tx_msg.c:788-857 | without flushes, cuts longer than the queue and drops that stop short, the counters stay right under every interleaving |
| `TxSteps.ThreadTheorem` | WIFI/tx_msg.c:788-1057 | however others enqueue while the transmit thread counts, drops at most the l_num it read and cuts at most what it counted, the counters stay right as long as nothing is flushed |
| `TxSteps.AllowedIsGentle` | WIFI/tx_msg.c:788-1057 | the thread's cuts then fit their queues and its drops complete |
| `TxSteps.EnqueueDuringFlush` | WIFI/tx_msg.c:173-202 | witness: a packet enqueued between the unlock of a flush and its updates stays queued while both counters are zero |
| `FlowCredit.IndexOf` | WIFI/tx_msg.c:546-585 | the first colour of a mode, if it has one |
| `FlowCredit.ClaimKeepsOneColour` | WIFI/tx_msg.c:546-585 | claiming a colour never gives a mode two, and it succeeds exactly when the mode owns one or one is shared |
| `FlowCredit.ClaimIdempotent` | WIFI/tx_msg.c:546-585 | claiming again changes nothing |
| `FlowLaws.ClaimLaw` | WIFI/tx_msg.c:546-585 | colour by colour: a mode that owns one keeps everything as it is; otherwise the colours of closed modes become shared and the first shared one becomes the mode's |
| `FlowLaws.GrantLaw` | WIFI/tx_msg.c:612-673 | colour by colour, while none is in debt: the own colour gives what it can, a shared one only when the own and the earlier shared ones are used up, and no other mode's gives anything |
| `FlowLaws.SharedInOrder` | WIFI/tx_msg.c:587-610 | a shared colour that is used leaves the earlier shared ones empty |
| `FlowLaws.ValueLaw` | WIFI/tx_msg.c:612-736 | both functions return at most a hundred, and -12 without credits |
| `FlowCredit.SharedGrantSum` | WIFI/tx_msg.c:587-610 | the shared colours pay the smaller of the need and what they have, or the whole need if one of them is in debt, as the comparison is unsigned |
| `FlowCredit.SharedGrantWithin` | WIFI/tx_msg.c:587-610 | while no colour is in debt each pays within its credits, and no owned one pays |
| `FlowCredit.GrantTheorem` | WIFI/tx_msg.c:612-673 | while no colour is in debt the greedy grant over all colours equals min(wanted, own + shared), stays within every colour and takes nothing from another mode's colour |
| `FlowCredit.GetNumIs` | WIFI/tx_msg.c:612-673 | the value granted in every state: an error if the need does not fit 8 bits, all that is wanted if the own colour covers it or a shared one is in debt, and otherwise the smaller of wanted and owned plus shared |
| `FlowCredit.AgreeExactly` | WIFI/tx_msg.c:612-736 | on the same state get and test return the same value if and only if, with a shared colour in debt, the credits in all cover the packets, and with a need beyond 8 bits they are not positive |
| `FlowCredit.GetIsEstimate` | WIFI/tx_msg.c:612-736 | in particular they always agree while no colour is in debt |
| `FlowCredit.PromiseIsPaid` | WIFI/tx_msg.c:692-736 | what the query promised a later grant pays in full, if no credits were lost, if and only if the need fits 8 bits |
| `FlowCredit.Stamp` | WIFI/tx_msg.c:738-754 | the colour of a packet number is the first whose running total reaches it |
| `FlowCredit.StampTheorem` | WIFI/tx_msg.c:738-754 | packets 1 to the grant always get a colour, and colour i gets exactly the numbers after the earlier colours' credits |
| `FlowCredit.StampedTheorem` | WIFI/tx_msg.c:776-785 | the packets stamped with a colour are exactly the credits debited from it |
| `FlowLedger.StepKeepsInv` | WIFI/tx_msg.c:612-786 | each step keeps the books balanced, every flow non-negative and a pending grant covered |
| `FlowLedger.RunKeepsInv` | WIFI/tx_msg.c:612-786 | the same over every run, from any balanced ledger |
| `FlowLedger.CreditTheorem` | WIFI/tx_msg.c:1103-1135 | over every run ring_cp = ring_ap + the four flows, no flow is negative and no mode owns two colours |
| `FlowLedger.ResetInsideExactly` | WIFI/tx_msg.c:1117-1133 | a reset between a grant and its report leaves the books off by exactly the packets in flight, so they balance if and only if there are none |
| `FlowLedger.ResetTakesAllExactly` | WIFI/tx_msg.c:1117-1133 | the reset loop takes all flows off ring_cp if and only if ring_cp does not become zero before the last credits |
| `FlowLedger.CoveredReset` | WIFI/tx_msg.c:1117-1133 | it does whenever ring_cp covers the flows |
| `FlowLedger.BooksRunExactly` | WIFI/tx_msg.c:756-786 | with resets and closes allowed anywhere, the books balance with no flow negative throughout a run if and only if every success is reported while its grant is still recorded and every colour can pay its part |
| `FlowLedger.BooksExactly` | WIFI/tx_msg.c:756-786 | of all events only a report of success can spoil the books, and it does exactly when the grant is not covered |
| `FlowLedger.CloseInsideExactly` | WIFI/tx_msg.c:351-363 | after a close of everything in flight and a report of success the books balance, and no flow is negative if and only if nothing was pending |
| `FlowLedger.ResetInFlight` | WIFI/tx_msg.c:1117-1133 | witness: a run with a reset in flight ends with three packets sent against no credits received |
| `FlowLedger.CloseInFlight` | WIFI/tx_msg.c:351-363 | witness: a run with a close in flight ends with a colour three credits in debt |
| `FlowLedger.GrantFromDebt` | WIFI/tx_msg.c:587-736 | witness: after that run five packets are granted although there are no credits, where the query returns an error |
| `FlowLedger.ResetStopsShort` | WIFI/tx_msg.c:1117-1133 | witness: in that run five more credits and a reset leave ring_cp at zero where three packets were sent |
| `FlowControl.TxMsg.constructor` | WIFI/tx_msg.c:1445-1501 | no credits, every colour shared |
| `FlowControl.TxMsg.FindColorPerMode` | WIFI/tx_msg.c:546-585 | the three loops make the claim and return the mode's first colour |
| `FlowControl.TxMsg.GetSharedNum` | WIFI/tx_msg.c:587-610 | the loop with its unsigned comparison and early end records the shared grant and returns its sum, also with colours in debt |
| `FlowControl.TxMsg.TestSharedNum` | WIFI/tx_msg.c:675-690 | the sum of all shared credits |
| `FlowControl.TxMsg.GetSendNum` | WIFI/tx_msg.c:612-673 | every return: nothing, bus without credits, error, or the granted number with the grant recorded, also with colours in debt |
| `FlowControl.TxMsg.TestSendNum` | WIFI/tx_msg.c:691-736 | the estimate, without recording a grant |
| `FlowControl.TxMsg.SetColorBit` | WIFI/tx_msg.c:738-754 | the loop finds the stamp of the packet number |
| `FlowControl.TxMsg.HandleTxReturn` | WIFI/tx_msg.c:756-786 | success debits every colour and counts the packets; failure only forgets the grant |
| `FlowControl.TxMsg.ProcessCredit` | WIFI/tx_msg.c:1103-1135 | credits are added, or a flow-control event of four zeros resets them |
| `FlowControl.TxMsg.ResetLoop` | WIFI/tx_msg.c:1117-1133 | the loop clears all flows and deducts each from ring_cp only while that is not zero |
| `FlowControl.TxMsg.AddShareCredit` | WIFI/tx_msg.c:527-544 | stopping at the first colour shares all the mode has, as it has at most one |
| `FlowControl.TxMsg.ShareColours` | WIFI/tx_msg.c:363-372 | every colour of the closed mode becomes shared |
| `FlowControl.TxMsg.AfterClose` | WIFI/tx_msg.c:335-383 | the close of the last open mode forgets all credits; another one shares the closed mode's colours; the queue flush at the end is never reached, as it asks the first mode found open to be closed |
| `Checksum.DoCsum` | WIFI/tx_msg.c:1559-1611 | for every length and start address the result is the ones'-complement sum of the little-endian 16-bit words: congruent modulo 65535, at most 65535, and zero only for all-zero data |
| `Checksum.ByteWeight` | WIFI/tx_msg.c:1559-1611 | in the sum a byte counts once at an even position and 256 times at an odd one |
| `Checksum.SumFromEven` | WIFI/tx_msg.c:1570-1605 | the part after the odd byte stands for the same sum whether or not a halfword comes first |
| `Checksum.SumWords` | WIFI/tx_msg.c:1582-1594 | the word loop with its deferred carry keeps the ones'-complement value |
| `Checksum.SumTail` | WIFI/tx_msg.c:1595-1606 | the trailing halfword and byte complete the sum |
| `Checksum.CarryStep` | WIFI/tx_msg.c:1582-1594 | the comparison that detects a carry is exact: no carry is lost or invented |
| `Checksum.ShiftScales` | WIFI/tx_msg.c:1559-1611 | starting one byte late scales the sum by 256 modulo 65535 |
| `Checksum.SwapUndoesShift` | WIFI/tx_msg.c:1606-1611 | swapping the result's bytes undoes the shift |
| `Checksum.ReduceSame` | WIFI/tx_msg.c:1550-1557 | two folds reduce a sum to its ones'-complement value |
| `Checksum.ComplementVerifies` | WIFI/tx_msg.c:1618-1655 | overwriting a check field that held the pseudo-header sum with the complement of the whole sum makes a receiver's sum of pseudo-header and packet all ones, for every length (section 1 of RFC 1071) |
| `Crc16.TableStepIsFeed` | WIFI/cmdevt.c:60-64 | one table look-up does four bit-serial divisions by the reflected polynomial 0xA001 |
| `Crc16.Crc` | WIFI/cmdevt.c:185-197 | the loop computes the bit-serial remainder from 0xFFFF of the whole buffer |
| `Crc16.BitLaw` | WIFI/cmdevt.c:185-197 | the register is shifted and 0xA001 subtracted if the bit shifted out differs from the message bit |
| `Crc16.CheckValue` | WIFI/cmdevt.c:185-197 | the checksum of the nine digits is 0x4B37 |
| `Crc16.BurstDetected` | WIFI/cmdevt.c:185-197 | two buffers that differ only inside one byte or two neighbouring bytes have different checksums |
| `Crc16.ResidueZero` | WIFI/cmdevt.c:740-750 | running over the data and its appended little-endian checksum ends with zero |
| `Crc16.WordIsXor` | WIFI/cmdevt.c:185-197 | two message bytes act on the register as one 16-bit difference |
| `Crc16.FeedInjective` | WIFI/cmdevt.c:185-197 | equal bytes keep different registers different |
| `MbufPool.PartitionTheorem` | BSP/wcn_bus.c:141-235 | over every run of taking and giving back lists each mbuf is in exactly one of the free chain and the outstanding lists |
| `MbufPool.AllocFreeRoundTrip` | BSP/wcn_bus.c:141-235 | giving back the list just taken restores the same chain |
| `MbufPool.TakeLemma` | BSP/wcn_bus.c:141-184 | cutting the chain leaves two NULL-terminated chains and the partition intact |
| `MbufPool.GiveLemma` | BSP/wcn_bus.c:207-235 | splicing a list in front leaves one NULL-terminated chain and the partition intact |
| `MbufPool.BufferPool.constructor` | BSP/wcn_bus.c:98-129 | the loop links all mbufs in order into one chain |
| `MbufPool.BufferPool.ListAlloc` | BSP/wcn_bus.c:141-184 | returns a NULL-terminated chain of exactly min(num, free) mbufs with its head and tail, even if the pool drained after the unlocked test; otherwise an error and no change |
| `MbufPool.BufferPool.ListFree` | BSP/wcn_bus.c:207-235 | splices a list of the pool in front of the chain; an empty list is an error and no change |
| `TcpAck.BeforeIsOrder` | WIFI/tcp_ack.h:26 | the 32-bit comparison is the order of the unbounded numbers up to 2^31 forward and below 2^31 backward |
| `TcpAck.ThinningTheorem` | WIFI/tcp_ack.c:317-398 | over one occupancy every message is exactly one of transmitted, discarded or held; the newest number seen is held or was transmitted; transmitted numbers never go back |
| `TcpAck.RunKeeps` | WIFI/tcp_ack.c:317-398 | the slot invariant over every run, and no acknowledgement seen is newer than the newest |
| `TcpAck.RunPlaces` | WIFI/tcp_ack.c:317-398 | each message is placed once over every run |
| `TcpAck.StepKeepsInv` | WIFI/tcp_ack.c:317-398 | one step keeps: newest is held or last transmitted, nothing discarded is newer |
| `TcpAckLaws.PushTheorem` | WIFI/tcp_ack.c:362-381 | with a push pending, an acknowledgement that covers the pushed data is the last message sent and ends the push; one that does not is held while something is in transmission or the threshold is not reached, and the push stays |
| `TcpAckLaws.PushThenAck` | WIFI/tcp_ack.c:400-423 | after a received push the next acknowledgement that covers it is transmitted at once |
| `TcpAckLaws.OrdinaryLaw` | WIFI/tcp_ack.c:356-384 | the whole slot after an ordinary acknowledgement, in unbounded numbers |
| `TcpAckLaws.UrgentLaw` | WIFI/tcp_ack.c:333-355 | the whole slot after an urgent one |
| `TcpAckLaws.OlderLaw` | WIFI/tcp_ack.c:345-351 | an older one is discarded and changes nothing else |
| `TcpAckLaws.FlushLaw` | WIFI/tcp_ack.c:14-42 | the flush transmits what is held unless something of the flow is still in transmission |
| `TcpAckLaws.OtherLaw` | WIFI/tcp_ack.c:400-513 | the slot after occupation, a completed transmission, a push and an expired timer |
| `TcpAck.WatchLostExactly` | WIFI/tcp_ack.c:493-513 | a held acknowledgement is left with no timer, callback or transmission if and only if a transmission completes after the flush callback has run |
| `TcpAck.WatchedRunExactly` | WIFI/tcp_ack.c:493-513 | over every occupancy a held acknowledgement is watched throughout if and only if no transmission completes while one is held with neither timer nor callback |
| `TcpAck.HeldAckCanStrand` | WIFI/tcp_ack.c:14-42 | witness: a run after which an acknowledgement is held and nothing will release it |
| `TcpAckFilter.AckSlot.constructor` | WIFI/tcp_ack.c:469-487 | the first acknowledgement of a flow occupies the slot and is transmitted |
| `TcpAckFilter.AckSlot.PushAcked` | WIFI/tcp_ack.c:333-384 | whether the acknowledgement is beyond the pushed sequence number, in unbounded numbers |
| `TcpAckFilter.AckSlot.DropHeld` | WIFI/tcp_ack.c:333-384 | a held message gives way and is discarded once |
| `TcpAckFilter.AckSlot.HandleUrgent` | WIFI/tcp_ack.c:333-355 | an urgent acknowledgement is transmitted and the held one is discarded |
| `TcpAckFilter.AckSlot.HandleOrdinary` | WIFI/tcp_ack.c:356-384 | an ordinary one is transmitted when its turn has come or it covers pushed data, and held otherwise |
| `TcpAckFilter.AckSlot.Handle` | WIFI/tcp_ack.c:317-398 | every branch takes the slot's step, and a message is reported unfiltered only if it is transmitted |
| `TcpAckFilter.AckSlot.TimerExpires` | WIFI/tcp_ack.c:14-42 | an expiring flush timer takes the slot's step |
| `TcpAckFilter.AckSlot.TimerFires` | WIFI/tcp_ack.c:14-42 | the flush callback takes the slot's step, also when the timer was deleted or re-armed after it expired |
| `TcpAckFilter.AckSlot.MoveMsg` | WIFI/tcp_ack.c:493-513 | a completed transmission takes the slot's step |
| `TcpAckFilter.AckSlot.RxPush` | WIFI/tcp_ack.c:400-423 | received pushed data takes the slot's step |
| `TcpAckFilter.AckTable.constructor` | WIFI/tcp_ack.c:44-73 | an empty table with slot 0 free |
| `TcpAckFilter.AckTable.Match` | WIFI/tcp_ack.c:227-252 | a slot is returned if and only if a busy one has the flow |
| `TcpAckFilter.AckTable.Update` | WIFI/tcp_ack.c:254-276 | exactly the idle slots are given up, the counter stays right and the free index is the lowest of them |
| `TcpAckFilter.AckTable.AllocIndex` | WIFI/tcp_ack.c:279-314 | the free index or the first idle slot is handed out unless max_num says all are taken; in a valid table it is one already handed out if and only if no free index is known and the first idle slot is still unoccupied |
| `TcpAckFilter.AckTable.OccupySlot` | WIFI/tcp_ack.c:470-487 | the slot becomes busy for the flow; if it was busy already max_num stays one too high; the flow has one slot if and only if no other slot was occupied for it since the search |
| `TcpAckFilter.SameSlotTwice` | WIFI/tcp_ack.c:469-487 | witness: two senders that allocate before either occupies get the same slot, and max_num counts two for one busy slot |
| `Defrag.Lookup` | WIFI/defrag.c:21-45 | the first node of the station and traffic identifier |
| `Defrag.StepTheorem` | WIFI/defrag.c:136-218 | each step keeps the nodes consistent, and a completed queue that begins with fragment 0 is exact: its fragments are 0 to last of one MSDU, the copy fills exactly node->msdu_len bytes and the stored length is that minus the offset |
| `Defrag.Run` | WIFI/defrag.c:136-268 | every run of fragments and purges keeps the three nodes consistent |
| `Defrag.RunTheorem` | WIFI/defrag.c:136-268 | in every state reached by fragments and purges the next output of a queue begun by fragment 0 is exact |
| `Defrag.AssembledLength` | WIFI/defrag.c:177-203 | the assembled bytes are as many as the running length says |
| `Defrag.StepConserves` | WIFI/defrag.c:47-218 | every fragment is kept by a node or given back, once |
| `DefragBytes.ByteAt` | WIFI/defrag.c:136-203 | byte by byte: the first fragment stands in front up to its end, and byte i that a later one adds is byte offset + 14 + i of its buffer, or + 12 without a SNAP header |
| `DefragBytes.CutAndJoin` | WIFI/defrag.c:177-203 | reassembling fragments that carry the parts of a payload gives the payload back, behind the first fragment's head |
| `DefragBytes.PayloadRoundTrip` | WIFI/defrag.c:136-218 | a payload cut into a train of fragments comes out as that payload with its length, interleaved with others, while at most three MSDUs are open |
| `DefragNodes.TargetLaw` | WIFI/defrag.c:66-134 | a later fragment goes to the first node of its key if that waits for it; a first fragment goes there if its number is ahead by less than half the space, and is refused otherwise |
| `DefragNodes.NewKeyLaw` | WIFI/defrag.c:66-134 | without a node of its key a later fragment is refused and a first one takes the last node |
| `DefragExact.ExactTheorem` | WIFI/defrag.c:136-218 | over every run the next output is exact if and only if its queue began with fragment 0 or on a node whose leftover length was that fragment's offset and header; otherwise allocated and written bytes differ by exactly that surplus |
| `DefragExact.OutputExactly` | WIFI/defrag.c:136-218 | the same in any state with correct marks: bytes allocated minus bytes written is the mark recorded when the queue began |
| `DefragExact.RunKeepsMarks` | WIFI/defrag.c:47-218 | over every run the mark of an open queue is its node's surplus, though marks are only written when a queue begins |
| `DefragExact.AppendSurplus` | WIFI/defrag.c:146-152 | appending to a begun queue keeps the surplus; beginning one leaves the node's length minus the fragment's offset and header |
| `DefragExact.OrphanAfterRecover` | WIFI/defrag.c:235-268 | witness: after a recovery purged fragment 0, fragment 1 comes out announced as 24 bytes with 18 written |
| `DefragExact.OrphanNotExact` | WIFI/defrag.c:21-45 | witness: a second fragment on a fresh entry copies 14 bytes to a buffer of none |
| `DefragExact.FirstFragmentRefusedExactly` | WIFI/defrag.c:66-94 | on a fresh entry a first fragment is refused if and only if its key is (0, 0) and its number is not after 0 |
| `DefragExact.ZeroKeyRefusedExactly` | WIFI/defrag.c:66-94 | over every run without a fragment of key (0, 0), the first one is refused if and only if a zeroed node remains and its number is not after 0 |
| `DefragNodes.DisplacesOnlyWhenFull` | WIFI/defrag.c:96-110 | after every orderly run a first fragment of a new station or identifier takes the last node, and displaces an unfinished MSDU if and only if all three nodes are collecting |
| `DefragNodes.OrderlyRunExactly` | WIFI/defrag.c:66-268 | open nodes stay in front of idle ones throughout a run if and only if every event of it is orderly |
| `DefragNodes.OrderlyExactly` | WIFI/defrag.c:66-268 | one event keeps open nodes in front if and only if it neither opens a node behind an idle one nor purges a node in front of another station's open one |
| `DefragNodes.StepOpenFirst` | WIFI/defrag.c:66-218 | a fragment keeps open nodes in front if and only if it is not an orphan that opens a node behind an idle one |
| `DefragNodes.PlainIsOrderly` | WIFI/defrag.c:66-218 | a run without purges and orphans is orderly |
| `DefragNodes.DisplacesBesideIdle` | WIFI/defrag.c:96-110 | witness: three stations begin, the newest is purged, and a fourth displaces the oldest although a node is idle |
| `DefragRoundTrip.InterleavedRoundTrip` | WIFI/defrag.c:136-218 | a train interleaved with fragments of other keys and purges of other stations comes out as its first fragment followed by the later payloads, while at most three MSDUs are open and events are orderly |
| `DefragRoundTrip.RoundTrip` | WIFI/defrag.c:136-218 | the same from any state as long as the train's node is neither purged nor taken for another key |
| `DefragRoundTrip.UncrowdedSpares` | WIFI/defrag.c:96-110 | with at most three MSDUs open and orderly events an open node is never taken |
| `DefragEntry.Entry.constructor` | WIFI/defrag.c:271-292 | three zeroed nodes |
| `DefragEntry.Entry.Search` | WIFI/defrag.c:21-45 | the search loop finds the first matching node |
| `DefragEntry.Entry.Copy` | WIFI/defrag.c:177-203 | the copy loop builds the assembled bytes |
| `DefragEntry.Entry.GetNode` | WIFI/defrag.c:115-134 | both kinds of fragment find the specified node or none |
| `DefragEntry.Entry.Process` | WIFI/defrag.c:136-233 | an unfragmented frame passes through; a fragment takes the step and gives back exactly the buffers it should |
| `DefragEntry.Entry.Recover` | WIFI/defrag.c:235-268 | the station's queues are purged, the other nodes are untouched and no buffer is lost |

## Left out

Receive reordering:

- a second ADDBA on an existing node, which keeps the old ring; node lookup and its cache; the ADDBA, DELBA and BAR commands themselves; the reader of the output list; frames before activation
- `bar_send_ba_buffer`, which only code that is compiled out reaches
- window sizes outside 1 to 2047; the driver takes the size from a 16-bit field without a check
- filter events that find an inactive session or an old number the driver would pass up: the code would follow a null buffer pointer there, so an event without a buffer is only allowed elsewhere; and an MPDU has fewer MSDUs than its 16-bit counter can count

Transmit path:

- `sprdwl_intf_tx_list` and the retry loop around it (a send succeeds or fails as an event), the transmit thread, the PCIe path, and the choice between modes
- wrap-around of `ring_cp`, `ring_ap`, `l_num`, flows beyond 31 bits and the jiffies clock: counters and deadlines are unbounded
- TxMode.Mode.EachModeData: packets enqueued between its counting and its cuts are not part of its contract; `LateEnqueues` covers what is moved then if they join the tails, and `TxSteps` the counters
- TxMode.Mode.HandleTxTimeout: its locked regions are one step; `TxSteps` separates them
- TxMode.Mode.FlushMode: clears the counters in the same step as the lists; `TxSteps` separates them
- TxMode.Mode.FlushQos: clears the counters in the same step as the list; `TxSteps` separates them
- `TxSteps` keeps lengths only, not which packets
- admission control and the classification of packets into categories

Smaller engines:

- the big-endian branch of `do_csum`; buffers are byte sequences with a start address
- Crc16.Crc: requires fewer than 65536 bytes, as the length parameter has 16 bits
- TcpAck.ThinningTheorem: the order of transmission is that of the locked decisions; the calls to `sprdwl_intf_tx` after the unlock may overtake each other
- parsing of TCP and IP headers, window scaling, slots recycled while a message is held, the tuning commands, and the retry of lock-free reads in the thinning filter
- reassembled totals of 65536 bytes and more, where the 16-bit offset wraps; fragments shorter than their header; the descriptor stored in front of the data is modelled as fields, so the rewritten length is returned beside the copied bytes
- lists split or merged by the pool's clients before they give them back, the debug checks of the pool, and its removal
- cfg80211, netlink, firmware commands, debugfs, file parsing and probing, which would only add easy members
