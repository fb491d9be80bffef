/** Every step of the protocol keeps the invariant. */
module Preservation {
  import opened Common
  import opened Ring
  import opened Protocol
  import opened Invariant

  // ---- small facts ----

  lemma CountAdd(es: set<Event>, e: Event, i: int)
    requires e !in es
    ensures |OfTxn(es + {e}, i)| == |OfTxn(es, i)| + (if e.txn == i then 1 else 0)
  {
    if e.txn == i {
      assert OfTxn(es + {e}, i) == OfTxn(es, i) + {e};
    } else {
      assert OfTxn(es + {e}, i) == OfTxn(es, i);
    }
  }

  // More events accounted for, everything else on the server's side unchanged.
  ghost predicate Grows(s: Sys, s': Sys) {
    && s'.log == s.log && s'.start == s.start && s'.policy == s.policy
    && s'.slotExists == s.slotExists && s'.flushed == s.flushed && s'.abandoned == s.abandoned
    && s.acked <= s'.acked && s.skipped <= s'.skipped && s.dropped <= s'.dropped
    && (s.policy == ExitOnError ==> s'.dropped == s.dropped)
  }

  lemma HandledGrows(s: Sys, s': Sys, i: nat)
    requires Grows(s, s') && i < |s.log| && Handled(s, i)
    ensures Handled(s', i)
  {
  }

  // A step of the running process that neither moves the tail back nor starts
  // or ends the snapshot keeps what the server relies on.
  lemma ServerKept(s: Sys, c: Client, s': Sys, c': Client)
    requires Inv(s) && s.proc == Some(c) && Grows(s, s') && s'.proc == Some(c')
    requires ClientInv(s', c')
    requires c'.first == c.first && c.next <= c'.next && Done(c) <= Done(c')
    ensures Inv(s')
  {
    forall i | 0 <= i < |s.log| && Handled(s, i)
      ensures Handled(s', i)
    {
      HandledGrows(s, s', i);
    }
    if SnapshotPromised(s') && !SnapshotPromised(s) {
      assert c.ctx.takingSnapshot;
      PoppedHandled(s', c', 0);
    }
  }

  // ---- receiving a transaction ----

  // The ring, the transactions and the charges are untouched.
  ghost predicate SameRing(c: Client, c': Client) {
    && c'.ctx.slots == c.ctx.slots && c'.ctx.head == c.ctx.head && c'.ctx.tail == c.ctx.tail
    && c'.ctx.takingSnapshot == c.ctx.takingSnapshot
    && c'.first == c.first && c'.next == c.next && c'.inTxn == c.inTxn
    && Charged(c') == Charged(c)
  }

  lemma SameRingKeeps(log: Log, c: Client, c': Client, d: int)
    requires SameRing(c, c')
    requires Holds(log, c, d) && Slotted(log, c, d) && Drained(c, d) && Taking(log, c, d)
    ensures Holds(log, c', d) && Slotted(log, c', d) && Drained(c', d) && Taking(log, c', d)
    ensures Done(c') == Done(c)
  {
    forall i | Live(c', d, i)
      ensures SlotMatches(log, c', i)
    {
      assert Live(c, d, i) && SlotMatches(log, c, i);
    }
  }

  // Moving on to the next row, its event being charged or accounted for.
  lemma NextRowKeeps(s: Sys, c: Client, s': Sys, c': Client, d: int)
    requires SameRing(c, c') && Grows(s, s') && c.inTxn && c'.row == c.row + 1
    requires Holds(s.log, c, d) && Owned(s.log, c, d) && Complete(s, c)
    requires InLog(s.log, c.Current()) && Live(c, d, c.next)
    requires c.Current() in Charged(c') || Accounted(s', c.Current())
    requires c'.envelopes.Keys + c'.failed <= c.envelopes.Keys + c.failed + {c.Current()}
    requires c'.envelopes.Keys !! c'.failed
    requires forall e :: e in c'.envelopes ==>
               if e == c.Current() then c'.envelopes[e] == c.ctx.head
               else e in c.envelopes && c'.envelopes[e] == c.envelopes[e]
    ensures Holds(s'.log, c', d) && Owned(s'.log, c', d) && Complete(s', c')
  {
  }

  // `Shaped` asks for no more than this when the ring stays as it is.
  lemma SameRingShaped(log: Log, c: Client, c': Client)
    requires SameRing(c, c') && Shaped(log, c) && !InSnapshot(log, c)
    requires c.inTxn ==> c'.row <= |log[c.next].rows|
    requires !c.inTxn ==> c'.row == 0
    requires c'.sending ==> c'.inTxn && c'.row < |log[c.next].rows|
    requires c.loaded ==> c'.loaded
    ensures Shaped(log, c')
  {
  }

  lemma SkipKeeps(s: Sys, c: Client, step: Step, s': Sys)
    requires ClientInv(s, c) && (step.Skip? || step.Discard?)
    requires ClientEnabled(s, c, step) && s' == ClientApply(s, c, step)
    ensures ClientInv(s', s'.proc.value) && Done(s'.proc.value) == Done(c)
  {
    var c' := s'.proc.value;
    assert Charged(c') == Charged(c);
    SameRingKeeps(s.log, c, c', Done(c));
    NextRowKeeps(s, c, s', c', Done(c));
  }

  lemma EnqueueKeeps(s: Sys, c: Client)
    requires ClientInv(s, c) && ClientEnabled(s, c, Enqueue)
    ensures ClientInv(s, DoEnqueue(c)) && Done(DoEnqueue(c)) == Done(c)
  {
    var c' := DoEnqueue(c);
    assert Charged(c') == Charged(c);
    SameRingKeeps(s.log, c, c', Done(c));
    NextRowKeeps(s, c, s, c', Done(c));
    SameRingShaped(s.log, c, c');
  }

  lemma SendFailsKeeps(s: Sys, c: Client)
    requires ClientInv(s, c) && ClientEnabled(s, c, SendFails)
    ensures ClientInv(s, DoSendFails(c)) && Done(DoSendFails(c)) == Done(c)
  {
    var c' := DoSendFails(c);
    assert Charged(c') == Charged(c);
    SameRingKeeps(s.log, c, c', Done(c));
    NextRowKeeps(s, c, s, c', Done(c));
    SameRingShaped(s.log, c, c');
  }

  // Nothing but positions and the active list may differ.
  lemma SameRowKeeps(s: Sys, c: Client, c': Client)
    requires ClientInv(s, c) && SameRing(c, c') && Shaped(s.log, c')
    requires c'.row == c.row && c'.envelopes == c.envelopes && c'.failed == c.failed
    requires c'.sending == c.sending
    requires Positions(s, c', Done(c))
    ensures ClientInv(s, c') && Done(c') == Done(c)
  {
    SameRingKeeps(s.log, c, c', Done(c));
    assert forall e :: Seen(s.log, c', e) ==> Seen(s.log, c, e);
  }

  lemma FrameEndKeeps(s: Sys, c: Client, pos: Lsn)
    requires ClientInv(s, c) && CanEndFrame(s, c, pos) && ValidLog(s.log, s.start)
    ensures ClientInv(s, c.(ctx := c.ctx.Received(pos)))
    ensures Done(c.(ctx := c.ctx.Received(pos))) == Done(c)
  {
    var c' := c.(ctx := c.ctx.Received(pos));
    assert Charged(c') == Charged(c);
    assert SameRing(c, c');
    SameRingShaped(s.log, c, c');
    FrameEndPositions(s, c, pos, Done(c));
    SameRowKeeps(s, c, c');
  }

  lemma FrameEndPositions(s: Sys, c: Client, pos: Lsn, d: int)
    requires Positions(s, c, d) && CanEndFrame(s, c, pos) && ValidLog(s.log, s.start)
    ensures Positions(s, c.(ctx := c.ctx.Received(pos)), d)
  {
  }

  // ---- begin ----

  lemma BeginShape(s: Sys, c: Client, pos: Lsn)
    requires Shaped(s.log, c) && CanBegin(s, c, pos)
    ensures Shaped(s.log, DoBegin(s, c, pos)) && Done(DoBegin(s, c, pos)) == Done(c)
    ensures Holds(s.log, DoBegin(s, c, pos), Done(c))
  {
  }

  // The slot of every transaction in flight stays where it was.
  lemma BeginSlotOf(c: Client, c': Client, i: int)
    requires c.ctx.Shape() && c'.ctx.Shape()
    requires c'.ctx.head == Wrap(c.ctx.head + 1) && c'.End() == c.End() + 1
    requires c'.End() - XACT_LIST_LEN < i < c.End()
    ensures SlotOf(c', i) == SlotOf(c, i) != c'.ctx.head
  {
  }

  lemma BeginSlots(s: Sys, c: Client, pos: Lsn, d: int)
    requires CanBegin(s, c, pos) && Holds(s.log, c, d) && Holds(s.log, DoBegin(s, c, pos), d)
    requires Slotted(s.log, c, d) && Owned(s.log, c, d)
    ensures Slotted(s.log, DoBegin(s, c, pos), d)
  {
    var c' := DoBegin(s, c, pos);
    assert Charged(c') == Charged(c);
    forall i | Live(c', d, i)
      ensures SlotMatches(s.log, c', i)
    {
      if i < c.next {
        assert Live(c, d, i) && SlotMatches(s.log, c, i);
        BeginSlotOf(c, c', i);
      } else {
        assert SlotOf(c', i) == c'.ctx.head;
        assert OfTxn(Charged(c), i) == {};
      }
    }
  }

  lemma BeginOwned(s: Sys, c: Client, pos: Lsn, d: int)
    requires CanBegin(s, c, pos) && Holds(s.log, c, d) && Holds(s.log, DoBegin(s, c, pos), d)
    requires Owned(s.log, c, d) && Complete(s, c)
    ensures Owned(s.log, DoBegin(s, c, pos), d) && Complete(s, DoBegin(s, c, pos))
  {
  }

  lemma BeginPositions(s: Sys, c: Client, pos: Lsn, d: int)
    requires CanBegin(s, c, pos) && Positions(s, c, d) && Taking(s.log, c, d) && ValidLog(s.log, s.start)
    ensures Positions(s, DoBegin(s, c, pos), d)
  {
  }

  lemma BeginKeeps(s: Sys, c: Client, pos: Lsn)
    requires ClientInv(s, c) && CanBegin(s, c, pos) && ValidLog(s.log, s.start)
    ensures ClientInv(s, DoBegin(s, c, pos)) && Done(DoBegin(s, c, pos)) == Done(c)
  {
    var c', d := DoBegin(s, c, pos), Done(c);
    BeginShape(s, c, pos);
    BeginSlots(s, c, pos, d);
    BeginOwned(s, c, pos, d);
    BeginPositions(s, c, pos, d);
    assert Charged(c') == Charged(c);
    assert Taking(s.log, c', d);
  }

  // ---- charging a row ----

  lemma StartSendSlots(s: Sys, c: Client, d: int)
    requires Holds(s.log, c, d) && Slotted(s.log, c, d) && Drained(c, d)
    requires c.inTxn && c.Current() !in Charged(c)
    ensures Holds(s.log, DoStartSend(c), d) && Slotted(s.log, DoStartSend(c), d) && Drained(DoStartSend(c), d)
  {
    var c' := DoStartSend(c);
    assert Charged(c') == Charged(c) + {c.Current()};
    forall i | Live(c', d, i)
      ensures SlotMatches(s.log, c', i)
    {
      assert Live(c, d, i) && SlotMatches(s.log, c, i);
      CountAdd(Charged(c), c.Current(), i);
      assert SlotOf(c', i) == SlotOf(c, i);
    }
    assert OfTxn(Charged(c), d) <= OfTxn(Charged(c'), d);
  }

  lemma CurrentIsNew(s: Sys, c: Client)
    requires ClientInv(s, c) && c.inTxn && !c.sending
    ensures c.Current() !in Charged(c)
  {
  }

  lemma StartSendOwned(s: Sys, c: Client, d: int)
    requires Holds(s.log, c, d) && Owned(s.log, c, d) && Complete(s, c)
    ensures Holds(s.log, DoStartSend(c), d) && Owned(s.log, DoStartSend(c), d) && Complete(s, DoStartSend(c))
  {
  }

  lemma StartSendShaped(s: Sys, c: Client)
    requires Shaped(s.log, c) && ClientEnabled(s, c, StartSend)
    ensures Shaped(s.log, DoStartSend(c)) && Done(DoStartSend(c)) == Done(c)
    ensures !InSnapshot(s.log, c)
  {
  }

  lemma StartSendKeeps(s: Sys, c: Client)
    requires ClientInv(s, c) && ClientEnabled(s, c, StartSend)
    ensures ClientInv(s, DoStartSend(c)) && Done(DoStartSend(c)) == Done(c)
  {
    CurrentIsNew(s, c);
    StartSendShaped(s, c);
    StartSendSlots(s, c, Done(c));
    StartSendOwned(s, c, Done(c));
  }

  // ---- popping ----

  // What holds of a client between a change of its slots and the checkpoint loop.
  ghost predicate PreDrain(s: Sys, c: Client, d: int) {
    && Holds(s.log, c, d)
    && Slotted(s.log, c, d)
    && Owned(s.log, c, d)
    && Complete(s, c)
    && Positions(s, c, d)
    && Taking(s.log, c, d)
    && (s.policy == ExitOnError ==> c.failed == {})
  }

  // The tail has moved over transactions with nothing outstanding.
  ghost predicate TailMoved(log: Log, c: Client, d: int, c': Client, d': int) {
    && Holds(log, c, d) && Holds(log, c', d') && d <= d' <= c.next
    && c' == c.(ctx := c'.ctx)
    && c'.ctx.slots == c.ctx.slots && c'.ctx.head == c.ctx.head
    && forall i :: d <= i < d' ==> OfTxn(Charged(c), i) == {}
  }

  lemma TailMovedSlots(log: Log, c: Client, d: int, c': Client, d': int)
    requires TailMoved(log, c, d, c', d') && Slotted(log, c, d)
    ensures Slotted(log, c', d')
  {
    assert Charged(c') == Charged(c);
    forall i | Live(c', d', i)
      ensures SlotMatches(log, c', i)
    {
      assert Live(c, d, i) && SlotMatches(log, c, i);
    }
  }

  lemma TailMovedOwned(s: Sys, c: Client, d: int, c': Client, d': int)
    requires TailMoved(s.log, c, d, c', d') && Owned(s.log, c, d) && Complete(s, c)
    ensures Owned(s.log, c', d') && Complete(s, c')
  {
    assert Charged(c') == Charged(c);
    forall e | e in c'.envelopes.Keys + c'.failed
      ensures Seen(s.log, c', e) && Live(c', d', e.txn)
    {
      assert Live(c, d, e.txn);
      assert e in OfTxn(Charged(c), e.txn);
    }
    assert forall e :: Seen(s.log, c', e) <==> Seen(s.log, c, e);
  }

  lemma DrainedPositions(s: Sys, c: Client, c': Client, n: nat)
    requires Shaped(s.log, c) && c'.ctx.Shape() && PreDrain(s, c, Done(c))
    requires DrainedBy(s.log, c, n, c') && ValidLog(s.log, s.start)
    ensures Positions(s, c', Done(c'))
  {
  }

  lemma DrainedTaking(s: Sys, c: Client, c': Client, n: nat)
    requires Shaped(s.log, c) && c'.ctx.Shape() && PreDrain(s, c, Done(c)) && !InSnapshot(s.log, c)
    requires DrainedBy(s.log, c, n, c') && ValidLog(s.log, s.start)
    ensures Taking(s.log, c', Done(c'))
  {
  }

  lemma DrainKeeps(s: Sys, c: Client)
    requires Shaped(s.log, c) && PreDrain(s, c, Done(c)) && ValidLog(s.log, s.start)
    requires !InSnapshot(s.log, c) && !c.ctx.Empty()
    ensures ClientInv(s, c.(ctx := c.ctx.Checkpoint()))
    ensures Done(c) <= Done(c.(ctx := c.ctx.Checkpoint()))
  {
    var c' := c.(ctx := c.ctx.Checkpoint());
    var n := Drain(s.log, c);
    DrainedShaped(s.log, c, n, c');
    TailMovedSlots(s.log, c, Done(c), c', Done(c'));
    TailMovedOwned(s, c, Done(c), c', Done(c'));
    DrainedPositions(s, c, c', n);
    DrainedTaking(s, c, c', n);
  }

  lemma DrainedShaped(log: Log, c: Client, n: nat, c': Client)
    requires Shaped(log, c) && c'.ctx.Shape() && DrainedBy(log, c, n, c') && !InSnapshot(log, c)
    ensures Shaped(log, c') && Holds(log, c', Done(c'))
  {
  }

  // ---- deliver ----

  // Between taking the event off its slot and the checkpoint loop.
  ghost function Unloaded(c: Client, e: Event): Client
    requires c.ctx.Shape() && e in c.envelopes && 0 <= c.envelopes[e] < XACT_LIST_LEN
  {
    c.(ctx := c.ctx.Discharged(c.envelopes[e]), envelopes := c.envelopes - {e})
  }

  lemma UnloadedCharges(s: Sys, c: Client, e: Event, d: int)
    requires Holds(s.log, c, d) && Owned(s.log, c, d) && e in c.envelopes && 0 <= c.envelopes[e] < XACT_LIST_LEN
    requires c.sending ==> c.inTxn
    ensures e !in Charged(Unloaded(c, e)) && Charged(c) == Charged(Unloaded(c, e)) + {e}
  {
  }

  lemma UnloadedSlots(s: Sys, c: Client, e: Event, d: int)
    requires Holds(s.log, c, d) && Slotted(s.log, c, d) && Owned(s.log, c, d)
    requires e in c.envelopes && c.envelopes[e] == SlotOf(c, e.txn) && Live(c, d, e.txn)
    requires c.sending ==> c.inTxn
    ensures Slotted(s.log, Unloaded(c, e), d)
  {
    var c' := Unloaded(c, e);
    UnloadedCharges(s, c, e, d);
    forall i | Live(c', d, i)
      ensures SlotMatches(s.log, c', i)
    {
      assert Live(c, d, i) && SlotMatches(s.log, c, i);
      CountAdd(Charged(c'), e, i);
      SlotOfInjective(c, i, e.txn);
      assert SlotOf(c', i) == SlotOf(c, i);
    }
  }

  lemma SlotOfInjective(c: Client, i: int, j: int)
    requires c.ctx.Shape()
    requires c.End() - XACT_LIST_LEN < i < c.End() && c.End() - XACT_LIST_LEN < j < c.End()
    ensures SlotOf(c, i) == SlotOf(c, j) <==> i == j
  {
  }

  lemma UnloadedOwned(s: Sys, c: Client, e: Event, d: int)
    requires Holds(s.log, c, d) && Owned(s.log, c, d) && e in c.envelopes && 0 <= c.envelopes[e] < XACT_LIST_LEN
    ensures Holds(s.log, Unloaded(c, e), d) && Owned(s.log, Unloaded(c, e), d)
  {
  }

  lemma UnloadedComplete(s: Sys, c: Client, e: Event, s': Sys)
    requires c.ctx.Shape() && Complete(s, c) && e in c.envelopes && 0 <= c.envelopes[e] < XACT_LIST_LEN
    requires Charged(c) == Charged(Unloaded(c, e)) + {e}
    requires Grows(s, s') && Accounted(s', e)
    ensures Complete(s', Unloaded(c, e))
  {
    var c1 := Unloaded(c, e);
    forall x | Seen(s'.log, c1, x)
      ensures x in Charged(c1) || Accounted(s', x)
    {
      assert Seen(s.log, c, x);
      assert x in Charged(c) ==> x in Charged(c1) + {e};
    }
  }

  lemma UnloadedPositions(s: Sys, c: Client, e: Event, s': Sys, d: int)
    requires c.ctx.Shape() && e in c.envelopes && 0 <= c.envelopes[e] < XACT_LIST_LEN
    requires Positions(s, c, d) && Taking(s.log, c, d) && Grows(s, s')
    ensures Positions(s', Unloaded(c, e), d) && Taking(s'.log, Unloaded(c, e), d)
  {
  }

  lemma UnloadedShaped(log: Log, c: Client, e: Event)
    requires Shaped(log, c) && e in c.envelopes && 0 <= c.envelopes[e] < XACT_LIST_LEN
    ensures Shaped(log, Unloaded(c, e)) && Done(Unloaded(c, e)) == Done(c)
    ensures Unloaded(c, e).ctx.Length() == c.ctx.Length()
    ensures !InSnapshot(log, c)
  {
  }

  lemma UnloadedPreDrain(s: Sys, c: Client, e: Event, s': Sys)
    requires ClientInv(s, c)
    requires e in c.envelopes && 0 <= c.envelopes[e] < XACT_LIST_LEN
    requires Grows(s, s') && Accounted(s', e)
    ensures var c1 := Unloaded(c, e);
            && Shaped(s'.log, c1) && Done(c1) == Done(c) && PreDrain(s', c1, Done(c1))
            && !InSnapshot(s'.log, c1) && !c1.ctx.Empty()
  {
    var d := Done(c);
    UnloadedShaped(s.log, c, e);
    assert e in c.envelopes.Keys + c.failed && Live(c, d, e.txn);
    UnloadedCharges(s, c, e, d);
    UnloadedSlots(s, c, e, d);
    UnloadedOwned(s, c, e, d);
    UnloadedComplete(s, c, e, s');
    UnloadedPositions(s, c, e, s', d);
  }

  lemma DeliverKeeps(s: Sys, c: Client, e: Event, s': Sys)
    requires ClientInv(s, c) && ValidLog(s.log, s.start)
    requires e in c.envelopes && 0 <= c.envelopes[e] < XACT_LIST_LEN
    requires Grows(s, s') && Accounted(s', e)
    ensures ClientInv(s', DoDeliver(c, e)) && Done(c) <= Done(DoDeliver(c, e))
  {
    var c1 := Unloaded(c, e);
    UnloadedPreDrain(s, c, e, s');
    DrainKeeps(s', c1);
    assert DoDeliver(c, e) == c1.(ctx := c1.ctx.Checkpoint());
  }

  // ---- commit ----

  // Between recording a stream transaction's commit and the checkpoint loop.
  ghost function Sealed(s: Sys, c: Client): Client
    requires CanCommit(s, c)
  {
    var lsn := s.log[c.next].commit;
    c.(ctx := c.ctx.Committed(lsn).Received(lsn), inTxn := false, next := c.next + 1, row := 0)
  }

  lemma SealedShaped(s: Sys, c: Client)
    requires Shaped(s.log, c) && CanCommit(s, c) && ValidLog(s.log, s.start)
    ensures Shaped(s.log, Sealed(s, c)) && Done(Sealed(s, c)) == Done(c)
    ensures Sealed(s, c).ctx.Length() == c.ctx.Length()
  {
  }

  lemma SealedSlots(s: Sys, c: Client, d: int)
    requires CanCommit(s, c) && Holds(s.log, c, d) && Slotted(s.log, c, d)
    ensures Holds(s.log, Sealed(s, c), d) && Slotted(s.log, Sealed(s, c), d)
  {
    var c' := Sealed(s, c);
    assert Charged(c') == Charged(c);
    forall i | Live(c', d, i)
      ensures SlotMatches(s.log, c', i)
    {
      assert Live(c, d, i) && SlotMatches(s.log, c, i);
      assert SlotOf(c', i) == SlotOf(c, i);
    }
  }

  lemma SealedOwned(s: Sys, c: Client, d: int)
    requires CanCommit(s, c) && Holds(s.log, c, d) && Owned(s.log, c, d) && Complete(s, c) && d <= c.next
    ensures Holds(s.log, Sealed(s, c), d) && Owned(s.log, Sealed(s, c), d) && Complete(s, Sealed(s, c))
  {
  }

  lemma SealedPositions(s: Sys, c: Client, d: int)
    requires CanCommit(s, c) && Positions(s, c, d) && ValidLog(s.log, s.start) && !InSnapshot(s.log, c)
    ensures Positions(s, Sealed(s, c), d)
  {
  }

  lemma SealedPreDrain(s: Sys, c: Client)
    requires ClientInv(s, c) && CanCommit(s, c) && ValidLog(s.log, s.start) && !InSnapshot(s.log, c)
    ensures var c1 := Sealed(s, c);
            && Shaped(s.log, c1) && Done(c1) == Done(c) && PreDrain(s, c1, Done(c1))
            && !InSnapshot(s.log, c1) && !c1.ctx.Empty()
  {
    var d := Done(c);
    SealedShaped(s, c);
    SealedSlots(s, c, d);
    SealedOwned(s, c, d);
    SealedPositions(s, c, d);
    assert Taking(s.log, Sealed(s, c), d);
  }

  lemma StreamCommitKeeps(s: Sys, c: Client)
    requires ClientInv(s, c) && CanCommit(s, c) && ValidLog(s.log, s.start) && !InSnapshot(s.log, c)
    ensures ClientInv(s, DoCommit(s, c)) && Done(c) <= Done(DoCommit(s, c))
  {
    var c1, lsn := Sealed(s, c), s.log[c.next].commit;
    SealedPreDrain(s, c);
    DrainKeeps(s, c1);
    CheckpointIgnoresReceived(c.ctx.Committed(lsn), lsn);
    assert DoCommit(s, c) == c1.(ctx := c1.ctx.Checkpoint());
  }

  lemma SnapshotCommitKeeps(s: Sys, c: Client)
    requires ClientInv(s, c) && CanCommit(s, c) && ValidLog(s.log, s.start) && InSnapshot(s.log, c)
    ensures ClientInv(s, DoCommit(s, c)) && Done(c) <= Done(DoCommit(s, c))
  {
    var c' := DoCommit(s, c);
    assert Live(c, Done(c), 0) && SlotMatches(s.log, c, 0) && SlotOf(c, 0) == 0;
    assert Charged(c) == {} && OfTxn(Charged(c), 0) == {};
    CheckpointDuringSnapshot(c.ctx.Committed(s.start));
    assert c'.ctx.tail == 1 && c'.ctx.fsync == s.start;
    assert Done(c') == 1;
    assert forall e :: Seen(s.log, c', e) <==> Seen(s.log, c, e);
    assert Positions(s, c', 1);
  }

  // ---- the other steps of a running process ----

  lemma KeepalivePositions(s: Sys, c: Client, pos: Lsn, d: int)
    requires Positions(s, c, d) && CanKeepalive(s, c, pos) && ValidLog(s.log, s.start)
    requires c.ctx.Empty() ==> !c.inTxn && d == c.next
    ensures Positions(s, c.(ctx := c.ctx.Keepalive(pos)), d)
  {
  }

  lemma KeepaliveKeeps(s: Sys, c: Client, pos: Lsn)
    requires ClientInv(s, c) && CanKeepalive(s, c, pos) && ValidLog(s.log, s.start)
    ensures ClientInv(s, c.(ctx := c.ctx.Keepalive(pos)))
    ensures Done(c.(ctx := c.ctx.Keepalive(pos))) == Done(c)
  {
    var c' := c.(ctx := c.ctx.Keepalive(pos));
    assert Charged(c') == Charged(c);
    assert SameRing(c, c');
    SameRingShaped(s.log, c, c');
    KeepalivePositions(s, c, pos, Done(c));
    SameRowKeeps(s, c, c');
  }

  lemma ReloadKeeps(s: Sys, c: Client, tables: set<Oid>)
    requires ClientInv(s, c) && c.Streaming(s.log)
    ensures ClientInv(s, c.(active := tables, loaded := true))
    ensures Done(c.(active := tables, loaded := true)) == Done(c)
  {
    var c' := c.(active := tables, loaded := true);
    assert Charged(c') == Charged(c);
    assert SameRing(c, c');
    SameRingShaped(s.log, c, c');
    SameRowKeeps(s, c, c');
  }

  lemma AppendKeeps(s: Sys, c: Client, e: Event)
    requires ClientInv(s, c) && CanAppend(s, c, e)
    ensures ClientInv(s, c.(appended := c.appended + {e}))
    ensures Done(c.(appended := c.appended + {e})) == Done(c)
  {
    var c' := c.(appended := c.appended + {e});
    assert Charged(c') == Charged(c);
    assert !InSnapshot(s.log, c);
    SameRingShaped(s.log, c, c');
    SameRowKeeps(s, c, c');
  }

  // Nothing that `ClientInv` reads differs.
  ghost predicate SameAccounts(s: Sys, s': Sys) {
    && s'.log == s.log && s'.start == s.start && s'.policy == s.policy
    && s'.acked == s.acked && s'.skipped == s.skipped && s'.dropped == s.dropped
  }

  lemma ClientInvMoves(s: Sys, s': Sys, c: Client)
    requires ClientInv(s, c) && SameAccounts(s, s')
    ensures ClientInv(s', c)
  {
  }

  lemma HandledMoves(s: Sys, s': Sys)
    requires SameAccounts(s, s')
    ensures forall i :: 0 <= i < |s.log| ==> (Handled(s, i) <==> Handled(s', i))
  {
  }

  lemma FlushedHandled(s: Sys, c: Client, i: nat)
    requires Inv(s) && s.proc == Some(c)
    requires i < |s.log| && !SnapshotAt(s.log, i) && s.log[i].commit <= c.ctx.fsync
    ensures Handled(s, i) && i < Done(c) && i < c.next
  {
  }

  lemma StatusServer(s: Sys, c: Client, s': Sys)
    requires Inv(s) && s.proc == Some(c) && s' == s.(flushed := c.ctx.fsync)
    ensures ServerInv(s')
  {
    HandledMoves(s, s');
    forall i | 0 <= i < |s.log| && !SnapshotAt(s.log, i) && s.log[i].commit <= s'.flushed
      ensures Handled(s', i)
    {
      FlushedHandled(s, c, i);
    }
  }

  lemma StatusKeeps(s: Sys, c: Client, stored: bool)
    requires Inv(s) && s.proc == Some(c)
    ensures Inv(DoStatus(s, c, stored))
  {
    var s' := DoStatus(s, c, stored);
    if s' != s {
      StatusServer(s, c, s');
      ClientInvMoves(s, s', c);
      HandledMoves(s, s');
    }
  }

  // ---- the whole protocol ----

  // A process that has done nothing yet.
  ghost predicate Blank(c: Client) {
    && c.ctx.Shape() && c.ctx.fsync == 0 && c.ctx.recvd == 0
    && c.row == 0 && !c.sending && c.envelopes == map[] && c.failed == {} && c.next == c.first
  }

  ghost predicate PositiveCommits(log: Log) {
    forall i :: 0 <= i < |log| ==> log[i].commit > 0
  }

  lemma BlankPositions(s: Sys, c: Client, d: int)
    requires Blank(c) && PositiveCommits(s.log)
    ensures Positions(s, c, d) && Complete(s, c)
  {
    assert forall e :: !Seen(s.log, c, e);
  }

  lemma FreshClient(s: Sys, c: Client)
    requires PositiveCommits(s.log) && c == FreshProcess(c.first) && c.first <= |s.log|
    requires !SnapshotAt(s.log, c.first)
    requires SnapshotAt(s.log, 0) ==> c.first >= 1
    ensures ClientInv(s, c) && Done(c) == c.first
  {
    assert c.ctx.Length() == 0;
    BlankPositions(s, c, Done(c));
  }

  lemma SnapshotSlot(log: Log, c: Client)
    requires SnapshotAt(log, 0) && c == SnapshotProcess()
    ensures Shaped(log, c) && Done(c) == 0
    ensures Holds(log, c, 0) && Slotted(log, c, 0) && Owned(log, c, 0)
  {
    assert c.ctx.Length() == 1 && SlotOf(c, 0) == 0 && Charged(c) == {};
    assert OfTxn(Charged(c), 0) == {};
    assert forall i :: Live(c, 0, i) ==> i == 0;
    assert SlotMatches(log, c, 0);
  }

  lemma SnapshotClient(s: Sys, c: Client)
    requires PositiveCommits(s.log) && SnapshotAt(s.log, 0) && c == SnapshotProcess()
    ensures ClientInv(s, c) && Done(c) == 0
  {
    SnapshotSlot(s.log, c);
    BlankPositions(s, c, 0);
  }

  lemma LogPositive(log: Log, start: Lsn)
    requires ValidLog(log, start)
    ensures PositiveCommits(log)
  {
  }

  lemma NewSlotServer(s: Sys, c: Client)
    requires Init(s) && s.proc == Some(c) && c.ctx.Shape() && c.first == 0
    requires SnapshotAt(s.log, 0) ==> c.ctx.takingSnapshot
    ensures ServerInv(s) && LinkInv(s, c)
  {
  }

  lemma InitKeeps(s: Sys)
    requires Init(s)
    ensures Inv(s)
  {
    LogPositive(s.log, s.start);
    var c := s.proc.value;
    if SnapshotAt(s.log, 0) {
      SnapshotClient(s, c);
    } else {
      FreshClient(s, c);
    }
    NewSlotServer(s, c);
  }

  lemma RestartServer(s: Sys, s': Sys, c: Client)
    requires ServerInv(s) && s.proc.None? && CanRestart(s, c.first) && s' == s.(proc := Some(c))
    requires c.ctx.Shape() && !c.ctx.takingSnapshot && c.next == Done(c) == c.first
    ensures ServerInv(s') && LinkInv(s', c)
  {
    HandledMoves(s, s');
    assert SnapshotPromised(s') ==> SnapshotPromised(s);
    assert forall i :: c.first <= i < |s.log| ==> s.log[i].commit > s.flushed;
  }

  lemma RestartKeeps(s: Sys, first: nat)
    requires Inv(s) && CanRestart(s, first)
    ensures Inv(s.(proc := Some(FreshProcess(first))))
  {
    var c := FreshProcess(first);
    var s' := s.(proc := Some(c));
    LogPositive(s.log, s.start);
    FreshClient(s', c);
    RestartServer(s, s', c);
  }

  lemma EndKeeps(s: Sys, s': Sys)
    requires Inv(s) && s.proc.Some? && s'.proc.None?
    requires s' == s.(proc := None, slotExists := s'.slotExists, abandoned := s'.abandoned)
    requires s'.slotExists ==> s.slotExists && s'.abandoned == (s.abandoned || s.proc.value.ctx.takingSnapshot)
    ensures Inv(s')
  {
  }

  // The process goes on, and has popped no less than before.
  ghost predicate Advances(s: Sys, c: Client, s': Sys) {
    && s'.proc.Some? && Grows(s, s')
    && ClientInv(s', s'.proc.value)
    && s'.proc.value.first == c.first && c.next <= s'.proc.value.next
    && c.ctx.Shape() && Done(c) <= Done(s'.proc.value)
  }

  // The process alone changed.
  lemma OnlyProcess(s: Sys, c: Client, c': Client)
    requires s.proc == Some(c) && c.ctx.Shape() && ClientInv(s, c')
    requires c'.first == c.first && c.next <= c'.next && Done(c) <= Done(c')
    ensures Advances(s, c, s.(proc := Some(c')))
  {
  }

  lemma RowStepAdvances(s: Sys, c: Client, step: Step)
    requires ValidLog(s.log, s.start) && ClientInv(s, c) && s.proc == Some(c)
    requires step.Begin? || step.Skip? || step.Discard? || step.StartSend? || step.Enqueue? || step.SendFails?
    requires ClientEnabled(s, c, step)
    ensures Advances(s, c, ClientApply(s, c, step))
  {
    match step {
      case Begin(pos) => BeginKeeps(s, c, pos); OnlyProcess(s, c, DoBegin(s, c, pos));
      case Skip => SkipKeeps(s, c, step, ClientApply(s, c, step));
      case Discard => SkipKeeps(s, c, step, ClientApply(s, c, step));
      case StartSend => StartSendKeeps(s, c); OnlyProcess(s, c, DoStartSend(c));
      case Enqueue => EnqueueKeeps(s, c); OnlyProcess(s, c, DoEnqueue(c));
      case SendFails => SendFailsKeeps(s, c); OnlyProcess(s, c, DoSendFails(c));
    }
  }

  lemma CommitAdvances(s: Sys, c: Client)
    requires ValidLog(s.log, s.start) && ClientInv(s, c) && s.proc == Some(c)
    requires ClientEnabled(s, c, Commit)
    ensures Advances(s, c, ClientApply(s, c, Commit))
  {
    if InSnapshot(s.log, c) {
      SnapshotCommitKeeps(s, c);
    } else {
      StreamCommitKeeps(s, c);
    }
    OnlyProcess(s, c, DoCommit(s, c));
  }

  lemma AppendAdvances(s: Sys, c: Client, e: Event)
    requires ClientInv(s, c) && s.proc == Some(c) && ClientEnabled(s, c, Append(e))
    ensures Advances(s, c, ClientApply(s, c, Append(e)))
  {
    AppendKeeps(s, c, e);
    ClientInvMoves(s, ClientApply(s, c, Append(e)), c.(appended := c.appended + {e}));
  }

  lemma DeliverAdvances(s: Sys, c: Client, e: Event, ok: bool)
    requires ValidLog(s.log, s.start) && ClientInv(s, c) && s.proc == Some(c)
    requires ClientEnabled(s, c, Deliver(e, ok))
    ensures Advances(s, c, ClientApply(s, c, Deliver(e, ok)))
  {
    DeliverKeeps(s, c, e, ClientApply(s, c, Deliver(e, ok)));
  }

  lemma StreamStepAdvances(s: Sys, c: Client, step: Step)
    requires ValidLog(s.log, s.start) && ClientInv(s, c) && s.proc == Some(c)
    requires step.FrameEnd? || step.Keepalive? || step.Reload?
    requires ClientEnabled(s, c, step)
    ensures Advances(s, c, ClientApply(s, c, step))
  {
    match step {
      case FrameEnd(pos) => FrameEndKeeps(s, c, pos); OnlyProcess(s, c, c.(ctx := c.ctx.Received(pos)));
      case Keepalive(pos) => KeepaliveKeeps(s, c, pos); OnlyProcess(s, c, c.(ctx := c.ctx.Keepalive(pos)));
      case Reload(tables) =>
        ReloadKeeps(s, c, tables);
        OnlyProcess(s, c, c.(active := tables, loaded := true));
    }
  }

  lemma StepAdvances(s: Sys, c: Client, step: Step)
    requires ValidLog(s.log, s.start) && ClientInv(s, c) && s.proc == Some(c)
    requires ClientEnabled(s, c, step) && !step.Status? && !step.Exit? && !step.Kill?
    ensures Advances(s, c, ClientApply(s, c, step))
  {
    if step.Commit? {
      CommitAdvances(s, c);
    } else if step.FrameEnd? || step.Keepalive? || step.Reload? {
      StreamStepAdvances(s, c, step);
    } else if step.Append? {
      AppendAdvances(s, c, step.event);
    } else if step.Deliver? {
      DeliverAdvances(s, c, step.event, step.ok);
    } else {
      RowStepAdvances(s, c, step);
    }
  }

  lemma ClientStepKeeps(s: Sys, c: Client, step: Step)
    requires Inv(s) && s.proc == Some(c) && ClientEnabled(s, c, step)
    ensures Inv(ClientApply(s, c, step))
  {
    var s' := ClientApply(s, c, step);
    if step.Status? {
      StatusKeeps(s, c, step.stored);
    } else if step.Exit? || step.Kill? {
      EndsKeep(s, c, step);
    } else {
      StepAdvances(s, c, step);
      AdvanceKeeps(s, c, s');
    }
  }

  lemma AdvanceKeeps(s: Sys, c: Client, s': Sys)
    requires Inv(s) && s.proc == Some(c) && Advances(s, c, s')
    ensures Inv(s')
  {
    ServerKept(s, c, s', s'.proc.value);
  }

  lemma EndsKeep(s: Sys, c: Client, step: Step)
    requires Inv(s) && s.proc == Some(c) && (step.Exit? || step.Kill?)
    ensures Inv(ClientApply(s, c, step))
  {
    EndKeeps(s, ClientApply(s, c, step));
  }

  /** Every step keeps the invariant. */
  lemma StepKeeps(s: Sys, step: Step)
    requires Inv(s) && Enabled(s, step)
    ensures Inv(Apply(s, step))
  {
    if s.proc.Some? {
      ClientStepKeeps(s, s.proc.value, step);
    } else {
      match step {
        case Forget(f) => ForgetKeeps(s, f);
        case Restart(first) => RestartKeeps(s, first);
        case Recreate(log, start) => InitKeeps(NewSlot(log, start, s.policy));
      }
    }
  }

  lemma ForgetKeeps(s: Sys, f: Lsn)
    requires Inv(s) && s.proc.None? && f <= s.flushed
    ensures Inv(s.(flushed := f))
  {
  }

  /** Every state of every run satisfies the invariant. */
  lemma {:induction false} RunInv(states: seq<Sys>, steps: seq<Step>, k: nat)
    requires IsRun(states, steps) && k < |states|
    ensures Inv(states[k])
    decreases k
  {
    if k == 0 {
      InitKeeps(states[0]);
    } else {
      RunInv(states, steps, k - 1);
      assert StepTaken(states[k - 1], steps[k - 1], states[k - 1 + 1]);
      StepKeeps(states[k - 1], steps[k - 1]);
    }
  }
}
