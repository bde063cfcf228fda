/** The promises of the ring, as consequences of the invariant. */
module Guarantees {
  import opened Sequences
  import opened Protocol
  import opened Sums
  import opened Window
  import opened Ownership
  import opened Cover
  import opened Reads
  import opened Loss
  import opened Parking
  import opened Safety

  // ------------------------------------------------------------ Overwrite

  /** Seqlock safety: after validate() returned true, and in everything ever committed, the
      length and every byte that was loaded are those of the published message. */
  lemma SeqlockSafety(cfg: Config, s: State, t: nat)
    requires Reachable(cfg, s) && cfg.policy.Overwrite? && t < |s.consumers|
    ensures var c := s.consumers[t];
      && (c.pc.Validated? ==>
            && c.readSeq < Stamped(s.prod) <= |s.log|
            && c.view.lenSeen == Some(|s.log[c.readSeq]|)
            && ViewOf(c.view, s.log[c.readSeq]))
      && (forall r :: r in c.committed ==> r.seqno < |s.log| && ViewOf(r.view, s.log[r.seqno]))
  {
    InvReachable(cfg, s);
    assert ReadOk(cfg, s.mem, s.prod, s.log, s.consumers[t]);
  }

  /** A view that does not match its message is always rejected. */
  lemma TornViewIsRejected(cfg: Config, s: State, t: nat)
    requires Reachable(cfg, s) && cfg.policy.Overwrite?
    requires CanDo(cfg, s, Event.Act(t, Validate))
    requires !(s.consumers[t].readSeq < |s.log| && ViewOf(s.consumers[t].view, s.log[s.consumers[t].readSeq]))
    ensures !Do(cfg, s, Event.Act(t, Validate)).consumers[t].pc.Validated?
  {
    InvReachable(cfg, s);
    var c := s.consumers[t];
    assert ReadOk(cfg, s.mem, s.prod, s.log, c);
    if StillThere(cfg, s.mem, c) {
      StampMeansIntact(cfg, s.mem, s.prod, s.log, c);
    }
  }

  /** Loss accounting: commits strictly increase, and whatever lies below `next` since the
      start was committed exactly once or has been overwritten. */
  lemma LossAccounting(cfg: Config, s: State, t: nat)
    requires Reachable(cfg, s) && cfg.policy.Overwrite? && t < |s.consumers|
    ensures var c := s.consumers[t];
      && (forall j, k :: 0 <= j < k < |c.committed| ==> c.committed[j].seqno < c.committed[k].seqno)
      && (forall j :: 0 <= j < |c.committed| ==> c.start <= c.committed[j].seqno < c.next)
      && (forall q :: c.start <= q < c.next ==>
            (exists j :: 0 <= j < |c.committed| && c.committed[j].seqno == q) || Overwritten(cfg, s.prod, q))
  {
    InvReachable(cfg, s);
    var c := s.consumers[t];
    assert LossOk(cfg, s.mem, s.prod, c);
    assert forall q :: c.start <= q < c.next ==> WasCommitted(c, q) || Overwritten(cfg, s.prod, q);
  }

  /** resync(produced()) after `lapped`: the oldest counted message, never behind `next`. */
  lemma ResyncNeverRetreats(cfg: Config, s: State, t: nat)
    requires Reachable(cfg, s) && cfg.policy.Overwrite? && t < |s.consumers|
    requires s.consumers[t].pc.Ready? && s.consumers[t].status.Lapped?
    ensures cfg.Valid() && CanDo(cfg, s, Event.Act(t, Resync))
    ensures var next' := Do(cfg, s, Event.Act(t, Resync)).consumers[t].next;
      && s.consumers[t].next <= next'
      && next' + cfg.capacity == s.mem.produced
      && forall q :: s.consumers[t].next <= q < next' ==> Overwritten(cfg, s.prod, q)
  {
    InvReachable(cfg, s);
    assert LossOk(cfg, s.mem, s.prod, s.consumers[t]);
  }

  /** Message `q` stays overwritten. */
  lemma OverwrittenForGood(cfg: Config, s: State, e: Event, q: nat)
    requires Reachable(cfg, s) && CanDo(cfg, s, e) && Overwritten(cfg, s.prod, q)
    ensures Overwritten(cfg, Do(cfg, s, e).prod, q)
    ensures cfg.policy.Overwrite? ==> SlotFor(cfg, s.mem, q).stamp != q
  {
    InvReachable(cfg, s);
    var i := Index(q, cfg.capacity);
    assert SlotOk(cfg, s.mem.slots[i], i, s.prod, s.log);
    assert Index(q + cfg.capacity, cfg.capacity) == i;
  }

  // ------------------------------------------------------------ read_copy and bounds

  /** read_copy under any interleaving and for any consumer: one step forward, or no result,
      a status that is not ok, and `next` unchanged. What is copied is the first
      min(len, out_cap) bytes of message `next`, unless a Backpressure consumer has no cursor. */
  lemma ReadCopyAllOrNothing(cfg: Config, s: State, t: nat)
    requires Reachable(cfg, s) && t < |s.consumers| && s.consumers[t].pc.Copying?
    ensures var c := s.consumers[t]; var c' := Do(cfg, s, Event.Act(t, Advance)).consumers[t];
      || (c'.pc.Copying? && c'.next == c.next && c'.committed == c.committed)
      || (&& c'.next == c.next + 1 && c'.status.Ok? && c.next < |s.log|
          && (Trusted(cfg, c) ==>
                && |c.view.out| == (if |s.log[c.next]| <= c.pc.cap then |s.log[c.next]| else c.pc.cap)
                && c.view.out == s.log[c.next][..|c.view.out|])
          && c'.committed == c.committed + [Record(c.next, c.view)])
      || (c'.pc.Ready? && c'.next == c.next && c'.status.Lapped? && c'.committed == c.committed)
  {
    InvReachable(cfg, s);
    var c := s.consumers[t];
    assert ReadOk(cfg, s.mem, s.prod, s.log, c);
    if Trusted(cfg, c) && c.view.lenSeen.Some? && CopyLength(c) <= |c.view.out| && StillThere(cfg, s.mem, c) {
      StampMeansIntact(cfg, s.mem, s.prod, s.log, c);
      var m := s.log[c.readSeq];
      assert m[..|m|] == m;
    }
  }

  /** Every load of a payload byte stays inside the payload, even when the view is torn. */
  lemma LoadsStayInside(cfg: Config, s: State, t: nat, k: nat)
    requires Reachable(cfg, s) && t < |s.consumers|
    requires var c := s.consumers[t];
      || (c.pc.Viewing? && c.view.lenSeen.Some? && k < c.view.lenSeen.value)
      || (c.pc.Copying? && c.view.lenSeen.Some? && k == |c.view.out| < CopyLength(c))
    ensures k < |SlotFor(cfg, s.mem, s.consumers[t].readSeq).payload|
  {
    InvReachable(cfg, s);
    assert ReadOk(cfg, s.mem, s.prod, s.log, s.consumers[t]);
    LengthInside(cfg, s.mem, s.prod, s.log, s.consumers[t].readSeq);
  }

  // ------------------------------------------------------------ Backpressure

  /** Losslessness: a registered consumer commits exactly the consecutive messages from its
      start with the published bytes, is never lapped, and what it reads stays valid until it commits. */
  lemma Lossless(cfg: Config, s: State, t: nat)
    requires Reachable(cfg, s) && cfg.policy.Backpressure? && t < |s.consumers| && Joined(cfg, s.consumers[t])
    ensures var c := s.consumers[t];
      && |c.committed| == c.next - c.start && c.next <= |s.log|
      && (forall j :: 0 <= j < |c.committed| ==>
            c.committed[j].seqno == c.start + j && ViewOf(c.committed[j].view, s.log[c.start + j]))
      && !c.status.Lapped? && !Classify(SlotFor(cfg, s.mem, c.next).stamp, c.next).Lapped?
      && (Reading(c) ==> c.readSeq == c.next < |s.log| && StillThere(cfg, s.mem, c) && ViewOf(c.view, s.log[c.next])
                         && Holds(SlotFor(cfg, s.mem, c.next), s.log[c.next]))
  {
    InvReachable(cfg, s);
    var c := s.consumers[t];
    assert ReadOk(cfg, s.mem, s.prod, s.log, c) && ConsumerCovered(cfg, s.mem, s.prod, c);
    JoinedReadsNext(cfg, s.mem, s.prod, s.log, c);
    if Reading(c) {
      IntactHolds(cfg, s.mem, s.prod, s.log, c.next);
    }
    forall j | 0 <= j < |c.committed|
      ensures c.committed[j].seqno == c.start + j && ViewOf(c.committed[j].view, s.log[c.start + j])
    {
      assert c.committed[j] in c.committed;
    }
  }

  /** The start of a consumer: 0 after plain registration, the count it loaded after an attach. */
  lemma StartOfConsumer(cfg: Config, s: State, t: nat)
    requires Reachable(cfg, s) && cfg.policy.Backpressure? && CanDo(cfg, s, Event.Act(t, Advance))
    ensures var c := s.consumers[t]; var c' := Do(cfg, s, Event.Act(t, Advance)).consumers[t];
      && (c.pc == ZeroCursor(false) ==> Joined(cfg, c') && c'.start == c'.next == 0)
      && (c.pc.LoadHead? ==> c'.start == c'.next == s.mem.produced)
  {
    InvReachable(cfg, s);
    assert ConsumerCovered(cfg, s.mem, s.prod, s.consumers[t]);
  }

  /** Where consumer `t` is after the event `e`: a move passes it on. */
  function Heir(e: Event, t: nat): nat {
    if e.Move? && e.from == t then e.to else t
  }

  /** `c'` continues `c`: the same start, and a history that begins with the one before. */
  predicate Continues(c: Consumer, c': Consumer) {
    c'.start == c.start && |c.committed| <= |c'.committed| && c'.committed[..|c.committed|] == c.committed
  }

  lemma OwnStepContinues(cfg: Config, mem: Memory, c: Consumer, a: Action)
    requires cfg.Valid() && CanAct(cfg, mem, c, a) && !c.pc.Unborn? && !c.pc.LoadHead?
    ensures Continues(c, Perform(cfg, mem, c, a).1)
  {
  }

  /** Once a consumer is registered no event changes its start, and its history only grows. */
  lemma StartIsKept(cfg: Config, s: State, e: Event, t: nat)
    requires Reachable(cfg, s) && CanDo(cfg, s, e) && t < |s.consumers| && Joined(cfg, s.consumers[t])
    ensures cfg.Valid() && Heir(e, t) < |Do(cfg, s, e).consumers|
    ensures Continues(s.consumers[t], Do(cfg, s, e).consumers[Heir(e, t)])
  {
    InvReachable(cfg, s);
    if e.Act? && e.t == t {
      OwnStepContinues(cfg, s.mem, s.consumers[t], e.a);
    }
  }

  /** Attach at current: whatever the producer did between the claim, the zeroing, the load
      of the count and the seek, once the seek is stored the head is within one lap of the
      cursor, and the consumer is lossless from the count it loaded on. */
  lemma AttachAtCurrent(cfg: Config, s: State, t: nat)
    requires Reachable(cfg, s) && cfg.policy.Backpressure? && t < |s.consumers| && s.consumers[t].pc.StoreSeek?
    ensures CanDo(cfg, s, Event.Act(t, Advance))
    ensures var s' := Do(cfg, s, Event.Act(t, Advance)); var c' := s'.consumers[t];
      && Joined(cfg, c') && c'.start == c'.next == s.consumers[t].start && c'.committed == []
      && s'.mem.CursorAt(c'.cursorId) == Cursor(c'.next, true)
      && c'.next <= Stamped(s'.prod) && Claimed(s'.prod) <= c'.next + cfg.capacity
      && Classify(SlotFor(cfg, s'.mem, c'.next).stamp, c'.next) == (if c'.next < Stamped(s'.prod) then Ok else Empty)
  {
    InvReachable(cfg, s);
    var s' := Do(cfg, s, Event.Act(t, Advance));
    assert ConsumerCovered(cfg, s.mem, s.prod, s.consumers[t]);
    InvStep(cfg, s, Event.Act(t, Advance));
    assert ConsumerCovered(cfg, s'.mem, s'.prod, s'.consumers[t]);
    JoinedReadsNext(cfg, s'.mem, s'.prod, s'.log, s'.consumers[t]);
  }

  /** No two live consumers own the same cursor, and a cursor in use has a live owner. */
  lemma CursorOwnership(cfg: Config, s: State)
    requires Reachable(cfg, s)
    ensures forall t, u :: 0 <= t < u < |s.consumers| && Owns(cfg, s.consumers[t]) && Owns(cfg, s.consumers[u]) ==>
      s.consumers[t].cursorId != s.consumers[u].cursorId
    ensures forall i :: 0 <= i < cfg.maxConsumers ==>
      (s.mem.CursorAt(i).inUse <==> exists t :: 0 <= t < |s.consumers| && s.consumers[t].cursorId == i)
    ensures forall t :: 0 <= t < |s.consumers| && s.consumers[t].pc.Gone? ==> !Owns(cfg, s.consumers[t])
  {
    InvReachable(cfg, s);
  }

  // ------------------------------------------------------------ Futex

  /** No lost wakeup: a sleeper's futex word is still the one it saw, or the producer is
      inside a publish of that slot, and every such publish ends by waking it. */
  lemma NoLostWakeup(cfg: Config, s: State, t: nat)
    requires Reachable(cfg, s) && t < |s.consumers| && s.consumers[t].pc.Asleep?
    ensures s.mem.waiters == CountWaiting(s.consumers) > 0
    ensures var c := s.consumers[t]; var i := Index(c.next, cfg.capacity);
      && c.pc.seen < c.next
      && (Word(s.mem.SlotAt(i).stamp) == Word(c.pc.seen) || Publishing(cfg, s.prod, i))
      && (s.prod.pc.LoadWaiters? ==> Do(cfg, s, Produce).prod.pc.WakeAll?)
      && (s.prod.pc.WakeAll? && Publishing(cfg, s.prod, i) ==> Do(cfg, s, Produce).consumers[t].pc.DropWaiter?)
      && (s.prod.pc.StoreCount? && Publishing(cfg, s.prod, i) ==> Do(cfg, s, Produce).prod.pc.LoadWaiters?)
  {
    InvReachable(cfg, s);
    assert ParkOk(cfg, s.mem, s.prod, s.consumers[t]);
    SumUpdate(Weight, s.consumers, t, s.consumers[t]);
  }

  /** The futex word of a published message equals that of the previous lap exactly when the
      capacity is a multiple of 2^32. */
  lemma WordsOfTwoLaps(q: nat, capacity: nat)
    ensures Word(q + capacity) == Word(q) <==> capacity % 0x1_0000_0000 == 0
  {
  }

  /** Under Backpressure the 32-bit comparison never mistakes the wanted message for the
      stamp seen before, so a sleeper is always behind: its message is not published. */
  lemma NoAliasing(cfg: Config, s: State, t: nat)
    requires Reachable(cfg, s) && cfg.policy.Backpressure? && cfg.capacity < 0x1_0000_0000
    requires t < |s.consumers| && Joined(cfg, s.consumers[t]) && Seeing(s.consumers[t])
    ensures var c := s.consumers[t]; var stamp := SlotFor(cfg, s.mem, c.next).stamp;
      && c.pc.seen == c.next - cfg.capacity
      && (stamp == c.pc.seen || stamp == c.next)
      && Word(c.next) != Word(c.pc.seen)
      && (c.pc.Asleep? && stamp == c.next ==>
            s.prod.seqno == c.next && (s.prod.pc.StoreCount? || s.prod.pc.LoadWaiters? || s.prod.pc.WakeAll?))
  {
    InvReachable(cfg, s);
    var c := s.consumers[t];
    assert ParkOk(cfg, s.mem, s.prod, c) && ConsumerCovered(cfg, s.mem, s.prod, c);
    StampsWhileWanted(cfg, s.mem, s.prod, s.log, c);
    JoinedReadsNext(cfg, s.mem, s.prod, s.log, c);
    WordsOfTwoLaps(c.pc.seen, cfg.capacity);
    var i := Index(c.next, cfg.capacity);
    assert SlotOk(cfg, s.mem.slots[i], i, s.prod, s.log);
    if c.next < s.prod.seqno && Index(s.prod.seqno, cfg.capacity) == i {
      SameSlotLapApart(c.next, s.prod.seqno, cfg.capacity);
    }
  }
}
