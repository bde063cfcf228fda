/** Overwrite: what a consumer loop commits, what it skips, and why nothing else is lost. */
module Loss {
  import opened Sequences
  import opened Protocol
  import opened Window
  import opened Ownership
  import opened Cover
  import opened Reads

  /** For how many messages the producer has begun to store into the slot. */
  function Marked(p: Producer): nat {
    if p.pc.Idle? || p.pc.MarkSlot? || Scanning(p) then p.seqno else p.seqno + 1
  }

  /** The slot of message `q` has been taken for a later lap. */
  predicate Overwritten(cfg: Config, p: Producer, q: nat) {
    q + cfg.capacity < Marked(p)
  }

  ghost predicate WasCommitted(c: Consumer, q: nat) {
    exists j :: 0 <= j < |c.committed| && c.committed[j].seqno == q
  }

  ghost predicate StrictlyIncreasing(c: Consumer) {
    && (forall j, k :: 0 <= j < k < |c.committed| ==> c.committed[j].seqno < c.committed[k].seqno)
    && (forall j :: 0 <= j < |c.committed| ==> c.start <= c.committed[j].seqno < c.next)
  }

  ghost predicate Accounted(cfg: Config, p: Producer, c: Consumer) {
    forall q :: c.start <= q < c.next ==> WasCommitted(c, q) || Overwritten(cfg, p, q)
  }

  ghost predicate LossOk(cfg: Config, mem: Memory, p: Producer, c: Consumer) {
    && c.start <= c.next
    && StrictlyIncreasing(c)
    && Accounted(cfg, p, c)
    && (c.status.Lapped? ==> c.next + cfg.capacity <= mem.produced)
    && (c.pc.Unborn? ==> UnbornConsumer(cfg, c))
  }

  ghost predicate LossInv(cfg: Config, mem: Memory, p: Producer, cs: seq<Consumer>) {
    forall t :: 0 <= t < |cs| ==> LossOk(cfg, mem, p, cs[t])
  }

  /** A stamp that is not the wanted one, for a message that was stamped, means that the
      count has reached the next lap of its slot. */
  lemma LostMeansCounted(cfg: Config, mem: Memory, p: Producer, log: seq<Message>, q: nat)
    requires cfg.Valid() && cfg.policy.Overwrite? && WindowInv(cfg, mem, p, log)
    requires q < WRITING_SEQ && SlotFor(cfg, mem, q).stamp != q
    requires q < Stamped(p) || Classify(SlotFor(cfg, mem, q).stamp, q).Lapped?
    ensures q + cfg.capacity <= mem.produced
  {
    var i := Index(q, cfg.capacity);
    var stamp := mem.slots[i].stamp;
    assert SlotOk(cfg, mem.slots[i], i, p, log);
    if BeingFilled(cfg, p, i) {
      SameSlotLapApart(q, p.seqno, cfg.capacity);
    } else if stamp != EMPTY_SEQ {
      SameSlotLapApart(if stamp < q then stamp else q, if stamp < q then q else stamp, cfg.capacity);
    } else {
      IndexAtMost(q, cfg.capacity);
    }
  }

  ghost predicate LossPre(cfg: Config, mem: Memory, p: Producer, log: seq<Message>, c: Consumer) {
    cfg.Valid() && cfg.policy.Overwrite? && WindowInv(cfg, mem, p, log)
    && ReadOk(cfg, mem, p, log, c) && LossOk(cfg, mem, p, c) && !Owns(cfg, c) && !Joining(c)
  }

  lemma LossPoll(cfg: Config, mem: Memory, p: Producer, log: seq<Message>, c: Consumer,
                 ok: ConsumerPc, empty: ConsumerPc)
    requires LossPre(cfg, mem, p, log, c) && !c.pc.Unborn? && !Reading(c)
    requires !empty.Unborn? && !ok.Unborn? && !Reading(c.(pc := empty))
    ensures LossOk(cfg, mem, p, ReadInto(cfg, mem, c, ok, empty))
  {
    if Classify(SlotFor(cfg, mem, c.next).stamp, c.next).Lapped? {
      LostMeansCounted(cfg, mem, p, log, c.next);
    }
    var c' := ReadInto(cfg, mem, c, ok, empty);
    forall q | c'.start <= q < c'.next
      ensures WasCommitted(c', q) || Overwritten(cfg, p, q)
    {
      assert WasCommitted(c, q) ==> WasCommitted(c', q);
    }
  }

  /** Commit extends the history by exactly the message at `next`. */
  lemma LossCommit(cfg: Config, mem: Memory, p: Producer, log: seq<Message>, c: Consumer)
    requires LossPre(cfg, mem, p, log, c) && Reading(c)
    ensures LossOk(cfg, mem, p, Committed(cfg, c))
  {
    var c' := Committed(cfg, c);
    forall q | c'.start <= q < c'.next
      ensures WasCommitted(c', q) || Overwritten(cfg, p, q)
    {
      if q == c.next {
        assert c'.committed[|c.committed|].seqno == q;
      } else if WasCommitted(c, q) {
        var j :| 0 <= j < |c.committed| && c.committed[j].seqno == q;
        assert c'.committed[j].seqno == q;
      }
    }
  }

  /** resync(produced()) after `lapped` never moves back, and skips only what is overwritten. */
  lemma LossResync(cfg: Config, mem: Memory, p: Producer, log: seq<Message>, c: Consumer)
    requires LossPre(cfg, mem, p, log, c) && CanAct(cfg, mem, c, Resync)
    ensures LossOk(cfg, mem, p, Perform(cfg, mem, c, Resync).1)
    ensures c.next <= Perform(cfg, mem, c, Resync).1.next
  {
  }

  /** Steps that change neither the history nor the position. */
  lemma LossSame(cfg: Config, mem: Memory, p: Producer, c: Consumer, mem': Memory, p': Producer, c': Consumer)
    requires LossOk(cfg, mem, p, c) && Marked(p) <= Marked(p') && mem.produced <= mem'.produced
    requires c'.committed == c.committed && c'.start == c.start && c'.next == c.next
    requires c'.status.Lapped? ==> c'.next + cfg.capacity <= mem'.produced
    requires c'.pc.Unborn? ==> c' == c
    ensures LossOk(cfg, mem', p', c')
  {
    forall q | c'.start <= q < c'.next
      ensures WasCommitted(c', q) || Overwritten(cfg, p', q)
    {
      assert WasCommitted(c, q) ==> WasCommitted(c', q);
    }
  }

  lemma LossCopy(cfg: Config, mem: Memory, p: Producer, log: seq<Message>, c: Consumer)
    requires LossPre(cfg, mem, p, log, c) && c.pc.Copying?
    ensures LossOk(cfg, mem, p, CopyStep(cfg, mem, c))
  {
    if c.view.lenSeen.Some? && CopyLength(c) <= |c.view.out| {
      if StillThere(cfg, mem, c) {
        LossCommit(cfg, mem, p, log, c);
      } else {
        LostMeansCounted(cfg, mem, p, log, c.next);
        LossSame(cfg, mem, p, c, mem, p, CopyStep(cfg, mem, c));
      }
    } else {
      LossSame(cfg, mem, p, c, mem, p, CopyStep(cfg, mem, c));
    }
  }

  lemma LossAdvance(cfg: Config, mem: Memory, p: Producer, log: seq<Message>, c: Consumer)
    requires LossPre(cfg, mem, p, log, c) && CanAct(cfg, mem, c, Advance)
    requires CursorFitsPc(cfg, c)
    ensures LossOk(cfg, mem, p, Advanced(cfg, mem, c).1)
  {
    if c.pc.Copying? {
      LossCopy(cfg, mem, p, log, c);
    } else if c.pc.Blocking? {
      LossPoll(cfg, mem, p, log, c, Viewing, Parking);
    } else {
      LossSame(cfg, mem, p, c, mem, p, Advanced(cfg, mem, c).1);
    }
  }

  lemma LossOwnStep(cfg: Config, mem: Memory, p: Producer, log: seq<Message>, c: Consumer, a: Action)
    requires LossPre(cfg, mem, p, log, c) && CanAct(cfg, mem, c, a) && CursorFitsPc(cfg, c)
    ensures LossOk(cfg, mem, p, Perform(cfg, mem, c, a).1)
  {
    match a
    case Construct(_, _) =>
    case Poll => LossPoll(cfg, mem, p, log, c, Viewing, Ready);
    case PollCopy(cap) => LossPoll(cfg, mem, p, log, c, Copying(cap), Ready);
    case Commit => LossCommit(cfg, mem, p, log, c);
    case Resync => LossResync(cfg, mem, p, log, c);
    case Advance => LossAdvance(cfg, mem, p, log, c);
    case _ => LossSame(cfg, mem, p, c, mem, p, Perform(cfg, mem, c, a).1);
  }

  lemma LossStep(cfg: Config, s: State, e: Event)
    requires cfg.Valid() && cfg.policy.Overwrite? && CanDo(cfg, s, e)
    requires WindowInv(cfg, s.mem, s.prod, s.log) && OwnershipInv(cfg, s.mem, s.consumers)
    requires ClaimsOnlyUnderBackpressure(cfg, s.consumers)
    requires ReadInv(cfg, s.mem, s.prod, s.log, s.consumers) && LossInv(cfg, s.mem, s.prod, s.consumers)
    ensures var s' := Do(cfg, s, e);
      LossInv(cfg, s'.mem, s'.prod, s'.consumers)
  {
    var s' := Do(cfg, s, e);
    match e
    case Begin(m) =>
      forall t | 0 <= t < |s.consumers|
        ensures LossOk(cfg, s'.mem, s'.prod, s'.consumers[t])
      {
        LossSame(cfg, s.mem, s.prod, s.consumers[t], s'.mem, s'.prod, s'.consumers[t]);
      }
    case Produce =>
      forall t | 0 <= t < |s.consumers|
        ensures LossOk(cfg, s'.mem, s'.prod, s'.consumers[t])
      {
        LossSame(cfg, s.mem, s.prod, s.consumers[t], s'.mem, s'.prod, s'.consumers[t]);
      }
    case Act(t, a) =>
      ConsumersOnlyRead(cfg, s.mem, s.consumers[t], a);
      LossOwnStep(cfg, s.mem, s.prod, s.log, s.consumers[t], a);
      forall u | 0 <= u < |s.consumers|
        ensures LossOk(cfg, s'.mem, s'.prod, s'.consumers[u])
      {
        var c := if u == t then s'.consumers[t] else s.consumers[u];
        LossSame(cfg, s.mem, s.prod, c, s'.mem, s'.prod, c);
      }
    case Move(from, to) =>
      var c := s.consumers[from];
      LossSame(cfg, s.mem, s.prod, c, s.mem, s.prod, c.(pc := Gone, cursorId := cfg.maxConsumers));
  }
}
