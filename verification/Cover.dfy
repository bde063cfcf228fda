/** Backpressure: the producer never reaches a slot that a registered consumer still needs,
    although it loads the cursors one by one at different moments. */
module Cover {
  import opened Sequences
  import opened Protocol
  import opened Window
  import opened Ownership

  /** How many messages have been given a slot: the scan for the newest one is over. */
  function Claimed(p: Producer): nat {
    if p.pc.Idle? || Scanning(p) then p.seqno else p.seqno + 1
  }

  /** The producer stays within one lap of `base`, and a scan in progress that has passed
      cursor `id` leaves room for the message it is for. */
  predicate Covered(cfg: Config, p: Producer, base: nat, id: nat) {
    && Claimed(p) <= base + cfg.capacity
    && (Scanning(p) && id < p.pc.i ==> p.seqno + 1 <= base + cfg.capacity)
  }

  predicate Leaving(c: Consumer) {
    c.pc.StoreInfinity? || c.pc.ReleaseCursor?
  }

  /** Registered, positioned and not departing. */
  predicate Joined(cfg: Config, c: Consumer) {
    Owns(cfg, c) && !c.pc.ZeroCursor? && !c.pc.LoadHead? && !c.pc.StoreSeek? && !Leaving(c)
  }

  predicate Reading(c: Consumer) {
    c.pc.Viewing? || c.pc.Copying? || c.pc.Validated?
  }

  /** What a free cursor holds: its initial value, or what the last owner left. */
  predicate Unused(value: nat) {
    value == 0 || value == INFINITY
  }

  ghost predicate FreeCursorsUnused(mem: Memory) {
    forall i :: 0 <= i < |mem.cursors| && !mem.cursors[i].inUse ==> Unused(mem.cursors[i].value)
  }

  /** What the producer sees of `c` and what it may therefore not overwrite. */
  predicate CoverOk(cfg: Config, value: nat, p: Producer, c: Consumer) {
    && (c.pc.ZeroCursor? ==> Unused(value))
    && (c.pc == ZeroCursor(false) && value == 0 ==> Covered(cfg, p, 0, c.cursorId))
    && (c.pc.LoadHead? ==> value == 0)
    && (c.pc.StoreSeek? ==>
          && value == 0 && Covered(cfg, p, c.next, c.cursorId) && c.next <= Stamped(p)
          && c.start == c.next && c.committed == [] && !c.status.Lapped?)
    && (c.pc.ZeroCursor? || c.pc.LoadHead? ==> c.committed == [] && c.next == c.start == 0 && !c.status.Lapped?)
    && (c.pc.ReleaseCursor? ==> value == INFINITY)
    && (Joined(cfg, c) ==>
          && Covered(cfg, p, value, c.cursorId)
          && c.next == (if c.pc.StoreCursor? then value + 1 else value)
          && c.next <= Stamped(p)
          && (Reading(c) ==> c.readSeq == c.next < Stamped(p))
          && !c.status.Lapped?
          && c.start <= c.next && |c.committed| == c.next - c.start)
  }

  /** What a consumer committed, in order: consecutive sequences from its start. */
  ghost predicate InOrder(c: Consumer) {
    forall j :: 0 <= j < |c.committed| ==> c.committed[j].seqno == c.start + j
  }

  ghost predicate ConsumerCovered(cfg: Config, mem: Memory, p: Producer, c: Consumer)
    requires |mem.cursors| == cfg.maxConsumers
  {
    && (c.pc.Claim? ==> c.committed == [] && c.next == c.start == 0 && !c.status.Lapped?)
    && (Owns(cfg, c) ==> CoverOk(cfg, mem.cursors[c.cursorId].value, p, c) && InOrder(c) && !c.status.Lapped?)
  }

  /** A cursor that was in use when the scan looked is still in use, or was left at infinity. */
  predicate ScanSound(mem: Memory, p: Producer) {
    p.pc.ScanValue? ==> mem.CursorAt(p.pc.i).inUse || mem.CursorAt(p.pc.i).value == INFINITY
  }

  ghost predicate CoverInv(cfg: Config, mem: Memory, p: Producer, cs: seq<Consumer>)
    requires |mem.cursors| == cfg.maxConsumers
  {
    && ScanSound(mem, p) && FreeCursorsUnused(mem)
    && forall t :: 0 <= t < |cs| ==> ConsumerCovered(cfg, mem, p, cs[t])
  }

  /** A joined consumer finds its message exactly when it is stamped, and is never lapped. */
  lemma JoinedReadsNext(cfg: Config, mem: Memory, p: Producer, log: seq<Message>, c: Consumer)
    requires cfg.Valid() && cfg.policy.Backpressure? && WindowInv(cfg, mem, p, log)
    requires |mem.cursors| == cfg.maxConsumers && Joined(cfg, c) && CoverOk(cfg, mem.cursors[c.cursorId].value, p, c)
    ensures Classify(SlotFor(cfg, mem, c.next).stamp, c.next) == (if c.next < Stamped(p) then Ok else Empty)
    ensures c.next < Stamped(p) ==>
      !BeingFilled(cfg, p, Index(c.next, cfg.capacity)) && SlotFor(cfg, mem, c.next).stamp == c.next
  {
    var i := Index(c.next, cfg.capacity);
    var stamp := mem.slots[i].stamp;
    assert SlotOk(cfg, mem.slots[i], i, p, log);
    if BeingFilled(cfg, p, i) {
      if c.next < p.seqno { SameSlotLapApart(c.next, p.seqno, cfg.capacity); }
    } else if stamp != EMPTY_SEQ && stamp != c.next {
      SameSlotLapApart(if stamp < c.next then stamp else c.next, if stamp < c.next then c.next else stamp,
                       cfg.capacity);
    } else if stamp == EMPTY_SEQ {
      IndexAtMost(c.next, cfg.capacity);
    }
  }

  /** Begin and the stores of the producer keep every registered consumer covered. */
  lemma CoverBegin(cfg: Config, value: nat, p: Producer, c: Consumer, m: Message)
    requires cfg.Valid() && cfg.policy.Backpressure? && p.pc.Idle?
    requires CoverOk(cfg, value, p, c)
    ensures CoverOk(cfg, value, BeginPublish(cfg, p, m), c)
  {
  }

  lemma CoverStore(cfg: Config, value: nat, p: Producer, c: Consumer)
    requires cfg.Valid() && p.Stores()
    requires CoverOk(cfg, value, p, c)
    ensures CoverOk(cfg, value, AfterStore(cfg, p), c)
  {
  }

  /** The scan: a cursor that lets the producer pass is far enough on, now and from now on. */
  lemma CoverLoad(cfg: Config, mem: Memory, p: Producer, c: Consumer)
    requires cfg.Valid() && |mem.cursors| == cfg.maxConsumers && !p.Stores()
    requires Scanning(p) ==> cfg.policy.Backpressure? && cfg.capacity <= p.seqno && p.pc.i < cfg.maxConsumers
    requires Owns(cfg, c) && mem.cursors[c.cursorId].inUse
    requires CoverOk(cfg, mem.cursors[c.cursorId].value, p, c)
    ensures CoverOk(cfg, mem.cursors[c.cursorId].value, AfterLoad(cfg, mem, p), c)
  {
  }

  /** What a consumer step needs to know about the producer. */
  predicate HeadOk(cfg: Config, produced: nat, p: Producer) {
    && produced == (if p.pc.LoadWaiters? || p.pc.WakeAll? then p.seqno + 1 else p.seqno)
    && (Scanning(p) ==> cfg.capacity <= p.seqno)
  }

  /** A step of the consumer itself. */
  lemma CoverOwnStep(cfg: Config, mem: Memory, p: Producer, log: seq<Message>, c: Consumer, a: Action)
    requires cfg.Valid() && cfg.policy.Backpressure? && |mem.cursors| == cfg.maxConsumers
    requires WindowInv(cfg, mem, p, log) && CursorFitsPc(cfg, c) && CanAct(cfg, mem, c, a)
    requires ConsumerCovered(cfg, mem, p, c)
    requires FreeCursorsUnused(mem)
    ensures var (mem', c') := Perform(cfg, mem, c, a);
      |mem'.cursors| == cfg.maxConsumers && ConsumerCovered(cfg, mem', p, c')
  {
    if Joined(cfg, c) {
      JoinedReadsNext(cfg, mem, p, log, c);
    }
    if a.Advance? {
      CoverAdvance(cfg, mem, p, c);
    } else {
      CoverChoice(cfg, mem, p, c, a);
    }
  }

  predicate NeverLapped(cfg: Config, mem: Memory, p: Producer, c: Consumer)
    requires cfg.Valid()
  {
    Joined(cfg, c) ==>
      Classify(SlotFor(cfg, mem, c.next).stamp, c.next) == (if c.next < Stamped(p) then Ok else Empty)
  }

  lemma CoverChoice(cfg: Config, mem: Memory, p: Producer, c: Consumer, a: Action)
    requires cfg.Valid() && cfg.policy.Backpressure? && |mem.cursors| == cfg.maxConsumers
    requires CursorFitsPc(cfg, c) && CanAct(cfg, mem, c, a) && !a.Advance?
    requires ConsumerCovered(cfg, mem, p, c) && NeverLapped(cfg, mem, p, c)
    ensures var (mem', c') := Perform(cfg, mem, c, a);
      |mem'.cursors| == cfg.maxConsumers && ConsumerCovered(cfg, mem', p, c')
  {
  }

  predicate MovesCursor(c: Consumer) {
    c.pc.Claim? || c.pc.ZeroCursor? || c.pc.LoadHead? || c.pc.StoreSeek? || c.pc.StoreCursor? || Leaving(c)
  }

  lemma CoverAdvance(cfg: Config, mem: Memory, p: Producer, c: Consumer)
    requires cfg.Valid() && cfg.policy.Backpressure? && |mem.cursors| == cfg.maxConsumers
    requires HeadOk(cfg, mem.produced, p)
    requires CursorFitsPc(cfg, c) && CanAct(cfg, mem, c, Advance)
    requires ConsumerCovered(cfg, mem, p, c) && NeverLapped(cfg, mem, p, c)
    requires FreeCursorsUnused(mem)
    ensures var (mem', c') := Advanced(cfg, mem, c);
      |mem'.cursors| == cfg.maxConsumers && ConsumerCovered(cfg, mem', p, c')
  {
    if MovesCursor(c) {
      CoverCursor(cfg, mem, p, c);
    } else if c.pc.Copying? {
      CoverCopy(cfg, mem, p, c);
    }
  }

  /** Registration, attaching at the head, committing and leaving. */
  lemma CoverCursor(cfg: Config, mem: Memory, p: Producer, c: Consumer)
    requires cfg.Valid() && cfg.policy.Backpressure? && |mem.cursors| == cfg.maxConsumers
    requires HeadOk(cfg, mem.produced, p)
    requires CursorFitsPc(cfg, c) && CanAct(cfg, mem, c, Advance)
    requires ConsumerCovered(cfg, mem, p, c) && NeverLapped(cfg, mem, p, c)
    requires MovesCursor(c)
    requires FreeCursorsUnused(mem)
    ensures var (mem', c') := Advanced(cfg, mem, c);
      |mem'.cursors| == cfg.maxConsumers && ConsumerCovered(cfg, mem', p, c')
  {
  }

  lemma CoverCopy(cfg: Config, mem: Memory, p: Producer, c: Consumer)
    requires cfg.Valid() && cfg.policy.Backpressure? && |mem.cursors| == cfg.maxConsumers
    requires HeadOk(cfg, mem.produced, p)
    requires CursorFitsPc(cfg, c) && CanAct(cfg, mem, c, Advance)
    requires ConsumerCovered(cfg, mem, p, c) && NeverLapped(cfg, mem, p, c)
    requires c.pc.Copying?
    ensures var (mem', c') := Advanced(cfg, mem, c);
      |mem'.cursors| == cfg.maxConsumers && ConsumerCovered(cfg, mem', p, c')
  {
  }

  /** A cursor becomes free only at infinity. */
  lemma FreedAtInfinity(cfg: Config, mem: Memory, p: Producer, c: Consumer, a: Action)
    requires cfg.Valid() && |mem.cursors| == cfg.maxConsumers && CursorFitsPc(cfg, c) && CanAct(cfg, mem, c, a)
    requires Owns(cfg, c) ==> CoverOk(cfg, mem.cursors[c.cursorId].value, p, c)
    requires Owns(cfg, c) ==> mem.cursors[c.cursorId].inUse
    requires FreeCursorsUnused(mem)
    ensures FreeCursorsUnused(Perform(cfg, mem, c, a).0)
  {
  }

  lemma CoverStep(cfg: Config, s: State, e: Event)
    requires cfg.Valid() && cfg.policy.Backpressure? && CanDo(cfg, s, e)
    requires WindowInv(cfg, s.mem, s.prod, s.log) && OwnershipInv(cfg, s.mem, s.consumers)
    requires CoverInv(cfg, s.mem, s.prod, s.consumers)
    ensures var s' := Do(cfg, s, e);
      |s'.mem.cursors| == cfg.maxConsumers && CoverInv(cfg, s'.mem, s'.prod, s'.consumers)
  {
    var s' := Do(cfg, s, e);
    match e
    case Begin(m) =>
      forall t | 0 <= t < |s.consumers| && Owns(cfg, s.consumers[t])
        ensures CoverOk(cfg, s'.mem.cursors[s'.consumers[t].cursorId].value, s'.prod, s'.consumers[t])
      {
        CoverBegin(cfg, s.mem.cursors[s.consumers[t].cursorId].value, s.prod, s.consumers[t], m);
      }
    case Produce => CoverProduce(cfg, s);
    case Act(t, a) =>
      var c := s.consumers[t];
      CoverOwnStep(cfg, s.mem, s.prod, s.log, c, a);
      OwnCursorOnly(cfg, s.mem, c, a);
      FreedAtInfinity(cfg, s.mem, s.prod, c, a);
      forall u | 0 <= u < |s.consumers| && u != t && Owns(cfg, s.consumers[u])
        ensures s'.mem.cursors[s.consumers[u].cursorId] == s.mem.cursors[s.consumers[u].cursorId]
      {
      }
    case Move(_, _) =>
  }

  lemma CoverProduce(cfg: Config, s: State)
    requires cfg.Valid() && cfg.policy.Backpressure? && CanDo(cfg, s, Produce)
    requires WindowInv(cfg, s.mem, s.prod, s.log) && OwnershipInv(cfg, s.mem, s.consumers)
    requires CoverInv(cfg, s.mem, s.prod, s.consumers)
    ensures var s' := Do(cfg, s, Produce);
      |s'.mem.cursors| == cfg.maxConsumers && CoverInv(cfg, s'.mem, s'.prod, s'.consumers)
  {
    var s' := Do(cfg, s, Produce);
    assert s'.mem.cursors == s.mem.cursors;
    forall t | 0 <= t < |s.consumers|
      ensures ConsumerCovered(cfg, s'.mem, s'.prod, s'.consumers[t])
    {
      CoverProduced(cfg, s.mem, s.prod, s.log, s.consumers[t]);
      var slot := Index(s.prod.seqno, cfg.capacity);
      assert s'.consumers[t] == s.consumers[t] || s'.consumers[t] == Woken(cfg, slot, s.consumers[t]);
      CoverWoken(cfg, s'.mem, s'.prod, slot, s.consumers[t]);
    }
  }

  lemma CoverProduced(cfg: Config, mem: Memory, p: Producer, log: seq<Message>, c: Consumer)
    requires cfg.Valid() && cfg.policy.Backpressure? && |mem.cursors| == cfg.maxConsumers
    requires ProducerOk(cfg, mem.produced, p, log) && ConsumerCovered(cfg, mem, p, c)
    requires Owns(cfg, c) ==> mem.cursors[c.cursorId].inUse
    ensures ConsumerCovered(cfg, mem, if p.Stores() then AfterStore(cfg, p) else AfterLoad(cfg, mem, p), c)
  {
    if Owns(cfg, c) {
      if p.Stores() {
        CoverStore(cfg, mem.cursors[c.cursorId].value, p, c);
      } else {
        CoverLoad(cfg, mem, p, c);
      }
    }
  }

  lemma CoverWoken(cfg: Config, mem: Memory, p: Producer, slot: nat, c: Consumer)
    requires cfg.Valid() && |mem.cursors| == cfg.maxConsumers && ConsumerCovered(cfg, mem, p, c)
    ensures ConsumerCovered(cfg, mem, p, Woken(cfg, slot, c))
  {
  }
}
