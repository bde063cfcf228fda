/** The futex event count: no sleeper is ever stranded, under sequentially consistent steps. */
module Parking {
  import opened Sequences
  import opened Protocol
  import opened Sums
  import opened Window
  import opened Ownership
  import opened Cover

  /** Between the increment and the decrement of `waiters`. */
  predicate Waiting(c: Consumer) {
    c.pc.LoadWord? || c.pc.WaitWord? || c.pc.Asleep? || c.pc.DropWaiter?
  }

  function Weight(c: Consumer): nat {
    if Waiting(c) then 1 else 0
  }

  function CountWaiting(cs: seq<Consumer>): nat {
    Sum(Weight, cs)
  }

  /** The producer has begun to store to slot `i` and has not yet come to its wake. */
  predicate Publishing(cfg: Config, p: Producer, i: nat)
    requires cfg.Valid()
  {
    && (Filling(p) || p.pc.StoreCount? || p.pc.LoadWaiters? || p.pc.WakeAll?)
    && Index(p.seqno, cfg.capacity) == i
  }

  predicate Seeing(c: Consumer) {
    c.pc.WaitWord? || c.pc.Asleep?
  }

  predicate ParkOk(cfg: Config, mem: Memory, p: Producer, c: Consumer)
    requires cfg.Valid()
  {
    && (Waiting(c) || c.pc.AddWaiter? ==> cfg.wait.Futex?)
    && (Seeing(c) ==> c.pc.seen < c.next)
    && (Seeing(c) && Joined(cfg, c) ==> c.pc.seen + cfg.capacity == c.next)
    && (c.pc.Asleep? ==>
          || Word(SlotFor(cfg, mem, c.next).stamp) == Word(c.pc.seen)
          || Publishing(cfg, p, Index(c.next, cfg.capacity)))
  }

  ghost predicate ParkInv(cfg: Config, mem: Memory, p: Producer, cs: seq<Consumer>)
    requires cfg.Valid()
  {
    && mem.waiters == CountWaiting(cs)
    && forall t :: 0 <= t < |cs| ==> ParkOk(cfg, mem, p, cs[t])
  }

  /** While a joined consumer wants `next`, its slot carries no stamp, the stamp of the
      previous lap, or `next` itself. */
  lemma StampsWhileWanted(cfg: Config, mem: Memory, p: Producer, log: seq<Message>, c: Consumer)
    requires cfg.Valid() && cfg.policy.Backpressure? && WindowInv(cfg, mem, p, log)
    requires |mem.cursors| == cfg.maxConsumers && Joined(cfg, c) && ConsumerCovered(cfg, mem, p, c)
    ensures var stamp := SlotFor(cfg, mem, c.next).stamp;
      stamp == EMPTY_SEQ || stamp + cfg.capacity == c.next || stamp == c.next
  {
    var i := Index(c.next, cfg.capacity);
    var stamp := mem.slots[i].stamp;
    assert SlotOk(cfg, mem.slots[i], i, p, log);
    JoinedReadsNext(cfg, mem, p, log, c);
    if stamp != EMPTY_SEQ && stamp < c.next {
      SameSlotLapApart(stamp, c.next, cfg.capacity);
    }
  }

  predicate StampWanted(cfg: Config, mem: Memory, c: Consumer)
    requires cfg.Valid()
  {
    var stamp := SlotFor(cfg, mem, c.next).stamp;
    c.next < EMPTY_SEQ && (stamp == EMPTY_SEQ || stamp + cfg.capacity == c.next || stamp == c.next)
  }

  lemma ParkOwnStep(cfg: Config, mem: Memory, p: Producer, log: seq<Message>, c: Consumer, a: Action)
    requires cfg.Valid() && WindowInv(cfg, mem, p, log) && CanAct(cfg, mem, c, a)
    requires |mem.cursors| == cfg.maxConsumers && CursorFitsPc(cfg, c)
    requires Owns(cfg, c) ==> cfg.policy.Backpressure?
    requires cfg.policy.Backpressure? ==> ConsumerCovered(cfg, mem, p, c)
    requires ParkOk(cfg, mem, p, c) && c.next < WRITING_SEQ
    ensures var (mem', c') := Perform(cfg, mem, c, a);
      ParkOk(cfg, mem', p, c') && mem'.waiters == mem.waiters - Weight(c) + Weight(c')
  {
    if Joined(cfg, c) {
      StampsWhileWanted(cfg, mem, p, log, c);
    }
    if a.Advance? {
      ParkAdvance(cfg, mem, p, c);
    } else {
      ParkChoice(cfg, mem, p, c, a);
    }
  }

  lemma ParkAdvance(cfg: Config, mem: Memory, p: Producer, c: Consumer)
    requires cfg.Valid() && |mem.cursors| == cfg.maxConsumers
    requires Joined(cfg, c) ==> StampWanted(cfg, mem, c)
    requires ParkOk(cfg, mem, p, c)
    requires CanAct(cfg, mem, c, Advance)
    ensures var (mem', c') := Advanced(cfg, mem, c);
      ParkOk(cfg, mem', p, c') && mem'.waiters == mem.waiters - Weight(c) + Weight(c')
  {
  }

  lemma ParkChoice(cfg: Config, mem: Memory, p: Producer, c: Consumer, a: Action)
    requires cfg.Valid() && |mem.cursors| == cfg.maxConsumers
    requires Joined(cfg, c) ==> StampWanted(cfg, mem, c)
    requires ParkOk(cfg, mem, p, c)
    requires CanAct(cfg, mem, c, a) && !a.Advance?
    ensures var (mem', c') := Perform(cfg, mem, c, a);
      ParkOk(cfg, mem', p, c') && mem'.waiters == mem.waiters - Weight(c) + Weight(c')
  {
  }

  /** A store of the producer: the stamp of a slot changes only inside a publish of that slot. */
  lemma ParkStore(cfg: Config, mem: Memory, p: Producer, log: seq<Message>, c: Consumer)
    requires cfg.Valid() && WindowInv(cfg, mem, p, log) && p.Stores() && ParkOk(cfg, mem, p, c)
    ensures ParkOk(cfg, Apply(mem, StoreOf(cfg, p)), AfterStore(cfg, p), c)
  {
  }

  /** The end of a publish: without a wake there was no sleeper, after a wake there is none on the slot. */
  lemma ParkLoad(cfg: Config, mem: Memory, p: Producer, log: seq<Message>, c: Consumer)
    requires cfg.Valid() && WindowInv(cfg, mem, p, log) && !p.Stores() && !p.pc.Idle? && ParkOk(cfg, mem, p, c)
    requires Weight(c) <= mem.waiters
    ensures ParkOk(cfg, mem, AfterLoad(cfg, mem, p),
                   if p.pc.WakeAll? then Woken(cfg, Index(p.seqno, cfg.capacity), c) else c)
  {
  }

  lemma ParkStep(cfg: Config, s: State, e: Event)
    requires cfg.Valid() && CanDo(cfg, s, e)
    requires WindowInv(cfg, s.mem, s.prod, s.log) && OwnershipInv(cfg, s.mem, s.consumers)
    requires cfg.policy.Backpressure? ==> CoverInv(cfg, s.mem, s.prod, s.consumers)
    requires forall t :: 0 <= t < |s.consumers| ==> s.consumers[t].next < WRITING_SEQ
    requires ParkInv(cfg, s.mem, s.prod, s.consumers)
    ensures var s' := Do(cfg, s, e); ParkInv(cfg, s'.mem, s'.prod, s'.consumers)
  {
    match e
    case Begin(_) =>
    case Produce => ParkProduce(cfg, s);
    case Act(t, a) =>
      ParkOwnStep(cfg, s.mem, s.prod, s.log, s.consumers[t], a);
      ParkAct(cfg, s, t, a);
    case Move(from, to) => ParkMove(cfg, s, from, to);
  }

  lemma ParkAct(cfg: Config, s: State, t: nat, a: Action)
    requires cfg.Valid() && CanDo(cfg, s, Event.Act(t, a))
    requires ParkInv(cfg, s.mem, s.prod, s.consumers)
    requires var (mem', c') := Perform(cfg, s.mem, s.consumers[t], a);
      ParkOk(cfg, mem', s.prod, c') && mem'.waiters == s.mem.waiters - Weight(s.consumers[t]) + Weight(c')
    ensures var s' := Do(cfg, s, Event.Act(t, a)); ParkInv(cfg, s'.mem, s'.prod, s'.consumers)
  {
    ConsumersOnlyRead(cfg, s.mem, s.consumers[t], a);
    SumUpdate(Weight, s.consumers, t, Perform(cfg, s.mem, s.consumers[t], a).1);
  }

  lemma ParkMove(cfg: Config, s: State, from: nat, to: nat)
    requires cfg.Valid() && CanDo(cfg, s, Move(from, to))
    requires ParkInv(cfg, s.mem, s.prod, s.consumers)
    ensures ParkInv(cfg, s.mem, s.prod, Do(cfg, s, Move(from, to)).consumers)
  {
    var c := s.consumers[from];
    var gone := c.(pc := Gone, cursorId := cfg.maxConsumers);
    SumUpdate(Weight, s.consumers, from, gone);
    SumUpdate(Weight, s.consumers[from := gone], to, c);
  }

  lemma ParkProduce(cfg: Config, s: State)
    requires cfg.Valid() && CanDo(cfg, s, Produce)
    requires WindowInv(cfg, s.mem, s.prod, s.log)
    requires ParkInv(cfg, s.mem, s.prod, s.consumers)
    ensures var s' := Do(cfg, s, Produce); ParkInv(cfg, s'.mem, s'.prod, s'.consumers)
  {
    var s' := Do(cfg, s, Produce);
    SumAtMost(Weight, s.consumers, s'.consumers);
    SumAtMost(Weight, s'.consumers, s.consumers);
    forall t | 0 <= t < |s.consumers|
      ensures ParkOk(cfg, s'.mem, s'.prod, s'.consumers[t])
    {
      if s.prod.Stores() {
        ParkStore(cfg, s.mem, s.prod, s.log, s.consumers[t]);
      } else {
        SumUpdate(Weight, s.consumers, t, s.consumers[t]);
        ParkLoad(cfg, s.mem, s.prod, s.log, s.consumers[t]);
      }
    }
  }
}
