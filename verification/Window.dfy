/** The ring window: what every slot holds in every reachable state, under both policies. */
module Window {
  import opened Sequences
  import opened Protocol

  /** How many messages carry their final stamp. */
  function Stamped(p: Producer): nat {
    if p.pc.StoreCount? || p.pc.LoadWaiters? || p.pc.WakeAll? then p.seqno + 1 else p.seqno
  }

  /** The producer is between the first store to a slot and its stamp. */
  predicate Filling(p: Producer) {
    p.pc.StoreLen? || p.pc.StoreByte? || p.pc.StoreStamp?
  }

  predicate Scanning(p: Producer) {
    p.pc.ScanInUse? || p.pc.ScanValue?
  }

  /** `slot` holds message `m`. */
  predicate Holds(slot: Slot, m: Message) {
    slot.len == |m| <= |slot.payload| && slot.payload[..|m|] == m
  }

  /** `stamp` is the newest sequence of slot `i` among the first `n`, or none is. */
  predicate NewestStamp(cfg: Config, stamp: nat, i: nat, n: nat)
    requires cfg.Valid()
  {
    if stamp == EMPTY_SEQ then n <= i
    else stamp < n <= stamp + cfg.capacity && Index(stamp, cfg.capacity) == i
  }

  predicate Resident(cfg: Config, slot: Slot, i: nat, n: nat, log: seq<Message>)
    requires cfg.Valid()
  {
    && NewestStamp(cfg, slot.stamp, i, n)
    && (slot.stamp != EMPTY_SEQ ==> slot.stamp < |log| && Holds(slot, log[slot.stamp]))
  }

  /** The slot being filled: marked under Overwrite, still under the stamp of the previous
      lap under Backpressure, and filled as far as the producer has come. */
  predicate PartlyFilled(cfg: Config, slot: Slot, i: nat, p: Producer)
    requires cfg.Valid()
  {
    && (if cfg.policy.Overwrite? then slot.stamp == WRITING_SEQ else NewestStamp(cfg, slot.stamp, i, p.seqno))
    && |p.msg| <= |slot.payload|
    && (!p.pc.StoreLen? ==> slot.len == |p.msg|)
    && (p.pc.StoreByte? ==> p.pc.k < |p.msg| && slot.payload[..p.pc.k] == p.msg[..p.pc.k])
    && (p.pc.StoreStamp? ==> Holds(slot, p.msg))
  }

  predicate BeingFilled(cfg: Config, p: Producer, i: nat)
    requires cfg.Valid()
  {
    Filling(p) && Index(p.seqno, cfg.capacity) == i
  }

  predicate SlotOk(cfg: Config, slot: Slot, i: nat, p: Producer, log: seq<Message>)
    requires cfg.Valid()
  {
    && |slot.payload| == cfg.blockSize && slot.len <= cfg.blockSize
    && (if BeingFilled(cfg, p, i) then PartlyFilled(cfg, slot, i, p)
        else Resident(cfg, slot, i, Stamped(p), log))
  }

  /** The producer agrees with the log and with `produced()`, which lags the stamp. */
  predicate ProducerOk(cfg: Config, produced: nat, p: Producer, log: seq<Message>) {
    && produced == (if p.pc.LoadWaiters? || p.pc.WakeAll? then p.seqno + 1 else p.seqno)
    && |log| == (if p.pc.Idle? then p.seqno else p.seqno + 1)
    && |log| < WRITING_SEQ
    && (!p.pc.Idle? ==> p.msg == log[p.seqno] && |p.msg| <= cfg.blockSize)
    && (p.pc.StoreByte? ==> p.pc.k < |p.msg|)
    && (p.pc.MarkSlot? ==> cfg.policy.Overwrite?)
    && (Scanning(p) ==> cfg.policy.Backpressure? && cfg.capacity <= p.seqno && p.pc.i < cfg.maxConsumers)
    && (p.pc.LoadWaiters? || p.pc.WakeAll? ==> cfg.wait.Futex?)
  }

  ghost predicate WindowInv(cfg: Config, mem: Memory, p: Producer, log: seq<Message>)
    requires cfg.Valid()
  {
    && ProducerOk(cfg, mem.produced, p, log)
    && |mem.slots| == cfg.capacity
    && forall i :: 0 <= i < cfg.capacity ==> SlotOk(cfg, mem.slots[i], i, p, log)
  }

  lemma WindowInit(cfg: Config, s: State)
    requires Init(cfg, s)
    ensures WindowInv(cfg, s.mem, s.prod, s.log)
  {
  }

  lemma WindowBegin(cfg: Config, mem: Memory, p: Producer, log: seq<Message>, m: Message)
    requires cfg.Valid() && WindowInv(cfg, mem, p, log)
    requires p.pc.Idle? && |m| <= cfg.blockSize && p.seqno + 1 < WRITING_SEQ
    ensures WindowInv(cfg, mem, BeginPublish(cfg, p, m), log + [m])
  {
  }

  /** A store of the producer keeps the window. */
  lemma WindowStore(cfg: Config, mem: Memory, p: Producer, log: seq<Message>)
    requires cfg.Valid() && WindowInv(cfg, mem, p, log) && p.Stores()
    ensures WindowInv(cfg, Apply(mem, StoreOf(cfg, p)), AfterStore(cfg, p), log)
  {
    var mem', p' := Apply(mem, StoreOf(cfg, p)), AfterStore(cfg, p);
    forall i | 0 <= i < cfg.capacity
      ensures SlotOk(cfg, mem'.slots[i], i, p', log)
    {
      assert SlotOk(cfg, mem.slots[i], i, p, log);
      if i == Index(p.seqno, cfg.capacity) {
        OwnSlotStored(cfg, mem, p, log);
      }
    }
  }

  lemma OwnSlotStored(cfg: Config, mem: Memory, p: Producer, log: seq<Message>)
    requires cfg.Valid() && WindowInv(cfg, mem, p, log) && p.Stores()
    ensures var i := Index(p.seqno, cfg.capacity);
      SlotOk(cfg, Apply(mem, StoreOf(cfg, p)).slots[i], i, AfterStore(cfg, p), log)
  {
    var i := Index(p.seqno, cfg.capacity);
    var slot := mem.slots[i];
    assert SlotOk(cfg, slot, i, p, log);
    if p.pc.StoreByte? {
      var k := p.pc.k;
      assert slot.payload[k := p.msg[k]][..k + 1] == p.msg[..k + 1];
      assert p.msg[..|p.msg|] == p.msg;
    }
  }

  /** A load of the producer keeps the window. */
  lemma WindowLoad(cfg: Config, mem: Memory, p: Producer, log: seq<Message>)
    requires cfg.Valid() && WindowInv(cfg, mem, p, log) && !p.Stores()
    ensures WindowInv(cfg, mem, AfterLoad(cfg, mem, p), log)
  {
  }

  /** Consumers never store to a slot or to the count. */
  lemma ConsumersOnlyRead(cfg: Config, mem: Memory, c: Consumer, a: Action)
    requires cfg.Valid() && CanAct(cfg, mem, c, a)
    ensures Perform(cfg, mem, c, a).0.slots == mem.slots
    ensures Perform(cfg, mem, c, a).0.produced == mem.produced
  {
  }

  lemma WindowStep(cfg: Config, s: State, e: Event)
    requires cfg.Valid() && WindowInv(cfg, s.mem, s.prod, s.log) && CanDo(cfg, s, e)
    ensures var s' := Do(cfg, s, e); WindowInv(cfg, s'.mem, s'.prod, s'.log)
  {
    match e
    case Begin(m) => WindowBegin(cfg, s.mem, s.prod, s.log, m);
    case Produce =>
      if s.prod.Stores() {
        WindowStore(cfg, s.mem, s.prod, s.log);
      } else {
        WindowLoad(cfg, s.mem, s.prod, s.log);
      }
    case Act(t, a) => ConsumersOnlyRead(cfg, s.mem, s.consumers[t], a);
    case Move(_, _) =>
  }

  /** The slots are ready for the stores of a new message. */
  lemma WindowEnter(cfg: Config, mem: Memory, p: Producer, log: seq<Message>, m: Message)
    requires cfg.Valid() && WindowInv(cfg, mem, p, log)
    requires p.pc.Idle? && |m| <= cfg.blockSize && p.seqno + 1 < WRITING_SEQ
    ensures WindowInv(cfg, mem, Producer(FirstStore(cfg), p.seqno, m), log + [m])
  {
  }

  /** With no publish in flight, do_read answers from the last Capacity messages of the log. */
  lemma LookupAtRest(cfg: Config, mem: Memory, p: Producer, log: seq<Message>, n: nat)
    requires cfg.Valid() && WindowInv(cfg, mem, p, log) && p.pc.Idle? && n < WRITING_SEQ
    ensures mem.produced == |log|
    ensures var r := Classify(SlotFor(cfg, mem, n).stamp, n); var P := |log|;
      && (r.Ok? <==> n < P <= n + cfg.capacity)
      && (r.Empty? <==> P <= n)
      && (r.Lapped? <==> n + cfg.capacity < P)
      && (r.Ok? ==> Holds(SlotFor(cfg, mem, n), log[n]))
  {
    var i := Index(n, cfg.capacity);
    assert SlotOk(cfg, mem.slots[i], i, p, log);
    var stamp := mem.slots[i].stamp;
    if stamp == EMPTY_SEQ {
      IndexAtMost(n, cfg.capacity);
    } else if stamp != n {
      SameSlotLapApart(if stamp < n then stamp else n, if stamp < n then n else stamp, cfg.capacity);
    }
  }
}
