/** Exactly when the futex wait of Overwrite strands a sleeper: the runs that do, and why no other does. */
module Stranding {
  import opened Sequences
  import opened Bits
  import opened Protocol
  import opened Window
  import opened Reads
  import opened Parking
  import opened Safety
  import opened Guarantees
  import opened StoreBuffer
  import opened Unparked

  // ------------------------------------------------------------ a sequentially consistent prefix

  lemma OneConsumer(cfg: Config) returns (s: State)
    requires cfg.Valid()
    ensures Init(cfg, s) && Reachable(cfg, s)
    ensures s.consumers == [Consumer(Unborn, 0, 0, cfg.maxConsumers, Empty, 0, NO_VIEW, 0, [])]
  {
    var slot := Slot(EMPTY_SEQ, 0, seq(cfg.blockSize, _ => 0));
    var mem := Memory(seq(cfg.capacity, _ => slot), 0, seq(cfg.maxConsumers, _ => Cursor(0, false)), 0);
    s := State(mem, Producer(Idle, 0, []), [],
               [Consumer(Unborn, 0, 0, cfg.maxConsumers, Empty, 0, NO_VIEW, 0, [])]);
    assert CanRun(cfg, s, []) && Run(cfg, s, []) == s;
  }

  ghost predicate NoneAsleep(cs: seq<Consumer>) {
    forall t :: 0 <= t < |cs| ==> !cs[t].pc.Asleep?
  }

  /** One whole publish of an empty message, undisturbed. */
  lemma PublishEmpty(cfg: Config, s: State) returns (s': State)
    requires Reachable(cfg, s) && cfg.policy.Overwrite? && s.prod.pc.Idle? && NoneAsleep(s.consumers)
    requires |s.log| + 1 < WRITING_SEQ
    ensures Reachable(cfg, s') && s'.prod.pc.Idle? && |s'.log| == |s.log| + 1
    ensures s'.consumers == s.consumers && s'.mem.waiters == s.mem.waiters
  {
    s' := Begun(cfg, s);
    s' := StoredThrough(cfg, s');
    s' := Notified(cfg, s');
  }

  lemma Begun(cfg: Config, s: State) returns (s': State)
    requires Reachable(cfg, s) && cfg.policy.Overwrite? && s.prod.pc.Idle? && |s.log| + 1 < WRITING_SEQ
    ensures cfg.Valid() && Reachable(cfg, s') && s'.prod == Producer(MarkSlot, |s.log|, []) && s'.log == s.log + [[]]
    ensures s'.consumers == s.consumers && s'.mem == s.mem
  {
    InvReachable(cfg, s);
    s' := Do(cfg, s, Begin([]));
    ReachableStep(cfg, s, Begin([]));
  }

  function StoresLeft(p: Producer): nat {
    match p.pc
    case MarkSlot => 4
    case StoreLen => 3
    case StoreStamp => 2
    case StoreCount => 1
    case _ => 0
  }

  /** The stores of an empty message, one after the other. */
  lemma {:induction false} StoredThrough(cfg: Config, s: State) returns (s': State)
    requires Reachable(cfg, s) && cfg.Valid() && s.prod.Stores() && s.prod.msg == []
    ensures Reachable(cfg, s') && s'.prod == AfterStore(cfg, s.prod.(pc := StoreCount)) && s'.log == s.log
    ensures s'.consumers == s.consumers && s'.mem.waiters == s.mem.waiters && s'.mem.cursors == s.mem.cursors
    decreases StoresLeft(s.prod)
  {
    s' := Do(cfg, s, Produce);
    ReachableStep(cfg, s, Produce);
    if !s.prod.pc.StoreCount? {
      s' := StoredThrough(cfg, s');
    }
  }

  /** The end of a publish: with nobody asleep a wake changes nothing. */
  lemma {:induction false} Notified(cfg: Config, s: State) returns (s': State)
    requires Reachable(cfg, s) && cfg.Valid() && NoneAsleep(s.consumers)
    requires s.prod.pc.LoadWaiters? || s.prod.pc.WakeAll? || s.prod.pc.Idle?
    ensures Reachable(cfg, s') && s'.prod.pc.Idle? && s'.log == s.log && s'.mem == s.mem
    ensures s'.consumers == s.consumers
    decreases if s.prod.pc.LoadWaiters? then 1 else 0
  {
    s' := s;
    if !s.prod.pc.Idle? {
      s' := Do(cfg, s, Produce);
      ReachableStep(cfg, s, Produce);
      assert WakeSlot(cfg, Index(s.prod.seqno, cfg.capacity), s.consumers) == s.consumers;
      if s.prod.pc.LoadWaiters? {
        s' := Notified(cfg, s');
      }
    }
  }

  lemma {:induction false} PublishUpTo(cfg: Config, s: State, n: nat) returns (s': State)
    requires Reachable(cfg, s) && cfg.policy.Overwrite? && s.prod.pc.Idle? && NoneAsleep(s.consumers)
    requires |s.log| <= n < WRITING_SEQ
    ensures Reachable(cfg, s') && s'.prod.pc.Idle? && |s'.log| == n
    ensures s'.consumers == s.consumers && s'.mem.waiters == s.mem.waiters
    decreases n - |s.log|
  {
    if |s.log| == n {
      s' := s;
    } else {
      s' := PublishEmpty(cfg, s);
      s' := PublishUpTo(cfg, s', n);
    }
  }

  /** read_blocking on an unpublished message spins until the futex call is next. */
  lemma {:induction false} SpinToPark(cfg: Config, s: State) returns (s': State)
    requires Reachable(cfg, s) && cfg.wait.Futex? && s.prod.pc.Idle?
    requires |s.consumers| == 1 && s.consumers[0].pc.Blocking? && s.consumers[0].iter <= SPIN_BEFORE_SYSCALL
    requires |s.log| <= s.consumers[0].next < WRITING_SEQ
    ensures Reachable(cfg, s') && s'.mem == s.mem && s'.prod == s.prod && s'.log == s.log
    ensures |s'.consumers| == 1 && s'.consumers[0].pc.AddWaiter? && s'.consumers[0].next == s.consumers[0].next
    decreases SPIN_BEFORE_SYSCALL - s.consumers[0].iter
  {
    InvReachable(cfg, s);
    BoundedLogAtRest(cfg, s, s.consumers[0].next);
    s' := ActedBy(cfg, s, 0, Advance);
    s' := ActedBy(cfg, s', 0, Advance);
    if s.consumers[0].iter < SPIN_BEFORE_SYSCALL {
      s' := SpinToPark(cfg, s');
    }
  }

  /** Capacity messages are published and a consumer that wants the next one is about to
      announce itself as a waiter; its slot still carries stamp 0. */
  lemma AboutToWait(cfg: Config) returns (s: State)
    requires cfg.Valid() && cfg.policy.Overwrite? && cfg.wait.Futex? && cfg.capacity < WRITING_SEQ
    ensures Reachable(cfg, s) && s.prod.pc.Idle? && |s.log| == cfg.capacity && s.mem.waiters == 0
    ensures |s.consumers| == 1 && s.consumers[0].pc.AddWaiter? && s.consumers[0].next == cfg.capacity
    ensures SlotFor(cfg, s.mem, cfg.capacity).stamp == 0
  {
    s := OneConsumer(cfg);
    s := PublishUpTo(cfg, s, cfg.capacity);
    InvReachable(cfg, s);
    BoundedLogAtRest(cfg, s, 0);
    s := ActedBy(cfg, s, 0, Construct(false, cfg.capacity));
    s := ActedBy(cfg, s, 0, Block);
    s := SpinToPark(cfg, s);
  }

  // ------------------------------------------------------------ aliasing of the futex word

  /** A sleeper whose stamp has moved on. */
  predicate Outdated(cfg: Config, mem: Memory, c: Consumer)
    requires cfg.Valid()
  {
    c.pc.Asleep? && SlotFor(cfg, mem, c.next).stamp != c.pc.seen
  }

  /** Under Overwrite the 32-bit comparison can be fooled: between the load of stamp 0 and the
      futex call the producer gets to a message `last` of the same slot and the same word, and the
      consumer falls asleep although its message was published, and even overwritten if it is not `last`. */
  lemma SleepsOnAliasedStamp(cfg: Config, last: nat) returns (s: State)
    requires cfg.Valid() && cfg.policy.Overwrite? && cfg.wait.Futex?
    requires cfg.capacity <= last && last + 1 < WRITING_SEQ && Index(last, cfg.capacity) == 0 && Word(last) == 0
    ensures Reachable(cfg, s) && s.prod.pc.Idle? && |s.log| == last + 1 && |s.consumers| == 1
    ensures s.consumers[0].next == cfg.capacity && SlotFor(cfg, s.mem, cfg.capacity).stamp == last
    ensures Outdated(cfg, s.mem, s.consumers[0])
  {
    s := AboutToWait(cfg);
    s := LoadedStampZero(cfg, s);
    s := PublishUpTo(cfg, s, last + 1);
    BoundedLogAtRest(cfg, s, last);
    assert Index(cfg.capacity, cfg.capacity) == 0;
    s := ActedBy(cfg, s, 0, Advance);
  }

  lemma LoadedStampZero(cfg: Config, s: State) returns (s': State)
    requires Reachable(cfg, s) && cfg.Valid() && s.prod.pc.Idle?
    requires |s.consumers| == 1 && s.consumers[0].pc.AddWaiter? && s.consumers[0].next == cfg.capacity
    requires SlotFor(cfg, s.mem, cfg.capacity).stamp == 0
    ensures Reachable(cfg, s') && s'.prod == s.prod && s'.log == s.log
    ensures |s'.consumers| == 1 && s'.consumers[0].pc == WaitWord(0) && s'.consumers[0].next == cfg.capacity
  {
    s' := ActedBy(cfg, s, 0, Advance);
    s' := ActedBy(cfg, s', 0, Advance);
  }

  const WORDS: nat := 0x1_0000_0000

  /** For a power-of-two capacity the larger of 2^32 and the capacity is a multiple of both. */
  lemma CommonMultiple(k: nat) returns (last: nat)
    ensures last == (if Pow2(k) < WORDS then WORDS else Pow2(k))
    ensures Index(last, Pow2(k)) == 0 && Word(last) == 0
  {
    last := if Pow2(k) < WORDS then WORDS else Pow2(k);
    Pow2Is32();
    if k < 32 {
      Pow2Multiple(k, 32 - k);
      IndexOfSum(Pow2(32 - k), 0, Pow2(k));
      Pow2Grows(k, 32);
    } else {
      Pow2Multiple(32, k - 32);
      IndexOfSum(Pow2(k - 32), 0, WORDS);
      IndexIsRemainder(Pow2(k), WORDS);
    }
  }

  /** For a power-of-two capacity that takes one message more than 2^32, or than the capacity if that is larger. */
  lemma AliasedAfter(cfg: Config, k: nat) returns (s: State)
    requires cfg.Valid() && cfg.policy.Overwrite? && cfg.wait.Futex?
    requires cfg.capacity == Pow2(k) && cfg.capacity + 1 < WRITING_SEQ
    ensures Reachable(cfg, s) && s.prod.pc.Idle? && |s.consumers| == 1 && Outdated(cfg, s.mem, s.consumers[0])
    ensures |s.log| == (if cfg.capacity < WORDS then WORDS else cfg.capacity) + 1
    ensures cfg.capacity < WORDS ==>
      s.consumers[0].next < SlotFor(cfg, s.mem, s.consumers[0].next).stamp
  {
    var last := CommonMultiple(k);
    s := SleepsOnAliasedStamp(cfg, last);
  }

  // ------------------------------------------------------------ the store buffer

  /** A machine that drains every store at once makes every sequentially consistent run. */
  lemma {:induction false} EagerDrain(cfg: Config, fenced: bool, T: Machine, es: seq<Event>)
    requires cfg.Valid() && Reaches(cfg, fenced, T) && T.buffer == [] && CanRun(cfg, T.sc, es)
    ensures Reaches(cfg, fenced, Machine(Run(cfg, T.sc, es), []))
    decreases |es|
  {
    if es != [] {
      var T1 := Stepped(cfg, fenced, T, Program(es[0]));
      if T1.buffer != [] {
        T1 := Stepped(cfg, fenced, T1, Drain);
      }
      assert T1 == Machine(Do(cfg, T.sc, es[0]), []);
      EagerDrain(cfg, fenced, T1, es[1..]);
    } else {
      assert T == Machine(T.sc, []);
    }
  }

  lemma ReachedEagerly(cfg: Config, fenced: bool, s: State)
    requires Reachable(cfg, s)
    ensures Reaches(cfg, fenced, Machine(s, []))
  {
    var s0, es :| Init(cfg, s0) && CanRun(cfg, s0, es) && Run(cfg, s0, es) == s;
    assert CanSteps(cfg, fenced, Machine(s0, []), []) && Steps(cfg, fenced, Machine(s0, []), []) == Machine(s0, []);
    EagerDrain(cfg, fenced, Machine(s0, []), es);
  }

  /** Issuing one store appends it to the buffer and leaves memory alone. */
  lemma Issued(cfg: Config, T: Machine) returns (T': Machine)
    requires Reaches(cfg, false, T) && cfg.Valid() && T.sc.prod.Stores()
    ensures Reaches(cfg, false, T') && T'.buffer == T.buffer + [StoreOf(cfg, T.sc.prod)]
    ensures T'.sc == T.sc.(prod := AfterStore(cfg, T.sc.prod))
  {
    T' := Stepped(cfg, false, T, Program(Produce));
  }

  /** The stores of message `n`, if it is empty. */
  function EmptyPublish(i: nat, n: nat): seq<Store> {
    [PutStamp(i, WRITING_SEQ), PutLen(i, 0), PutStamp(i, n), PutCount(n + 1)]
  }

  lemma StoresIntoBuffer(cfg: Config, T: Machine) returns (T': Machine)
    requires Reaches(cfg, false, T) && cfg.Valid() && T.sc.prod.pc.MarkSlot? && T.sc.prod.msg == []
    ensures Reaches(cfg, false, T') && T'.sc == T.sc.(prod := AfterStore(cfg, T.sc.prod.(pc := StoreCount)))
    ensures T'.buffer == T.buffer + EmptyPublish(Index(T.sc.prod.seqno, cfg.capacity), T.sc.prod.seqno)
  {
    var T1 := Issued(cfg, T);
    var T2 := Issued(cfg, T1);
    var T3 := Issued(cfg, T2);
    T' := Issued(cfg, T3);
    var i, n := Index(T.sc.prod.seqno, cfg.capacity), T.sc.prod.seqno;
    assert T'.buffer == T.buffer + [PutStamp(i, WRITING_SEQ)] + [PutLen(i, 0)] + [PutStamp(i, n)] + [PutCount(n + 1)];
  }

  /** A whole publish of an empty message with all its stores still in the buffer. */
  lemma PublishIntoBuffer(cfg: Config, T: Machine) returns (T': Machine)
    requires Reaches(cfg, false, T) && cfg.Valid() && cfg.policy.Overwrite? && cfg.wait.Futex?
    requires T.sc.prod.pc.Idle? && T.sc.mem.waiters == 0 && T.sc.prod.seqno + 1 < WRITING_SEQ
    ensures Reaches(cfg, false, T') && T'.sc.prod.pc.Idle? && T'.sc.prod.seqno == T.sc.prod.seqno + 1
    ensures T'.sc.mem == T.sc.mem && T'.sc.consumers == T.sc.consumers && |T'.sc.log| == |T.sc.log| + 1
    ensures T'.buffer == T.buffer + EmptyPublish(Index(T.sc.prod.seqno, cfg.capacity), T.sc.prod.seqno)
  {
    T' := Stepped(cfg, false, T, Program(Begin([])));
    T' := StoresIntoBuffer(cfg, T');
    T' := Stepped(cfg, false, T', Program(Produce));
  }

  /** The program may run ahead of memory by any number of whole messages. */
  lemma {:induction false} MessagesIntoBuffer(cfg: Config, T: Machine, n: nat) returns (T': Machine)
    requires Reaches(cfg, false, T) && cfg.Valid() && cfg.policy.Overwrite? && cfg.wait.Futex?
    requires T.sc.prod.pc.Idle? && T.sc.mem.waiters == 0 && T.sc.prod.seqno + n < WRITING_SEQ
    ensures Reaches(cfg, false, T') && T'.sc.prod.pc.Idle? && T'.sc.mem == T.sc.mem
    ensures |T'.sc.log| == |T.sc.log| + n && |T'.buffer| == |T.buffer| + 4 * n
    decreases n
  {
    T' := T;
    if n > 0 {
      T' := PublishIntoBuffer(cfg, T);
      T' := MessagesIntoBuffer(cfg, T', n - 1);
    }
  }

  /** The drained stamp that the only consumer waits on. */
  function StampOf(cfg: Config, T: Machine): nat
    requires cfg.Valid() && |T.sc.consumers| == 1
  {
    SlotFor(cfg, T.sc.mem, T.sc.consumers[0].next).stamp
  }

  lemma ParkOnMachine(cfg: Config, T: Machine) returns (T': Machine)
    requires Reaches(cfg, false, T) && cfg.Valid() && |T.sc.consumers| == 1
    requires T.sc.consumers[0].pc.AddWaiter? && StampOf(cfg, T) < T.sc.consumers[0].next
    ensures Reaches(cfg, false, T') && T'.buffer == T.buffer && T'.sc.prod == T.sc.prod
    ensures T'.sc.mem.slots == T.sc.mem.slots && T'.sc.log == T.sc.log
    ensures |T'.sc.consumers| == 1 && T'.sc.consumers[0].next == T.sc.consumers[0].next
    ensures T'.sc.consumers[0].pc == Asleep(StampOf(cfg, T))
  {
    T' := Stepped(cfg, false, T, Program(Event.Act(0, Advance)));
    T' := SleepOnMachine(cfg, T');
  }

  lemma SleepOnMachine(cfg: Config, T: Machine) returns (T': Machine)
    requires Reaches(cfg, false, T) && cfg.Valid() && |T.sc.consumers| == 1
    requires T.sc.consumers[0].pc.LoadWord? && StampOf(cfg, T) < T.sc.consumers[0].next
    ensures Reaches(cfg, false, T') && T'.buffer == T.buffer
    ensures T'.sc == T.sc.(consumers := [T.sc.consumers[0].(pc := Asleep(StampOf(cfg, T)))])
  {
    T' := Stepped(cfg, false, T, Program(Event.Act(0, Advance)));
    T' := Stepped(cfg, false, T', Program(Event.Act(0, Advance)));
  }

  lemma DrainPublish(cfg: Config, T: Machine, i: nat, n: nat) returns (T': Machine)
    requires Reaches(cfg, false, T) && cfg.Valid() && i < |T.sc.mem.slots| && T.sc.prod.pc.Idle?
    requires T.buffer == EmptyPublish(i, n)
    ensures Reaches(cfg, false, T') && AtRest(T') && T'.sc.consumers == T.sc.consumers && T'.sc.log == T.sc.log
    ensures T'.sc.mem.SlotAt(i).stamp == n
  {
    T' := Stepped(cfg, false, T, Drain);
    T' := Stepped(cfg, false, T', Drain);
    T' := Stepped(cfg, false, T', Drain);
    T' := Stepped(cfg, false, T', Drain);
  }

  /** Without a fence a wakeup is lost: notify loads `waiters` == 0 while the stamp is still
      in the buffer; the consumer then announces itself, loads the old stamp and sleeps; the
      stamp drains and nobody wakes it. */
  lemma UnfencedStrands(cfg: Config) returns (T: Machine)
    requires cfg.Valid() && cfg.policy.Overwrite? && cfg.wait.Futex? && cfg.capacity + 1 < WRITING_SEQ
    ensures Reaches(cfg, false, T) && Stranded(cfg, T) && |T.sc.log| == cfg.capacity + 1
  {
    var s := AboutToWait(cfg);
    InvReachable(cfg, s);
    ReachedEagerly(cfg, false, s);
    T := Machine(s, []);
    T := PublishIntoBuffer(cfg, T);
    T := ParkOnMachine(cfg, T);
    T := DrainPublish(cfg, T, Index(cfg.capacity, cfg.capacity), cfg.capacity);
    assert Outdated(cfg, T.sc.mem, T.sc.consumers[0]);
  }

  // ------------------------------------------------------------ when nobody is stranded

  /** At rest: no publish in progress and every store drained. */
  predicate AtRest(T: Machine) {
    T.sc.prod.pc.Idle? && T.buffer == []
  }

  /** A sleeper whose stamp has moved on although no wake is to come. */
  predicate Stranded(cfg: Config, T: Machine)
    requires cfg.Valid()
  {
    AtRest(T) && exists t :: 0 <= t < |T.sc.consumers| && Outdated(cfg, T.sc.mem, T.sc.consumers[t])
  }

  /** The stamp that a waiting consumer saw is a message of its slot that was begun. */
  predicate SawMessage(cfg: Config, T: Machine, c: Consumer)
    requires cfg.Valid()
  {
    Seeing(c) ==>
      c.pc.seen < c.next && c.pc.seen < |T.sc.log| && Index(c.pc.seen, cfg.capacity) == Index(c.next, cfg.capacity)
  }

  ghost predicate AllSawMessages(cfg: Config, T: Machine)
    requires cfg.Valid()
  {
    forall t :: 0 <= t < |T.sc.consumers| ==> SawMessage(cfg, T, T.sc.consumers[t])
  }

  /** A stamp below `next`, in memory that may lag the program, is a message of its slot. */
  lemma DrainedStamp(cfg: Config, fenced: bool, T: Machine, t: nat)
    requires Reaches(cfg, fenced, T) && cfg.policy.Overwrite? && t < |T.sc.consumers|
    ensures cfg.Valid()
    ensures var next := T.sc.consumers[t].next; var stamp := SlotFor(cfg, T.sc.mem, next).stamp;
      stamp < next ==> stamp < |T.sc.log| && Index(stamp, cfg.capacity) == Index(next, cfg.capacity)
  {
    var s := StoreBufferRefines(cfg, fenced, T);
    InvReachable(Spin(cfg), s);
    var c := T.sc.consumers[t];
    assert s.consumers[t] == Unpark(c) && ReadOk(Spin(cfg), s.mem, s.prod, s.log, s.consumers[t]);
    var i := Index(c.next, cfg.capacity);
    assert SlotOk(Spin(cfg), s.mem.slots[i], i, s.prod, s.log);
  }

  lemma SawMessageStep(cfg: Config, fenced: bool, T: Machine, te: MachineEvent)
    requires Reaches(cfg, fenced, T) && cfg.policy.Overwrite? && cfg.Valid() && CanStep(cfg, fenced, T, te)
    requires AllSawMessages(cfg, T)
    ensures AllSawMessages(cfg, Step(cfg, T, te))
  {
    if te.Program? && te.e.Act? {
      DrainedStamp(cfg, fenced, T, te.e.t);
      SawMessageAct(cfg, T, T.sc.consumers[te.e.t], te.e.a);
    }
  }

  lemma SawMessageAct(cfg: Config, T: Machine, c: Consumer, a: Action)
    requires cfg.Valid() && CanAct(cfg, T.sc.mem, c, a) && SawMessage(cfg, T, c)
    requires var stamp := SlotFor(cfg, T.sc.mem, c.next).stamp;
      stamp < c.next ==> stamp < |T.sc.log| && Index(stamp, cfg.capacity) == Index(c.next, cfg.capacity)
    ensures SawMessage(cfg, T, Perform(cfg, T.sc.mem, c, a).1)
  {
  }

  lemma {:induction false} SawMessageRun(cfg: Config, fenced: bool, T: Machine, es: seq<MachineEvent>)
    requires Reaches(cfg, fenced, T) && cfg.policy.Overwrite? && cfg.Valid() && CanSteps(cfg, fenced, T, es)
    requires AllSawMessages(cfg, T)
    ensures AllSawMessages(cfg, Steps(cfg, fenced, T, es))
    decreases |es|
  {
    if es != [] {
      SawMessageStep(cfg, fenced, T, es[0]);
      var T1 := Stepped(cfg, fenced, T, es[0]);
      SawMessageRun(cfg, fenced, T1, es[1..]);
    }
  }

  lemma SawMessageReaches(cfg: Config, fenced: bool, T: Machine)
    requires Reaches(cfg, fenced, T) && cfg.policy.Overwrite?
    ensures cfg.Valid() && AllSawMessages(cfg, T)
  {
    var s0, es :| Init(cfg, s0) && CanSteps(cfg, fenced, Machine(s0, []), es)
                  && Steps(cfg, fenced, Machine(s0, []), es) == T;
    var T0 := Machine(s0, []);
    assert CanSteps(cfg, fenced, T0, []) && Steps(cfg, fenced, T0, []) == T0;
    SawMessageRun(cfg, fenced, T0, es);
  }

  /** At rest the stamp of a waiting consumer's slot is the one it saw or a later message of the slot. */
  lemma StampAtRest(cfg: Config, fenced: bool, T: Machine, t: nat)
    requires Reaches(cfg, fenced, T) && cfg.policy.Overwrite? && AtRest(T)
    requires t < |T.sc.consumers| && Seeing(T.sc.consumers[t])
    ensures cfg.Valid()
    ensures var c := T.sc.consumers[t]; var stamp := SlotFor(cfg, T.sc.mem, c.next).stamp;
      stamp == c.pc.seen || (c.pc.seen + cfg.capacity <= stamp < |T.sc.log|)
  {
    SawMessageReaches(cfg, fenced, T);
    var s := StoreBufferRefines(cfg, fenced, T);
    InvReachable(Spin(cfg), s);
    var c := T.sc.consumers[t];
    assert SawMessage(cfg, T, c);
    var i := Index(c.next, cfg.capacity);
    assert SlotOk(Spin(cfg), s.mem.slots[i], i, s.prod, s.log);
    var stamp := s.mem.slots[i].stamp;
    if stamp == EMPTY_SEQ {
      IndexAtMost(c.pc.seen, cfg.capacity);
    } else if stamp != c.pc.seen {
      SameSlotLapApart(if stamp < c.pc.seen then stamp else c.pc.seen,
                       if stamp < c.pc.seen then c.pc.seen else stamp, cfg.capacity);
    }
  }

  /** A run of at most Capacity messages strands nobody, with or without the fence. */
  lemma FirstLapStrandsNone(cfg: Config, fenced: bool, T: Machine)
    requires cfg.policy.Overwrite? && Reaches(cfg, fenced, T) && |T.sc.log| <= cfg.capacity
    ensures cfg.Valid() && !Stranded(cfg, T)
  {
    SawMessageReaches(cfg, fenced, T);
    if Stranded(cfg, T) {
      var t :| 0 <= t < |T.sc.consumers| && Outdated(cfg, T.sc.mem, T.sc.consumers[t]);
      StampAtRest(cfg, fenced, T, t);
    }
  }

  /** With the fence the word of a sleeper is the one it saw, and up to 2^32 messages so is the stamp. */
  lemma FenceStrandsNone(cfg: Config, T: Machine)
    requires cfg.policy.Overwrite? && Reaches(cfg, true, T) && |T.sc.log| <= WORDS
    ensures cfg.Valid() && !Stranded(cfg, T)
  {
    var s := FencedRefines(cfg, true, T);
    if Stranded(cfg, T) {
      var t :| 0 <= t < |T.sc.consumers| && Outdated(cfg, T.sc.mem, T.sc.consumers[t]);
      NoLostWakeup(cfg, s, t);
      StampAtRest(cfg, true, T, t);
    }
  }

  /** With a store buffer a run of N messages strands no Overwrite sleeper exactly when it stays
      within the first lap, or the buffer is drained before notify loads `waiters` and the
      32-bit words of the run are distinct. */
  lemma EventCountNeedsFence(cfg: Config, k: nat, fenced: bool, N: nat)
    requires cfg.Valid() && cfg.policy.Overwrite? && cfg.wait.Futex?
    requires cfg.capacity == Pow2(k) && cfg.capacity + 1 < WRITING_SEQ
    ensures (forall T :: Reaches(cfg, fenced, T) && |T.sc.log| <= N ==> !Stranded(cfg, T))
            <==> N <= cfg.capacity || (fenced && N <= WORDS)
  {
    if N <= cfg.capacity || (fenced && N <= WORDS) {
      forall T | Reaches(cfg, fenced, T) && |T.sc.log| <= N
        ensures !Stranded(cfg, T)
      {
        if N <= cfg.capacity {
          FirstLapStrandsNone(cfg, fenced, T);
        } else {
          FenceStrandsNone(cfg, T);
        }
      }
    } else if fenced {
      var s := AliasedAfter(cfg, k);
      ReachedEagerly(cfg, fenced, s);
      assert Stranded(cfg, Machine(s, []));
    } else {
      var T := UnfencedStrands(cfg);
    }
  }

  /** Without a store buffer the same holds of the comparison of words alone: at rest every
      Overwrite sleeper's stamp is the one it saw, in every run of N messages, exactly when N
      is at most 2^32 or the capacity. */
  lemma SleepersUpToDate(cfg: Config, k: nat, N: nat)
    requires cfg.Valid() && cfg.policy.Overwrite? && cfg.wait.Futex?
    requires cfg.capacity == Pow2(k) && cfg.capacity + 1 < WRITING_SEQ
    ensures (forall s, t :: Reachable(cfg, s) && s.prod.pc.Idle? && |s.log| <= N && 0 <= t < |s.consumers| ==>
                              !Outdated(cfg, s.mem, s.consumers[t]))
            <==> N <= cfg.capacity || N <= WORDS
  {
    if N <= cfg.capacity || N <= WORDS {
      forall s, t | Reachable(cfg, s) && s.prod.pc.Idle? && |s.log| <= N && 0 <= t < |s.consumers|
        ensures !Outdated(cfg, s.mem, s.consumers[t])
      {
        ReachedEagerly(cfg, true, s);
        EventCountNeedsFence(cfg, k, true, N);
        assert !Stranded(cfg, Machine(s, []));
      }
    } else {
      var s := AliasedAfter(cfg, k);
      assert Outdated(cfg, s.mem, s.consumers[0]);
    }
  }
}
