/** Overwrite on a machine whose stores drain through a FIFO buffer (x86-64, total store order). */
module StoreBuffer {
  import opened Sequences
  import opened Protocol
  import opened Window

  /** `sc.mem` is what has drained; `sc.prod` and `sc.log` are where the producer's program stands.
      Overwrite consumers store nothing; their updates of `waiters` are locked and bypass the buffer. */
  datatype Machine = Machine(sc: State, buffer: seq<Store>)

  datatype MachineEvent = Program(e: Event) | Drain

  /** `fenced`: the load of `waiters` in notify waits until the buffer is empty. The source has no such fence. */
  predicate CanStep(cfg: Config, fenced: bool, T: Machine, te: MachineEvent) {
    match te
    case Drain => T.buffer != []
    case Program(e) =>
      CanDo(cfg, T.sc, e) && (e.Produce? && T.sc.prod.pc.LoadWaiters? && fenced ==> T.buffer == [])
  }

  function Step(cfg: Config, T: Machine, te: MachineEvent): Machine
    requires cfg.Valid() && (te.Drain? ==> T.buffer != []) && (te.Program? ==> CanDo(cfg, T.sc, te.e))
  {
    match te
    case Drain => Machine(T.sc.(mem := Apply(T.sc.mem, T.buffer[0])), T.buffer[1..])
    case Program(e) =>
      if e.Produce? && T.sc.prod.Stores() then
        Machine(T.sc.(prod := AfterStore(cfg, T.sc.prod)), T.buffer + [StoreOf(cfg, T.sc.prod)])
      else Machine(Do(cfg, T.sc, e), T.buffer)
  }

  predicate CanSteps(cfg: Config, fenced: bool, T: Machine, es: seq<MachineEvent>)
    requires cfg.Valid()
    decreases |es|
  {
    es == [] || (CanStep(cfg, fenced, T, es[0]) && CanSteps(cfg, fenced, Step(cfg, T, es[0]), es[1..]))
  }

  function Steps(cfg: Config, fenced: bool, T: Machine, es: seq<MachineEvent>): Machine
    requires cfg.Valid() && CanSteps(cfg, fenced, T, es)
    decreases |es|
  {
    if es == [] then T else Steps(cfg, fenced, Step(cfg, T, es[0]), es[1..])
  }

  ghost predicate Reaches(cfg: Config, fenced: bool, T: Machine) {
    exists s0, es :: Init(cfg, s0) && CanSteps(cfg, fenced, Machine(s0, []), es)
                     && Steps(cfg, fenced, Machine(s0, []), es) == T
  }

  lemma Stepped(cfg: Config, fenced: bool, T: Machine, te: MachineEvent) returns (T': Machine)
    requires cfg.Valid() && Reaches(cfg, fenced, T) && CanStep(cfg, fenced, T, te)
    ensures T' == Step(cfg, T, te) && Reaches(cfg, fenced, T')
  {
    T' := Step(cfg, T, te);
    var s0, es :| Init(cfg, s0) && CanSteps(cfg, fenced, Machine(s0, []), es)
                  && Steps(cfg, fenced, Machine(s0, []), es) == T;
    StepsAppend(cfg, fenced, Machine(s0, []), es, [te]);
  }

  lemma {:induction false} StepsAppend(cfg: Config, fenced: bool, T: Machine,
                                       es: seq<MachineEvent>, fs: seq<MachineEvent>)
    requires cfg.Valid() && CanSteps(cfg, fenced, T, es) && CanSteps(cfg, fenced, Steps(cfg, fenced, T, es), fs)
    ensures CanSteps(cfg, fenced, T, es + fs)
    ensures Steps(cfg, fenced, T, es + fs) == Steps(cfg, fenced, Steps(cfg, fenced, T, es), fs)
    decreases |es|
  {
    if es == [] {
      assert es + fs == fs;
    } else {
      assert (es + fs)[1..] == es[1..] + fs;
      StepsAppend(cfg, fenced, Step(cfg, T, es[0]), es[1..], fs);
    }
  }

  // ------------------------------------------------------------ the delayed producer

  /** How many messages `p` has begun. */
  function Started(p: Producer): nat {
    if p.pc.Idle? then p.seqno else p.seqno + 1
  }

  /** The delayed producer begins the next message of the log at once. */
  function Settle(cfg: Config, p: Producer, log: seq<Message>): Producer {
    if p.pc.Idle? && p.seqno < |log| then BeginPublish(cfg, p, log[p.seqno]) else p
  }

  /** From `p`, the producer's program issues exactly the stores of `buffer` and then stands at `q`. */
  predicate Trail(cfg: Config, p: Producer, buffer: seq<Store>, q: Producer, log: seq<Message>)
    requires cfg.Valid()
    decreases |buffer|
  {
    if buffer == [] then p == q
    else
      && p.Stores() && StoreOf(cfg, p) == buffer[0]
      && Trail(cfg, Settle(cfg, AfterStore(cfg, p), log), buffer[1..], q, log)
  }

  lemma {:induction false} TrailAppend(cfg: Config, p: Producer, buffer: seq<Store>, q: Producer, log: seq<Message>)
    requires cfg.Valid() && Trail(cfg, p, buffer, q, log) && q.Stores()
    ensures Trail(cfg, p, buffer + [StoreOf(cfg, q)], Settle(cfg, AfterStore(cfg, q), log), log)
    decreases |buffer|
  {
    if buffer == [] {
      assert (buffer + [StoreOf(cfg, q)])[1..] == [];
    } else {
      assert (buffer + [StoreOf(cfg, q)])[1..] == buffer[1..] + [StoreOf(cfg, q)];
      TrailAppend(cfg, Settle(cfg, AfterStore(cfg, p), log), buffer[1..], q, log);
    }
  }

  lemma {:induction false} TrailBegin(cfg: Config, p: Producer, buffer: seq<Store>, q: Producer,
                                      log: seq<Message>, m: Message)
    requires cfg.Valid() && Trail(cfg, p, buffer, q, log) && q.pc.Idle? && q.seqno == |log|
    ensures Trail(cfg, Settle(cfg, p, log + [m]), buffer, BeginPublish(cfg, q, m), log + [m])
    decreases |buffer|
  {
    if buffer != [] {
      var p1 := AfterStore(cfg, p);
      TrailBegin(cfg, Settle(cfg, p1, log), buffer[1..], q, log, m);
      assert Settle(cfg, Settle(cfg, p1, log), log + [m]) == Settle(cfg, p1, log + [m]);
    }
  }

  /** `s` is the sequentially consistent state of the delayed producer. */
  ghost predicate Simulates(cfg: Config, T: Machine, s: State)
    requires cfg.Valid()
  {
    && s.mem == T.sc.mem && s.consumers == T.sc.consumers
    && Started(s.prod) <= |T.sc.log| && s.log == T.sc.log[..Started(s.prod)]
    && Settle(cfg, s.prod, T.sc.log) == s.prod
    && Trail(cfg, s.prod, T.buffer, T.sc.prod, T.sc.log)
  }

  /** The program side of the machine, which no drain touches. */
  ghost predicate ProgramOk(cfg: Config, T: Machine) {
    && |T.sc.log| == Started(T.sc.prod) < WRITING_SEQ
    && (forall m :: m in T.sc.log ==> |m| <= cfg.blockSize)
    && (T.sc.prod.pc.WakeAll? ==> T.buffer == [])
    && !Scanning(T.sc.prod)
    && (T.sc.prod.pc.LoadWaiters? || T.sc.prod.pc.WakeAll? ==> cfg.wait.Futex?)
    && (T.sc.prod.pc.StoreByte? ==> T.sc.prod.pc.k < |T.sc.prod.msg|)
  }

  lemma SimulateBegin(cfg: Config, T: Machine, s: State, m: Message)
    requires cfg.Valid() && cfg.policy.Overwrite? && Reachable(cfg, s)
    requires Simulates(cfg, T, s) && ProgramOk(cfg, T) && CanDo(cfg, T.sc, Begin(m))
    ensures exists s' :: Reachable(cfg, s') && Simulates(cfg, Step(cfg, T, Program(Begin(m))), s')
    ensures ProgramOk(cfg, Step(cfg, T, Program(Begin(m))))
  {
    TrailBegin(cfg, s.prod, T.buffer, T.sc.prod, T.sc.log, m);
    if T.buffer == [] {
      ReachableStep(cfg, s, Begin(m));
      assert Simulates(cfg, Step(cfg, T, Program(Begin(m))), Do(cfg, s, Begin(m)));
    } else {
      BeginBehindStores(cfg, T, s, m);
    }
  }

  lemma BeginBehindStores(cfg: Config, T: Machine, s: State, m: Message)
    requires cfg.Valid() && T.buffer != [] && Simulates(cfg, T, s) && CanDo(cfg, T.sc, Begin(m))
    requires Trail(cfg, Settle(cfg, s.prod, T.sc.log + [m]), T.buffer, BeginPublish(cfg, T.sc.prod, m), T.sc.log + [m])
    ensures Simulates(cfg, Step(cfg, T, Program(Begin(m))), s)
  {
  }

  lemma SimulateStore(cfg: Config, T: Machine, s: State)
    requires cfg.Valid() && cfg.policy.Overwrite?
    requires Simulates(cfg, T, s) && ProgramOk(cfg, T) && T.sc.prod.Stores()
    ensures Simulates(cfg, Step(cfg, T, Program(Produce)), s)
    ensures ProgramOk(cfg, Step(cfg, T, Program(Produce)))
  {
    TrailAppend(cfg, s.prod, T.buffer, T.sc.prod, T.sc.log);
  }

  /** The delayed producer makes the store that drains, and settles into its next message. */
  lemma SimulateDrain(cfg: Config, T: Machine, s: State)
    requires cfg.Valid() && cfg.policy.Overwrite? && Reachable(cfg, s)
    requires Simulates(cfg, T, s) && ProgramOk(cfg, T) && T.buffer != []
    ensures exists s' :: Reachable(cfg, s') && Simulates(cfg, Step(cfg, T, Drain), s')
    ensures ProgramOk(cfg, Step(cfg, T, Drain))
  {
    ReachableStep(cfg, s, Produce);
    SettleAfterDrain(cfg, Step(cfg, T, Drain), Do(cfg, s, Produce));
  }

  lemma SettleAfterDrain(cfg: Config, T: Machine, s: State)
    requires cfg.Valid() && cfg.policy.Overwrite? && Reachable(cfg, s) && ProgramOk(cfg, T)
    requires s.mem == T.sc.mem && s.consumers == T.sc.consumers
    requires Started(s.prod) <= |T.sc.log| && s.log == T.sc.log[..Started(s.prod)]
    requires Trail(cfg, Settle(cfg, s.prod, T.sc.log), T.buffer, T.sc.prod, T.sc.log)
    ensures exists s' :: Reachable(cfg, s') && Simulates(cfg, T, s')
  {
    if s.prod.pc.Idle? && s.prod.seqno < |T.sc.log| {
      var m := T.sc.log[s.prod.seqno];
      ReachableStep(cfg, s, Begin(m));
      assert s.log + [m] == T.sc.log[..s.prod.seqno + 1];
      assert Simulates(cfg, T, Do(cfg, s, Begin(m)));
    } else {
      assert Simulates(cfg, T, s);
    }
  }

  /** The end of notify: with the fence the buffer is empty, so the delayed producer is not behind. */
  lemma SimulateNotify(cfg: Config, fenced: bool, T: Machine, s: State)
    requires cfg.Valid() && cfg.policy.Overwrite? && Reachable(cfg, s) && (cfg.wait.Futex? ==> fenced)
    requires Simulates(cfg, T, s) && ProgramOk(cfg, T) && CanStep(cfg, fenced, T, Program(Produce))
    requires !T.sc.prod.Stores()
    ensures CanDo(cfg, s, Produce) && Reachable(cfg, Do(cfg, s, Produce))
    ensures Simulates(cfg, Step(cfg, T, Program(Produce)), Do(cfg, s, Produce))
    ensures ProgramOk(cfg, Step(cfg, T, Program(Produce)))
  {
    assert T.buffer == [];
    ReachableStep(cfg, s, Produce);
  }

  lemma SimulateConsumer(cfg: Config, T: Machine, s: State, e: Event)
    requires cfg.Valid() && Reachable(cfg, s) && Simulates(cfg, T, s) && ProgramOk(cfg, T)
    requires (e.Act? || e.Move?) && CanDo(cfg, T.sc, e)
    ensures CanDo(cfg, s, e) && Reachable(cfg, Do(cfg, s, e))
    ensures Simulates(cfg, Step(cfg, T, Program(e)), Do(cfg, s, e))
    ensures ProgramOk(cfg, Step(cfg, T, Program(e)))
  {
    ReachableStep(cfg, s, e);
  }

  /** One step of the machine is matched by at most two steps of a sequentially consistent
      run whose producer is delayed to its oldest undrained store. */
  lemma SimulateStep(cfg: Config, fenced: bool, T: Machine, s: State, te: MachineEvent)
    requires cfg.Valid() && cfg.policy.Overwrite? && Reachable(cfg, s) && (cfg.wait.Futex? ==> fenced)
    requires Simulates(cfg, T, s) && ProgramOk(cfg, T) && CanStep(cfg, fenced, T, te)
    ensures exists s' :: Reachable(cfg, s') && Simulates(cfg, Step(cfg, T, te), s')
    ensures ProgramOk(cfg, Step(cfg, T, te))
  {
    match te
    case Drain => SimulateDrain(cfg, T, s);
    case Program(e) =>
      if e.Begin? {
        SimulateBegin(cfg, T, s, e.m);
      } else if e.Produce? && T.sc.prod.Stores() {
        SimulateStore(cfg, T, s);
        assert Simulates(cfg, Step(cfg, T, te), s);
      } else if e.Produce? {
        SimulateNotify(cfg, fenced, T, s);
      } else {
        SimulateConsumer(cfg, T, s, e);
      }
  }

  lemma {:induction false} SimulateRun(cfg: Config, fenced: bool, T: Machine, s: State, es: seq<MachineEvent>)
    requires cfg.Valid() && cfg.policy.Overwrite? && Reachable(cfg, s) && (cfg.wait.Futex? ==> fenced)
    requires Simulates(cfg, T, s) && ProgramOk(cfg, T) && CanSteps(cfg, fenced, T, es)
    ensures exists s' :: Reachable(cfg, s') && Simulates(cfg, Steps(cfg, fenced, T, es), s')
    decreases |es|
  {
    if es == [] {
      assert Simulates(cfg, Steps(cfg, fenced, T, es), s);
    } else {
      SimulateStep(cfg, fenced, T, s, es[0]);
      var s1 :| Reachable(cfg, s1) && Simulates(cfg, Step(cfg, T, es[0]), s1);
      SimulateRun(cfg, fenced, Step(cfg, T, es[0]), s1, es[1..]);
    }
  }

  /** With spinning waits, or with futex waits and the fence, every state of the machine under
      Overwrite is the state of a sequentially consistent run with a delayed producer. */
  lemma FencedRefines(cfg: Config, fenced: bool, T: Machine) returns (s: State)
    requires cfg.policy.Overwrite? && (cfg.wait.Futex? ==> fenced) && Reaches(cfg, fenced, T)
    ensures cfg.Valid() && Reachable(cfg, s) && Simulates(cfg, T, s)
  {
    var s0, es :| Init(cfg, s0) && CanSteps(cfg, fenced, Machine(s0, []), es)
                  && Steps(cfg, fenced, Machine(s0, []), es) == T;
    assert CanRun(cfg, s0, []) && Run(cfg, s0, []) == s0;
    assert s0.log[..0] == s0.log;
    SimulateRun(cfg, fenced, Machine(s0, []), s0, es);
    s :| Reachable(cfg, s) && Simulates(cfg, T, s);
  }
}
