/** The machine with a store buffer and futex waits, whether fenced or not: whoever sleeps and
    whoever is woken makes no difference to what is read. Forgetting the parking leaves a
    machine with spinning waits, which refines to a sequentially consistent run. */
module Unparked {
  import opened Protocol
  import opened Reads
  import opened Parking
  import opened Guarantees
  import opened StoreBuffer

  function Spin(cfg: Config): Config {
    cfg.(wait := Spinning)
  }

  /** A consumer in the futex call is one that has still to poll again. */
  function Unpark(c: Consumer): Consumer {
    if Waiting(c) || c.pc.AddWaiter? then c.(pc := Parking) else c
  }

  /** A producer in notify has finished its publish. */
  function Unnotify(p: Producer): Producer {
    if p.pc.LoadWaiters? || p.pc.WakeAll? then Producer(Idle, p.seqno + 1, p.msg) else p
  }

  function Plain(s: State): State {
    State(s.mem.(waiters := 0), Unnotify(s.prod), s.log,
          seq(|s.consumers|, t requires 0 <= t < |s.consumers| => Unpark(s.consumers[t])))
  }

  function PlainMachine(T: Machine): Machine {
    Machine(Plain(T.sc), T.buffer)
  }

  /** The machine with spinning waits makes the same step, or none. */
  ghost predicate Follows(cfg: Config, fenced: bool, T: Machine, te: MachineEvent, T': Machine)
    requires cfg.Valid()
  {
    || PlainMachine(T') == PlainMachine(T)
    || (CanStep(Spin(cfg), fenced, PlainMachine(T), te) && Step(Spin(cfg), PlainMachine(T), te) == PlainMachine(T'))
  }

  /** A consumer's step with the parking forgotten. */
  lemma PlainAct(cfg: Config, mem: Memory, c: Consumer, a: Action)
    requires cfg.Valid() && CanAct(cfg, mem, c, a)
    ensures var (mem', c') := Perform(cfg, mem, c, a); var plain := mem.(waiters := 0);
      || (mem'.(waiters := 0) == plain && Unpark(c') == Unpark(c))
      || (&& CanAct(Spin(cfg), plain, Unpark(c), a)
          && Perform(Spin(cfg), plain, Unpark(c), a) == (mem'.(waiters := 0), Unpark(c')))
  {
    if a.Advance? {
      PlainAdvance(cfg, mem, c);
    }
  }

  lemma PlainAdvance(cfg: Config, mem: Memory, c: Consumer)
    requires cfg.Valid() && CanAct(cfg, mem, c, Advance)
    ensures var (mem', c') := Advanced(cfg, mem, c); var plain := mem.(waiters := 0);
      || (mem'.(waiters := 0) == plain && Unpark(c') == Unpark(c))
      || (&& CanAct(Spin(cfg), plain, Unpark(c), Advance)
          && Advanced(Spin(cfg), plain, Unpark(c)) == (mem'.(waiters := 0), Unpark(c')))
  {
  }

  lemma PlainConsumer(cfg: Config, fenced: bool, T: Machine, t: nat, a: Action)
    requires cfg.Valid() && CanStep(cfg, fenced, T, Program(Event.Act(t, a)))
    ensures Follows(cfg, fenced, T, Program(Event.Act(t, a)), Step(cfg, T, Program(Event.Act(t, a))))
  {
    var e := Event.Act(t, a);
    var (mem', c') := Perform(cfg, T.sc.mem, T.sc.consumers[t], a);
    PlainAct(cfg, T.sc.mem, T.sc.consumers[t], a);
    var plain := Plain(T.sc);
    assert Plain(Do(cfg, T.sc, e)).consumers == plain.consumers[t := Unpark(c')];
    assert plain.consumers[t := plain.consumers[t]] == plain.consumers;
  }

  lemma PlainMove(cfg: Config, fenced: bool, T: Machine, from: nat, to: nat)
    requires cfg.Valid() && CanStep(cfg, fenced, T, Program(Move(from, to)))
    ensures Follows(cfg, fenced, T, Program(Move(from, to)), Step(cfg, T, Program(Move(from, to))))
  {
    var te := Program(Move(from, to));
    assert PlainMachine(Step(cfg, T, te)).sc.consumers == Step(Spin(cfg), PlainMachine(T), te).sc.consumers;
  }

  lemma PlainProduce(cfg: Config, fenced: bool, T: Machine)
    requires cfg.Valid() && CanStep(cfg, fenced, T, Program(Produce))
    ensures Follows(cfg, fenced, T, Program(Produce), Step(cfg, T, Program(Produce)))
  {
    if T.sc.prod.pc.WakeAll? {
      assert Plain(Do(cfg, T.sc, Produce)).consumers == Plain(T.sc).consumers;
    }
  }

  lemma PlainStep(cfg: Config, fenced: bool, T: Machine, te: MachineEvent)
    requires cfg.Valid() && CanStep(cfg, fenced, T, te)
    ensures Follows(cfg, fenced, T, te, Step(cfg, T, te))
  {
    match te
    case Drain =>
    case Program(Begin(_)) =>
    case Program(Produce) => PlainProduce(cfg, fenced, T);
    case Program(Act(t, a)) => PlainConsumer(cfg, fenced, T, t, a);
    case Program(Move(from, to)) => PlainMove(cfg, fenced, T, from, to);
  }

  lemma {:induction false} PlainRun(cfg: Config, fenced: bool, T: Machine, es: seq<MachineEvent>)
    requires cfg.Valid() && CanSteps(cfg, fenced, T, es) && Reaches(Spin(cfg), fenced, PlainMachine(T))
    ensures Reaches(Spin(cfg), fenced, PlainMachine(Steps(cfg, fenced, T, es)))
    decreases |es|
  {
    if es != [] {
      PlainStep(cfg, fenced, T, es[0]);
      if PlainMachine(Step(cfg, T, es[0])) != PlainMachine(T) {
        var T1 := Stepped(Spin(cfg), fenced, PlainMachine(T), es[0]);
      }
      PlainRun(cfg, fenced, Step(cfg, T, es[0]), es[1..]);
    }
  }

  /** Forgetting the parking turns every run of the machine into one with spinning waits. */
  lemma PlainReaches(cfg: Config, fenced: bool, T: Machine)
    requires Reaches(cfg, fenced, T)
    ensures Reaches(Spin(cfg), fenced, PlainMachine(T))
  {
    var s0, es :| Init(cfg, s0) && CanSteps(cfg, fenced, Machine(s0, []), es)
                  && Steps(cfg, fenced, Machine(s0, []), es) == T;
    assert Plain(s0) == s0;
    var T0 := Machine(s0, []);
    assert CanSteps(Spin(cfg), fenced, T0, []) && Steps(Spin(cfg), fenced, T0, []) == PlainMachine(T0);
    PlainRun(cfg, fenced, T0, es);
  }

  /** Store-buffer refinement, with and without the fence: under Overwrite every state of the
      machine, its parking forgotten, is that of a sequentially consistent run with a delayed producer. */
  lemma StoreBufferRefines(cfg: Config, fenced: bool, T: Machine) returns (s: State)
    requires cfg.policy.Overwrite? && Reaches(cfg, fenced, T)
    ensures cfg.Valid() && Reachable(Spin(cfg), s) && Simulates(Spin(cfg), PlainMachine(T), s)
  {
    PlainReaches(cfg, fenced, T);
    s := FencedRefines(Spin(cfg), fenced, PlainMachine(T));
  }

  /** Seqlock safety on the machine: what a validated or committed read has loaded is the
      message the program published, although the producer's stores arrive late. */
  lemma SeqlockSafetyWithStoreBuffer(cfg: Config, fenced: bool, T: Machine, t: nat)
    requires cfg.policy.Overwrite? && Reaches(cfg, fenced, T) && t < |T.sc.consumers|
    ensures var c := T.sc.consumers[t];
      && (c.pc.Validated? ==> c.readSeq < |T.sc.log| && ViewOf(c.view, T.sc.log[c.readSeq]))
      && (forall r :: r in c.committed ==> r.seqno < |T.sc.log| && ViewOf(r.view, T.sc.log[r.seqno]))
  {
    var s := StoreBufferRefines(cfg, fenced, T);
    assert s.consumers[t] == Unpark(T.sc.consumers[t]);
    SeqlockSafety(Spin(cfg), s, t);
  }
}
