/** Backpressure never deadlocks: from every reachable state the stream can be completed. */
module Progress {
  import opened Sequences
  import opened Protocol
  import opened Sums
  import opened Window
  import opened Ownership
  import opened Cover
  import opened Reads
  import opened Parking
  import opened Safety
  import opened Guarantees

  /** N messages are published and every joined consumer has committed up to N. */
  predicate Finished(cfg: Config, s: State, N: nat) {
    && s.prod.pc.Idle? && |s.log| == N
    && forall t :: 0 <= t < |s.consumers| && Joined(cfg, s.consumers[t]) ==>
         s.consumers[t].next == N && !s.consumers[t].pc.StoreCursor?
  }

  ghost predicate Underway(cfg: Config, s: State, N: nat) {
    && Reachable(cfg, s) && cfg.policy.Backpressure?
    && |s.log| <= N < WRITING_SEQ
    && (cfg.wait.Futex? ==> cfg.capacity < 0x1_0000_0000)
  }

  // ------------------------------------------------------------ the measure

  /** Messages that `c` has still to commit. */
  function Left(cfg: Config, N: nat, c: Consumer): nat {
    if Owns(cfg, c) && !Leaving(c) && c.next <= N then N - c.next else 0
  }

  function LeftOf(cfg: Config, N: nat): Consumer -> nat {
    c => Left(cfg, N, c)
  }

  /** Messages still to publish and, for every consumer, to commit. */
  function Remaining(cfg: Config, s: State, N: nat): nat {
    (if |s.log| <= N then N - |s.log| else 0) + Sum(LeftOf(cfg, N), s.consumers)
  }

  /** Steps of `c` to its next commit, once its message is stamped. */
  function Distance(cfg: Config, c: Consumer): nat {
    match c.pc
    case ZeroCursor(_) => 7
    case LoadHead => 6
    case StoreSeek => 5
    case StoreCursor => 5
    case Parking => 9
    case AddWaiter => 8
    case LoadWord => 7
    case WaitWord(_) => 6
    case Asleep(_) => 6
    case DropWaiter => 5
    case Ready => 4
    case Blocking => 4
    case Viewing => if c.view.lenSeen.None? then 3 else 2
    case Validated => 1
    case Copying(_) =>
      if c.view.lenSeen.None? then cfg.blockSize + 3
      else if |c.view.out| < CopyLength(c) then CopyLength(c) - |c.view.out| + 1
      else 1
    case StoreInfinity => 2
    case ReleaseCursor => 1
    case _ => 0
  }

  function DistanceOf(cfg: Config): Consumer -> nat {
    c => Distance(cfg, c)
  }

  /** Steps of the producer to the end of its publish, if no cursor blocks it. */
  function ProducerDistance(cfg: Config, p: Producer): nat {
    match p.pc
    case Idle => 0
    case ScanInUse(i) => |p.msg| + 8 + 2 * (if i < cfg.maxConsumers then cfg.maxConsumers - i else 0)
    case ScanValue(i) => |p.msg| + 7 + 2 * (if i < cfg.maxConsumers then cfg.maxConsumers - i else 0)
    case MarkSlot => |p.msg| + 7
    case StoreLen => |p.msg| + 6
    case StoreByte(k) => if k < |p.msg| then |p.msg| - k + 5 else 5
    case StoreStamp => 4
    case StoreCount => 3
    case LoadWaiters => 2
    case WakeAll => 1
  }

  function Steps(cfg: Config, s: State): nat {
    ProducerDistance(cfg, s.prod) + Sum(DistanceOf(cfg), s.consumers)
  }

  /** `s'` is nearer to the end than `s`. */
  predicate Nearer(cfg: Config, s: State, s': State, N: nat) {
    || Remaining(cfg, s', N) < Remaining(cfg, s, N)
    || (Remaining(cfg, s', N) == Remaining(cfg, s, N) && Steps(cfg, s') < Steps(cfg, s))
  }

  // ------------------------------------------------------------ a helpful step always exists

  /** The step that brings a consumer nearer to its next commit. */
  function HelpfulAction(c: Consumer): Action {
    match c.pc
    case Ready => Poll
    case Viewing => if c.view.lenSeen.None? then LoadLen else Validate
    case Validated => Commit
    case _ => Advance
  }

  predicate MayHelp(cfg: Config, s: State, c: Consumer) {
    || (c.pc.ZeroCursor? && CanAct(cfg, s.mem, c, Advance))
    || c.pc.LoadHead? || c.pc.StoreSeek? || c.pc.StoreInfinity?
    || (Joined(cfg, c) && (c.next < Stamped(s.prod) || c.pc.StoreCursor?))
  }

  predicate Resting(p: Producer) {
    p.pc.Idle? || Scanning(p)
  }

  /** A consumer whose message is stamped is not asleep and will not fall asleep. */
  lemma AwakeForStamped(cfg: Config, s: State, t: nat)
    requires Reachable(cfg, s) && cfg.policy.Backpressure? && (cfg.wait.Futex? ==> cfg.capacity < 0x1_0000_0000)
    requires t < |s.consumers| && Joined(cfg, s.consumers[t]) && s.consumers[t].next < Stamped(s.prod)
    requires Resting(s.prod)
    ensures var c := s.consumers[t];
      && SlotFor(cfg, s.mem, c.next).stamp == c.next
      && !c.pc.Asleep?
      && (c.pc.WaitWord? ==> Word(SlotFor(cfg, s.mem, c.next).stamp) != Word(c.pc.seen))
  {
    InvReachable(cfg, s);
    var c := s.consumers[t];
    assert ParkOk(cfg, s.mem, s.prod, c) && ConsumerCovered(cfg, s.mem, s.prod, c);
    JoinedReadsNext(cfg, s.mem, s.prod, s.log, c);
    if Seeing(c) {
      NoAliasing(cfg, s, t);
    }
  }

  /** The producer is about to find cursor `i` not past the message it must reclaim. */
  predicate Blocked(cfg: Config, s: State) {
    s.prod.pc.ScanValue? && s.mem.CursorAt(s.prod.pc.i).value + cfg.capacity <= s.prod.seqno
  }

  /** Whoever blocks the producer is one live consumer, never a departed one: it is still
      registering, or leaving, or it stands exactly one lap behind with its message readable. */
  lemma WhoBlocks(cfg: Config, s: State) returns (t: nat)
    requires Reachable(cfg, s) && Blocked(cfg, s)
    ensures t < |s.consumers| && s.consumers[t].cursorId == s.prod.pc.i < cfg.maxConsumers
    ensures forall u :: 0 <= u < |s.consumers| && s.consumers[u].cursorId == s.prod.pc.i ==> u == t
    ensures var c := s.consumers[t];
      || c.pc.ZeroCursor? || c.pc.LoadHead? || c.pc.StoreSeek? || c.pc.StoreInfinity?
      || (Joined(cfg, c) && s.mem.CursorAt(c.cursorId).value == s.prod.seqno - cfg.capacity
          && (c.pc.StoreCursor? || Classify(SlotFor(cfg, s.mem, c.next).stamp, c.next).Ok?))
  {
    InvReachable(cfg, s);
    t :| 0 <= t < |s.consumers| && s.consumers[t].cursorId == s.prod.pc.i;
    var c := s.consumers[t];
    assert ConsumerCovered(cfg, s.mem, s.prod, c);
    if Joined(cfg, c) {
      JoinedReadsNext(cfg, s.mem, s.prod, s.log, c);
    }
  }

  /** And its next step is enabled, where a futex needs a capacity below 2^32. */
  lemma BlockerCanStep(cfg: Config, s: State, t: nat)
    requires Reachable(cfg, s) && Blocked(cfg, s)
    requires t < |s.consumers| && s.consumers[t].cursorId == s.prod.pc.i
    requires cfg.wait.Futex? ==> cfg.capacity < 0x1_0000_0000
    ensures CanAct(cfg, s.mem, s.consumers[t], HelpfulAction(s.consumers[t]))
    ensures Owns(cfg, s.consumers[t]) && MayHelp(cfg, s, s.consumers[t])
  {
    InvReachable(cfg, s);
    var c := s.consumers[t];
    assert ConsumerCovered(cfg, s.mem, s.prod, c);
    if Joined(cfg, c) && c.next < Stamped(s.prod) {
      AwakeForStamped(cfg, s, t);
    }
  }

  /** What makes the helpful action of `c` possible and useful. */
  ghost predicate Helpable(cfg: Config, N: nat, mem: Memory, c: Consumer)
    requires cfg.Valid()
  {
    && |mem.cursors| == cfg.maxConsumers && CursorFitsPc(cfg, c)
    && Owns(cfg, c) && (Leaving(c) || c.next <= N) && mem.produced <= N
    && (c.pc.ZeroCursor? || c.pc.LoadHead? || c.pc.StoreSeek? || c.pc.StoreInfinity? || Joined(cfg, c))
    && (c.pc.ZeroCursor? ==> CanAct(cfg, mem, c, Advance))
    && (c.pc.ZeroCursor? || c.pc.LoadHead? ==> c.next == 0)
    && (Joined(cfg, c) && !c.pc.StoreCursor? ==>
          && SlotFor(cfg, mem, c.next).stamp == c.next && c.next < N && c.next < WRITING_SEQ
          && !c.pc.Asleep?
          && (c.pc.WaitWord? ==> Word(SlotFor(cfg, mem, c.next).stamp) != Word(c.pc.seen))
          && (Reading(c) ==>
                c.readSeq == c.next && ViewInside(cfg, c) && SlotFor(cfg, mem, c.next).len <= cfg.blockSize))
  }

  lemma HelpConsumer(cfg: Config, N: nat, mem: Memory, c: Consumer)
    requires cfg.Valid() && Helpable(cfg, N, mem, c)
    ensures CanAct(cfg, mem, c, HelpfulAction(c))
    ensures var c' := Perform(cfg, mem, c, HelpfulAction(c)).1;
      || Left(cfg, N, c') < Left(cfg, N, c)
      || (Left(cfg, N, c') == Left(cfg, N, c) && Distance(cfg, c') < Distance(cfg, c))
  {
  }

  lemma MayHelpMeansHelpable(cfg: Config, s: State, t: nat, N: nat)
    requires Underway(cfg, s, N) && t < |s.consumers| && Resting(s.prod)
    requires Owns(cfg, s.consumers[t]) && MayHelp(cfg, s, s.consumers[t])
    ensures cfg.Valid() && Helpable(cfg, N, s.mem, s.consumers[t])
  {
    InvReachable(cfg, s);
    var c := s.consumers[t];
    assert ConsumerCovered(cfg, s.mem, s.prod, c) && ReadOk(cfg, s.mem, s.prod, s.log, c);
    if Joined(cfg, c) && !c.pc.StoreCursor? {
      AwakeForStamped(cfg, s, t);
      LengthInside(cfg, s.mem, s.prod, s.log, c.next);
    }
  }

  /** The events of one consumer change the sums by its own share. */
  lemma SharesOfOne(cfg: Config, s: State, t: nat, a: Action, N: nat)
    requires cfg.Valid() && CanDo(cfg, s, Event.Act(t, a))
    requires var c' := Do(cfg, s, Event.Act(t, a)).consumers[t]; var c := s.consumers[t];
      || Left(cfg, N, c') < Left(cfg, N, c)
      || (Left(cfg, N, c') == Left(cfg, N, c) && Distance(cfg, c') < Distance(cfg, c))
    ensures Nearer(cfg, s, Do(cfg, s, Event.Act(t, a)), N)
  {
    var c' := Do(cfg, s, Event.Act(t, a)).consumers[t];
    SumUpdate(LeftOf(cfg, N), s.consumers, t, c');
    SumUpdate(DistanceOf(cfg), s.consumers, t, c');
  }

  lemma HelpfulConsumerStep(cfg: Config, s: State, t: nat, N: nat)
    requires Underway(cfg, s, N) && t < |s.consumers| && Resting(s.prod)
    requires Owns(cfg, s.consumers[t]) && MayHelp(cfg, s, s.consumers[t])
    ensures var e := Event.Act(t, HelpfulAction(s.consumers[t]));
      && cfg.Valid() && CanDo(cfg, s, e) && Nearer(cfg, s, Do(cfg, s, e), N)
      && Do(cfg, s, e).log == s.log
  {
    var c := s.consumers[t];
    MayHelpMeansHelpable(cfg, s, t, N);
    HelpConsumer(cfg, N, s.mem, c);
    SharesOfOne(cfg, s, t, HelpfulAction(c), N);
  }

  lemma ProducerDistanceFalls(cfg: Config, mem: Memory, p: Producer, log: seq<Message>)
    requires cfg.Valid() && ProducerOk(cfg, mem.produced, p, log) && !p.pc.Idle?
    requires !(p.pc.ScanValue? && mem.CursorAt(p.pc.i).value + cfg.capacity <= p.seqno)
    ensures ProducerDistance(cfg, if p.Stores() then AfterStore(cfg, p) else AfterLoad(cfg, mem, p))
            < ProducerDistance(cfg, p)
  {
  }

  lemma WakingIsNoLoss(cfg: Config, cs: seq<Consumer>, slot: nat, N: nat)
    requires cfg.Valid()
    ensures Sum(LeftOf(cfg, N), WakeSlot(cfg, slot, cs)) == Sum(LeftOf(cfg, N), cs)
    ensures Sum(DistanceOf(cfg), WakeSlot(cfg, slot, cs)) <= Sum(DistanceOf(cfg), cs)
  {
    var woken := WakeSlot(cfg, slot, cs);
    SumAtMost(LeftOf(cfg, N), cs, woken);
    SumAtMost(LeftOf(cfg, N), woken, cs);
    SumAtMost(DistanceOf(cfg), cs, woken);
  }

  lemma HelpfulProducerStep(cfg: Config, s: State, N: nat)
    requires Underway(cfg, s, N) && !s.prod.pc.Idle? && !Blocked(cfg, s)
    ensures CanDo(cfg, s, Produce) && Nearer(cfg, s, Do(cfg, s, Produce), N)
    ensures Do(cfg, s, Produce).log == s.log
  {
    InvReachable(cfg, s);
    ProducerDistanceFalls(cfg, s.mem, s.prod, s.log);
    WakingIsNoLoss(cfg, s.consumers, Index(s.prod.seqno, cfg.capacity), N);
  }

  /** In every reachable unfinished state some step is enabled that is strictly nearer to the
      end: a step of whoever is in the way, or the begin of the next message `m`. */
  lemma HelpfulStep(cfg: Config, s: State, N: nat, m: Message) returns (e: Event)
    requires Underway(cfg, s, N) && !Finished(cfg, s, N) && |m| <= cfg.blockSize
    ensures cfg.Valid() && CanDo(cfg, s, e) && Nearer(cfg, s, Do(cfg, s, e), N)
    ensures Underway(cfg, Do(cfg, s, e), N)
    ensures Do(cfg, s, e).log == s.log || (|s.log| < N && Do(cfg, s, e).log == s.log + [m])
  {
    InvReachable(cfg, s);
    if Blocked(cfg, s) {
      var t := WhoBlocks(cfg, s);
      BlockerCanStep(cfg, s, t);
      e := Event.Act(t, HelpfulAction(s.consumers[t]));
      HelpfulConsumerStep(cfg, s, t, N);
    } else if !s.prod.pc.Idle? {
      e := Produce;
      HelpfulProducerStep(cfg, s, N);
    } else if |s.log| < N {
      e := Begin(m);
    } else {
      var t :| 0 <= t < |s.consumers| && Joined(cfg, s.consumers[t])
               && (s.consumers[t].next != N || s.consumers[t].pc.StoreCursor?);
      assert ConsumerCovered(cfg, s.mem, s.prod, s.consumers[t]);
      e := Event.Act(t, HelpfulAction(s.consumers[t]));
      HelpfulConsumerStep(cfg, s, t, N);
    }
    ReachableStep(cfg, s, e);
  }

  /** No step of the producer or of a registered consumer adds to what remains; beginning a
      message and committing one take one away. */
  lemma RemainingFalls(cfg: Config, s: State, e: Event, N: nat)
    requires Underway(cfg, s, N) && cfg.Valid() && CanDo(cfg, s, e)
    requires e.Begin? ==> |s.log| < N
    requires e.Act? ==> Owns(cfg, s.consumers[e.t])
    ensures Remaining(cfg, Do(cfg, s, e), N) <= Remaining(cfg, s, N)
    ensures e.Begin? ==> Remaining(cfg, Do(cfg, s, e), N) < Remaining(cfg, s, N)
    ensures e.Act? && |Do(cfg, s, e).consumers[e.t].committed| > |s.consumers[e.t].committed| ==>
      Remaining(cfg, Do(cfg, s, e), N) < Remaining(cfg, s, N)
  {
    InvReachable(cfg, s);
    var s' := Do(cfg, s, e);
    match e
    case Begin(_) =>
    case Produce => WakingIsNoLoss(cfg, s.consumers, Index(s.prod.seqno, cfg.capacity), N);
    case Act(t, a) =>
      assert ConsumerCovered(cfg, s.mem, s.prod, s.consumers[t]) && ReadOk(cfg, s.mem, s.prod, s.log, s.consumers[t]);
      LeftFalls(cfg, N, s.mem, s.consumers[t], a);
      SumUpdate(LeftOf(cfg, N), s.consumers, t, s'.consumers[t]);
    case Move(from, to) =>
      var gone := s.consumers[from].(pc := Gone, cursorId := cfg.maxConsumers);
      SumUpdate(LeftOf(cfg, N), s.consumers, from, gone);
      SumUpdate(LeftOf(cfg, N), s.consumers[from := gone], to, s.consumers[from]);
  }

  lemma LeftFalls(cfg: Config, N: nat, mem: Memory, c: Consumer, a: Action)
    requires cfg.Valid() && cfg.policy.Backpressure? && CanAct(cfg, mem, c, a)
    requires Owns(cfg, c) && CursorFitsPc(cfg, c)
    requires c.pc.LoadHead? ==> c.next == 0
    requires !Leaving(c) ==> c.next <= N
    requires Reading(c) ==> c.readSeq == c.next < N
    ensures var c' := Perform(cfg, mem, c, a).1;
      && Left(cfg, N, c') <= Left(cfg, N, c)
      && (|c'.committed| > |c.committed| ==> Left(cfg, N, c') < Left(cfg, N, c))
  {
  }

  /** The stream `rest` is still to be published. */
  ghost predicate Ahead(cfg: Config, s: State, rest: seq<Message>) {
    Underway(cfg, s, |s.log| + |rest|) && forall m :: m in rest ==> |m| <= cfg.blockSize
  }

  lemma HelpfulStepOf(cfg: Config, s: State, rest: seq<Message>) returns (s': State, e: Event, left: seq<Message>)
    requires Ahead(cfg, s, rest) && !Finished(cfg, s, |s.log| + |rest|)
    ensures cfg.Valid() && CanDo(cfg, s, e) && s' == Do(cfg, s, e)
    ensures Ahead(cfg, s', left) && s'.log + left == s.log + rest
    ensures Nearer(cfg, s, s', |s.log| + |rest|)
  {
    e := HelpfulStep(cfg, s, |s.log| + |rest|, if rest == [] then [] else rest[0]);
    s' := Do(cfg, s, e);
    left := if |s'.log| == |s.log| then rest else rest[1..];
    assert |s'.log| + |left| == |s.log| + |rest|;
  }

  /** The continuation, one helpful step after the other. */
  lemma {:induction false} Continuation(cfg: Config, s: State, rest: seq<Message>) returns (es: seq<Event>)
    requires Ahead(cfg, s, rest)
    ensures cfg.Valid() && CanRun(cfg, s, es) && Run(cfg, s, es).log == s.log + rest
    ensures Finished(cfg, Run(cfg, s, es), |s.log| + |rest|) && Reachable(cfg, Run(cfg, s, es))
    decreases Remaining(cfg, s, |s.log| + |rest|), Steps(cfg, s)
  {
    ReachableValid(cfg, s);
    if Finished(cfg, s, |s.log| + |rest|) {
      es := [];
    } else {
      var s', e, left := HelpfulStepOf(cfg, s, rest);
      assert |s'.log + left| == |s.log + rest|;
      es := Continuation(cfg, s', left);
      RunFirst(cfg, s, e, es);
      es := [e] + es;
    }
  }

  /** Deadlock freedom: from every reachable state, whatever messages are still to come, there is
      a continuation in which all of them are published and every joined consumer has committed,
      in order and with the published bytes, everything from its start to the end. */
  lemma CanAlwaysFinish(cfg: Config, s: State, rest: seq<Message>) returns (es: seq<Event>, s': State)
    requires Ahead(cfg, s, rest)
    ensures cfg.Valid() && CanRun(cfg, s, es) && Run(cfg, s, es) == s'
    ensures s'.log == s.log + rest && s'.prod.pc.Idle? && s'.mem.produced == |s'.log|
    ensures forall t :: 0 <= t < |s'.consumers| && Joined(cfg, s'.consumers[t]) ==>
      var c := s'.consumers[t];
      && c.next == |s'.log| && |c.committed| == |s'.log| - c.start
      && (forall j :: 0 <= j < |c.committed| ==>
            c.committed[j].seqno == c.start + j && ViewOf(c.committed[j].view, s'.log[c.start + j]))
  {
    es := Continuation(cfg, s, rest);
    s' := Run(cfg, s, es);
    InvReachable(cfg, s');
    forall t | 0 <= t < |s'.consumers| && Joined(cfg, s'.consumers[t])
      ensures var c := s'.consumers[t];
        && c.next == |s'.log| && |c.committed| == |s'.log| - c.start
        && (forall j :: 0 <= j < |c.committed| ==>
              c.committed[j].seqno == c.start + j && ViewOf(c.committed[j].view, s'.log[c.start + j]))
    {
      Lossless(cfg, s', t);
    }
  }
}
