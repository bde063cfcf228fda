/** Whole calls and loops, run by one thread while the others pause: that they end, and with what. */
module WholeCalls {
  import opened Sequences
  import opened Protocol
  import opened Window
  import opened Ownership
  import opened Reads
  import opened Safety
  import opened Calls

  /** `es` leads from `s` to `s'`. */
  ghost predicate Leads(cfg: Config, s: State, es: seq<Event>, s': State) {
    cfg.Valid() && CanRun(cfg, s, es) && Run(cfg, s, es) == s'
  }

  /** Only consumer `t` steps. */
  predicate OwnSteps(t: nat, es: seq<Event>) {
    forall j :: 0 <= j < |es| ==> es[j].Act? && es[j].t == t
  }

  /** A reachable state to which consumer `t` comes from `s` by itself. */
  ghost predicate Alone(cfg: Config, s: State, t: nat, s': State) {
    Reachable(cfg, s') && exists es :: OwnSteps(t, es) && Leads(cfg, s, es, s')
  }

  lemma AloneStart(cfg: Config, s: State, t: nat)
    requires Reachable(cfg, s)
    ensures Alone(cfg, s, t, s)
  {
    ReachableValid(cfg, s);
    assert OwnSteps(t, []) && Leads(cfg, s, [], s);
  }

  lemma AloneStep(cfg: Config, s: State, t: nat, s1: State, a: Action)
    requires Alone(cfg, s, t, s1) && cfg.Valid() && CanDo(cfg, s1, Event.Act(t, a))
    ensures Alone(cfg, s, t, Do(cfg, s1, Event.Act(t, a)))
  {
    var es :| OwnSteps(t, es) && Leads(cfg, s, es, s1);
    var e := Event.Act(t, a);
    RunAppend(cfg, s, es, [e]);
    ReachableStep(cfg, s1, e);
    assert OwnSteps(t, es + [e]) && Leads(cfg, s, es + [e], Do(cfg, s1, e));
  }

  // ------------------------------------------------------------ publish

  predicate OnlyProduces(es: seq<Event>) {
    forall j :: 0 <= j < |es| ==> es[j].Produce?
  }

  /** At most this many steps of the producer are left of its publish. */
  function PublishSteps(p: Producer): nat {
    match p.pc
    case Idle => 0
    case StoreLen => |p.msg| + 5
    case StoreByte(k) => if k < |p.msg| then |p.msg| - k + 4 else 4
    case StoreStamp => 4
    case StoreCount => 3
    case LoadWaiters => 2
    case WakeAll => 1
    case _ => |p.msg| + 6
  }

  /** Overwrite never waits: whatever the consumers do, a publish ends after at most one step
      for each byte and six more, and the message is counted. */
  lemma {:induction false} PublishNeverWaits(cfg: Config, s: State) returns (es: seq<Event>, s': State)
    requires Reachable(cfg, s) && cfg.policy.Overwrite?
    ensures OnlyProduces(es) && |es| <= PublishSteps(s.prod) <= |s.prod.msg| + 6
    ensures Leads(cfg, s, es, s') && s'.prod.pc.Idle? && s'.log == s.log && s'.mem.produced == |s.log|
    decreases PublishSteps(s.prod)
  {
    InvReachable(cfg, s);
    if s.prod.pc.Idle? {
      es, s' := [], s;
    } else {
      var s1 := Do(cfg, s, Produce);
      ReachableStep(cfg, s, Produce);
      PublishStepsFall(cfg, s);
      es, s' := PublishNeverWaits(cfg, s1);
      RunFirst(cfg, s, Produce, es);
      es := [Produce] + es;
    }
  }

  lemma PublishStepsFall(cfg: Config, s: State)
    requires Reachable(cfg, s) && cfg.policy.Overwrite? && !s.prod.pc.Idle?
    ensures cfg.Valid() && PublishSteps(Do(cfg, s, Produce).prod) < PublishSteps(s.prod)
    ensures Do(cfg, s, Produce).log == s.log
  {
    InvReachable(cfg, s);
  }

  // ------------------------------------------------------------ read_copy and the consumer loop

  /** The rest of read_copy for a message whose slot is not taken: all its bytes that fit are
      copied, and it is committed. */
  lemma {:induction false} CopyRuns(cfg: Config, s: State, t: nat, s1: State) returns (s': State)
    requires cfg.policy.Overwrite? && Alone(cfg, s, t, s1) && t < |s1.consumers| && s1.consumers[t].pc.Copying?
    requires Taken(cfg, s1.prod) <= s1.consumers[t].next + cfg.capacity
    ensures Alone(cfg, s, t, s') && s'.mem == s1.mem && s'.prod == s1.prod && s'.log == s1.log
    ensures |s'.consumers| == |s1.consumers| && s1.consumers[t].next < |s1.log|
    ensures var c, c' := s1.consumers[t], s'.consumers[t]; var m := s1.log[c.next];
      && c'.pc.Ready? && c'.status.Ok? && c'.next == c.next + 1 && |c'.committed| == |c.committed| + 1
      && c'.committed[..|c.committed|] == c.committed
      && c'.committed[|c.committed|].seqno == c.next
      && c'.committed[|c.committed|].view.out == m[..if |m| <= c.pc.cap then |m| else c.pc.cap]
    decreases CopyLeft(cfg, s1.consumers[t])
  {
    InvReachable(cfg, s1);
    var c := s1.consumers[t];
    assert ReadOk(cfg, s1.mem, s1.prod, s1.log, c);
    AloneStep(cfg, s, t, s1, Advance);
    s' := Do(cfg, s1, Event.Act(t, Advance));
    if CopiesOn(c) {
      CopyOnExact(cfg, s1, t);
      CopyLeftFalls(cfg, s1, t);
      s' := CopyRuns(cfg, s, t, s');
    } else {
      CopyEndExact(cfg, s1, t);
      CopyIsMessage(cfg, s1, t);
    }
  }

  /** Bytes and the length still to load. */
  function CopyLeft(cfg: Config, c: Consumer): nat {
    if !c.pc.Copying? then 0
    else if c.view.lenSeen.None? then cfg.blockSize + 2
    else if |c.view.out| < c.view.lenSeen.value then c.view.lenSeen.value - |c.view.out| + 1
    else 1
  }

  lemma CopyLeftFalls(cfg: Config, s: State, t: nat)
    requires Reachable(cfg, s) && t < |s.consumers| && CopiesOn(s.consumers[t])
    ensures cfg.Valid() && CanDo(cfg, s, Event.Act(t, Advance))
    ensures CopyLeft(cfg, Do(cfg, s, Event.Act(t, Advance)).consumers[t]) < CopyLeft(cfg, s.consumers[t])
  {
    InvReachable(cfg, s);
    CopyOnExact(cfg, s, t);
    LengthInside(cfg, s.mem, s.prod, s.log, s.consumers[t].readSeq);
    assert ReadOk(cfg, s.mem, s.prod, s.log, s.consumers[t]);
  }

  lemma CopyIsMessage(cfg: Config, s: State, t: nat)
    requires Reachable(cfg, s) && cfg.policy.Overwrite? && t < |s.consumers| && s.consumers[t].pc.Copying?
    requires !CopiesOn(s.consumers[t]) && Taken(cfg, s.prod) <= s.consumers[t].next + cfg.capacity
    ensures s.consumers[t].next < |s.log|
    ensures var c := s.consumers[t]; var m := s.log[c.next];
      c.view.out == m[..if |m| <= c.pc.cap then |m| else c.pc.cap]
  {
    InvReachable(cfg, s);
    var c := s.consumers[t];
    assert ReadOk(cfg, s.mem, s.prod, s.log, c);
    LookupExact(cfg, s, c.readSeq);
    StampMeansIntact(cfg, s.mem, s.prod, s.log, c);
  }

  /** The record of message `q`, with all its bytes. */
  predicate RecordOf(r: Record, q: nat, log: seq<Message>) {
    r.seqno == q < |log| && r.view.out == log[q]
  }

  /** Consumer `t` has gone on from `c` to the position `next` and committed everything from
      `first` on, in order and byte for byte. */
  ghost predicate Delivered(s: State, t: nat, c: Consumer, first: nat) {
    && t < |s.consumers|
    && var c' := s.consumers[t]; var n := |c.committed|;
       && first <= c'.next <= |s.log| && |c'.committed| == n + c'.next - first && c'.committed[..n] == c.committed
       && forall k :: n <= k < |c'.committed| ==> RecordOf(c'.committed[k], first + k - n, s.log)
  }

  /** One turn of the loop: read_copy with a buffer of the block size. */
  lemma LoopTurn(cfg: Config, s: State, t: nat, s1: State, c: Consumer, first: nat) returns (s': State)
    requires cfg.policy.Overwrite? && Alone(cfg, s, t, s1) && s1.prod.pc.Idle? && Delivered(s1, t, c, first)
    requires s1.consumers[t].pc.Ready? && s1.consumers[t].next < |s1.log| <= s1.consumers[t].next + cfg.capacity
    ensures Alone(cfg, s, t, s') && s'.mem == s1.mem && s'.prod == s1.prod && s'.log == s1.log
    ensures Delivered(s', t, c, first) && s'.consumers[t].pc.Ready?
    ensures s'.consumers[t].next == s1.consumers[t].next + 1
  {
    InvReachable(cfg, s1);
    var a := PollCopy(cfg.blockSize);
    ReadExact(cfg, s1, t, a);
    AloneStep(cfg, s, t, s1, a);
    var s2 := Do(cfg, s1, Event.Act(t, a));
    s' := CopyRuns(cfg, s, t, s2);
    var m := s1.log[s1.consumers[t].next];
    MessagesFit(cfg, s1, s1.consumers[t].next);
    assert m[..|m|] == m;
    DeliveredOneMore(s1, s', t, c, first);
  }

  lemma DeliveredOneMore(s1: State, s': State, t: nat, c: Consumer, first: nat)
    requires Delivered(s1, t, c, first) && s'.log == s1.log && t < |s'.consumers|
    requires var c1, c' := s1.consumers[t], s'.consumers[t];
      && c1.next < |s1.log| && c'.next == c1.next + 1
      && |c'.committed| == |c1.committed| + 1 && c'.committed[..|c1.committed|] == c1.committed
      && c'.committed[|c1.committed|].seqno == c1.next
      && c'.committed[|c1.committed|].view.out == s1.log[c1.next]
    ensures Delivered(s', t, c, first)
  {
    var c1, c' := s1.consumers[t], s'.consumers[t];
    var n := |c.committed|;
    assert c'.committed[..n] == c1.committed[..n];
    forall k | n <= k < |c'.committed|
      ensures RecordOf(c'.committed[k], first + k - n, s'.log)
    {
      if k < |c1.committed| {
        assert c'.committed[k] == c'.committed[..|c1.committed|][k] == c1.committed[k];
      }
    }
  }

  ghost predicate AllFit(cfg: Config, log: seq<Message>) {
    forall m :: m in log ==> |m| <= cfg.blockSize
  }

  lemma {:induction false} LogFits(cfg: Config, s: State, es: seq<Event>)
    requires cfg.Valid() && CanRun(cfg, s, es) && AllFit(cfg, s.log)
    ensures AllFit(cfg, Run(cfg, s, es).log)
    decreases |es|
  {
    if es != [] {
      var s1 := Do(cfg, s, es[0]);
      assert s1.log == s.log || (es[0].Begin? && s1.log == s.log + [es[0].m]);
      LogFits(cfg, s1, es[1..]);
    }
  }

  /** Every message of the log fits its block. */
  lemma MessagesFit(cfg: Config, s: State, q: nat)
    requires Reachable(cfg, s) && q < |s.log|
    ensures |s.log[q]| <= cfg.blockSize
  {
    var s0, es :| Init(cfg, s0) && CanRun(cfg, s0, es) && Run(cfg, s0, es) == s;
    assert s0.log == [];
    LogFits(cfg, s0, es);
    assert s.log[q] in s.log;
  }

  lemma {:induction false} LoopRuns(cfg: Config, s: State, t: nat, s1: State, c: Consumer, first: nat)
      returns (s': State)
    requires cfg.policy.Overwrite? && Alone(cfg, s, t, s1) && s1.prod.pc.Idle? && Delivered(s1, t, c, first)
    requires s1.consumers[t].pc.Ready? && |s1.log| <= s1.consumers[t].next + cfg.capacity
    ensures Alone(cfg, s, t, s') && s'.mem == s1.mem && s'.prod == s1.prod && s'.log == s1.log
    ensures Delivered(s', t, c, first) && s'.consumers[t].pc.Ready? && s'.consumers[t].next == |s'.log|
    decreases |s1.log| - s1.consumers[t].next
  {
    if s1.consumers[t].next == |s1.log| {
      s' := s1;
    } else {
      s' := LoopTurn(cfg, s, t, s1, c, first);
      s' := LoopRuns(cfg, s, t, s', c, first);
    }
  }

  /** The consumer loop on a ring at rest: by itself it comes to the head, having committed in
      order and byte for byte exactly the messages from its position on that are still in the
      ring; after a lap it begins at the oldest of them. */
  lemma LoopDrains(cfg: Config, s: State, t: nat) returns (s': State)
    requires Reachable(cfg, s) && cfg.policy.Overwrite? && s.prod.pc.Idle?
    requires t < |s.consumers| && s.consumers[t].pc.Ready? && s.consumers[t].next <= |s.log|
    ensures Alone(cfg, s, t, s') && s'.mem == s.mem && s'.prod == s.prod && s'.log == s.log
    ensures t < |s'.consumers| && s'.consumers[t].pc.Ready? && s'.consumers[t].next == |s.log|
    ensures |s.log| <= s.consumers[t].next + cfg.capacity ==> Delivered(s', t, s.consumers[t], s.consumers[t].next)
    ensures s.consumers[t].next + cfg.capacity < |s.log| ==>
      Delivered(s', t, s.consumers[t], |s.log| - cfg.capacity)
  {
    var c := s.consumers[t];
    AloneStart(cfg, s, t);
    var s1, first := s, c.next;
    if c.next + cfg.capacity < |s.log| {
      s1 := SkipsAhead(cfg, s, t);
      first := |s.log| - cfg.capacity;
    }
    s' := LoopRuns(cfg, s, t, s1, c, first);
  }

  /** A read that is lapped, and the resync. */
  lemma SkipsAhead(cfg: Config, s: State, t: nat) returns (s': State)
    requires Reachable(cfg, s) && cfg.policy.Overwrite? && s.prod.pc.Idle?
    requires t < |s.consumers| && s.consumers[t].pc.Ready? && s.consumers[t].next + cfg.capacity < |s.log|
    ensures Alone(cfg, s, t, s') && s'.mem == s.mem && s'.prod == s.prod && s'.log == s.log
    ensures |s'.consumers| == |s.consumers|
    ensures var c, c' := s.consumers[t], s'.consumers[t];
      c'.pc.Ready? && c'.next + cfg.capacity == |s.log| && c'.committed == c.committed
  {
    InvReachable(cfg, s);
    AloneStart(cfg, s, t);
    ReadExact(cfg, s, t, Poll);
    AloneStep(cfg, s, t, s, Poll);
    var s1 := Do(cfg, s, Event.Act(t, Poll));
    AloneStep(cfg, s, t, s1, Resync);
    s' := Do(cfg, s1, Event.Act(t, Resync));
  }

  // ------------------------------------------------------------ registration

  /** Looking for a free cursor from `i` on, after finding those before in use. */
  ghost predicate Looking(s: State, t: nat, attach: bool) {
    && t < |s.consumers| && s.consumers[t].pc.Claim? && s.consumers[t].pc.attach == attach
    && s.consumers[t].pc.i <= |s.mem.cursors|
    && forall j :: 0 <= j < s.consumers[t].pc.i ==> s.mem.cursors[j].inUse
  }

  /** The loop of compare-exchanges ends on the first free cursor, or behind the last one. */
  lemma {:induction false} ClaimRuns(cfg: Config, s: State, t: nat, s1: State, attach: bool) returns (s': State)
    requires Alone(cfg, s, t, s1) && cfg.policy.Backpressure? && Looking(s1, t, attach)
    requires attach || s1.mem.produced < cfg.capacity
    ensures Alone(cfg, s, t, s') && Looking(s', t, attach)
    ensures s'.mem == s1.mem && s'.prod == s1.prod && s'.log == s1.log
    ensures s'.consumers == s1.consumers[t := s1.consumers[t].(pc := s'.consumers[t].pc)]
    ensures |s1.mem.cursors| == cfg.maxConsumers
    ensures s'.consumers[t].pc.i < cfg.maxConsumers ==> !s1.mem.cursors[s'.consumers[t].pc.i].inUse
    decreases |s1.mem.cursors| - s1.consumers[t].pc.i
  {
    InvReachable(cfg, s1);
    var i := s1.consumers[t].pc.i;
    if i == cfg.maxConsumers || !s1.mem.cursors[i].inUse {
      s' := s1;
      assert s1.consumers[t := s1.consumers[t]] == s1.consumers;
    } else {
      AloneStep(cfg, s, t, s1, Advance);
      var s2 := Do(cfg, s1, Event.Act(t, Advance));
      s' := ClaimRuns(cfg, s, t, s2, attach);
    }
  }

  /** From the claim on: the cursor is stored, at zero or at the count. */
  lemma ClaimEnds(cfg: Config, s: State, t: nat, s1: State, attach: bool) returns (s': State)
    requires Alone(cfg, s, t, s1) && cfg.policy.Backpressure? && Looking(s1, t, attach)
    requires attach || s1.mem.produced < cfg.capacity
    requires s1.consumers[t].pc.i < cfg.maxConsumers == |s1.mem.cursors|
    requires !s1.mem.cursors[s1.consumers[t].pc.i].inUse
    requires s1.consumers[t].next == s1.consumers[t].start == 0
    ensures Alone(cfg, s, t, s') && s'.prod == s1.prod && s'.log == s1.log && t < |s'.consumers|
    ensures var n := if attach then s1.mem.produced else 0; var i := s1.consumers[t].pc.i;
      && s'.mem == s1.mem.(cursors := s1.mem.cursors[i := Cursor(n, true)])
      && s'.consumers == s1.consumers[t := s1.consumers[t].(pc := Ready, cursorId := i, next := n, start := n)]
  {
    ReachableValid(cfg, s1);
    AloneStep(cfg, s, t, s1, Advance);
    s' := Do(cfg, s1, Event.Act(t, Advance));
    AloneStep(cfg, s, t, s', Advance);
    s' := Do(cfg, s', Event.Act(t, Advance));
    if attach {
      s' := SeeksHead(cfg, s, t, s');
    }
  }

  lemma SeeksHead(cfg: Config, s: State, t: nat, s1: State) returns (s': State)
    requires Alone(cfg, s, t, s1) && t < |s1.consumers| && s1.consumers[t].pc.LoadHead?
    requires s1.consumers[t].cursorId < |s1.mem.cursors| == cfg.maxConsumers
    ensures Alone(cfg, s, t, s') && s'.prod == s1.prod && s'.log == s1.log
    ensures var n := s1.mem.produced; var i := s1.consumers[t].cursorId;
      && s'.mem == s1.mem.(cursors := s1.mem.cursors[i := s1.mem.cursors[i].(value := n)])
      && s'.consumers == s1.consumers[t := s1.consumers[t].(pc := Ready, next := n, start := n)]
  {
    ReachableValid(cfg, s1);
    AloneStep(cfg, s, t, s1, Advance);
    s' := Do(cfg, s1, Event.Act(t, Advance));
    AloneStep(cfg, s, t, s', Advance);
    s' := Do(cfg, s', Event.Act(t, Advance));
  }

  /** Construction under Backpressure, plain or attached at current: the first free cursor is
      taken and shows where the consumer starts, 0 or the count; with a full table the
      consumer starts there without a cursor, and no cursor changes. */
  lemma Registers(cfg: Config, s: State, t: nat, attach: bool) returns (s': State)
    requires Reachable(cfg, s) && cfg.policy.Backpressure? && t < |s.consumers| && s.consumers[t].pc.Unborn?
    requires attach || s.mem.produced < cfg.capacity
    ensures Alone(cfg, s, t, s') && s'.prod == s.prod && s'.log == s.log && t < |s'.consumers|
    ensures |s.mem.cursors| == cfg.maxConsumers
    ensures var c' := s'.consumers[t];
      && c'.pc.Ready? && c'.next == c'.start == (if attach then s.mem.produced else 0) && c'.committed == []
      && s'.consumers == s.consumers[t := c']
      && (forall i :: 0 <= i < c'.cursorId ==> i < cfg.maxConsumers && s.mem.cursors[i].inUse)
      && (if Owns(cfg, c')
          then && !s.mem.cursors[c'.cursorId].inUse
               && s'.mem == s.mem.(cursors := s.mem.cursors[c'.cursorId := Cursor(c'.next, true)])
          else c'.cursorId == cfg.maxConsumers && s'.mem == s.mem)
  {
    InvReachable(cfg, s);
    AloneStart(cfg, s, t);
    var a := Construct(attach, 0);
    AloneStep(cfg, s, t, s, a);
    s' := Do(cfg, s, Event.Act(t, a));
    s' := ClaimRuns(cfg, s, t, s', attach);
    if s'.consumers[t].pc.i < cfg.maxConsumers {
      s' := ClaimEnds(cfg, s, t, s', attach);
    } else {
      s' := FindsTableFull(cfg, s, t, s', attach);
    }
  }

  lemma FindsTableFull(cfg: Config, s: State, t: nat, s1: State, attach: bool) returns (s': State)
    requires Alone(cfg, s, t, s1) && Looking(s1, t, attach) && cfg.maxConsumers == s1.consumers[t].pc.i
    requires s1.consumers[t].cursorId == cfg.maxConsumers && s1.consumers[t].next == s1.consumers[t].start == 0
    ensures Alone(cfg, s, t, s') && s'.prod == s1.prod && s'.log == s1.log && s'.mem == s1.mem
    ensures var n := if attach then s1.mem.produced else 0;
      s'.consumers == s1.consumers[t := s1.consumers[t].(pc := Ready, next := n, start := n)]
  {
    ReachableValid(cfg, s1);
    AloneStep(cfg, s, t, s1, Advance);
    s' := Do(cfg, s1, Event.Act(t, Advance));
    if attach {
      AloneStep(cfg, s, t, s', Advance);
      s' := Do(cfg, s', Event.Act(t, Advance));
    }
  }

  /** The destructor always ends: an owner leaves exactly its own cursor, free and at infinity,
      and a consumer without a cursor leaves no trace. */
  lemma Leaves(cfg: Config, s: State, t: nat) returns (s': State)
    requires Reachable(cfg, s) && t < |s.consumers| && s.consumers[t].pc.Ready?
    ensures Alone(cfg, s, t, s') && s'.prod == s.prod && s'.log == s.log && |s.mem.cursors| == cfg.maxConsumers
    ensures s'.consumers == s.consumers[t := s.consumers[t].(pc := Gone, cursorId := cfg.maxConsumers)]
    ensures s'.mem == if Owns(cfg, s.consumers[t])
                      then s.mem.(cursors := s.mem.cursors[s.consumers[t].cursorId := Cursor(INFINITY, false)])
                      else s.mem
  {
    InvReachable(cfg, s);
    AloneStart(cfg, s, t);
    AloneStep(cfg, s, t, s, Leave);
    s' := Do(cfg, s, Event.Act(t, Leave));
    if Owns(cfg, s.consumers[t]) {
      s' := GivesBack(cfg, s, t, s');
    }
  }

  /** unregister_consumer. */
  lemma GivesBack(cfg: Config, s: State, t: nat, s1: State) returns (s': State)
    requires Alone(cfg, s, t, s1) && t < |s1.consumers| && s1.consumers[t].pc.StoreInfinity?
    requires s1.consumers[t].cursorId < |s1.mem.cursors| == cfg.maxConsumers
    ensures Alone(cfg, s, t, s') && s'.prod == s1.prod && s'.log == s1.log
    ensures s'.mem == s1.mem.(cursors := s1.mem.cursors[s1.consumers[t].cursorId := Cursor(INFINITY, false)])
    ensures s'.consumers == s1.consumers[t := s1.consumers[t].(pc := Gone, cursorId := cfg.maxConsumers)]
  {
    ReachableValid(cfg, s1);
    AloneStep(cfg, s, t, s1, Advance);
    var s2 := Do(cfg, s1, Event.Act(t, Advance));
    AloneStep(cfg, s, t, s2, Advance);
    s' := Do(cfg, s2, Event.Act(t, Advance));
  }

  // ------------------------------------------------------------ read_blocking

  /** Nothing to read: consumer `t` wants a message that is not published, and nobody publishes. */
  predicate Starved(s: State, t: nat) {
    s.prod.pc.Idle? && t < |s.consumers| && |s.log| <= s.consumers[t].next
  }

  /** read_blocking polls and pauses until its counter is at the limit. */
  lemma {:induction false} SpinsOn(cfg: Config, s: State, t: nat, s1: State) returns (s': State)
    requires Alone(cfg, s, t, s1) && cfg.wait.Futex? && Starved(s1, t)
    requires s1.consumers[t].pc.Blocking? && s1.consumers[t].iter <= SPIN_BEFORE_SYSCALL
    ensures Alone(cfg, s, t, s') && s'.mem == s1.mem && s'.prod == s1.prod && s'.log == s1.log
    ensures s'.consumers == s1.consumers[t := s1.consumers[t].(pc := AddWaiter, status := Empty, iter := 64)]
    decreases SPIN_BEFORE_SYSCALL - s1.consumers[t].iter
  {
    InvReachable(cfg, s1);
    ReadExact(cfg, s1, t, Advance);
    AloneStep(cfg, s, t, s1, Advance);
    s' := Do(cfg, s1, Event.Act(t, Advance));
    AloneStep(cfg, s, t, s', Advance);
    s' := Do(cfg, s', Event.Act(t, Advance));
    if s1.consumers[t].iter < SPIN_BEFORE_SYSCALL {
      s' := SpinsOn(cfg, s, t, s');
    }
  }

  /** A blocking read of a message that is not there comes to the futex only after 64 pauses,
      however often its consumer has blocked before. */
  lemma BlocksAfterSpinning(cfg: Config, s: State, t: nat) returns (s': State)
    requires Reachable(cfg, s) && cfg.wait.Futex? && Starved(s, t) && s.consumers[t].pc.Ready?
    ensures Alone(cfg, s, t, s') && s'.mem == s.mem && s'.prod == s.prod && s'.log == s.log
    ensures s'.consumers == s.consumers[t := s.consumers[t].(pc := AddWaiter, status := Empty, iter := 64)]
  {
    ReachableValid(cfg, s);
    AloneStart(cfg, s, t);
    AloneStep(cfg, s, t, s, Block);
    s' := SpinsOn(cfg, s, t, Do(cfg, s, Event.Act(t, Block)));
  }

  /** Then it falls asleep if and only if its slot has been used before: a slot that was never
      published counts as caught up, and the consumer polls again without a call. */
  lemma SleepsOnUsedSlots(cfg: Config, s: State, t: nat) returns (s': State)
    requires Reachable(cfg, s) && cfg.wait.Futex? && Starved(s, t) && s.consumers[t].pc.AddWaiter?
    ensures Alone(cfg, s, t, s') && s'.prod == s.prod && s'.log == s.log && cfg.Valid()
    ensures var c := s.consumers[t]; var used := Index(c.next, cfg.capacity) < |s.log|;
      && s'.mem == s.mem.(waiters := s.mem.waiters + (if used then 1 else 0))
      && t < |s'.consumers| && s'.consumers == s.consumers[t := s'.consumers[t]]
      && (if used then s'.consumers[t].pc.Asleep? && s'.consumers[t] == c.(pc := s'.consumers[t].pc)
          else s'.consumers[t] == c.(pc := Blocking, iter := c.iter + 1))
  {
    InvReachable(cfg, s);
    assert ReadOk(cfg, s.mem, s.prod, s.log, s.consumers[t]);
    UsedMeansStamped(cfg, s, s.consumers[t].next);
    AloneStart(cfg, s, t);
    AloneStep(cfg, s, t, s, Advance);
    s' := DecidesToSleep(cfg, s, t, Do(cfg, s, Event.Act(t, Advance)));
  }

  /** From the load of the stamp on. */
  lemma DecidesToSleep(cfg: Config, s: State, t: nat, s1: State) returns (s': State)
    requires Alone(cfg, s, t, s1) && cfg.Valid() && t < |s1.consumers| && s1.consumers[t].pc.LoadWord?
    ensures Alone(cfg, s, t, s') && s'.prod == s1.prod && s'.log == s1.log
    ensures var c := s1.consumers[t]; var seen := SlotFor(cfg, s1.mem, c.next).stamp;
      if seen < c.next then s'.mem == s1.mem && s'.consumers == s1.consumers[t := c.(pc := Asleep(seen))]
      else && s'.mem == s1.mem.(waiters := s1.mem.waiters - 1)
           && s'.consumers == s1.consumers[t := c.(pc := Blocking, iter := c.iter + 1)]
  {
    AloneStep(cfg, s, t, s1, Advance);
    var s2 := Do(cfg, s1, Event.Act(t, Advance));
    AloneStep(cfg, s, t, s2, Advance);
    s' := Do(cfg, s2, Event.Act(t, Advance));
  }

  /** A sleeper may wake at any time without a wake call; it then takes itself off the waiters
      and polls again, so that an early return of the futex is harmless. */
  lemma WakesSpuriously(cfg: Config, s: State, t: nat) returns (s': State)
    requires Reachable(cfg, s) && t < |s.consumers| && s.consumers[t].pc.Asleep?
    ensures Alone(cfg, s, t, s') && s'.prod == s.prod && s'.log == s.log
    ensures s'.mem == s.mem.(waiters := s.mem.waiters - 1)
    ensures s'.consumers == s.consumers[t := s.consumers[t].(pc := Blocking, iter := s.consumers[t].iter + 1)]
  {
    ReachableValid(cfg, s);
    AloneStart(cfg, s, t);
    AloneStep(cfg, s, t, s, SpuriousWake);
    s' := ReturnsFromFutex(cfg, s, t, Do(cfg, s, Event.Act(t, SpuriousWake)));
  }

  lemma ReturnsFromFutex(cfg: Config, s: State, t: nat, s1: State) returns (s': State)
    requires Alone(cfg, s, t, s1) && t < |s1.consumers| && s1.consumers[t].pc.DropWaiter?
    ensures Alone(cfg, s, t, s') && s'.prod == s1.prod && s'.log == s1.log
    ensures s'.mem == s1.mem.(waiters := s1.mem.waiters - 1)
    ensures s'.consumers == s1.consumers[t := s1.consumers[t].(pc := Blocking, iter := s1.consumers[t].iter + 1)]
  {
    ReachableValid(cfg, s1);
    AloneStep(cfg, s, t, s1, Advance);
    s' := Do(cfg, s1, Event.Act(t, Advance));
  }

  lemma UsedMeansStamped(cfg: Config, s: State, n: nat)
    requires Reachable(cfg, s) && s.prod.pc.Idle? && |s.log| <= n < WRITING_SEQ
    ensures cfg.Valid()
    ensures Index(n, cfg.capacity) < |s.log| <==> SlotFor(cfg, s.mem, n).stamp < n
  {
    InvReachable(cfg, s);
    var i := Index(n, cfg.capacity);
    assert SlotOk(cfg, s.mem.slots[i], i, s.prod, s.log);
    IndexAtMost(s.mem.slots[i].stamp, cfg.capacity);
  }
}
