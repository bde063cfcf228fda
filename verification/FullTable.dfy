/** What a cursor is worth: a Backpressure consumer that found the table full can be lapped. */
module FullTable {
  import opened Sequences
  import opened Protocol
  import opened Ownership
  import opened Cover
  import opened Safety
  import opened Reads
  import opened WholeCalls
  import opened Stranding

  /** No cursor holds the producer back. */
  ghost predicate NoneHolds(mem: Memory) {
    forall i :: 0 <= i < |mem.cursors| && mem.cursors[i].inUse ==> mem.cursors[i].value == INFINITY
  }

  /** Then the scan passes one cursor after the other, */
  lemma PassesCursor(cfg: Config, s: State) returns (s': State)
    requires Reachable(cfg, s) && s.prod.pc.ScanInUse? && NoneHolds(s.mem)
    ensures cfg.Valid() && Reachable(cfg, s') && s' == s.(prod := s.prod.(pc := NextScan(cfg, s.prod.pc.i)))
  {
    InvReachable(cfg, s);
    ReachableStep(cfg, s, Produce);
    s' := Do(cfg, s, Produce);
    if s.mem.CursorAt(s.prod.pc.i).inUse {
      ReachableStep(cfg, s', Produce);
      s' := Do(cfg, s', Produce);
    }
  }

  /** and comes to its end. */
  lemma {:induction false} SkipScan(cfg: Config, s: State) returns (s': State)
    requires Reachable(cfg, s) && s.prod.pc.ScanInUse? && NoneHolds(s.mem)
    ensures cfg.Valid() && Reachable(cfg, s') && s' == s.(prod := s.prod.(pc := FirstStore(cfg)))
    decreases cfg.maxConsumers - s.prod.pc.i
  {
    s' := PassesCursor(cfg, s);
    if s'.prod.pc.ScanInUse? {
      s' := SkipScan(cfg, s');
    }
  }

  lemma BegunUnscanned(cfg: Config, s: State, m: Message) returns (s': State)
    requires Reachable(cfg, s) && cfg.policy.Backpressure? && s.prod.pc.Idle? && NoneHolds(s.mem)
    requires |s.log| + 1 < WRITING_SEQ && |m| <= cfg.blockSize
    ensures cfg.Valid() && Reachable(cfg, s') && s'.prod == Producer(StoreLen, |s.log|, m) && s'.log == s.log + [m]
    ensures s'.consumers == s.consumers && s'.mem == s.mem
  {
    InvReachable(cfg, s);
    s' := Do(cfg, s, Begin(m));
    ReachableStep(cfg, s, Begin(m));
    if s'.prod.pc.ScanInUse? {
      s' := SkipScan(cfg, s');
    }
  }

  lemma PublishUnscanned(cfg: Config, s: State) returns (s': State)
    requires Reachable(cfg, s) && cfg.policy.Backpressure? && s.prod.pc.Idle? && NoneHolds(s.mem)
    requires |s.log| + 1 < WRITING_SEQ && NoneAsleep(s.consumers)
    ensures Reachable(cfg, s') && s'.prod.pc.Idle? && s'.log == s.log + [[]] && NoneHolds(s'.mem)
    ensures s'.consumers == s.consumers
  {
    s' := BegunUnscanned(cfg, s, []);
    s' := StoredThrough(cfg, s');
    s' := Notified(cfg, s');
  }

  lemma {:induction false} PublishUpToUnscanned(cfg: Config, s: State, n: nat) returns (s': State)
    requires Reachable(cfg, s) && cfg.policy.Backpressure? && s.prod.pc.Idle? && NoneHolds(s.mem)
    requires |s.log| <= n < WRITING_SEQ && NoneAsleep(s.consumers)
    requires forall m :: m in s.log ==> m == []
    ensures Reachable(cfg, s') && s'.prod.pc.Idle? && |s'.log| == n && s'.consumers == s.consumers
    ensures (forall m :: m in s'.log ==> m == []) && NoneHolds(s'.mem)
    decreases n - |s.log|
  {
    if |s.log| == n {
      s' := s;
    } else {
      s' := PublishUnscanned(cfg, s);
      s' := PublishUpToUnscanned(cfg, s', n);
    }
  }

  // ------------------------------------------------------------ a full table

  /** The stream has not begun. */
  predicate Quiet(s: State) {
    s.prod.pc.Idle? && s.log == [] && s.mem.produced == 0
  }

  /** The first `k` consumers hold the first `k` cursors, and the others are still to come. */
  ghost predicate Registered(cfg: Config, s: State, k: nat) {
    && Reachable(cfg, s) && cfg.Valid() && cfg.policy.Backpressure? && Quiet(s)
    && k <= cfg.maxConsumers && |s.consumers| == cfg.maxConsumers + 1 && |s.mem.cursors| == cfg.maxConsumers
    && (forall j :: 0 <= j < k ==> s.consumers[j].pc.Ready? && s.consumers[j].cursorId == j)
    && (forall j :: k <= j <= cfg.maxConsumers ==> UnbornConsumer(cfg, s.consumers[j]))
    && (forall i :: 0 <= i < cfg.maxConsumers ==> (s.mem.cursors[i].inUse <==> i < k))
  }

  lemma Unborns(cfg: Config, n: nat) returns (s: State)
    requires cfg.Valid()
    ensures Reachable(cfg, s) && Init(cfg, s) && |s.consumers| == n
  {
    var slot := Slot(EMPTY_SEQ, 0, seq(cfg.blockSize, _ => 0));
    var mem := Memory(seq(cfg.capacity, _ => slot), 0, seq(cfg.maxConsumers, _ => Cursor(0, false)), 0);
    var unborn := Consumer(Unborn, 0, 0, cfg.maxConsumers, Empty, 0, NO_VIEW, 0, []);
    s := State(mem, Producer(Idle, 0, []), [], seq(n, _ => unborn));
    assert CanRun(cfg, s, []) && Run(cfg, s, []) == s;
  }

  lemma RegistersNext(cfg: Config, s: State, k: nat) returns (s': State)
    requires Registered(cfg, s, k) && k < cfg.maxConsumers
    ensures Registered(cfg, s', k + 1)
  {
    s' := Registers(cfg, s, k, false);
    assert !s.mem.cursors[k].inUse;
  }

  lemma {:induction false} RegistersAll(cfg: Config, s: State, k: nat) returns (s': State)
    requires Registered(cfg, s, k)
    ensures Registered(cfg, s', cfg.maxConsumers)
    decreases cfg.maxConsumers - k
  {
    if k == cfg.maxConsumers {
      s' := s;
    } else {
      s' := RegistersNext(cfg, s, k);
      s' := RegistersAll(cfg, s', k + 1);
    }
  }

  /** The first `k` owners have left, and `last` found the table full. */
  ghost predicate Departed(cfg: Config, s: State, k: nat) {
    && Reachable(cfg, s) && cfg.Valid() && cfg.policy.Backpressure? && Quiet(s)
    && k <= cfg.maxConsumers && |s.consumers| == cfg.maxConsumers + 1 && |s.mem.cursors| == cfg.maxConsumers
    && (forall j :: 0 <= j < k ==> s.consumers[j].pc.Gone?)
    && (forall j :: k <= j < cfg.maxConsumers ==> s.consumers[j].pc.Ready? && s.consumers[j].cursorId == j)
    && (forall i :: 0 <= i < cfg.maxConsumers ==> (s.mem.cursors[i].inUse <==> k <= i))
    && var last := s.consumers[cfg.maxConsumers];
       last.pc.Ready? && !Owns(cfg, last) && last.next == last.start == 0
  }

  lemma LastFindsTableFull(cfg: Config, s: State) returns (s': State)
    requires Registered(cfg, s, cfg.maxConsumers)
    ensures Departed(cfg, s', 0)
  {
    s' := Registers(cfg, s, cfg.maxConsumers, false);
  }

  lemma OneDeparts(cfg: Config, s: State, k: nat) returns (s': State)
    requires Departed(cfg, s, k) && k < cfg.maxConsumers
    ensures Departed(cfg, s', k + 1)
  {
    s' := Leaves(cfg, s, k);
  }

  lemma {:induction false} AllDepart(cfg: Config, s: State, k: nat) returns (s': State)
    requires Departed(cfg, s, k)
    ensures Departed(cfg, s', cfg.maxConsumers)
    decreases cfg.maxConsumers - k
  {
    if k == cfg.maxConsumers {
      s' := s;
    } else {
      s' := OneDeparts(cfg, s, k);
      s' := AllDepart(cfg, s', k + 1);
    }
  }

  /** Every owner and one consumer more have registered, and the owners have left. */
  lemma LeftWithoutCursor(cfg: Config) returns (s: State)
    requires cfg.Valid() && cfg.policy.Backpressure?
    ensures Departed(cfg, s, cfg.maxConsumers)
  {
    s := Unborns(cfg, cfg.maxConsumers + 1);
    s := RegistersAll(cfg, s, 0);
    s := LastFindsTableFull(cfg, s);
    s := AllDepart(cfg, s, 0);
  }

  /** Nothing tells the client of a full table, and the consumer without a cursor is lapped
      although the policy is Backpressure. */
  lemma WithoutCursorLapped(cfg: Config) returns (s: State, t: nat)
    requires cfg.Valid() && cfg.policy.Backpressure? && cfg.capacity + 1 < WRITING_SEQ
    ensures Reachable(cfg, s) && t < |s.consumers| && !Owns(cfg, s.consumers[t])
    ensures s.consumers[t].start == s.consumers[t].next == 0 && s.consumers[t].status.Lapped?
  {
    s := LeftWithoutCursor(cfg);
    t := cfg.maxConsumers;
    s := PublishUpToUnscanned(cfg, s, cfg.capacity + 1);
    BoundedLogAtRest(cfg, s, 0);
    s := ActedBy(cfg, s, t, Poll);
  }

  /** Under Backpressure a consumer can be lapped if and only if it has no cursor. */
  lemma CursorDecides(cfg: Config, owning: bool)
    requires cfg.Valid() && cfg.policy.Backpressure? && cfg.capacity + 1 < WRITING_SEQ
    ensures (exists s, t :: Reachable(cfg, s) && 0 <= t < |s.consumers| && s.consumers[t].status.Lapped?
                            && Owns(cfg, s.consumers[t]) == owning) <==> !owning
  {
    if owning {
      forall s, t | Reachable(cfg, s) && 0 <= t < |s.consumers| && Owns(cfg, s.consumers[t])
        ensures !s.consumers[t].status.Lapped?
      {
        InvReachable(cfg, s);
        assert ConsumerCovered(cfg, s.mem, s.prod, s.consumers[t]);
      }
    } else {
      var s, t := WithoutCursorLapped(cfg);
      assert s.consumers[t].status.Lapped?;
    }
  }

  // ------------------------------------------------------------ torn reads without a cursor

  /** validate returned true for a view that is not the message. */
  ghost predicate TornButValidated(s: State, t: int) {
    0 <= t < |s.consumers| &&
    var c := s.consumers[t];
    c.pc.Validated? && !(c.readSeq < |s.log| && ViewOf(c.view, s.log[c.readSeq]))
  }

  /** The first message is stamped, and the consumer without a cursor views it. */
  lemma ViewsWithoutCursor(cfg: Config) returns (s: State)
    requires cfg.Valid() && cfg.policy.Backpressure? && cfg.capacity + 1 < WRITING_SEQ
    ensures Reachable(cfg, s) && s.prod.pc.Idle? && NoneHolds(s.mem)
    ensures |s.log| == cfg.capacity && s.log[0] == [] && |s.consumers| == cfg.maxConsumers + 1
    ensures var c := s.consumers[cfg.maxConsumers];
      c.pc.Viewing? && c.readSeq == 0 && c.view == NO_VIEW && !Owns(cfg, c)
    ensures SlotFor(cfg, s.mem, 0).stamp == 0
  {
    s := LeftWithoutCursor(cfg);
    s := PublishUpToUnscanned(cfg, s, cfg.capacity);
    assert s.log[0] in s.log;
    BoundedLogAtRest(cfg, s, 0);
    s := ActedBy(cfg, s, cfg.maxConsumers, Poll);
  }

  /** Backpressure writes no mark: while the next lap is being stored under the old stamp, a
      consumer that holds nothing back reads the new length, and validate returns true. */
  lemma WithoutCursorTorn(cfg: Config) returns (s: State)
    requires cfg.Valid() && cfg.policy.Backpressure? && cfg.capacity + 1 < WRITING_SEQ && 0 < cfg.blockSize
    ensures Reachable(cfg, s) && TornButValidated(s, cfg.maxConsumers)
    ensures !Owns(cfg, s.consumers[cfg.maxConsumers])
  {
    var t := cfg.maxConsumers;
    s := ViewsWithoutCursor(cfg);
    s := BegunUnscanned(cfg, s, [0]);
    InvReachable(cfg, s);
    assert Index(cfg.capacity, cfg.capacity) == 0;
    ReachableStep(cfg, s, Produce);
    s := Do(cfg, s, Produce);
    s := ActedBy(cfg, s, t, LoadLen);
    s := ActedBy(cfg, s, t, Validate);
    assert s.consumers[t].view.lenSeen == Some(1);
  }

  /** Under Backpressure a consumer can be made to accept torn bytes if and only if it has no cursor. */
  lemma CursorDecidesTearing(cfg: Config, owning: bool)
    requires cfg.Valid() && cfg.policy.Backpressure? && cfg.capacity + 1 < WRITING_SEQ && 0 < cfg.blockSize
    ensures (exists s, t :: Reachable(cfg, s) && TornButValidated(s, t) && Owns(cfg, s.consumers[t]) == owning)
            <==> !owning
  {
    if owning {
      forall s, t | Reachable(cfg, s) && 0 <= t < |s.consumers| && Owns(cfg, s.consumers[t])
        ensures !TornButValidated(s, t)
      {
        InvReachable(cfg, s);
        assert ReadOk(cfg, s.mem, s.prod, s.log, s.consumers[t]);
      }
    } else {
      var s := WithoutCursorTorn(cfg);
      assert TornButValidated(s, cfg.maxConsumers);
    }
  }
}
