/** What holds in every reachable state of the ring. */
module Safety {
  import opened Sequences
  import opened Protocol
  import opened Window
  import opened Ownership
  import opened Cover
  import opened Reads
  import opened Loss
  import opened Parking

  ghost predicate Inv(cfg: Config, s: State) {
    && cfg.Valid()
    && WindowInv(cfg, s.mem, s.prod, s.log)
    && OwnershipInv(cfg, s.mem, s.consumers) && ClaimsOnlyUnderBackpressure(cfg, s.consumers)
    && (cfg.policy.Backpressure? ==> CoverInv(cfg, s.mem, s.prod, s.consumers))
    && ReadInv(cfg, s.mem, s.prod, s.log, s.consumers)
    && (cfg.policy.Overwrite? ==> LossInv(cfg, s.mem, s.prod, s.consumers))
    && ParkInv(cfg, s.mem, s.prod, s.consumers)
  }

  lemma {:induction false} NoneWaiting(cfg: Config, cs: seq<Consumer>)
    requires forall t :: 0 <= t < |cs| ==> UnbornConsumer(cfg, cs[t])
    ensures CountWaiting(cs) == 0
  {
    if cs != [] {
      NoneWaiting(cfg, cs[1..]);
    }
  }

  lemma InvInit(cfg: Config, s: State)
    requires Init(cfg, s)
    ensures Inv(cfg, s)
  {
    WindowInit(cfg, s);
    NoneWaiting(cfg, s.consumers);
  }

  lemma InvStep(cfg: Config, s: State, e: Event)
    requires Inv(cfg, s) && CanDo(cfg, s, e)
    ensures Inv(cfg, Do(cfg, s, e))
  {
    WindowStep(cfg, s, e);
    OwnershipStep(cfg, s, e);
    ReadStep(cfg, s, e);
    ParkStep(cfg, s, e);
    if cfg.policy.Backpressure? {
      CoverStep(cfg, s, e);
    } else {
      LossStep(cfg, s, e);
    }
  }

  lemma {:induction false} InvRun(cfg: Config, s: State, es: seq<Event>)
    requires Inv(cfg, s) && CanRun(cfg, s, es)
    ensures Inv(cfg, Run(cfg, s, es))
    decreases |es|
  {
    if es != [] {
      InvStep(cfg, s, es[0]);
      InvRun(cfg, Do(cfg, s, es[0]), es[1..]);
    }
  }

  lemma InvReachable(cfg: Config, s: State)
    requires Reachable(cfg, s)
    ensures Inv(cfg, s)
  {
    var s0, es :| Init(cfg, s0) && CanRun(cfg, s0, es) && Run(cfg, s0, es) == s;
    InvInit(cfg, s0);
    InvRun(cfg, s0, es);
  }

  // ------------------------------------------------------------ the ring window

  /** Exactly the slot being filled may carry the writing mark; every other slot holds the
      newest stamped message of its residue class, bytes included; and the count lags by at most one. */
  lemma RingWindow(cfg: Config, s: State, i: nat)
    requires Reachable(cfg, s) && i < cfg.capacity
    ensures |s.mem.slots| == cfg.capacity
    ensures s.mem.slots[i].stamp == WRITING_SEQ <==> cfg.policy.Overwrite? && BeingFilled(cfg, s.prod, i)
    ensures !BeingFilled(cfg, s.prod, i) ==>
      var stamp := s.mem.slots[i].stamp;
      if stamp == EMPTY_SEQ then Stamped(s.prod) <= i
      else && stamp < Stamped(s.prod) <= |s.log| && Index(stamp, cfg.capacity) == i
           && Holds(s.mem.slots[i], s.log[stamp])
           && forall q :: stamp < q < Stamped(s.prod) ==> Index(q, cfg.capacity) != i
    ensures s.mem.produced <= Stamped(s.prod) <= s.mem.produced + 1
  {
    InvReachable(cfg, s);
    assert SlotOk(cfg, s.mem.slots[i], i, s.prod, s.log);
    var stamp := s.mem.slots[i].stamp;
    if !BeingFilled(cfg, s.prod, i) && stamp != EMPTY_SEQ {
      forall q | stamp < q < Stamped(s.prod)
        ensures Index(q, cfg.capacity) != i
      {
        if Index(q, cfg.capacity) == i { SameSlotLapApart(stamp, q, cfg.capacity); }
      }
    }
  }

  /** When the producer takes a slot for `seq`, its stamp is exactly one lap older, or the
      slot was never used: real stamps of a slot increase by Capacity. */
  lemma StampsAdvanceOneLap(cfg: Config, s: State)
    requires Reachable(cfg, s)
    requires s.prod.pc.MarkSlot? || (cfg.policy.Backpressure? && s.prod.pc.StoreStamp?)
    ensures SlotFor(cfg, s.mem, s.prod.seqno).stamp ==
            if s.prod.seqno < cfg.capacity then EMPTY_SEQ else s.prod.seqno - cfg.capacity
  {
    InvReachable(cfg, s);
    var n := s.prod.seqno;
    var i := Index(n, cfg.capacity);
    assert SlotOk(cfg, s.mem.slots[i], i, s.prod, s.log);
    var stamp := s.mem.slots[i].stamp;
    if stamp != EMPTY_SEQ {
      SameSlotLapApart(stamp, n, cfg.capacity);
    } else {
      IndexAtMost(n, cfg.capacity);
    }
  }

  // ------------------------------------------------------------ refinement of a bounded log

  /** With no publish in flight, do_read answers from the bounded log of the last Capacity messages. */
  lemma BoundedLogAtRest(cfg: Config, s: State, n: nat)
    requires Reachable(cfg, s) && s.prod.pc.Idle? && n < WRITING_SEQ
    ensures s.mem.produced == |s.log|
    ensures var r := Classify(SlotFor(cfg, s.mem, n).stamp, n); var P := |s.log|;
      && (r.Ok? <==> n < P <= n + cfg.capacity)
      && (r.Empty? <==> P <= n)
      && (r.Lapped? <==> n + cfg.capacity < P)
      && (r.Ok? ==> Holds(SlotFor(cfg, s.mem, n), s.log[n]))
  {
    InvReachable(cfg, s);
    LookupAtRest(cfg, s.mem, s.prod, s.log, n);
  }

  /** In the middle of a publish: ok means resident, lapped means overwritten, and empty
      means not stamped yet or, under Overwrite, just being written. Backpressure writes no
      mark, so there a slot being filled still answers ok for the message it is taken from. */
  lemma BoundedLogInFlight(cfg: Config, s: State, n: nat)
    requires Reachable(cfg, s) && n < WRITING_SEQ
    ensures var r := Classify(SlotFor(cfg, s.mem, n).stamp, n);
            var filled := BeingFilled(cfg, s.prod, Index(n, cfg.capacity));
      && (r.Ok? ==>
            && n < Stamped(s.prod) <= |s.log|
            && (if filled then cfg.policy.Backpressure? && n + cfg.capacity == s.prod.seqno
                else Marked(s.prod) <= n + cfg.capacity && Holds(SlotFor(cfg, s.mem, n), s.log[n])))
      && (r.Lapped? ==> Overwritten(cfg, s.prod, n))
      && (r.Empty? ==> Stamped(s.prod) <= n || (cfg.policy.Overwrite? && filled))
  {
    InvReachable(cfg, s);
    var i := Index(n, cfg.capacity);
    assert SlotOk(cfg, s.mem.slots[i], i, s.prod, s.log);
    assert Index(n + cfg.capacity, cfg.capacity) == i;
    var stamp := s.mem.slots[i].stamp;
    if stamp == EMPTY_SEQ {
      IndexAtMost(n, cfg.capacity);
    } else if stamp != n && stamp != WRITING_SEQ {
      SameSlotLapApart(if stamp < n then stamp else n, if stamp < n then n else stamp, cfg.capacity);
    } else if stamp == n && BeingFilled(cfg, s.prod, i) {
      SameSlotLapApart(n, s.prod.seqno, cfg.capacity);
    }
  }
}
