/** By when a plain Backpressure registration must be complete. */
module Deadline {
  import opened Sequences
  import opened Protocol
  import opened Cover
  import opened Safety
  import opened WholeCalls
  import opened FullTable

  /** Consumer 0 has registered. */
  lemma FirstRegisters(cfg: Config) returns (s: State)
    requires cfg.Valid() && cfg.policy.Backpressure?
    ensures Reachable(cfg, s) && Quiet(s) && |s.consumers| == 2 && |s.mem.cursors| == cfg.maxConsumers
    ensures s.consumers[0].pc.Ready? && s.consumers[0].cursorId == 0 && UnbornConsumer(cfg, s.consumers[1])
    ensures forall i :: 1 <= i < cfg.maxConsumers ==> !s.mem.cursors[i].inUse
  {
    var s0 := Unborns(cfg, 2);
    s := Registers(cfg, s0, 0, false);
    assert !s0.mem.cursors[0].inUse;
  }

  /** Consumer 1 has claimed the cursor that consumer 0 left at infinity. */
  lemma ClaimsUsed(cfg: Config) returns (s: State)
    requires cfg.Valid() && cfg.policy.Backpressure?
    ensures Reachable(cfg, s) && Quiet(s) && |s.consumers| == 2 && NoneHolds(s.mem)
    ensures s.consumers[0].pc.Gone? && s.consumers[1].pc == ZeroCursor(false)
  {
    s := FirstRegisters(cfg);
    s := Leaves(cfg, s, 0);
    s := ActedBy(cfg, s, 1, Construct(false, 0));
    s := ActedBy(cfg, s, 1, Advance);
  }

  /** The claim of a used cursor does not show: `n` messages are published and the slot of
      the next is taken before the zero is stored. */
  lemma ZeroStillPending(cfg: Config, n: nat) returns (s: State)
    requires cfg.Valid() && cfg.policy.Backpressure? && n + 1 < WRITING_SEQ
    ensures Reachable(cfg, s) && s.mem.produced == n && s.prod.seqno == n && s.prod.pc.StoreLen?
    ensures |s.consumers| == 2 && s.consumers[1].pc == ZeroCursor(false)
  {
    s := ClaimsUsed(cfg);
    s := PublishUpToUnscanned(cfg, s, n);
    s := BegunUnscanned(cfg, s, []);
    InvReachable(cfg, s);
  }

  /** A plain registration has claimed its cursor and has still to store its zero. */
  predicate ZeroPending(s: State, t: int) {
    0 <= t < |s.consumers| && s.consumers[t].pc == ZeroCursor(false)
  }

  /** The deadline of a plain registration: with `n` messages counted, every pending store of a
      zero is sure to hold the producer off message 0's slot if and only if n < Capacity. */
  lemma RegistrationDeadline(cfg: Config, n: nat)
    requires cfg.Valid() && cfg.policy.Backpressure? && n + 1 < WRITING_SEQ
    ensures (forall s, t | Reachable(cfg, s) && s.mem.produced == n && ZeroPending(s, t)
                           :: Covered(cfg, s.prod, 0, s.consumers[t].cursorId))
            <==> n < cfg.capacity
  {
    if n < cfg.capacity {
      forall s, t | Reachable(cfg, s) && s.mem.produced == n && ZeroPending(s, t)
        ensures Covered(cfg, s.prod, 0, s.consumers[t].cursorId)
      {
        InvReachable(cfg, s);
      }
    } else {
      var s := ZeroStillPending(cfg, n);
      assert ZeroPending(s, 1);
      assert !Covered(cfg, s.prod, 0, s.consumers[1].cursorId);
    }
  }
}
