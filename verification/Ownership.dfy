/** Cursor ownership under concurrent registration, departure and move construction. */
module Ownership {
  import opened Sequences
  import opened Protocol

  predicate Owns(cfg: Config, c: Consumer) {
    c.cursorId < cfg.maxConsumers
  }

  predicate Joining(c: Consumer) {
    c.pc.Claim? || c.pc.LoadHead?
  }

  /** Where a consumer has no cursor yet or any more, and where it must have one. */
  predicate CursorFitsPc(cfg: Config, c: Consumer) {
    && c.cursorId <= cfg.maxConsumers
    && (c.pc.Unborn? ==> UnbornConsumer(cfg, c))
    && (c.pc.Claim? || c.pc.Gone? ==> !Owns(cfg, c))
    && (c.pc.ZeroCursor? || c.pc.StoreSeek? || c.pc.StoreCursor? || c.pc.StoreInfinity? || c.pc.ReleaseCursor?
        ==> Owns(cfg, c))
  }

  ghost predicate OwnershipInv(cfg: Config, mem: Memory, cs: seq<Consumer>) {
    && |mem.cursors| == cfg.maxConsumers
    && (forall t :: 0 <= t < |cs| ==> CursorFitsPc(cfg, cs[t]))
    && (forall t :: 0 <= t < |cs| && Owns(cfg, cs[t]) ==>
          cfg.policy.Backpressure? && mem.cursors[cs[t].cursorId].inUse)
    && (forall t, u :: 0 <= t < u < |cs| && Owns(cfg, cs[t]) && Owns(cfg, cs[u]) ==>
          cs[t].cursorId != cs[u].cursorId)
    && (forall i :: 0 <= i < cfg.maxConsumers && mem.cursors[i].inUse ==>
          exists t :: 0 <= t < |cs| && cs[t].cursorId == i)
  }

  /** A consumer step touches at most its own cursor, or a free one that it then owns. */
  lemma OwnCursorOnly(cfg: Config, mem: Memory, c: Consumer, a: Action)
    requires cfg.Valid() && CanAct(cfg, mem, c, a) && |mem.cursors| == cfg.maxConsumers
    requires CursorFitsPc(cfg, c)
    requires Owns(cfg, c) ==> mem.cursors[c.cursorId].inUse
    requires !cfg.policy.Backpressure? ==> !Owns(cfg, c) && !Joining(c)
    ensures var (mem', c') := Perform(cfg, mem, c, a);
      && |mem'.cursors| == |mem.cursors|
      && CursorFitsPc(cfg, c')
      && (!cfg.policy.Backpressure? ==> !Owns(cfg, c') && !Joining(c'))
      && (Owns(cfg, c) ==>
            && (forall i :: 0 <= i < cfg.maxConsumers && i != c.cursorId ==> mem'.cursors[i] == mem.cursors[i])
            && (Owns(cfg, c') ==> c'.cursorId == c.cursorId && mem'.cursors[c.cursorId].inUse)
            && (!Owns(cfg, c') ==> !mem'.cursors[c.cursorId].inUse))
      && (!Owns(cfg, c) && Owns(cfg, c') ==>
            && !mem.cursors[c'.cursorId].inUse && mem'.cursors[c'.cursorId].inUse
            && (forall i :: 0 <= i < cfg.maxConsumers && i != c'.cursorId ==> mem'.cursors[i] == mem.cursors[i]))
      && (!Owns(cfg, c) && !Owns(cfg, c') ==> mem'.cursors == mem.cursors)
  {
  }

  /** Only Backpressure consumers register. */
  ghost predicate ClaimsOnlyUnderBackpressure(cfg: Config, cs: seq<Consumer>) {
    !cfg.policy.Backpressure? ==> forall t :: 0 <= t < |cs| ==> !Joining(cs[t])
  }

  lemma OwnershipAct(cfg: Config, s: State, t: nat, a: Action)
    requires cfg.Valid() && CanDo(cfg, s, Event.Act(t, a))
    requires OwnershipInv(cfg, s.mem, s.consumers) && ClaimsOnlyUnderBackpressure(cfg, s.consumers)
    ensures var s' := Do(cfg, s, Event.Act(t, a));
      OwnershipInv(cfg, s'.mem, s'.consumers) && ClaimsOnlyUnderBackpressure(cfg, s'.consumers)
  {
    var c := s.consumers[t];
    OwnCursorOnly(cfg, s.mem, c, a);
    var s' := Do(cfg, s, Event.Act(t, a));
    forall i | 0 <= i < cfg.maxConsumers && s'.mem.cursors[i].inUse
      ensures exists u :: 0 <= u < |s'.consumers| && s'.consumers[u].cursorId == i
    {
      if s'.consumers[t].cursorId != i {
        var u :| 0 <= u < |s.consumers| && s.consumers[u].cursorId == i;
        assert s'.consumers[u].cursorId == i;
      }
    }
  }

  lemma OwnershipMove(cfg: Config, s: State, from: nat, to: nat)
    requires cfg.Valid() && CanDo(cfg, s, Move(from, to)) && OwnershipInv(cfg, s.mem, s.consumers)
    ensures OwnershipInv(cfg, s.mem, Do(cfg, s, Move(from, to)).consumers)
  {
    var cs := Do(cfg, s, Move(from, to)).consumers;
    forall i | 0 <= i < cfg.maxConsumers && s.mem.cursors[i].inUse
      ensures exists u :: 0 <= u < |cs| && cs[u].cursorId == i
    {
      var u :| 0 <= u < |s.consumers| && s.consumers[u].cursorId == i;
      assert cs[if u == from then to else u].cursorId == i;
    }
  }

  /** Waking sleepers moves no cursor. */
  lemma OwnershipWake(cfg: Config, mem: Memory, cs: seq<Consumer>, slot: nat)
    requires cfg.Valid() && OwnershipInv(cfg, mem, cs) && ClaimsOnlyUnderBackpressure(cfg, cs)
    ensures OwnershipInv(cfg, mem, WakeSlot(cfg, slot, cs))
    ensures ClaimsOnlyUnderBackpressure(cfg, WakeSlot(cfg, slot, cs))
  {
  }

  lemma OwnershipStep(cfg: Config, s: State, e: Event)
    requires cfg.Valid() && CanDo(cfg, s, e)
    requires OwnershipInv(cfg, s.mem, s.consumers) && ClaimsOnlyUnderBackpressure(cfg, s.consumers)
    ensures var s' := Do(cfg, s, e);
      OwnershipInv(cfg, s'.mem, s'.consumers) && ClaimsOnlyUnderBackpressure(cfg, s'.consumers)
  {
    match e
    case Begin(_) =>
    case Produce =>
      assert Do(cfg, s, e).mem.cursors == s.mem.cursors;
      OwnershipWake(cfg, s.mem, s.consumers, Index(s.prod.seqno, cfg.capacity));
    case Act(t, a) => OwnershipAct(cfg, s, t, a);
    case Move(from, to) => OwnershipMove(cfg, s, from, to);
  }
}
