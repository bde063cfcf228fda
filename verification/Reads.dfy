/** What a consumer has loaded: the seqlock argument of Overwrite, and the exclusive slot of Backpressure. */
module Reads {
  import opened Sequences
  import opened Protocol
  import opened Window
  import opened Ownership
  import opened Cover

  /** Everything in the view was read from message `m`. */
  ghost predicate ViewOf(view: View, m: Message) {
    && (view.lenSeen.Some? ==> view.lenSeen.value == |m|)
    && (forall k, b :: (k, b) in view.loads ==> k < |m| && m[k] == b)
    && |view.out| <= |m| && view.out == m[..|view.out|]
  }

  /** The slot of `q` holds message `q` and the producer is not storing to it. */
  predicate Intact(cfg: Config, mem: Memory, p: Producer, q: nat)
    requires cfg.Valid()
  {
    SlotFor(cfg, mem, q).stamp == q && !BeingFilled(cfg, p, Index(q, cfg.capacity))
  }

  /** Overwrite consumers, and Backpressure consumers with a cursor. */
  predicate Trusted(cfg: Config, c: Consumer) {
    cfg.policy.Overwrite? || Owns(cfg, c)
  }

  predicate ViewInside(cfg: Config, c: Consumer) {
    && (c.view.lenSeen.Some? ==> c.view.lenSeen.value <= cfg.blockSize)
    && (c.pc.Validated? ==> c.view.lenSeen.Some?)
    && (c.pc.Copying? ==> |c.view.out| <= (if c.view.lenSeen.None? then 0 else CopyLength(c)))
  }

  ghost predicate CommittedOk(p: Producer, log: seq<Message>, c: Consumer)
    requires Stamped(p) <= |log|
  {
    forall r :: r in c.committed ==> r.seqno < Stamped(p) && ViewOf(r.view, log[r.seqno])
  }

  ghost predicate ReadOk(cfg: Config, mem: Memory, p: Producer, log: seq<Message>, c: Consumer)
    requires cfg.Valid() && Stamped(p) <= |log|
  {
    && (Reading(c) ==>
          && c.readSeq < Stamped(p) && ViewInside(cfg, c) && c.readSeq == c.next && c.status.Ok?
          && (Intact(cfg, mem, p, c.readSeq) ==> ViewOf(c.view, log[c.readSeq]))
          && (c.pc.Validated? && Trusted(cfg, c) ==> ViewOf(c.view, log[c.readSeq])))
    && (Trusted(cfg, c) ==> CommittedOk(p, log, c))
    && c.next < WRITING_SEQ
  }

  ghost predicate ReadInv(cfg: Config, mem: Memory, p: Producer, log: seq<Message>, cs: seq<Consumer>)
    requires cfg.Valid() && Stamped(p) <= |log|
  {
    forall t :: 0 <= t < |cs| ==> ReadOk(cfg, mem, p, log, cs[t])
  }

  /** A slot that has lost message `q` never holds it again. */
  lemma LostForGood(cfg: Config, mem: Memory, p: Producer, q: nat)
    requires cfg.Valid() && |mem.slots| == cfg.capacity && q < Stamped(p) && p.Stores()
    requires q < WRITING_SEQ
    requires Intact(cfg, Apply(mem, StoreOf(cfg, p)), AfterStore(cfg, p), q)
    ensures Intact(cfg, mem, p, q)
  {
  }

  /** An intact slot holds exactly the published message. */
  lemma IntactHolds(cfg: Config, mem: Memory, p: Producer, log: seq<Message>, q: nat)
    requires cfg.Valid() && WindowInv(cfg, mem, p, log) && q < Stamped(p) && Intact(cfg, mem, p, q)
    ensures Holds(SlotFor(cfg, mem, q), log[q])
  {
  }

  /** The seqlock: the stamp of a marked slot is no sequence number, so a stamp that is
      still the wanted one means that no store to the slot has begun. */
  lemma StampMeansIntact(cfg: Config, mem: Memory, p: Producer, log: seq<Message>, c: Consumer)
    requires cfg.Valid() && WindowInv(cfg, mem, p, log) && |mem.cursors| == cfg.maxConsumers
    requires Reading(c) && c.readSeq < Stamped(p) && Trusted(cfg, c)
    requires cfg.policy.Backpressure? ==> ConsumerCovered(cfg, mem, p, c)
    requires StillThere(cfg, mem, c)
    ensures Intact(cfg, mem, p, c.readSeq)
  {
    var i := Index(c.readSeq, cfg.capacity);
    assert SlotOk(cfg, mem.slots[i], i, p, log);
    if cfg.policy.Backpressure? {
      JoinedReadsNext(cfg, mem, p, log, c);
    }
  }

  // ------------------------------------------------------------ steps of the producer

  lemma ReadStore(cfg: Config, mem: Memory, p: Producer, log: seq<Message>, c: Consumer)
    requires cfg.Valid() && WindowInv(cfg, mem, p, log) && p.Stores()
    requires ReadOk(cfg, mem, p, log, c)
    ensures ReadOk(cfg, Apply(mem, StoreOf(cfg, p)), AfterStore(cfg, p), log, c)
  {
    if Reading(c) && Intact(cfg, Apply(mem, StoreOf(cfg, p)), AfterStore(cfg, p), c.readSeq) {
      LostForGood(cfg, mem, p, c.readSeq);
    }
  }

  lemma ReadLoad(cfg: Config, mem: Memory, p: Producer, log: seq<Message>, c: Consumer)
    requires cfg.Valid() && WindowInv(cfg, mem, p, log) && !p.Stores()
    requires ReadOk(cfg, mem, p, log, c)
    ensures ReadOk(cfg, mem, AfterLoad(cfg, mem, p), log, c)
  {
  }

  lemma ReadBegin(cfg: Config, mem: Memory, p: Producer, log: seq<Message>, m: Message, c: Consumer)
    requires cfg.Valid() && WindowInv(cfg, mem, p, log) && p.pc.Idle?
    requires ReadOk(cfg, mem, p, log, c)
    ensures ReadOk(cfg, mem, BeginPublish(cfg, p, m), log + [m], c)
  {
  }

  lemma ReadWoken(cfg: Config, mem: Memory, p: Producer, log: seq<Message>, slot: nat, c: Consumer)
    requires cfg.Valid() && Stamped(p) <= |log| && ReadOk(cfg, mem, p, log, c)
    ensures ReadOk(cfg, mem, p, log, Woken(cfg, slot, c))
  {
  }

  // ------------------------------------------------------------ steps of the consumer

  /** Each load from an intact slot is a load from the published message. */
  lemma LoadFromIntact(cfg: Config, mem: Memory, p: Producer, log: seq<Message>, c: Consumer, k: nat)
    requires cfg.Valid() && WindowInv(cfg, mem, p, log)
    requires c.readSeq < Stamped(p) && Intact(cfg, mem, p, c.readSeq) && ViewOf(c.view, log[c.readSeq])
    ensures SlotFor(cfg, mem, c.readSeq).len == |log[c.readSeq]|
    ensures k < |log[c.readSeq]| ==> ByteAt(cfg, mem, c.readSeq, k) == log[c.readSeq][k]
  {
  }

  lemma LengthInside(cfg: Config, mem: Memory, p: Producer, log: seq<Message>, q: nat)
    requires cfg.Valid() && WindowInv(cfg, mem, p, log)
    ensures SlotFor(cfg, mem, q).len <= cfg.blockSize == |SlotFor(cfg, mem, q).payload|
  {
  }

  ghost predicate ReadPre(cfg: Config, mem: Memory, p: Producer, log: seq<Message>, c: Consumer) {
    && cfg.Valid() && WindowInv(cfg, mem, p, log) && |mem.cursors| == cfg.maxConsumers
    && CursorFitsPc(cfg, c)
    && (cfg.policy.Backpressure? ==> ConsumerCovered(cfg, mem, p, c))
    && ReadOk(cfg, mem, p, log, c)
  }

  lemma ReadZeroCopy(cfg: Config, mem: Memory, p: Producer, log: seq<Message>, c: Consumer, a: Action)
    requires ReadPre(cfg, mem, p, log, c) && CanAct(cfg, mem, c, a) && (c.pc.Viewing? || c.pc.Validated?)
    ensures ReadOk(cfg, mem, p, log, Perform(cfg, mem, c, a).1)
  {
    LengthInside(cfg, mem, p, log, c.readSeq);
    if c.pc.Viewing? {
      if Intact(cfg, mem, p, c.readSeq) {
        LoadFromIntact(cfg, mem, p, log, c, if a.LoadByte? then a.k else 0);
      } else if a.Validate? && Trusted(cfg, c) && StillThere(cfg, mem, c) {
        StampMeansIntact(cfg, mem, p, log, c);
      }
    }
  }

  lemma ReadCopying(cfg: Config, mem: Memory, p: Producer, log: seq<Message>, c: Consumer)
    requires ReadPre(cfg, mem, p, log, c) && c.pc.Copying?
    ensures ReadOk(cfg, mem, p, log, CopyStep(cfg, mem, c))
  {
    LengthInside(cfg, mem, p, log, c.readSeq);
    var k := |c.view.out|;
    if Intact(cfg, mem, p, c.readSeq) {
      LoadFromIntact(cfg, mem, p, log, c, k);
      var m := log[c.readSeq];
      if k < |m| {
        assert m[..k] + [m[k]] == m[..k + 1];
      }
    } else if Trusted(cfg, c) && StillThere(cfg, mem, c) {
      StampMeansIntact(cfg, mem, p, log, c);
    }
  }

  lemma ReadPoll(cfg: Config, mem: Memory, p: Producer, log: seq<Message>, c: Consumer,
                 ok: ConsumerPc, empty: ConsumerPc)
    requires ReadPre(cfg, mem, p, log, c) && !Reading(c) && !c.pc.Unborn?
    requires ok.Viewing? || ok.Copying?
    requires empty.Ready? || empty.Parking?
    ensures ReadOk(cfg, mem, p, log, ReadInto(cfg, mem, c, ok, empty))
  {
  }

  lemma ReadElsewhere(cfg: Config, mem: Memory, p: Producer, log: seq<Message>, c: Consumer)
    requires ReadPre(cfg, mem, p, log, c) && CanAct(cfg, mem, c, Advance) && !c.pc.Copying? && !c.pc.Blocking?
    ensures ReadOk(cfg, mem, p, log, Advanced(cfg, mem, c).1)
  {
  }

  lemma ReadOwnStep(cfg: Config, mem: Memory, p: Producer, log: seq<Message>, c: Consumer, a: Action)
    requires ReadPre(cfg, mem, p, log, c) && CanAct(cfg, mem, c, a)
    ensures ReadOk(cfg, mem, p, log, Perform(cfg, mem, c, a).1)
  {
    match a
    case Poll => ReadPoll(cfg, mem, p, log, c, Viewing, Ready);
    case PollCopy(cap) => ReadPoll(cfg, mem, p, log, c, Copying(cap), Ready);
    case Advance =>
      if c.pc.Copying? {
        ReadCopying(cfg, mem, p, log, c);
      } else if c.pc.Blocking? {
        ReadPoll(cfg, mem, p, log, c, Viewing, Parking);
      } else {
        ReadElsewhere(cfg, mem, p, log, c);
      }
    case _ =>
      if c.pc.Viewing? || c.pc.Validated? {
        ReadZeroCopy(cfg, mem, p, log, c, a);
      }
  }

  /** Only the slots matter to what a consumer has read. */
  lemma ReadOtherStep(cfg: Config, mem: Memory, mem': Memory, p: Producer, log: seq<Message>, c: Consumer)
    requires cfg.Valid() && Stamped(p) <= |log| && ReadOk(cfg, mem, p, log, c) && mem'.slots == mem.slots
    ensures ReadOk(cfg, mem', p, log, c)
  {
  }

  lemma ReadStep(cfg: Config, s: State, e: Event)
    requires cfg.Valid() && CanDo(cfg, s, e)
    requires WindowInv(cfg, s.mem, s.prod, s.log) && OwnershipInv(cfg, s.mem, s.consumers)
    requires cfg.policy.Backpressure? ==> CoverInv(cfg, s.mem, s.prod, s.consumers)
    requires ReadInv(cfg, s.mem, s.prod, s.log, s.consumers)
    ensures var s' := Do(cfg, s, e);
      Stamped(s'.prod) <= |s'.log| && ReadInv(cfg, s'.mem, s'.prod, s'.log, s'.consumers)
  {
    var s' := Do(cfg, s, e);
    WindowStep(cfg, s, e);
    match e
    case Begin(m) =>
      forall t | 0 <= t < |s.consumers|
        ensures ReadOk(cfg, s'.mem, s'.prod, s'.log, s'.consumers[t])
      {
        ReadBegin(cfg, s.mem, s.prod, s.log, m, s.consumers[t]);
      }
    case Produce =>
      forall t | 0 <= t < |s.consumers|
        ensures ReadOk(cfg, s'.mem, s'.prod, s'.log, s'.consumers[t])
      {
        if s.prod.Stores() {
          ReadStore(cfg, s.mem, s.prod, s.log, s.consumers[t]);
        } else {
          ReadLoad(cfg, s.mem, s.prod, s.log, s.consumers[t]);
          ReadWoken(cfg, s.mem, s'.prod, s.log, Index(s.prod.seqno, cfg.capacity), s.consumers[t]);
        }
      }
    case Act(t, a) =>
      ConsumersOnlyRead(cfg, s.mem, s.consumers[t], a);
      ReadOwnStep(cfg, s.mem, s.prod, s.log, s.consumers[t], a);
      forall u | 0 <= u < |s.consumers|
        ensures ReadOk(cfg, s'.mem, s'.prod, s'.log, s'.consumers[u])
      {
        ReadOtherStep(cfg, s.mem, s'.mem, s.prod, s.log,
                      if u == t then s'.consumers[t] else s.consumers[u]);
      }
    case Move(from, to) =>
  }
}
