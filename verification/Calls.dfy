/** What each call does in every reachable state: exact results, not only bounds on them. */
module Calls {
  import opened Sequences
  import opened Protocol
  import opened Window
  import opened Ownership
  import opened Cover
  import opened Reads
  import opened Loss
  import opened Parking
  import opened Safety

  /** For how many messages the slot has been taken from the message a lap before: under
      Overwrite by the mark, under Backpressure, which writes none, only by the new stamp. */
  function Taken(cfg: Config, p: Producer): nat {
    if cfg.policy.Overwrite? then Marked(p) else Stamped(p)
  }

  /** do_read in any state: ok while the message is stamped and its slot is not taken again. */
  lemma LookupExact(cfg: Config, s: State, n: nat)
    requires Reachable(cfg, s) && n < WRITING_SEQ
    ensures cfg.Valid()
    ensures var stamp := SlotFor(cfg, s.mem, n).stamp; var r := Classify(stamp, n);
            var marked := cfg.policy.Overwrite? && BeingFilled(cfg, s.prod, Index(n, cfg.capacity));
      && (r.Ok? <==> n < Stamped(s.prod) && Taken(cfg, s.prod) <= n + cfg.capacity)
      && (r.Empty? <==> Stamped(s.prod) <= n || marked)
      && (r.Lapped? <==> n + cfg.capacity < Taken(cfg, s.prod) && !marked)
      && (r.Ok? <==> stamp == n)
  {
    InvReachable(cfg, s);
    var i := Index(n, cfg.capacity);
    assert SlotOk(cfg, s.mem.slots[i], i, s.prod, s.log);
    var stamp := s.mem.slots[i].stamp;
    if BeingFilled(cfg, s.prod, i) && n != s.prod.seqno {
      SameSlotLapApart(if n < s.prod.seqno then n else s.prod.seqno,
                       if n < s.prod.seqno then s.prod.seqno else n, cfg.capacity);
    }
    if stamp == EMPTY_SEQ {
      IndexAtMost(n, cfg.capacity);
    } else if stamp != n && stamp != WRITING_SEQ {
      SameSlotLapApart(if stamp < n then stamp else n, if stamp < n then n else stamp, cfg.capacity);
    }
  }

  /** While its slot is not taken, a stamped message is what a trusted reader finds there. */
  lemma UntakenHolds(cfg: Config, s: State, t: nat)
    requires Reachable(cfg, s) && t < |s.consumers| && Reading(s.consumers[t]) && Trusted(cfg, s.consumers[t])
    requires Taken(cfg, s.prod) <= s.consumers[t].readSeq + cfg.capacity
    ensures cfg.Valid() && s.consumers[t].readSeq < |s.log|
    ensures Holds(SlotFor(cfg, s.mem, s.consumers[t].readSeq), s.log[s.consumers[t].readSeq])
  {
    InvReachable(cfg, s);
    var c := s.consumers[t];
    assert ReadOk(cfg, s.mem, s.prod, s.log, c);
    LookupExact(cfg, s, c.readSeq);
    StampMeansIntact(cfg, s.mem, s.prod, s.log, c);
    IntactHolds(cfg, s.mem, s.prod, s.log, c.readSeq);
  }

  // ------------------------------------------------------------ the scan

  /** How many cursors a pass of the scan has found clear. */
  function Cleared(cfg: Config, p: Producer): nat {
    if Scanning(p) then p.pc.i else cfg.maxConsumers
  }

  /** A load of the scan changes nothing but the place of the scan. It clears one cursor more if
      the cursor is free or past the message to reclaim; one that is not past sends the scan
      back to the first cursor; and the first store comes when one pass has cleared them all. */
  lemma ScanExact(cfg: Config, s: State)
    requires Reachable(cfg, s) && Scanning(s.prod)
    ensures cfg.Valid() && CanDo(cfg, s, Produce)
    ensures var s' := Do(cfg, s, Produce); var i := s.prod.pc.i; var cursor := s.mem.CursorAt(i);
            var past := s.prod.seqno < cursor.value + cfg.capacity;
      && s' == s.(prod := s.prod.(pc := s'.prod.pc))
      && (s'.prod.pc == ScanValue(i) <==> s.prod.pc.ScanInUse? && cursor.inUse)
      && (Cleared(cfg, s'.prod) == i + 1 <==> if s.prod.pc.ScanInUse? then !cursor.inUse else past)
      && (s.prod.pc.ScanValue? && !past ==> s'.prod.pc == ScanInUse(0))
      && (s'.prod.Stores() <==> Cleared(cfg, s'.prod) == cfg.maxConsumers)
  {
    InvReachable(cfg, s);
  }

  // ------------------------------------------------------------ read

  /** read, read_copy, and one turn of read_blocking. */
  predicate Polls(c: Consumer, a: Action) {
    (c.pc.Ready? && (a.Poll? || a.PollCopy?)) || (c.pc.Blocking? && a.Advance?)
  }

  /** A read can always be made; it reports exactly what the ring has, keeps the position, and
      opens a view if and only if the message is there. */
  lemma ReadExact(cfg: Config, s: State, t: nat, a: Action)
    requires Reachable(cfg, s) && t < |s.consumers| && Polls(s.consumers[t], a)
    ensures cfg.Valid() && CanDo(cfg, s, Event.Act(t, a))
    ensures var s' := Do(cfg, s, Event.Act(t, a)); var c, c' := s.consumers[t], s'.consumers[t]; var n := c.next;
            var marked := cfg.policy.Overwrite? && BeingFilled(cfg, s.prod, Index(n, cfg.capacity));
      && s' == s.(consumers := s.consumers[t := c'])
      && (c'.status.Ok? <==> n < Stamped(s.prod) && Taken(cfg, s.prod) <= n + cfg.capacity)
      && (c'.status.Empty? <==> Stamped(s.prod) <= n || marked)
      && (c'.status.Lapped? <==> n + cfg.capacity < Taken(cfg, s.prod) && !marked)
      && (c'.status.Ok? ==>
            c' == c.(pc := if a.PollCopy? then Copying(a.cap) else Viewing,
                     status := Ok, readSeq := n, view := NO_VIEW))
      && (!c'.status.Ok? ==>
            c' == c.(pc := if c.pc.Blocking? && c'.status.Empty? then Parking else Ready, status := c'.status))
  {
    InvReachable(cfg, s);
    assert ReadOk(cfg, s.mem, s.prod, s.log, s.consumers[t]);
    LookupExact(cfg, s, s.consumers[t].next);
  }

  /** With no publish in flight a read answers from the bounded log. */
  lemma ReadAtRest(cfg: Config, s: State, t: nat, a: Action)
    requires Reachable(cfg, s) && s.prod.pc.Idle? && t < |s.consumers| && Polls(s.consumers[t], a)
    ensures cfg.Valid() && CanDo(cfg, s, Event.Act(t, a))
    ensures var c, c' := s.consumers[t], Do(cfg, s, Event.Act(t, a)).consumers[t]; var P := |s.log|;
      && (c'.status.Ok? <==> c.next < P <= c.next + cfg.capacity)
      && (c'.status.Empty? <==> P <= c.next)
      && (c'.status.Lapped? <==> c.next + cfg.capacity < P)
      && (c'.status.Ok? <==> Reading(c'))
  {
    InvReachable(cfg, s);
    ReadExact(cfg, s, t, a);
  }

  // ------------------------------------------------------------ the view

  /** The client loads the length: the one now in the slot, which is that of the message
      unless its slot was taken. */
  lemma LoadLenExact(cfg: Config, s: State, t: nat)
    requires Reachable(cfg, s) && t < |s.consumers| && s.consumers[t].pc.Viewing?
    requires s.consumers[t].view.lenSeen.None?
    ensures cfg.Valid() && CanDo(cfg, s, Event.Act(t, LoadLen))
    ensures var s' := Do(cfg, s, Event.Act(t, LoadLen)); var c, c' := s.consumers[t], s'.consumers[t];
      && s' == s.(consumers := s.consumers[t := c'])
      && c' == c.(view := View(Some(s.mem.SlotAt(Index(c.readSeq, cfg.capacity)).len), c.view.loads, c.view.out))
      && (Trusted(cfg, c) && Taken(cfg, s.prod) <= c.readSeq + cfg.capacity ==>
            c.readSeq < |s.log| && c'.view.lenSeen == Some(|s.log[c.readSeq]|))
  {
    InvReachable(cfg, s);
    var c := s.consumers[t];
    if Trusted(cfg, c) && Taken(cfg, s.prod) <= c.readSeq + cfg.capacity {
      UntakenHolds(cfg, s, t);
    }
  }

  /** The client loads any byte below the length it saw, as often as it likes: the byte is added
      to those loaded before, and is that of the message unless its slot was taken. */
  lemma LoadByteExact(cfg: Config, s: State, t: nat, k: nat)
    requires Reachable(cfg, s) && t < |s.consumers| && s.consumers[t].pc.Viewing?
    requires s.consumers[t].view.lenSeen.Some? && k < s.consumers[t].view.lenSeen.value
    ensures cfg.Valid() && CanDo(cfg, s, Event.Act(t, LoadByte(k)))
    ensures var s' := Do(cfg, s, Event.Act(t, LoadByte(k))); var c, c' := s.consumers[t], s'.consumers[t];
            var payload := s.mem.SlotAt(Index(c.readSeq, cfg.capacity)).payload;
      && s' == s.(consumers := s.consumers[t := c'])
      && k < |payload|
      && c' == c.(view := View(c.view.lenSeen, c.view.loads + {(k, payload[k])}, c.view.out))
      && (Trusted(cfg, c) && Taken(cfg, s.prod) <= c.readSeq + cfg.capacity ==>
            c.readSeq < |s.log| && k < |s.log[c.readSeq]| && payload[k] == s.log[c.readSeq][k])
  {
    InvReachable(cfg, s);
    var c := s.consumers[t];
    assert ReadOk(cfg, s.mem, s.prod, s.log, c);
    LengthInside(cfg, s.mem, s.prod, s.log, c.readSeq);
    if Trusted(cfg, c) && Taken(cfg, s.prod) <= c.readSeq + cfg.capacity {
      LookupExact(cfg, s, c.readSeq);
      StampMeansIntact(cfg, s.mem, s.prod, s.log, c);
      LoadFromIntact(cfg, s.mem, s.prod, s.log, c, k);
    }
  }

  /** validate accepts a view if and only if its slot has not been taken: always for a registered
      Backpressure consumer, and under Overwrite exactly until the message is overwritten. */
  lemma ValidateExact(cfg: Config, s: State, t: nat)
    requires Reachable(cfg, s) && t < |s.consumers| && s.consumers[t].pc.Viewing?
    requires s.consumers[t].view.lenSeen.Some?
    ensures cfg.Valid() && CanDo(cfg, s, Event.Act(t, Validate))
    ensures var s' := Do(cfg, s, Event.Act(t, Validate)); var c, c' := s.consumers[t], s'.consumers[t];
      && s' == s.(consumers := s.consumers[t := c'])
      && c' == c.(pc := if Taken(cfg, s.prod) <= c.readSeq + cfg.capacity then Validated else Ready)
      && (cfg.policy.Overwrite? ==> (c'.pc.Validated? <==> !Overwritten(cfg, s.prod, c.readSeq)))
      && (Owns(cfg, c) ==> c'.pc.Validated?)
  {
    InvReachable(cfg, s);
    var c := s.consumers[t];
    assert ReadOk(cfg, s.mem, s.prod, s.log, c);
    LookupExact(cfg, s, c.readSeq);
    if Owns(cfg, c) {
      assert ConsumerCovered(cfg, s.mem, s.prod, c);
    }
  }

  /** A view can be given up at any time; the position and the history stay. */
  lemma DiscardExact(cfg: Config, s: State, t: nat)
    requires Reachable(cfg, s) && t < |s.consumers|
    requires s.consumers[t].pc.Viewing? || s.consumers[t].pc.Validated?
    ensures cfg.Valid() && CanDo(cfg, s, Event.Act(t, Discard))
    ensures Do(cfg, s, Event.Act(t, Discard)) == s.(consumers := s.consumers[t := s.consumers[t].(pc := Ready)])
  {
    InvReachable(cfg, s);
  }

  // ------------------------------------------------------------ commit

  /** commit moves one message on and adds exactly the read at the position to the history,
      with and without a cursor; an owner goes on to store its cursor. */
  lemma CommitExact(cfg: Config, s: State, t: nat)
    requires Reachable(cfg, s) && t < |s.consumers| && s.consumers[t].pc.Validated?
    ensures cfg.Valid() && CanDo(cfg, s, Event.Act(t, Commit))
    ensures var s' := Do(cfg, s, Event.Act(t, Commit)); var c, c' := s.consumers[t], s'.consumers[t];
      && s' == s.(consumers := s.consumers[t := c'])
      && c'.next == c.next + 1 == c.readSeq + 1
      && c'.committed == c.committed + [Record(c.next, c.view)]
      && c'.pc == (if Owns(cfg, c) then StoreCursor else Ready)
      && c' == c.(pc := c'.pc, next := c'.next, committed := c'.committed)
  {
    InvReachable(cfg, s);
    assert ReadOk(cfg, s.mem, s.prod, s.log, s.consumers[t]);
  }

  /** The second half of commit and seek: the own cursor shows the position, no other changes. */
  lemma StoreCursorExact(cfg: Config, s: State, t: nat)
    requires Reachable(cfg, s) && t < |s.consumers|
    requires s.consumers[t].pc.StoreCursor? || s.consumers[t].pc.StoreSeek?
    ensures cfg.Valid() && CanDo(cfg, s, Event.Act(t, Advance)) && s.consumers[t].cursorId < |s.mem.cursors|
    ensures var s' := Do(cfg, s, Event.Act(t, Advance)); var c := s.consumers[t];
      && s'.consumers == s.consumers[t := c.(pc := Ready)] && s'.prod == s.prod && s'.log == s.log
      && s'.mem == s.mem.(cursors := s.mem.cursors[c.cursorId := Cursor(c.next, true)])
  {
    InvReachable(cfg, s);
  }

  // ------------------------------------------------------------ read_copy

  /** The bytes that read_copy has still to copy into a buffer of `cap` bytes. */
  predicate CopiesOn(c: Consumer) {
    c.pc.Copying? && (c.view.lenSeen.None? || (|c.view.out| < c.pc.cap && |c.view.out| < c.view.lenSeen.value))
  }

  /** read_copy loads the length, then one byte after the other in order. */
  lemma CopyOnExact(cfg: Config, s: State, t: nat)
    requires Reachable(cfg, s) && t < |s.consumers| && CopiesOn(s.consumers[t])
    ensures cfg.Valid() && CanDo(cfg, s, Event.Act(t, Advance))
    ensures var s' := Do(cfg, s, Event.Act(t, Advance)); var c, c' := s.consumers[t], s'.consumers[t];
            var slot := s.mem.SlotAt(Index(c.readSeq, cfg.capacity)); var k := |c.view.out|;
      && s' == s.(consumers := s.consumers[t := c'])
      && k <= |slot.payload| && (c.view.lenSeen.Some? ==> k < |slot.payload|)
      && c'.view == (if c.view.lenSeen.None? then View(Some(slot.len), c.view.loads, c.view.out)
                     else View(c.view.lenSeen, c.view.loads + {(k, slot.payload[k])}, c.view.out + [slot.payload[k]]))
      && c' == c.(view := c'.view)
  {
    InvReachable(cfg, s);
    var c := s.consumers[t];
    assert ReadOk(cfg, s.mem, s.prod, s.log, c);
    LengthInside(cfg, s.mem, s.prod, s.log, c.readSeq);
  }

  /** Then it commits if and only if the slot has not been taken, and is lapped otherwise. */
  lemma CopyEndExact(cfg: Config, s: State, t: nat)
    requires Reachable(cfg, s) && t < |s.consumers| && s.consumers[t].pc.Copying? && !CopiesOn(s.consumers[t])
    ensures cfg.Valid() && CanDo(cfg, s, Event.Act(t, Advance))
    ensures var s' := Do(cfg, s, Event.Act(t, Advance)); var c, c' := s.consumers[t], s'.consumers[t];
      && s' == s.(consumers := s.consumers[t := c'])
      && c' == if Taken(cfg, s.prod) <= c.readSeq + cfg.capacity
               then c.(pc := if Owns(cfg, c) then StoreCursor else Ready, next := c.next + 1,
                       committed := c.committed + [Record(c.next, c.view)])
               else c.(pc := Ready, status := Lapped)
  {
    InvReachable(cfg, s);
    var c := s.consumers[t];
    assert ReadOk(cfg, s.mem, s.prod, s.log, c);
    LookupExact(cfg, s, c.readSeq);
  }

  // ------------------------------------------------------------ construction

  /** Under Overwrite a consumer may start at any sequence number, and takes no cursor. */
  lemma StartsAnywhere(cfg: Config, s: State, t: nat, first: nat)
    requires Reachable(cfg, s) && cfg.policy.Overwrite? && first < WRITING_SEQ
    requires t < |s.consumers| && s.consumers[t].pc.Unborn?
    ensures cfg.Valid() && CanDo(cfg, s, Event.Act(t, Construct(false, first)))
    ensures var s' := Do(cfg, s, Event.Act(t, Construct(false, first)));
      s' == s.(consumers := s.consumers[t := Consumer(Ready, first, 0, cfg.maxConsumers, Empty, 0, NO_VIEW, first, [])])
  {
    InvReachable(cfg, s);
  }

  // ------------------------------------------------------------ move construction

  /** The new object is the old one in every field; the old one is left without a cursor;
      nothing else changes. */
  lemma MoveExact(cfg: Config, s: State, from: nat, to: nat)
    requires Reachable(cfg, s) && from < |s.consumers| && to < |s.consumers| && s.consumers[to].pc.Unborn?
    requires s.consumers[from].pc.Ready? || s.consumers[from].pc.Viewing? || s.consumers[from].pc.Validated?
    ensures cfg.Valid() && CanDo(cfg, s, Move(from, to))
    ensures var s' := Do(cfg, s, Move(from, to));
      && s'.mem == s.mem && s'.prod == s.prod && s'.log == s.log && |s'.consumers| == |s.consumers|
      && s'.consumers[to] == s.consumers[from]
      && s'.consumers[from].pc.Gone? && !Owns(cfg, s'.consumers[from])
      && forall u :: 0 <= u < |s.consumers| && u != from && u != to ==> s'.consumers[u] == s.consumers[u]
  {
    InvReachable(cfg, s);
  }

  // ------------------------------------------------------------ notify

  lemma {:induction false} SomeoneWaits(cs: seq<Consumer>)
    ensures CountWaiting(cs) > 0 <==> exists t :: 0 <= t < |cs| && Waiting(cs[t])
  {
    if cs != [] {
      SomeoneWaits(cs[1..]);
      if exists t :: 0 <= t < |cs| && Waiting(cs[t]) {
        var t :| 0 <= t < |cs| && Waiting(cs[t]);
        assert t == 0 || Waiting(cs[1..][t - 1]);
      }
      if exists t :: 0 <= t < |cs[1..]| && Waiting(cs[1..][t]) {
        var t :| 0 <= t < |cs[1..]| && Waiting(cs[1..][t]);
        assert Waiting(cs[t + 1]);
      }
    }
  }

  /** notify makes the wake call if and only if some consumer is between its increment and its
      decrement of `waiters`; otherwise the publish is over. */
  lemma NotifyExact(cfg: Config, s: State)
    requires Reachable(cfg, s) && s.prod.pc.LoadWaiters?
    ensures cfg.Valid() && CanDo(cfg, s, Produce)
    ensures var s' := Do(cfg, s, Produce);
      && s' == s.(prod := s'.prod)
      && (s'.prod.pc.WakeAll? <==> exists t :: 0 <= t < |s.consumers| && Waiting(s.consumers[t]))
      && (!s'.prod.pc.WakeAll? ==> s'.prod.pc.Idle? && s'.prod.seqno == |s.log|)
  {
    InvReachable(cfg, s);
    SomeoneWaits(s.consumers);
  }

  /** The wake ends the publish and wakes exactly the sleepers on the slot just published. */
  lemma WakeExact(cfg: Config, s: State)
    requires Reachable(cfg, s) && s.prod.pc.WakeAll?
    ensures cfg.Valid() && CanDo(cfg, s, Produce)
    ensures var s' := Do(cfg, s, Produce);
      && s'.mem == s.mem && s'.log == s.log && s'.prod.pc.Idle? && s'.prod.seqno == |s.log|
      && |s'.consumers| == |s.consumers|
      && forall t :: 0 <= t < |s.consumers| ==>
           var c := s.consumers[t];
           s'.consumers[t] == if c.pc.Asleep? && Index(c.next, cfg.capacity) == Index(s.prod.seqno, cfg.capacity)
                              then c.(pc := DropWaiter) else c
  {
    InvReachable(cfg, s);
  }
}
