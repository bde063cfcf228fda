/** The ring and its consumers as objects, used by one thread at a time. Each store of
    publish is a step of Protocol, so the window invariant carries over. */
module RingObjects {
  import opened Sequences
  import opened Protocol
  import opened Window

  class Ring {
    const cfg: Config
    var nextPublish: nat
    var waiters: int
    const slots: array<Slot>
    const cursors: array<Cursor>
    ghost var history: seq<Message>  // every message published so far

    ghost function Mem(): Memory
      reads this, slots, cursors
    {
      Memory(slots[..], nextPublish, cursors[..], waiters)
    }

    ghost predicate Valid()
      reads this, slots, cursors
    {
      && cfg.Valid() && cursors.Length == cfg.maxConsumers
      && WindowInv(cfg, Mem(), Producer(Idle, |history|, []), history)
    }

    constructor (cfg: Config)
      requires cfg.Valid()
      ensures this.cfg == cfg && fresh(slots) && fresh(cursors)
      ensures Valid() && InitialMemory(cfg, Mem()) && history == []
    {
      this.cfg := cfg;
      slots := new Slot[cfg.capacity](_ => Slot(0, 0, seq(cfg.blockSize, _ => 0)));
      cursors := new Cursor[cfg.maxConsumers];
      new;
      Init();
    }

    /** Ring::init over whatever the memory holds. */
    method Init()
      requires cfg.Valid() && slots.Length == cfg.capacity && cursors.Length == cfg.maxConsumers
      requires forall i :: 0 <= i < slots.Length ==> |slots[i].payload| == cfg.blockSize
      modifies this, slots, cursors
      ensures Valid() && InitialMemory(cfg, Mem()) && history == []
      ensures forall i :: 0 <= i < slots.Length ==> slots[i].payload == old(slots[i].payload)
    {
      nextPublish := 0;
      waiters := 0;
      history := [];
      for i := 0 to slots.Length
        invariant forall j :: 0 <= j < i ==> slots[j] == Slot(EMPTY_SEQ, 0, old(slots[j].payload))
        invariant forall j :: i <= j < slots.Length ==> slots[j] == old(slots[j])
        modifies slots
      {
        slots[i] := slots[i].(stamp := EMPTY_SEQ);
        slots[i] := slots[i].(len := 0);
      }
      for i := 0 to cursors.Length
        invariant forall j :: 0 <= j < i ==> cursors[j] == Cursor(0, false)
        modifies cursors
      {
        cursors[i] := cursors[i].(value := 0);
        cursors[i] := cursors[i].(inUse := false);
      }
    }

    /** Every active cursor is past `q`. */
    ghost predicate AllPast(q: nat)
      reads cursors
    {
      forall i :: 0 <= i < cursors.Length && cursors[i].inUse ==> q < cursors[i].value
    }

    /** One pass of await_consumers_past. */
    method ScanConsumers(q: nat) returns (clear: bool)
      ensures clear <==> AllPast(q)
    {
      for i := 0 to cursors.Length
        invariant forall j :: 0 <= j < i && cursors[j].inUse ==> q < cursors[j].value
      {
        if cursors[i].inUse && cursors[i].value <= q {
          return false;
        }
      }
      return true;
    }

    /** publish. None stands for the wait of Backpressure: a pass over the cursors found one
        that is not past the message to reclaim, and nothing was stored. */
    method Publish(data: array<byte>, len: nat) returns (r: Option<nat>)
      requires Valid() && len <= data.Length && len <= cfg.blockSize && |history| + 1 < WRITING_SEQ
      modifies this`nextPublish, this`history, slots
      ensures Valid() && data[..] == old(data[..])
      ensures r.Some? <==>
        cfg.policy.Overwrite? || |old(history)| < cfg.capacity || AllPast(|old(history)| - cfg.capacity)
      ensures r.Some? ==> r.value == |old(history)| && history == old(history) + [data[..len]]
      ensures r.Some? ==> forall i :: 0 <= i < slots.Length && i != Index(r.value, cfg.capacity) ==>
        slots[i] == old(slots[i])
      ensures r.None? ==> history == old(history) && Mem() == old(Mem())
    {
      var n := nextPublish;
      if cfg.policy.Backpressure? && n >= cfg.capacity {
        var clear := ScanConsumers(n - cfg.capacity);
        if !clear {
          return None;
        }
      }
      ghost var m := data[..len];
      WindowEnter(cfg, Mem(), Producer(Idle, n, []), history, m);
      history := history + [m];
      FillSlot(n, data, len);
      ghost var p := Producer(StoreCount, n, m);
      WindowStore(cfg, Mem(), p, history);
      nextPublish := n + 1;
      WindowAtEnd(cfg, Mem(), AfterStore(cfg, p), history);
      return Some(n);
    }

    /** Every store of publish to the slot of message `n`, in order. */
    method FillSlot(n: nat, data: array<byte>, len: nat)
      requires cfg.Valid() && len <= data.Length
      requires WindowInv(cfg, Mem(), Producer(FirstStore(cfg), n, data[..len]), history)
      modifies slots
      ensures WindowInv(cfg, Mem(), Producer(StoreCount, n, data[..len]), history)
      ensures forall i :: 0 <= i < slots.Length && i != Index(n, cfg.capacity) ==> slots[i] == old(slots[i])
      ensures data[..] == old(data[..])
    {
      var i := Index(n, cfg.capacity);
      ghost var m := data[..len];
      ghost var p := Producer(FirstStore(cfg), n, m);
      if cfg.policy.Overwrite? {
        p := StoreToSlot(i, slots[i].(stamp := WRITING_SEQ), p);
      }
      p := StoreToSlot(i, slots[i].(len := len), p);
      for k := 0 to len
        invariant WindowInv(cfg, Mem(), p, history) && p == Producer(BytesFrom(p, k), n, m)
        invariant forall j :: 0 <= j < slots.Length && j != i ==> slots[j] == old(slots[j])
        modifies slots
      {
        p := StoreToSlot(i, slots[i].(payload := slots[i].payload[k := data[k]]), p);
      }
      p := StoreToSlot(i, slots[i].(stamp := n), p);
    }

    /** One store to a slot, which is the next step of the producer `p`. */
    method StoreToSlot(i: nat, slot: Slot, ghost p: Producer) returns (ghost p': Producer)
      requires cfg.Valid() && WindowInv(cfg, Mem(), p, history) && p.Stores() && !p.pc.StoreCount?
      requires i < slots.Length && Apply(Mem(), StoreOf(cfg, p)) == Mem().WithSlot(i, slot)
      modifies slots
      ensures slots[..] == old(slots[..])[i := slot]
      ensures p' == AfterStore(cfg, p) && WindowInv(cfg, Mem(), p', history)
    {
      WindowStore(cfg, Mem(), p, history);
      slots[i] := slot;
      p' := AfterStore(cfg, p);
    }

    method Produced() returns (n: nat)
      requires Valid()
      ensures n == |history|
    {
      n := nextPublish;
    }

    /** The first free cursor, or the number of cursors when all are taken. */
    method RegisterConsumer() returns (id: nat)
      requires Valid()
      modifies cursors
      ensures Valid() && id <= cursors.Length
      ensures forall i :: 0 <= i < id ==> old(cursors[i].inUse)
      ensures id < cursors.Length ==> !old(cursors[id].inUse) && cursors[id] == Cursor(0, true)
      ensures forall i :: 0 <= i < cursors.Length && i != id ==> cursors[i] == old(cursors[i])
    {
      for i := 0 to cursors.Length
        invariant cursors[..] == old(cursors[..])
        invariant forall j :: 0 <= j < i ==> cursors[j].inUse
      {
        if !cursors[i].inUse {
          cursors[i] := cursors[i].(inUse := true);
          cursors[i] := cursors[i].(value := 0);
          return i;
        }
      }
      return cursors.Length;
    }

    /** A departed consumer holds no publish back. */
    method UnregisterConsumer(id: nat)
      requires Valid()
      modifies cursors
      ensures Valid()
      ensures id < cursors.Length ==> cursors[id] == Cursor(INFINITY, false)
      ensures forall i :: 0 <= i < cursors.Length && i != id ==> cursors[i] == old(cursors[i])
    {
      if id >= cursors.Length {
        return;
      }
      cursors[id] := cursors[id].(value := INFINITY);
      cursors[id] := cursors[id].(inUse := false);
    }

    method SetCursor(id: nat, value: nat)
      requires Valid()
      modifies cursors
      ensures Valid()
      ensures id < cursors.Length ==> cursors[id] == old(cursors[id]).(value := value)
      ensures forall i :: 0 <= i < cursors.Length && i != id ==> cursors[i] == old(cursors[i])
    {
      if id < cursors.Length {
        cursors[id] := cursors[id].(value := value);
      }
    }
  }

  /** Nothing is left of a publish but the wake, which changes no slot. */
  lemma WindowAtEnd(cfg: Config, mem: Memory, p: Producer, log: seq<Message>)
    requires cfg.Valid() && WindowInv(cfg, mem, p, log)
    requires (p.pc.Idle? && p.seqno == |log|) || p.pc.LoadWaiters?
    ensures WindowInv(cfg, mem, Producer(Idle, |log|, []), log)
  {
  }

  class RingConsumer {
    const ring: Ring
    var next: nat
    var readSeq: nat
    var cursorId: nat
    var lastStatus: ReadStatus

    ghost predicate Valid()
      reads this, ring, ring.slots, ring.cursors
    {
      ring.Valid() && next < WRITING_SEQ
    }

    constructor (ring: Ring)
      requires ring.Valid()
      modifies ring.cursors
      ensures this.ring == ring && Valid() && next == 0
      ensures readSeq == 0 && lastStatus.Empty?
      ensures ring.cfg.policy.Overwrite? ==>
        cursorId == ring.cursors.Length && ring.cursors[..] == old(ring.cursors[..])
      ensures ring.cfg.policy.Backpressure? && cursorId < ring.cursors.Length ==>
        ring.cursors[cursorId] == Cursor(0, true) && !old(ring.cursors[..])[cursorId].inUse
      ensures ring.cfg.policy.Backpressure? ==>
        cursorId <= ring.cursors.Length && forall i :: 0 <= i < cursorId ==> old(ring.cursors[..])[i].inUse
      ensures forall i :: 0 <= i < ring.cursors.Length && i != cursorId ==> ring.cursors[i] == old(ring.cursors[i])
    {
      this.ring := ring;
      next := 0;
      readSeq := 0;
      cursorId := ring.cfg.maxConsumers;
      lastStatus := Empty;
      new;
      if ring.cfg.policy.Backpressure? {
        cursorId := ring.RegisterConsumer();
      }
    }

    /** Move construction: the new object owns the cursor, the old one owns none. */
    constructor MoveFrom(o: RingConsumer)
      requires o.Valid()
      modifies o`cursorId
      ensures ring == o.ring && Valid() && o.Valid()
      ensures next == o.next && readSeq == o.readSeq && lastStatus == o.lastStatus
      ensures cursorId == old(o.cursorId) && o.cursorId == ring.cfg.maxConsumers
    {
      ring := o.ring;
      next := o.next;
      readSeq := o.readSeq;
      cursorId := o.cursorId;
      lastStatus := o.lastStatus;
      new;
      o.cursorId := ring.cfg.maxConsumers;
    }

    /** The destructor gives the cursor back, and a moved-from object gives nothing back. */
    method Destroy()
      requires Valid()
      modifies ring.cursors
      ensures ring.Valid()
      ensures ring.cfg.policy.Backpressure? && cursorId < ring.cursors.Length ==>
        ring.cursors[cursorId] == Cursor(INFINITY, false)
      ensures ring.cfg.policy.Overwrite? || cursorId >= ring.cursors.Length ==>
        ring.cursors[..] == old(ring.cursors[..])
      ensures forall i :: 0 <= i < ring.cursors.Length && i != cursorId ==> ring.cursors[i] == old(ring.cursors[i])
    {
      if ring.cfg.policy.Backpressure? {
        if cursorId != ring.cfg.maxConsumers {
          ring.UnregisterConsumer(cursorId);
        }
      }
    }

    /** attach_consumer_at_current: a consumer at the head, which holds the producer back by a whole lap at most. */
    static method AttachAtCurrent(ring: Ring) returns (c: RingConsumer)
      requires ring.Valid()
      modifies ring.cursors
      ensures fresh(c) && c.ring == ring && c.Valid() && c.next == |ring.history| && c.cursorId <= ring.cursors.Length
      ensures ring.cfg.policy.Overwrite? ==>
        c.cursorId == ring.cursors.Length && ring.cursors[..] == old(ring.cursors[..])
      ensures ring.cfg.policy.Backpressure? ==> forall i :: 0 <= i < c.cursorId ==> old(ring.cursors[..])[i].inUse
      ensures ring.cfg.policy.Backpressure? && c.cursorId < ring.cursors.Length ==>
        ring.cursors[c.cursorId] == Cursor(|ring.history|, true) && !old(ring.cursors[..])[c.cursorId].inUse
      ensures forall i :: 0 <= i < ring.cursors.Length && i != c.cursorId ==> ring.cursors[i] == old(ring.cursors[i])
    {
      c := new RingConsumer(ring);
      var head := ring.Produced();
      c.Seek(head);
    }

    /** do_read answers from the bounded log. */
    method DoRead(want: nat) returns (status: ReadStatus)
      requires ring.Valid() && want < WRITING_SEQ
      modifies this`readSeq
      ensures status.Ok? <==> want < |ring.history| <= want + ring.cfg.capacity
      ensures status.Empty? <==> |ring.history| <= want
      ensures status.Lapped? <==> want + ring.cfg.capacity < |ring.history|
      ensures readSeq == if status.Ok? then want else old(readSeq)
      ensures status.Ok? ==> Holds(SlotFor(ring.cfg, ring.Mem(), want), ring.history[want])
      ensures status.Ok? ==> SlotFor(ring.cfg, ring.Mem(), want).stamp == want
    {
      LookupAtRest(ring.cfg, ring.Mem(), Producer(Idle, |ring.history|, []), ring.history, want);
      var stamp := ring.slots[Index(want, ring.cfg.capacity)].stamp;
      if stamp == want {
        readSeq := want;
        return Ok;
      }
      if stamp == WRITING_SEQ {
        return Empty;
      }
      if stamp == EMPTY_SEQ || stamp < want {
        return Empty;
      }
      return Lapped;
    }

    /** read: the payload in place, as it stands when the call returns. */
    method Read() returns (view: seq<byte>)
      requires Valid()
      modifies this`readSeq, this`lastStatus
      ensures Valid()
      ensures lastStatus.Ok? <==> next < |ring.history| <= next + ring.cfg.capacity
      ensures lastStatus.Empty? <==> |ring.history| <= next
      ensures lastStatus.Lapped? <==> next + ring.cfg.capacity < |ring.history|
      ensures lastStatus.Ok? ==> readSeq == next && view == ring.history[next]
      ensures !lastStatus.Ok? ==> view == [] && readSeq == old(readSeq)
    {
      lastStatus := DoRead(next);
      if lastStatus.Ok? {
        var slot := ring.slots[Index(readSeq, ring.cfg.capacity)];
        return slot.payload[..slot.len];
      }
      return [];
    }

    method Validate() returns (valid: bool)
      requires ring.Valid() && readSeq < WRITING_SEQ
      ensures valid <==> readSeq < |ring.history| <= readSeq + ring.cfg.capacity
    {
      LookupAtRest(ring.cfg, ring.Mem(), Producer(Idle, |ring.history|, []), ring.history, readSeq);
      valid := ring.slots[Index(readSeq, ring.cfg.capacity)].stamp == readSeq;
    }

    method PublishCursor()
      requires ring.Valid()
      modifies ring.cursors
      ensures ring.Valid()
      ensures ring.cfg.policy.Backpressure? && cursorId < ring.cursors.Length ==>
        ring.cursors[cursorId] == old(ring.cursors[..])[cursorId].(value := next)
      ensures ring.cfg.policy.Overwrite? ==> ring.cursors[..] == old(ring.cursors[..])
      ensures forall i :: 0 <= i < ring.cursors.Length && i != cursorId ==> ring.cursors[i] == old(ring.cursors[i])
    {
      if ring.cfg.policy.Backpressure? {
        if cursorId != ring.cfg.maxConsumers {
          ring.SetCursor(cursorId, next);
        }
      }
    }

    method Commit()
      requires ring.Valid() && readSeq + 1 < WRITING_SEQ
      modifies this`next, ring.cursors
      ensures Valid() && next == readSeq + 1
      ensures ring.cfg.policy.Backpressure? && cursorId < ring.cursors.Length ==>
        ring.cursors[cursorId] == old(ring.cursors[..])[cursorId].(value := next)
      ensures ring.cfg.policy.Overwrite? ==> ring.cursors[..] == old(ring.cursors[..])
      ensures forall i :: 0 <= i < ring.cursors.Length && i != cursorId ==> ring.cursors[i] == old(ring.cursors[i])
    {
      next := readSeq + 1;
      PublishCursor();
    }

    method Seek(q: nat)
      requires ring.Valid() && q < WRITING_SEQ
      modifies this`next, ring.cursors
      ensures Valid() && next == q
      ensures ring.cfg.policy.Backpressure? && cursorId < ring.cursors.Length ==>
        ring.cursors[cursorId] == old(ring.cursors[..])[cursorId].(value := q)
      ensures ring.cfg.policy.Overwrite? ==> ring.cursors[..] == old(ring.cursors[..])
      ensures forall i :: 0 <= i < ring.cursors.Length && i != cursorId ==> ring.cursors[i] == old(ring.cursors[i])
    {
      next := q;
      PublishCursor();
    }

    /** resync: after `lapped` the oldest resident message, which is ahead of `next`. */
    method Resync(produced: nat)
      requires Valid() && produced < WRITING_SEQ
      modifies this`next, ring.cursors
      ensures Valid()
      ensures produced <= ring.cfg.capacity ==> next == 0
      ensures produced > ring.cfg.capacity ==> next + ring.cfg.capacity == produced
      ensures old(next) + ring.cfg.capacity < produced ==>
        old(next) < next
      ensures ring.cfg.policy.Backpressure? && cursorId < ring.cursors.Length ==>
        ring.cursors[cursorId] == old(ring.cursors[..])[cursorId].(value := next)
      ensures ring.cfg.policy.Overwrite? ==> ring.cursors[..] == old(ring.cursors[..])
      ensures forall i :: 0 <= i < ring.cursors.Length && i != cursorId ==> ring.cursors[i] == old(ring.cursors[i])
    {
      next := if produced > ring.cfg.capacity then produced - ring.cfg.capacity else 0;
      PublishCursor();
    }

    /** read_copy: the first min(len, capacity of `out`) bytes and one message forward, or nothing. */
    method ReadCopy(out: array<byte>) returns (n: nat)
      requires Valid()
      modifies this`readSeq, this`lastStatus, this`next, out, ring.cursors
      ensures Valid() && n <= out.Length && ring.history == old(ring.history)
      ensures lastStatus.Ok? <==> old(next) < |ring.history| <= old(next) + ring.cfg.capacity
      ensures lastStatus.Lapped? <==> old(next) + ring.cfg.capacity < |ring.history|
      ensures lastStatus.Ok? ==> next == old(next) + 1 && n <= |ring.history[old(next)]|
      ensures lastStatus.Ok? ==> n == out.Length || n == |ring.history[old(next)]|
      ensures lastStatus.Ok? ==> out[..n] == ring.history[old(next)][..n]
      ensures !lastStatus.Ok? ==> n == 0 && next == old(next)
      ensures readSeq == if lastStatus.Ok? then old(next) else old(readSeq)
      ensures ring.cfg.policy.Backpressure? && cursorId < ring.cursors.Length ==>
        ring.cursors[cursorId] == if lastStatus.Ok? then old(ring.cursors[..])[cursorId].(value := next)
                                  else old(ring.cursors[..])[cursorId]
      ensures ring.cfg.policy.Overwrite? || !lastStatus.Ok? ==> ring.cursors[..] == old(ring.cursors[..])
      ensures forall i :: 0 <= i < ring.cursors.Length && i != cursorId ==> ring.cursors[i] == old(ring.cursors[i])
      ensures forall k :: n <= k < out.Length ==> out[k] == old(out[k])
    {
      lastStatus := DoRead(next);
      if !lastStatus.Ok? {
        return 0;
      }
      var i := Index(readSeq, ring.cfg.capacity);
      var len := ring.slots[i].len;
      n := if len <= out.Length then len else out.Length;
      ghost var m := ring.history[next];
      for k := 0 to n
        invariant out[..k] == m[..k]
        invariant forall j :: k <= j < out.Length ==> out[j] == old(out[j])
        modifies out
      {
        assert ring.slots[i].payload[k] == ring.slots[i].payload[..|m|][k];
        out[k] := ring.slots[i].payload[k];
      }
      var valid := Validate();
      if !valid {
        lastStatus := Lapped;
        return 0;
      }
      Commit();
    }

    /** The consumer loop once the Overwrite producer has stopped: read, validate and commit,
        resync when lapped, stop when empty and caught up. It ends, and it delivers in order
        exactly the messages that are still resident. */
    method Drain() returns (got: seq<Message>)
      requires Valid() && ring.cfg.policy.Overwrite? && next <= |ring.history|
      modifies this`readSeq, this`lastStatus, this`next, ring.cursors
      ensures Valid() && ring.history == old(ring.history) && next == |ring.history|
      ensures |ring.history| <= old(next) + ring.cfg.capacity ==> got == ring.history[old(next)..]
      ensures old(next) + ring.cfg.capacity < |ring.history| ==>
        got == ring.history[|ring.history| - ring.cfg.capacity..]
    {
      got := [];
      ghost var lost := next + ring.cfg.capacity < |ring.history|;
      ghost var first := if lost then |ring.history| - ring.cfg.capacity else next;
      while true
        invariant Valid() && old(next) <= next <= |ring.history|
        invariant (next == old(next) && got == []) || first <= next
        invariant first <= next ==> got == ring.history[first..next]
        decreases |ring.history| - next
      {
        var view := Read();
        if lastStatus.Ok? {
          var valid := Validate();
          assert valid;
          assert ring.history[first..next] + [ring.history[next]] == ring.history[first..next + 1];
          got := got + [view];
          Commit();
        } else if lastStatus.Lapped? {
          var produced := ring.Produced();
          Resync(produced);
        } else {
          var produced := ring.Produced();
          if next >= produced {
            return;
          }
        }
      }
    }
  }
}
