/** The ring as a transition system: one producer, any number of consumer objects,
    and one shared memory. Every atomic access and every access to the length or to
    a payload byte is one step, and steps interleave freely. */
module Protocol {
  import opened Sequences

  // ------------------------------------------------------------ parameters

  datatype Policy = Overwrite | Backpressure

  datatype Wait = Spinning | Futex

  datatype Config = Config(blockSize: nat, capacity: nat, policy: Policy, maxConsumers: nat, wait: Wait)
  {
    predicate Valid() {
      2 <= capacity && 1 <= maxConsumers
    }
  }

  // ------------------------------------------------------------ shared memory

  datatype Slot = Slot(stamp: nat, len: nat, payload: seq<byte>)

  datatype Cursor = Cursor(value: nat, inUse: bool)

  datatype Memory = Memory(slots: seq<Slot>, produced: nat, cursors: seq<Cursor>, waiters: int)
  {
    function WithSlot(i: nat, slot: Slot): Memory {
      if i < |slots| then this.(slots := slots[i := slot]) else this
    }

    function WithCursor(i: nat, cursor: Cursor): Memory {
      if i < |cursors| then this.(cursors := cursors[i := cursor]) else this
    }

    function SlotAt(i: nat): Slot {
      if i < |slots| then slots[i] else Slot(EMPTY_SEQ, 0, [])
    }

    function CursorAt(i: nat): Cursor {
      if i < |cursors| then cursors[i] else Cursor(0, false)
    }
  }

  // ------------------------------------------------------------ producer

  /** The next access of `publish`. */
  datatype ProducerPc =
    | Idle
    | ScanInUse(i: nat)  // await_consumers_past: load cursors_[i].in_use
    | ScanValue(i: nat)  // await_consumers_past: load cursors_[i].value
    | MarkSlot
    | StoreLen
    | StoreByte(k: nat)
    | StoreStamp
    | StoreCount
    | LoadWaiters        // Futex::notify
    | WakeAll

  /** `seqno` is the sequence being published, or the next one when idle. */
  datatype Producer = Producer(pc: ProducerPc, seqno: nat, msg: Message)
  {
    predicate Stores() {
      pc.MarkSlot? || pc.StoreLen? || (pc.StoreByte? && pc.k < |msg|) || pc.StoreStamp? || pc.StoreCount?
    }
  }

  /** A store of the producer to shared memory. */
  datatype Store =
    | PutStamp(slot: nat, stamp: nat)
    | PutLen(slot: nat, len: nat)
    | PutByte(slot: nat, k: nat, b: byte)
    | PutCount(n: nat)

  function Apply(mem: Memory, st: Store): Memory {
    match st
    case PutStamp(i, stamp) => mem.WithSlot(i, mem.SlotAt(i).(stamp := stamp))
    case PutLen(i, len) => mem.WithSlot(i, mem.SlotAt(i).(len := len))
    case PutByte(i, k, b) =>
      var slot := mem.SlotAt(i);
      if k < |slot.payload| then mem.WithSlot(i, slot.(payload := slot.payload[k := b])) else mem
    case PutCount(n) => mem.(produced := n)
  }

  function FirstStore(cfg: Config): ProducerPc {
    if cfg.policy.Overwrite? then MarkSlot else StoreLen
  }

  /** Entry of `publish`: only Backpressure waits, and only once the ring is full. */
  function BeginPublish(cfg: Config, p: Producer, m: Message): Producer {
    var pc := if cfg.policy.Backpressure? && cfg.capacity <= p.seqno then ScanInUse(0) else FirstStore(cfg);
    Producer(pc, p.seqno, m)
  }

  function NextScan(cfg: Config, i: nat): ProducerPc {
    if i + 1 < cfg.maxConsumers then ScanInUse(i + 1) else FirstStore(cfg)
  }

  function StoreOf(cfg: Config, p: Producer): Store
    requires cfg.Valid() && p.Stores()
  {
    var i := Index(p.seqno, cfg.capacity);
    match p.pc
    case MarkSlot => PutStamp(i, WRITING_SEQ)
    case StoreLen => PutLen(i, |p.msg|)
    case StoreByte(k) => PutByte(i, k, p.msg[k])
    case StoreStamp => PutStamp(i, p.seqno)
    case StoreCount => PutCount(p.seqno + 1)
  }

  function BytesFrom(p: Producer, k: nat): ProducerPc {
    if k < |p.msg| then StoreByte(k) else StoreStamp
  }

  function AfterStore(cfg: Config, p: Producer): Producer
    requires p.Stores()
  {
    match p.pc
    case MarkSlot => p.(pc := StoreLen)
    case StoreLen => p.(pc := BytesFrom(p, 0))
    case StoreByte(k) => p.(pc := BytesFrom(p, k + 1))
    case StoreStamp => p.(pc := StoreCount)
    case StoreCount => if cfg.wait.Futex? then p.(pc := LoadWaiters) else Producer(Idle, p.seqno + 1, p.msg)
  }

  /** A step of the producer that only loads. */
  function AfterLoad(cfg: Config, mem: Memory, p: Producer): Producer {
    match p.pc
    case ScanInUse(i) => p.(pc := if mem.CursorAt(i).inUse then ScanValue(i) else NextScan(cfg, i))
    case ScanValue(i) =>
      p.(pc := if mem.CursorAt(i).value + cfg.capacity <= p.seqno then ScanInUse(0) else NextScan(cfg, i))
    case LoadWaiters => if mem.waiters == 0 then Producer(Idle, p.seqno + 1, p.msg) else p.(pc := WakeAll)
    case WakeAll => Producer(Idle, p.seqno + 1, p.msg)
    case _ => p
  }

  // ------------------------------------------------------------ consumers

  datatype ReadStatus = Ok | Empty | Lapped

  /** What a read has loaded from its slot so far: the length, every (index, value) pair,
      and for `read_copy` the bytes copied out. */
  datatype View = View(lenSeen: Option<nat>, loads: set<(nat, byte)>, out: seq<byte>)

  const NO_VIEW := View(None, {}, [])

  /** A committed read. */
  datatype Record = Record(seqno: nat, view: View)

  /** The next access of a consumer object, or the call it is between. */
  datatype ConsumerPc =
    | Unborn
    | Claim(i: nat, attach: bool)  // register_consumer: compare-exchange on cursors_[i].in_use
    | ZeroCursor(attach: bool)     // register_consumer: store value = 0
    | LoadHead                     // attach_consumer_at_current: load produced()
    | StoreSeek                    // seek: store the cursor
    | Ready
    | Viewing                      // read returned ok, the client loads in place
    | Copying(cap: nat)            // read_copy after do_read returned ok
    | Validated                    // validate returned true
    | StoreCursor                  // commit: store the cursor
    | Blocking                     // read_blocking: call do_read
    | Parking                      // entry of Wait::wait
    | AddWaiter
    | LoadWord
    | WaitWord(seen: nat)          // FUTEX_WAIT
    | Asleep(seen: nat)
    | DropWaiter
    | StoreInfinity                // unregister_consumer
    | ReleaseCursor
    | Gone

  /** A consumer object; `start` and `committed` record its history. */
  datatype Consumer = Consumer(
    pc: ConsumerPc, next: nat, readSeq: nat, cursorId: nat, status: ReadStatus, iter: nat,
    view: View, start: nat, committed: seq<Record>)

  /** The choices of a client; Advance is the one next step of a call in progress. */
  datatype Action =
    | Construct(attach: bool, first: nat)
    | Poll               // read
    | PollCopy(cap: nat) // read_copy
    | Block              // read_blocking
    | LoadLen
    | LoadByte(k: nat)
    | Validate
    | Discard
    | Commit
    | Resync             // resync(produced())
    | Leave              // destructor
    | SpuriousWake
    | Advance

  /** The branches of do_read. */
  function Classify(stamp: nat, want: nat): ReadStatus {
    if stamp == want then Ok
    else if stamp == WRITING_SEQ then Empty
    else if stamp == EMPTY_SEQ || stamp < want then Empty
    else Lapped
  }

  function SlotFor(cfg: Config, mem: Memory, q: nat): Slot
    requires cfg.Valid()
  {
    mem.SlotAt(Index(q, cfg.capacity))
  }

  /** do_read, and the state it leads to for each result. */
  function ReadInto(cfg: Config, mem: Memory, c: Consumer, ok: ConsumerPc, empty: ConsumerPc): Consumer
    requires cfg.Valid()
  {
    var status := Classify(SlotFor(cfg, mem, c.next).stamp, c.next);
    match status
    case Ok => c.(pc := ok, status := status, readSeq := c.next, view := NO_VIEW)
    case Empty => c.(pc := empty, status := status)
    case Lapped => c.(pc := Ready, status := status)
  }

  function LoadLength(cfg: Config, mem: Memory, c: Consumer): Consumer
    requires cfg.Valid()
  {
    c.(view := c.view.(lenSeen := Some(SlotFor(cfg, mem, c.readSeq).len)))
  }

  /** A load beyond the payload would return an arbitrary byte; Guarantees.LoadsStayInside shows there is none. */
  function ByteAt(cfg: Config, mem: Memory, q: nat, k: nat): byte
    requires cfg.Valid()
  {
    var payload := SlotFor(cfg, mem, q).payload;
    if k < |payload| then payload[k] else 0
  }

  predicate StillThere(cfg: Config, mem: Memory, c: Consumer)
    requires cfg.Valid()
  {
    SlotFor(cfg, mem, c.readSeq).stamp == c.readSeq
  }

  /** commit up to the store of the cursor. */
  function Committed(cfg: Config, c: Consumer): Consumer {
    c.(pc := if c.cursorId < cfg.maxConsumers then StoreCursor else Ready,
       next := c.readSeq + 1,
       committed := c.committed + [Record(c.readSeq, c.view)])
  }

  /** How many bytes read_copy copies. */
  function CopyLength(c: Consumer): nat
    requires c.pc.Copying? && c.view.lenSeen.Some?
  {
    if c.view.lenSeen.value <= c.pc.cap then c.view.lenSeen.value else c.pc.cap
  }

  function CopyStep(cfg: Config, mem: Memory, c: Consumer): Consumer
    requires cfg.Valid() && c.pc.Copying?
  {
    if c.view.lenSeen.None? then LoadLength(cfg, mem, c)
    else if |c.view.out| < CopyLength(c) then
      var k := |c.view.out|;
      var b := ByteAt(cfg, mem, c.readSeq, k);
      c.(view := c.view.(loads := c.view.loads + {(k, b)}, out := c.view.out + [b]))
    else if StillThere(cfg, mem, c) then Committed(cfg, c)
    else c.(pc := Ready, status := Lapped)
  }

  /** Iterations of read_blocking that only pause before the first futex call. */
  const SPIN_BEFORE_SYSCALL: nat := 64

  /** The steps that follow from the program counter alone. */
  function Advanced(cfg: Config, mem: Memory, c: Consumer): (Memory, Consumer)
    requires cfg.Valid()
  {
    match c.pc
    case Claim(i, attach) =>
      if cfg.maxConsumers <= i then (mem, c.(pc := if attach then LoadHead else Ready))
      else if mem.CursorAt(i).inUse then (mem, c.(pc := Claim(i + 1, attach)))
      else (mem.WithCursor(i, mem.CursorAt(i).(inUse := true)), c.(pc := ZeroCursor(attach), cursorId := i))
    case ZeroCursor(attach) =>
      (mem.WithCursor(c.cursorId, mem.CursorAt(c.cursorId).(value := 0)),
       c.(pc := if attach then LoadHead else Ready))
    case LoadHead =>
      (mem, c.(pc := if c.cursorId < cfg.maxConsumers then StoreSeek else Ready,
               next := mem.produced, start := mem.produced))
    case StoreSeek =>
      (mem.WithCursor(c.cursorId, mem.CursorAt(c.cursorId).(value := c.next)), c.(pc := Ready))
    case Copying(_) => (mem, CopyStep(cfg, mem, c))
    case StoreCursor =>
      (mem.WithCursor(c.cursorId, mem.CursorAt(c.cursorId).(value := c.next)), c.(pc := Ready))
    case Blocking => (mem, ReadInto(cfg, mem, c, Viewing, Parking))
    case Parking =>
      (mem, if cfg.wait.Spinning? || c.iter < SPIN_BEFORE_SYSCALL
            then c.(pc := Blocking, iter := c.iter + 1)
            else c.(pc := AddWaiter))
    case AddWaiter => (mem.(waiters := mem.waiters + 1), c.(pc := LoadWord))
    case LoadWord =>
      var seen := SlotFor(cfg, mem, c.next).stamp;
      (mem, c.(pc := if seen >= c.next then DropWaiter else WaitWord(seen)))
    case WaitWord(seen) =>
      (mem, c.(pc := if Word(SlotFor(cfg, mem, c.next).stamp) == Word(seen) then Asleep(seen) else DropWaiter))
    case DropWaiter => (mem.(waiters := mem.waiters - 1), c.(pc := Blocking, iter := c.iter + 1))
    case StoreInfinity =>
      (mem.WithCursor(c.cursorId, mem.CursorAt(c.cursorId).(value := INFINITY)), c.(pc := ReleaseCursor))
    case ReleaseCursor =>
      (mem.WithCursor(c.cursorId, mem.CursorAt(c.cursorId).(inUse := false)),
       c.(pc := Gone, cursorId := cfg.maxConsumers))
    case _ => (mem, c)
  }

  /** When a client may choose `a`. The clauses on the policy are the contracts of the
      source: a plain Backpressure registration takes its cursor before message Capacity - 1
      is counted, and if the cursor was left at infinity also stores its zero by then; a
      Backpressure consumer never resyncs; Overwrite consumers take no cursor and may
      start anywhere. */
  predicate CanAct(cfg: Config, mem: Memory, c: Consumer, a: Action) {
    match a
    case Construct(attach, first) =>
      c.pc.Unborn? && (if cfg.policy.Overwrite? then !attach && first < WRITING_SEQ else first == 0)
    case Poll => c.pc.Ready?
    case PollCopy(_) => c.pc.Ready?
    case Block => c.pc.Ready?
    case LoadLen => c.pc.Viewing? && c.view.lenSeen.None?
    case LoadByte(k) => c.pc.Viewing? && c.view.lenSeen.Some? && k < c.view.lenSeen.value
    case Validate => c.pc.Viewing? && c.view.lenSeen.Some?
    case Discard => c.pc.Viewing? || c.pc.Validated?
    case Commit => c.pc.Validated?
    case Resync => c.pc.Ready? && c.status.Lapped? && cfg.policy.Overwrite?
    case Leave => c.pc.Ready?
    case SpuriousWake => c.pc.Asleep?
    case Advance =>
      match c.pc
      case Claim(i, attach) =>
        attach || mem.produced < cfg.capacity || cfg.maxConsumers <= i || mem.CursorAt(i).inUse
      case ZeroCursor(attach) =>
        attach || mem.produced < cfg.capacity || mem.CursorAt(c.cursorId).value == 0
      case Unborn | Ready | Viewing | Validated | Asleep(_) | Gone => false
      case _ => true
  }

  function Perform(cfg: Config, mem: Memory, c: Consumer, a: Action): (Memory, Consumer)
    requires cfg.Valid() && CanAct(cfg, mem, c, a)
  {
    match a
    case Construct(attach, first) =>
      if cfg.policy.Overwrite? then (mem, c.(pc := Ready, next := first, start := first))
      else (mem, c.(pc := Claim(0, attach)))
    case Poll => (mem, ReadInto(cfg, mem, c, Viewing, Ready))
    case PollCopy(cap) => (mem, ReadInto(cfg, mem, c, Copying(cap), Ready))
    case Block => (mem, c.(pc := Blocking, iter := 0))
    case LoadLen => (mem, LoadLength(cfg, mem, c))
    case LoadByte(k) =>
      (mem, c.(view := c.view.(loads := c.view.loads + {(k, ByteAt(cfg, mem, c.readSeq, k))})))
    case Validate => (mem, c.(pc := if StillThere(cfg, mem, c) then Validated else Ready))
    case Discard => (mem, c.(pc := Ready))
    case Commit => (mem, Committed(cfg, c))
    case Resync => (mem, c.(next := ResyncTarget(cfg, mem.produced)))
    case Leave => (mem, c.(pc := if c.cursorId < cfg.maxConsumers then StoreInfinity else Gone))
    case SpuriousWake => (mem, c.(pc := DropWaiter))
    case Advance => Advanced(cfg, mem, c)
  }

  /** The oldest sequence still in the ring, as resync computes it. */
  function ResyncTarget(cfg: Config, produced: nat): nat {
    if produced > cfg.capacity then produced - cfg.capacity else 0
  }

  // ------------------------------------------------------------ the system

  /** `log` records every message whose publish has begun. */
  datatype State = State(mem: Memory, prod: Producer, log: seq<Message>, consumers: seq<Consumer>)

  datatype Event =
    | Begin(m: Message)
    | Produce
    | Act(t: nat, a: Action)
    | Move(from: nat, to: nat)  // move construction: consumer `to` takes over from `from`

  function Woken(cfg: Config, slot: nat, c: Consumer): Consumer
    requires cfg.Valid()
  {
    if c.pc.Asleep? && Index(c.next, cfg.capacity) == slot then c.(pc := DropWaiter) else c
  }

  /** FUTEX_WAKE with INT_MAX on the stamp word of `slot`. */
  function WakeSlot(cfg: Config, slot: nat, cs: seq<Consumer>): (r: seq<Consumer>)
    requires cfg.Valid()
    ensures |r| == |cs|
    ensures forall t :: 0 <= t < |cs| ==> r[t] == Woken(cfg, slot, cs[t])
  {
    seq(|cs|, t requires 0 <= t < |cs| => Woken(cfg, slot, cs[t]))
  }

  predicate CanDo(cfg: Config, s: State, e: Event) {
    match e
    case Begin(m) => s.prod.pc.Idle? && |m| <= cfg.blockSize && s.prod.seqno + 1 < WRITING_SEQ
    case Produce => !s.prod.pc.Idle?
    case Act(t, a) => t < |s.consumers| && CanAct(cfg, s.mem, s.consumers[t], a)
    case Move(from, to) =>
      && from < |s.consumers| && to < |s.consumers| && from != to
      && s.consumers[to].pc.Unborn?
      && (s.consumers[from].pc.Ready? || s.consumers[from].pc.Viewing? || s.consumers[from].pc.Validated?)
  }

  function Do(cfg: Config, s: State, e: Event): State
    requires cfg.Valid() && CanDo(cfg, s, e)
  {
    match e
    case Begin(m) => s.(prod := BeginPublish(cfg, s.prod, m), log := s.log + [m])
    case Produce =>
      if s.prod.Stores() then s.(mem := Apply(s.mem, StoreOf(cfg, s.prod)), prod := AfterStore(cfg, s.prod))
      else if s.prod.pc.WakeAll? then
        s.(prod := AfterLoad(cfg, s.mem, s.prod),
           consumers := WakeSlot(cfg, Index(s.prod.seqno, cfg.capacity), s.consumers))
      else s.(prod := AfterLoad(cfg, s.mem, s.prod))
    case Act(t, a) =>
      var (mem, c) := Perform(cfg, s.mem, s.consumers[t], a);
      s.(mem := mem, consumers := s.consumers[t := c])
    case Move(from, to) =>
      var c := s.consumers[from];
      s.(consumers := s.consumers[from := c.(pc := Gone, cursorId := cfg.maxConsumers)][to := c])
  }

  // ------------------------------------------------------------ runs

  predicate UnbornConsumer(cfg: Config, c: Consumer) {
    c == Consumer(Unborn, 0, 0, cfg.maxConsumers, Empty, 0, NO_VIEW, 0, [])
  }

  /** Ring::init has run; the payloads hold whatever the memory held. */
  ghost predicate InitialMemory(cfg: Config, mem: Memory) {
    && |mem.slots| == cfg.capacity
    && (forall i :: 0 <= i < |mem.slots| ==>
          mem.slots[i].stamp == EMPTY_SEQ && mem.slots[i].len == 0 && |mem.slots[i].payload| == cfg.blockSize)
    && |mem.cursors| == cfg.maxConsumers
    && (forall i :: 0 <= i < |mem.cursors| ==> mem.cursors[i] == Cursor(0, false))
    && mem.produced == 0 && mem.waiters == 0
  }

  ghost predicate Init(cfg: Config, s: State) {
    && cfg.Valid()
    && InitialMemory(cfg, s.mem)
    && s.prod == Producer(Idle, 0, []) && s.log == []
    && (forall t :: 0 <= t < |s.consumers| ==> UnbornConsumer(cfg, s.consumers[t]))
  }

  predicate CanRun(cfg: Config, s: State, es: seq<Event>)
    requires cfg.Valid()
    decreases |es|
  {
    es == [] || (CanDo(cfg, s, es[0]) && CanRun(cfg, Do(cfg, s, es[0]), es[1..]))
  }

  function Run(cfg: Config, s: State, es: seq<Event>): State
    requires cfg.Valid() && CanRun(cfg, s, es)
    decreases |es|
  {
    if es == [] then s else Run(cfg, Do(cfg, s, es[0]), es[1..])
  }

  lemma RunFirst(cfg: Config, s: State, e: Event, es: seq<Event>)
    requires cfg.Valid() && CanDo(cfg, s, e) && CanRun(cfg, Do(cfg, s, e), es)
    ensures CanRun(cfg, s, [e] + es) && Run(cfg, s, [e] + es) == Run(cfg, Do(cfg, s, e), es)
  {
    assert ([e] + es)[1..] == es;
  }

  lemma {:induction false} RunAppend(cfg: Config, s: State, es: seq<Event>, fs: seq<Event>)
    requires cfg.Valid() && CanRun(cfg, s, es) && CanRun(cfg, Run(cfg, s, es), fs)
    ensures CanRun(cfg, s, es + fs) && Run(cfg, s, es + fs) == Run(cfg, Run(cfg, s, es), fs)
    decreases |es|
  {
    if es == [] {
      assert es + fs == fs;
    } else {
      assert (es + fs)[1..] == es[1..] + fs;
      RunAppend(cfg, Do(cfg, s, es[0]), es[1..], fs);
    }
  }

  ghost predicate Reachable(cfg: Config, s: State) {
    exists s0, es :: Init(cfg, s0) && CanRun(cfg, s0, es) && Run(cfg, s0, es) == s
  }

  lemma ReachableValid(cfg: Config, s: State)
    requires Reachable(cfg, s)
    ensures cfg.Valid()
  {
  }

  lemma ReachableStep(cfg: Config, s: State, e: Event)
    requires Reachable(cfg, s) && cfg.Valid() && CanDo(cfg, s, e)
    ensures Reachable(cfg, Do(cfg, s, e))
  {
    var s0, es :| Init(cfg, s0) && CanRun(cfg, s0, es) && Run(cfg, s0, es) == s;
    RunAppend(cfg, s0, es, [e]);
  }

  lemma ActedBy(cfg: Config, s: State, t: nat, a: Action) returns (s': State)
    requires Reachable(cfg, s) && cfg.Valid() && CanDo(cfg, s, Event.Act(t, a))
    ensures s' == Do(cfg, s, Event.Act(t, a)) && Reachable(cfg, s')
  {
    s' := Do(cfg, s, Event.Act(t, a));
    ReachableStep(cfg, s, Event.Act(t, a));
  }
}
