/** The shared-memory segment: layout, header validation and the readiness handshake. */
module Segment {
  import opened Sequences
  import opened Bits
  import opened Protocol

  // ------------------------------------------------------------ layout

  const CACHE_LINE: nat := 64
  const WORD_BITS: nat := 64  // size_t
  const SIZEOF_HEADER: nat := 72

  const MAGIC: nat := 0x5348_494D_4D59_7E01
  const VERSION: nat := 1
  const STATE_INITIALIZING: nat := 0
  const STATE_READY: nat := 0x5245_4459

  /** The compile-time parameters that determine the layout; the wait strategy is not one of them. */
  datatype Layout = Layout(blockSize: nat, capacity: nat, policy: Policy, maxConsumers: nat)

  function LayoutOf(cfg: Config): Layout {
    Layout(cfg.blockSize, cfg.capacity, cfg.policy, cfg.maxConsumers)
  }

  /** sizeof(Slot): stamp, length and payload, rounded up to the cache line. */
  function SizeofSlot(l: Layout): nat {
    (8 + 4 + l.blockSize + CACHE_LINE - 1) / CACHE_LINE * CACHE_LINE
  }

  /** sizeof(Ring): the count, the cursors, the slots and the waiters, each on its own cache lines. */
  function SizeofRing(l: Layout): nat {
    CACHE_LINE + CACHE_LINE * l.maxConsumers + l.capacity * SizeofSlot(l) + CACHE_LINE
  }

  /** A slot holds its 8-byte stamp, its 4-byte length and its payload, and whole cache lines:
      one line more than the payload when the block size is a multiple of the line. */
  lemma SlotLayout(l: Layout)
    ensures 8 + 4 + l.blockSize <= SizeofSlot(l) < 8 + 4 + l.blockSize + CACHE_LINE
    ensures SizeofSlot(l) % CACHE_LINE == 0
    ensures l.blockSize % CACHE_LINE == 0 ==> SizeofSlot(l) == l.blockSize + CACHE_LINE
  {
  }

  /** The members of the ring that are accessed: the count, each cursor, each slot, the waiters. */
  datatype Part = Count | CursorPart(i: nat) | SlotPart(i: nat) | Waiters

  predicate PartOf(l: Layout, p: Part) {
    (p.CursorPart? ==> p.i < l.maxConsumers) && (p.SlotPart? ==> p.i < l.capacity)
  }

  /** The bytes of a part: a 64-bit count; a 64-bit value and a flag; a 64-bit stamp, a 32-bit
      length and the payload; a 32-bit number of waiters. */
  function PartBytes(l: Layout, p: Part): nat {
    match p
    case Count => 8
    case CursorPart(_) => 8 + 1
    case SlotPart(_) => 8 + 4 + l.blockSize
    case Waiters => 4
  }

  /** The order in which the ring declares its parts. */
  function Rank(l: Layout, p: Part): nat {
    match p
    case Count => 0
    case CursorPart(i) => 1 + i
    case SlotPart(i) => 1 + l.maxConsumers + i
    case Waiters => 1 + l.maxConsumers + l.capacity
  }

  /** Where a part begins, counted in cache lines. */
  function PartLine(l: Layout, p: Part): nat {
    match p
    case Count => 0
    case CursorPart(i) => 1 + i
    case SlotPart(i) => 1 + l.maxConsumers + i * (SizeofSlot(l) / CACHE_LINE)
    case Waiters => 1 + l.maxConsumers + l.capacity * (SizeofSlot(l) / CACHE_LINE)
  }

  function PartAt(l: Layout, p: Part): nat {
    CACHE_LINE * PartLine(l, p)
  }

  function PartEnd(l: Layout, p: Part): nat {
    PartAt(l, p) + PartBytes(l, p)
  }

  /** How many cache lines a part takes. */
  function PartLines(l: Layout, p: Part): nat {
    if p.SlotPart? then SizeofSlot(l) / CACHE_LINE else 1
  }

  lemma PartFillsLines(l: Layout, p: Part)
    ensures PartBytes(l, p) <= CACHE_LINE * PartLines(l, p) < PartBytes(l, p) + CACHE_LINE
  {
  }

  lemma LineIsMultiple(n: nat, v: nat)
    requires v <= CACHE_LINE * n < v + CACHE_LINE
    ensures LeastMultiple(CACHE_LINE * n, v, CACHE_LINE)
  {
    IndexOfSum(n, 0, CACHE_LINE);
  }

  /** The next part takes the lines behind this one. */
  lemma NextPartLine(l: Layout, p: Part, q: Part)
    requires PartOf(l, p) && PartOf(l, q) && Rank(l, q) == Rank(l, p) + 1
    ensures PartLine(l, q) == PartLine(l, p) + PartLines(l, p)
  {
    var lines := SizeofSlot(l) / CACHE_LINE;
    if p.SlotPart? {
      assert (p.i + 1) * lines == p.i * lines + lines;
    } else if !q.Waiters? && q.i == 0 {
      assert q.i * lines == 0;
    } else if q.Waiters? {
      assert l.capacity * lines == 0;
    }
  }

  lemma {:induction false} LaterPartLine(l: Layout, p: Part, q: Part)
    requires PartOf(l, p) && PartOf(l, q) && Rank(l, p) < Rank(l, q)
    ensures PartLine(l, p) + PartLines(l, p) <= PartLine(l, q)
    decreases Rank(l, q)
  {
    if Rank(l, q) == Rank(l, p) + 1 {
      NextPartLine(l, p, q);
    } else {
      var r := PartBefore(l, q);
      LaterPartLine(l, p, r);
      NextPartLine(l, r, q);
    }
  }

  lemma PartBefore(l: Layout, q: Part) returns (r: Part)
    requires PartOf(l, q) && 0 < Rank(l, q)
    ensures PartOf(l, r) && Rank(l, r) + 1 == Rank(l, q)
  {
    var k := Rank(l, q) - 1;
    r := if k == 0 then Count
         else if k <= l.maxConsumers then CursorPart(k - 1)
         else SlotPart(k - 1 - l.maxConsumers);
  }

  /** The layout of the ring: the count is at its begin, every part begins on the first cache
      line behind the part before it, and the ring ends with the line in which the waiters end. */
  lemma RingParts(l: Layout)
    ensures PartAt(l, Count) == 0
    ensures forall p, q | PartOf(l, p) && PartOf(l, q) && Rank(l, q) == Rank(l, p) + 1
              :: LeastMultiple(PartAt(l, q), PartEnd(l, p), CACHE_LINE)
    ensures forall p, q | PartOf(l, p) && PartOf(l, q) && Rank(l, p) < Rank(l, q) :: PartEnd(l, p) <= PartAt(l, q)
    ensures LeastMultiple(SizeofRing(l), PartEnd(l, Waiters), CACHE_LINE)
    ensures forall p | PartOf(l, p) :: PartEnd(l, p) <= SizeofRing(l)
  {
    forall p, q | PartOf(l, p) && PartOf(l, q) && Rank(l, p) < Rank(l, q)
      ensures PartEnd(l, p) <= PartAt(l, q)
      ensures Rank(l, q) == Rank(l, p) + 1 ==> LeastMultiple(PartAt(l, q), PartEnd(l, p), CACHE_LINE)
    {
      PartFillsLines(l, p);
      LaterPartLine(l, p, q);
      if Rank(l, q) == Rank(l, p) + 1 {
        NextPartLine(l, p, q);
        LineIsMultiple(PartLine(l, q), PartEnd(l, p));
      }
    }
    RingEndsBehindWaiters(l);
    LineIsMultiple(PartLine(l, Waiters) + 1, PartEnd(l, Waiters));
  }

  lemma RingEndsBehindWaiters(l: Layout)
    ensures SizeofRing(l) == CACHE_LINE * (PartLine(l, Waiters) + 1)
  {
    var lines := SizeofSlot(l) / CACHE_LINE;
    assert SizeofSlot(l) == lines * CACHE_LINE;
    assert l.capacity * SizeofSlot(l) == CACHE_LINE * (l.capacity * lines);
  }

  function RingOffset(): nat {
    Pow2Grows(7, WORD_BITS);
    AlignUp(SIZEOF_HEADER, CACHE_LINE, WORD_BITS)
  }

  function SegmentBytes(l: Layout): nat {
    RingOffset() + SizeofRing(l)
  }

  /** The ring begins behind the header, aligned, and the padding is less than one cache line. */
  lemma HeaderAndRingDisjoint(l: Layout)
    ensures SIZEOF_HEADER <= RingOffset() == 128
    ensures Index(RingOffset(), CACHE_LINE) == 0
    ensures SIZEOF_HEADER + SizeofRing(l) <= SegmentBytes(l) < SIZEOF_HEADER + CACHE_LINE + SizeofRing(l)
  {
    Pow2Grows(8, WORD_BITS);
    assert Pow2(6) == 64 && Pow2(8) == 256 by {
      assert Pow2(3) == 8 && Pow2(6) == 8 * Pow2(3);
    }
    AlignUpIsLeastMultiple(SIZEOF_HEADER, 6, WORD_BITS);
    MultipleBelow(RingOffset());
  }

  lemma MultipleBelow(m: nat)
    requires LeastMultiple(m, SIZEOF_HEADER, CACHE_LINE)
    ensures m == 128
  {
    assert Index(m, 64) == Index(m - 64, 64);
    assert 64 <= m - 64 ==> Index(m - 64, 64) == Index(m - 128, 64);
  }

  // ------------------------------------------------------------ header

  datatype Header = Header(
    magic: nat, version: nat, headerBytes: nat, blockSize: nat, capacity: nat, policy: nat, maxConsumers: nat,
    ringSizeof: nat, ringAlignof: nat, slotSizeof: nat, state: nat)

  const ZERO_HEADER := Header(0, 0, 0, 0, 0, 0, 0, 0, 0, 0, 0)

  function PolicyId(p: Policy): nat {
    match p
    case Overwrite => 1
    case Backpressure => 2
  }

  /** The header a creator leaves behind; two fields are cast to 32 bits. */
  function HeaderOf(l: Layout, state: nat): Header {
    Header(MAGIC, VERSION, Word(RingOffset()), l.blockSize, l.capacity, PolicyId(l.policy), Word(l.maxConsumers),
           SizeofRing(l), CACHE_LINE, SizeofSlot(l), state)
  }

  /** The fields in the order in which validate_header loads them. */
  function Field(h: Header, k: nat): nat {
    match k
    case 0 => h.magic
    case 1 => h.version
    case 2 => h.state
    case 3 => h.blockSize
    case 4 => h.capacity
    case 5 => h.policy
    case 6 => h.maxConsumers
    case 7 => h.ringSizeof
    case 8 => h.ringAlignof
    case 9 => h.slotSizeof
    case _ => h.headerBytes
  }

  const FIELDS: nat := 11

  /** Rejected(k): the check of field k failed; k == FIELDS is the size of the file. */
  datatype Verdict = Checking(k: nat) | Rejected(k: nat) | Adopted

  /** What an opener compares with: the header it would have written, and the bytes it needs. */
  datatype Expectation = Expectation(header: Header, bytes: nat)

  function Expects(mine: Layout): Expectation {
    Expectation(HeaderOf(mine, STATE_READY), SegmentBytes(mine))
  }

  /** One check: load a field and compare it, or compare the size of the file and adopt. */
  function Check(h: Header, want: Expectation, fileSize: nat, v: Verdict): Verdict {
    if !v.Checking? then v
    else if v.k < FIELDS then if Field(h, v.k) == Field(want.header, v.k) then Checking(v.k + 1) else Rejected(v.k)
    else if fileSize < want.bytes then Rejected(FIELDS)
    else Adopted
  }

  ghost predicate FieldsMatchBelow(h: Header, e: Header, n: nat) {
    forall k :: 0 <= k < n ==> Field(h, k) == Field(e, k)
  }

  /** validate_header on a header that does not change meanwhile. */
  method ValidateHeader(h: Header, want: Expectation, fileSize: nat) returns (v: Verdict)
    ensures !v.Checking?
    ensures v.Adopted? <==> h == want.header && want.bytes <= fileSize
    ensures var w := want.header;
      v == if h.magic != w.magic then Rejected(0)
           else if h.version != w.version then Rejected(1)
           else if h.state != w.state then Rejected(2)
           else if h.blockSize != w.blockSize then Rejected(3)
           else if h.capacity != w.capacity then Rejected(4)
           else if h.policy != w.policy then Rejected(5)
           else if h.maxConsumers != w.maxConsumers then Rejected(6)
           else if h.ringSizeof != w.ringSizeof then Rejected(7)
           else if h.ringAlignof != w.ringAlignof then Rejected(8)
           else if h.slotSizeof != w.slotSizeof then Rejected(9)
           else if h.headerBytes != w.headerBytes then Rejected(10)
           else if fileSize < want.bytes then Rejected(11)
           else Adopted
  {
    v := Checking(0);
    while v.Checking?
      invariant !v.Adopted? ==> v.k <= FIELDS && FieldsMatchBelow(h, want.header, v.k)
      invariant v.Adopted? ==> FieldsMatchBelow(h, want.header, FIELDS) && want.bytes <= fileSize
      invariant v.Rejected? ==>
        if v.k < FIELDS then Field(h, v.k) != Field(want.header, v.k) else fileSize < want.bytes
      decreases if v.Checking? then FIELDS + 1 - v.k else 0
    {
      v := Check(h, want, fileSize, v);
    }
    FieldsByName(h, want.header, if v.Rejected? then v.k else FIELDS);
  }

  /** The first `n` fields, by name. */
  predicate SameUpTo(h: Header, w: Header, n: nat) {
    && (n > 0 ==> h.magic == w.magic) && (n > 1 ==> h.version == w.version) && (n > 2 ==> h.state == w.state)
    && (n > 3 ==> h.blockSize == w.blockSize) && (n > 4 ==> h.capacity == w.capacity)
    && (n > 5 ==> h.policy == w.policy) && (n > 6 ==> h.maxConsumers == w.maxConsumers)
    && (n > 7 ==> h.ringSizeof == w.ringSizeof) && (n > 8 ==> h.ringAlignof == w.ringAlignof)
    && (n > 9 ==> h.slotSizeof == w.slotSizeof) && (n > 10 ==> h.headerBytes == w.headerBytes)
  }

  lemma {:induction false} FieldsByName(h: Header, w: Header, n: nat)
    requires n <= FIELDS && FieldsMatchBelow(h, w, n)
    ensures SameUpTo(h, w, n)
    decreases n
  {
    if n > 0 {
      FieldsByName(h, w, n - 1);
      assert Field(h, n - 1) == Field(w, n - 1);
    }
  }

  /** An opener accepts exactly the ready header of its own layout, although two fields are
      recorded in 32 bits only: the recorded size of the ring pins the number of cursors. */
  lemma OnlyOwnLayoutMatches(theirs: Layout, mine: Layout, state: nat)
    ensures FieldsMatchBelow(HeaderOf(theirs, state), Expects(mine).header, FIELDS)
            <==> theirs == mine && state == STATE_READY
  {
    var h, e := HeaderOf(theirs, state), HeaderOf(mine, STATE_READY);
    if FieldsMatchBelow(h, e, FIELDS) {
      assert Field(h, 2) == Field(e, 2) && Field(h, 3) == Field(e, 3) && Field(h, 4) == Field(e, 4);
      assert Field(h, 5) == Field(e, 5) && Field(h, 7) == Field(e, 7);
      RingSizePinsCursors(theirs, mine);
    }
  }

  lemma RingSizePinsCursors(a: Layout, b: Layout)
    requires a.blockSize == b.blockSize && a.capacity == b.capacity && SizeofRing(a) == SizeofRing(b)
    ensures a.maxConsumers == b.maxConsumers
  {
  }

  // ------------------------------------------------------------ the creator's stores

  datatype Image = Image(header: Header, ring: Memory)

  datatype SegmentStore =
    | ZeroHeader
    | SetMagic | SetVersion | SetHeaderBytes | SetBlockSize | SetCapacity | SetPolicy | SetMaxConsumers
    | SetRingSizeof | SetRingAlignof | SetSlotSizeof
    | SetState(state: nat)
    | InitCount | InitWaiters
    | InitStamp(i: nat) | InitLen(i: nat)
    | InitValue(i: nat) | InitInUse(i: nat)

  function Put(final: Header, img: Image, st: SegmentStore): Image {
    var h, m := img.header, img.ring;
    match st
    case ZeroHeader => img.(header := ZERO_HEADER)
    case SetMagic => img.(header := h.(magic := final.magic))
    case SetVersion => img.(header := h.(version := final.version))
    case SetHeaderBytes => img.(header := h.(headerBytes := final.headerBytes))
    case SetBlockSize => img.(header := h.(blockSize := final.blockSize))
    case SetCapacity => img.(header := h.(capacity := final.capacity))
    case SetPolicy => img.(header := h.(policy := final.policy))
    case SetMaxConsumers => img.(header := h.(maxConsumers := final.maxConsumers))
    case SetRingSizeof => img.(header := h.(ringSizeof := final.ringSizeof))
    case SetRingAlignof => img.(header := h.(ringAlignof := final.ringAlignof))
    case SetSlotSizeof => img.(header := h.(slotSizeof := final.slotSizeof))
    case SetState(state) => img.(header := h.(state := state))
    case InitCount => img.(ring := m.(produced := 0))
    case InitWaiters => img.(ring := m.(waiters := 0))
    case InitStamp(i) => img.(ring := m.WithSlot(i, m.SlotAt(i).(stamp := EMPTY_SEQ)))
    case InitLen(i) => img.(ring := m.WithSlot(i, m.SlotAt(i).(len := 0)))
    case InitValue(i) => img.(ring := m.WithCursor(i, m.CursorAt(i).(value := 0)))
    case InitInUse(i) => img.(ring := m.WithCursor(i, m.CursorAt(i).(inUse := false)))
  }

  const HEADER_STORES: seq<SegmentStore> := [
    ZeroHeader, SetMagic, SetVersion, SetHeaderBytes, SetBlockSize, SetCapacity, SetPolicy, SetMaxConsumers,
    SetRingSizeof, SetRingAlignof, SetSlotSizeof, SetState(STATE_INITIALIZING)]

  function SlotStores(i: nat, n: nat): seq<SegmentStore>
    decreases n - i
  {
    if i < n then [InitStamp(i), InitLen(i)] + SlotStores(i + 1, n) else []
  }

  function CursorStores(i: nat, n: nat): seq<SegmentStore>
    decreases n - i
  {
    if i < n then [InitValue(i), InitInUse(i)] + CursorStores(i + 1, n) else []
  }

  /** construct_ring_and_publish_header up to the last store, which flips the state to ready. */
  function Construction(l: Layout): seq<SegmentStore> {
    HEADER_STORES + [InitCount, InitWaiters] + SlotStores(0, l.capacity) + CursorStores(0, l.maxConsumers)
  }

  function PutAll(final: Header, img: Image, stores: seq<SegmentStore>): Image
    decreases |stores|
  {
    if stores == [] then img else PutAll(final, Put(final, img, stores[0]), stores[1..])
  }

  lemma {:induction false} PutAppend(final: Header, img: Image, a: seq<SegmentStore>, b: seq<SegmentStore>)
    ensures PutAll(final, img, a + b) == PutAll(final, PutAll(final, img, a), b)
    decreases |a|
  {
    if a == [] {
      assert a + b == b;
    } else {
      assert (a + b)[1..] == a[1..] + b;
      PutAppend(final, Put(final, img, a[0]), a[1..], b);
    }
  }

  predicate NeverReady(stores: seq<SegmentStore>) {
    forall k :: 0 <= k < |stores| ==> stores[k] != SetState(STATE_READY)
  }

  lemma {:induction false} NotReadyYet(final: Header, img: Image, stores: seq<SegmentStore>)
    requires NeverReady(stores) && img.header.state != STATE_READY
    ensures PutAll(final, img, stores).header.state != STATE_READY
    decreases |stores|
  {
    if stores != [] {
      NotReadyYet(final, Put(final, img, stores[0]), stores[1..]);
    }
  }

  lemma {:induction false} InitStoresNeverReady(i: nat, n: nat)
    ensures NeverReady(SlotStores(i, n)) && NeverReady(CursorStores(i, n))
    decreases n - i
  {
    if i < n {
      InitStoresNeverReady(i + 1, n);
    }
  }

  lemma PutTwo(final: Header, img: Image, a: SegmentStore, b: SegmentStore, rest: seq<SegmentStore>)
    ensures PutAll(final, img, [a, b] + rest) == PutAll(final, Put(final, Put(final, img, a), b), rest)
  {
  }

  lemma SlotPair(final: Header, img: Image, i: nat)
    requires i < |img.ring.slots|
    ensures Put(final, Put(final, img, InitStamp(i)), InitLen(i)) ==
      img.(ring := img.ring.(slots := img.ring.slots[i := Slot(EMPTY_SEQ, 0, img.ring.slots[i].payload)]))
  {
  }

  lemma CursorPair(final: Header, img: Image, i: nat)
    requires i < |img.ring.cursors|
    ensures Put(final, Put(final, img, InitValue(i)), InitInUse(i)) ==
      img.(ring := img.ring.(cursors := img.ring.cursors[i := Cursor(0, false)]))
  {
  }

  lemma {:induction false} SlotsInitialised(final: Header, img: Image, i: nat)
    requires i <= |img.ring.slots|
    requires forall j :: 0 <= j < i ==> img.ring.slots[j].stamp == EMPTY_SEQ && img.ring.slots[j].len == 0
    ensures var img' := PutAll(final, img, SlotStores(i, |img.ring.slots|));
      && img' == img.(ring := img.ring.(slots := img'.ring.slots))
      && |img'.ring.slots| == |img.ring.slots|
      && forall j :: 0 <= j < |img.ring.slots| ==>
           img'.ring.slots[j] == Slot(EMPTY_SEQ, 0, img.ring.slots[j].payload)
    decreases |img.ring.slots| - i
  {
    var n := |img.ring.slots|;
    if i < n {
      var img2 := img.(ring := img.ring.(slots := img.ring.slots[i := Slot(EMPTY_SEQ, 0, img.ring.slots[i].payload)]));
      PutTwo(final, img, InitStamp(i), InitLen(i), SlotStores(i + 1, n));
      SlotPair(final, img, i);
      SlotsInitialised(final, img2, i + 1);
    }
  }

  lemma {:induction false} CursorsInitialised(final: Header, img: Image, i: nat)
    requires i <= |img.ring.cursors|
    requires forall j :: 0 <= j < i ==> img.ring.cursors[j] == Cursor(0, false)
    ensures var img' := PutAll(final, img, CursorStores(i, |img.ring.cursors|));
      && img' == img.(ring := img.ring.(cursors := img'.ring.cursors))
      && |img'.ring.cursors| == |img.ring.cursors|
      && forall j :: 0 <= j < |img.ring.cursors| ==> img'.ring.cursors[j] == Cursor(0, false)
    decreases |img.ring.cursors| - i
  {
    var n := |img.ring.cursors|;
    if i < n {
      var img2 := img.(ring := img.ring.(cursors := img.ring.cursors[i := Cursor(0, false)]));
      PutTwo(final, img, InitValue(i), InitInUse(i), CursorStores(i + 1, n));
      CursorPair(final, img, i);
      CursorsInitialised(final, img2, i + 1);
    }
  }

  /** Fresh memory: every byte is zero. */
  ghost predicate Fresh(cfg: Config, img: Image) {
    && img.header == ZERO_HEADER
    && |img.ring.slots| == cfg.capacity && |img.ring.cursors| == cfg.maxConsumers
    && forall i :: 0 <= i < cfg.capacity ==> |img.ring.slots[i].payload| == cfg.blockSize
  }

  /** The construction stores leave the header complete but not ready, and an initialised ring. */
  lemma ConstructionDone(cfg: Config, final: Header, img: Image)
    requires Fresh(cfg, img)
    ensures var img' := PutAll(final, img, Construction(LayoutOf(cfg)));
      img'.header == final.(state := STATE_INITIALIZING) && InitialMemory(cfg, img'.ring)
  {
    var l := LayoutOf(cfg);
    var cursors := CursorStores(0, l.maxConsumers);
    var slots := SlotStores(0, l.capacity);
    PutAppend(final, img, HEADER_STORES + [InitCount, InitWaiters] + slots, cursors);
    PutAppend(final, img, HEADER_STORES + [InitCount, InitWaiters], slots);
    HeaderWritten(final, img);
    var img1 := PutAll(final, img, HEADER_STORES + [InitCount, InitWaiters]);
    SlotsInitialised(final, img1, 0);
    CursorsInitialised(final, PutAll(final, img1, slots), 0);
  }

  lemma HeaderWritten(final: Header, img: Image)
    requires img.header == ZERO_HEADER
    ensures PutAll(final, img, HEADER_STORES + [InitCount, InitWaiters]) ==
      Image(final.(state := STATE_INITIALIZING), img.ring.(produced := 0, waiters := 0))
  {
    var r := [InitCount, InitWaiters];
    var img1 := Image(FirstHalf(final), img.ring);
    PutTwo(final, img, ZeroHeader, SetMagic, HEADER_STORES[2..] + r);
    PutTwo(final, Put(final, img, SetMagic), SetVersion, SetHeaderBytes, HEADER_STORES[4..] + r);
    assert HEADER_STORES + r == [ZeroHeader, SetMagic] + (HEADER_STORES[2..] + r);
    assert HEADER_STORES[2..] + r == [SetVersion, SetHeaderBytes] + (HEADER_STORES[4..] + r);
    assert HEADER_STORES[4..] + r == [SetBlockSize, SetCapacity] + (HEADER_STORES[6..] + r);
    PutTwo(final, Put(final, Put(final, Put(final, img, SetMagic), SetVersion), SetHeaderBytes),
           SetBlockSize, SetCapacity, HEADER_STORES[6..] + r);
    assert PutAll(final, img, HEADER_STORES + r) == PutAll(final, img1, HEADER_STORES[6..] + r);
    HeaderRest(final, img1);
  }

  function FirstHalf(h: Header): Header {
    Header(h.magic, h.version, h.headerBytes, h.blockSize, h.capacity, 0, 0, 0, 0, 0, 0)
  }

  lemma HeaderRest(final: Header, img: Image)
    requires img.header == FirstHalf(final)
    ensures PutAll(final, img, HEADER_STORES[6..] + [InitCount, InitWaiters]) ==
      Image(final.(state := STATE_INITIALIZING), img.ring.(produced := 0, waiters := 0))
  {
    var r := [InitCount, InitWaiters];
    assert HEADER_STORES[6..] + r == [SetPolicy, SetMaxConsumers] + (HEADER_STORES[8..] + r);
    assert HEADER_STORES[8..] + r == [SetRingSizeof, SetRingAlignof] + (HEADER_STORES[10..] + r);
    assert HEADER_STORES[10..] + r == [SetSlotSizeof, SetState(STATE_INITIALIZING)] + r;
    assert r == r + [];
    var img1 := Put(final, Put(final, img, SetPolicy), SetMaxConsumers);
    PutTwo(final, img, SetPolicy, SetMaxConsumers, HEADER_STORES[8..] + r);
    var img2 := Put(final, Put(final, img1, SetRingSizeof), SetRingAlignof);
    PutTwo(final, img1, SetRingSizeof, SetRingAlignof, HEADER_STORES[10..] + r);
    var img3 := Put(final, Put(final, img2, SetSlotSizeof), SetState(STATE_INITIALIZING));
    PutTwo(final, img2, SetSlotSizeof, SetState(STATE_INITIALIZING), r);
    PutTwo(final, img3, InitCount, InitWaiters, []);
  }

  // ------------------------------------------------------------ the handshake

  /** `done` counts the stores of the creator; the opener's loads interleave with them. */
  datatype Handshake = Handshake(done: nat, img: Image, opener: Verdict)

  /** The stores of the creator, with the values of the header it writes. */
  datatype Creation = Creation(program: seq<SegmentStore>, final: Header)

  function Program(l: Layout): seq<SegmentStore> {
    Construction(l) + [SetState(STATE_READY)]
  }

  function Creates(l: Layout): Creation {
    Creation(Program(l), HeaderOf(l, STATE_READY))
  }

  datatype Turn = Creator | Opener

  function TakeTurn(c: Creation, want: Expectation, fileSize: nat, hs: Handshake, turn: Turn): Handshake {
    match turn
    case Creator =>
      if hs.done < |c.program| then hs.(done := hs.done + 1, img := Put(c.final, hs.img, c.program[hs.done])) else hs
    case Opener => hs.(opener := Check(hs.img.header, want, fileSize, hs.opener))
  }

  function TakeTurns(c: Creation, want: Expectation, fileSize: nat, hs: Handshake, turns: seq<Turn>): Handshake
    decreases |turns|
  {
    if turns == [] then hs
    else TakeTurns(c, want, fileSize, TakeTurn(c, want, fileSize, hs, turns[0]), turns[1..])
  }

  /** Only the last store sets the state to ready. */
  predicate ReadyLast(program: seq<SegmentStore>) {
    && |program| > 0 && program[|program| - 1] == SetState(STATE_READY)
    && NeverReady(program[..|program| - 1])
  }

  lemma ProgramReadyLast(l: Layout)
    ensures ReadyLast(Program(l))
  {
    InitStoresNeverReady(0, l.capacity);
    InitStoresNeverReady(0, l.maxConsumers);
    assert Program(l)[..|Program(l)| - 1] == Construction(l);
  }

  /** The image is what the stores so far have written, and an opener that has passed the
      check of the state has done so after the last store. */
  ghost predicate HandshakeInv(c: Creation, want: Expectation, fileSize: nat, img0: Image, hs: Handshake) {
    && hs.done <= |c.program|
    && hs.img == PutAll(c.final, img0, c.program[..hs.done])
    && (hs.opener.Checking? ==> hs.opener.k <= FIELDS)
    && (hs.opener.Adopted? || (hs.opener.Checking? && hs.opener.k > 2) ==> hs.done == |c.program|)
    && (forall k :: 2 < k < FIELDS && (hs.opener.Adopted? || (hs.opener.Checking? && k < hs.opener.k)) ==>
          Field(hs.img.header, k) == Field(want.header, k))
    && (hs.opener.Adopted? ==> want.bytes <= fileSize)
  }

  lemma ReadyOnlyAtTheEnd(c: Creation, img0: Image, done: nat)
    requires img0.header == ZERO_HEADER && ReadyLast(c.program) && done < |c.program|
    ensures PutAll(c.final, img0, c.program[..done]).header.state != STATE_READY
  {
    NotReadyYet(c.final, img0, c.program[..done]);
  }

  lemma HandshakeTurn(c: Creation, want: Expectation, fileSize: nat, img0: Image, hs: Handshake, turn: Turn)
    requires img0.header == ZERO_HEADER && ReadyLast(c.program) && want.header.state == STATE_READY
    requires HandshakeInv(c, want, fileSize, img0, hs)
    ensures HandshakeInv(c, want, fileSize, img0, TakeTurn(c, want, fileSize, hs, turn))
  {
    if hs.done < |c.program| {
      var p := c.program;
      assert p[..hs.done + 1] == p[..hs.done] + [p[hs.done]];
      PutAppend(c.final, img0, p[..hs.done], [p[hs.done]]);
      ReadyOnlyAtTheEnd(c, img0, hs.done);
    }
  }

  lemma {:induction false} HandshakeRun(c: Creation, want: Expectation, fileSize: nat, img0: Image,
                                       hs: Handshake, turns: seq<Turn>)
    requires img0.header == ZERO_HEADER && ReadyLast(c.program) && want.header.state == STATE_READY
    requires HandshakeInv(c, want, fileSize, img0, hs)
    ensures HandshakeInv(c, want, fileSize, img0, TakeTurns(c, want, fileSize, hs, turns))
    decreases |turns|
  {
    if turns != [] {
      HandshakeTurn(c, want, fileSize, img0, hs, turns[0]);
      HandshakeRun(c, want, fileSize, img0, TakeTurn(c, want, fileSize, hs, turns[0]), turns[1..]);
    }
  }

  /** All the stores of the creator leave the ready header of its layout and an initialised ring. */
  lemma ProgramDone(creator: Config, final: Header, img0: Image)
    requires Fresh(creator, img0) && final.state == STATE_READY
    ensures var img := PutAll(final, img0, Program(LayoutOf(creator)));
      img.header == final && InitialMemory(creator, img.ring)
  {
    var l := LayoutOf(creator);
    ConstructionDone(creator, final, img0);
    PutAppend(final, img0, Construction(l), [SetState(STATE_READY)]);
    assert [SetState(STATE_READY)][1..] == [];
  }

  /** A creator and an opener take turns on the memory `img0`. */
  function Meeting(creator: Config, mine: Layout, fileSize: nat, img0: Image, turns: seq<Turn>): Handshake {
    TakeTurns(Creates(LayoutOf(creator)), Expects(mine), fileSize, Handshake(0, img0, Checking(0)), turns)
  }

  /** The header records the layout, field by field. */
  predicate Records(h: Header, l: Layout) {
    && h.magic == 0x5348_494D_4D59_7E01 && h.version == 1 && h.state == 0x5245_4459
    && h.headerBytes == 128 && h.blockSize == l.blockSize && h.capacity == l.capacity
    && h.policy == (if l.policy.Overwrite? then 1 else 2)
    && h.maxConsumers == l.maxConsumers % 0x1_0000_0000
    && h.ringSizeof == SizeofRing(l) && h.ringAlignof == 64 && h.slotSizeof == SizeofSlot(l)
  }

  /** The readiness handshake: on fresh memory, an opener whose loads interleave in any way
      with the creator's stores adopts only a ring whose init fully ran, that has its own
      layout, and every part of which lies inside the file. */
  lemma AdoptedMeansInitialised(creator: Config, mine: Layout, fileSize: nat, img0: Image, turns: seq<Turn>)
    requires Fresh(creator, img0)
    ensures var hs := Meeting(creator, mine, fileSize, img0, turns); hs.opener.Adopted? ==>
      && InitialMemory(creator, hs.img.ring)
      && Records(hs.img.header, mine)
      && LayoutOf(creator) == mine
      && forall p | PartOf(mine, p) :: RingOffset() + PartEnd(mine, p) <= fileSize
  {
    var c, want := Creates(LayoutOf(creator)), Expects(mine);
    ProgramReadyLast(LayoutOf(creator));
    ProgramDone(creator, c.final, img0);
    AdoptedSawTheEnd(c, want, fileSize, img0, turns);
    OnlyOwnLayoutMatches(LayoutOf(creator), mine, STATE_READY);
    HeaderAndRingDisjoint(mine);
    RingParts(mine);
  }

  /** An opener that adopts has compared every field with the final header. */
  lemma AdoptedSawTheEnd(c: Creation, want: Expectation, fileSize: nat, img0: Image, turns: seq<Turn>)
    requires img0.header == ZERO_HEADER && ReadyLast(c.program) && PutAll(c.final, img0, c.program).header == c.final
    requires c.final.magic == want.header.magic && c.final.version == want.header.version
    requires c.final.state == want.header.state == STATE_READY
    ensures var hs := TakeTurns(c, want, fileSize, Handshake(0, img0, Checking(0)), turns); hs.opener.Adopted? ==>
      && hs.img == PutAll(c.final, img0, c.program)
      && FieldsMatchBelow(c.final, want.header, FIELDS) && want.bytes <= fileSize
  {
    HandshakeRun(c, want, fileSize, img0, Handshake(0, img0, Checking(0)), turns);
    assert c.program[..|c.program|] == c.program;
  }

  // ------------------------------------------------------------ the handshake succeeds

  lemma {:induction false} TurnsAppend(c: Creation, want: Expectation, fileSize: nat, hs: Handshake,
                                       a: seq<Turn>, b: seq<Turn>)
    ensures TakeTurns(c, want, fileSize, hs, a + b)
            == TakeTurns(c, want, fileSize, TakeTurns(c, want, fileSize, hs, a), b)
    decreases |a|
  {
    if a == [] {
      assert a + b == b;
    } else {
      assert (a + b)[1..] == a[1..] + b;
      TurnsAppend(c, want, fileSize, TakeTurn(c, want, fileSize, hs, a[0]), a[1..], b);
    }
  }

  function Times(turn: Turn, n: nat): seq<Turn> {
    if n == 0 then [] else [turn] + Times(turn, n - 1)
  }

  /** The creator alone comes to its end. */
  lemma {:induction false} CreatorFinishes(c: Creation, want: Expectation, fileSize: nat, hs: Handshake)
    requires hs.done <= |c.program|
    ensures var hs' := TakeTurns(c, want, fileSize, hs, Times(Creator, |c.program| - hs.done));
      hs'.done == |c.program| && hs'.opener == hs.opener
    decreases |c.program| - hs.done
  {
    if hs.done < |c.program| {
      CreatorFinishes(c, want, fileSize, TakeTurn(c, want, fileSize, hs, Creator));
    }
  }

  /** The opener alone comes to a verdict: it adopts if and only if nothing differs from field `k` on. */
  lemma {:induction false} OpenerDecides(c: Creation, want: Expectation, fileSize: nat, hs: Handshake, k: nat)
    requires hs.opener == Checking(k) && k <= FIELDS
    ensures var hs' := TakeTurns(c, want, fileSize, hs, Times(Opener, FIELDS + 1 - k));
      && hs' == hs.(opener := hs'.opener) && !hs'.opener.Checking?
      && (hs'.opener.Adopted? <==>
            && (forall j :: k <= j < FIELDS ==> Field(hs.img.header, j) == Field(want.header, j))
            && want.bytes <= fileSize)
    decreases FIELDS - k
  {
    var hs1 := TakeTurn(c, want, fileSize, hs, Opener);
    if hs1.opener.Checking? {
      OpenerDecides(c, want, fileSize, hs1, k + 1);
    } else {
      DecidedStays(c, want, fileSize, hs1, FIELDS - k);
    }
  }

  lemma {:induction false} DecidedStays(c: Creation, want: Expectation, fileSize: nat, hs: Handshake, n: nat)
    requires !hs.opener.Checking?
    ensures TakeTurns(c, want, fileSize, hs, Times(Opener, n)) == hs
    decreases n
  {
    if n > 0 {
      DecidedStays(c, want, fileSize, hs, n - 1);
    }
  }

  /** An opener that comes when the creator is done adopts the ring if and only if it has the
      same layout and finds the whole segment in the file. */
  lemma OpenerAfterCreator(creator: Config, mine: Layout, fileSize: nat, img0: Image) returns (turns: seq<Turn>)
    requires Fresh(creator, img0)
    ensures var hs := Meeting(creator, mine, fileSize, img0, turns);
      && InitialMemory(creator, hs.img.ring) && Records(hs.img.header, LayoutOf(creator))
      && (hs.opener.Adopted? <==> LayoutOf(creator) == mine && SegmentBytes(mine) <= fileSize)
      && (!hs.opener.Adopted? ==> hs.opener.Rejected?)
  {
    var c, want := Creates(LayoutOf(creator)), Expects(mine);
    var hs0 := Handshake(0, img0, Checking(0));
    turns := Times(Creator, |c.program|) + Times(Opener, FIELDS + 1);
    TurnsAppend(c, want, fileSize, hs0, Times(Creator, |c.program|), Times(Opener, FIELDS + 1));
    CreatorFinishes(c, want, fileSize, hs0);
    ProgramReadyLast(LayoutOf(creator));
    HandshakeRun(c, want, fileSize, img0, hs0, Times(Creator, |c.program|));
    assert c.program[..|c.program|] == c.program;
    ProgramDone(creator, c.final, img0);
    OpenerDecides(c, want, fileSize, TakeTurns(c, want, fileSize, hs0, Times(Creator, |c.program|)), 0);
    OnlyOwnLayoutMatches(LayoutOf(creator), mine, STATE_READY);
    HeaderAndRingDisjoint(mine);
  }
}
