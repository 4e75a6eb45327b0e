/** The sample buffer of one device as a concurrent protocol: the NMI handler of
    driver/ibs-interrupt.c fills slots while do_ibs_read of driver/ibs-fops.c copies them out.
    `wr`, `rd`, `entries` and `lost` are separate atomics, so every load and every store is a step
    of its own, and a run is any interleaving of the steps of one producer and one reader. */
module RingProtocol {
  import opened Arith

  /** What the handler's `unsigned int` locals keep of a value. */
  function U32(x: nat): nat { x % 0x1_0000_0000 }

  function NewWr(oldWr: nat, capacity: nat): nat
    requires capacity > 0
  {
    U32(U32(oldWr + 1) % capacity)
  }

  datatype Producer<T> =
    | PIdle
    | PHaveWr(oldWr: nat)
    | PFull
    | PFilling(oldWr: nat)
    | PFilled(oldWr: nat, sample: T)
    | PPublished

  datatype Reader<T> =
    | RIdle
    | RHaveRd(rd: nat)
    | RHaveWr(rd: nat, wr: nat, published: nat)  // `published`: wr stores since wr was loaded
    | RCopying(n: nat, slots: seq<nat>, out: seq<T>, fits: bool)
    | RStored(n: nat)

  /** `accepted` and `delivered` are histories: every sample published and every sample handed to
      the user, oldest first; `taken` counts the samples released by stores to `rd`. `fits` records
      that the slots of a read are the ones holding the oldest samples, and `exact` that they were
      so in every read so far. */
  datatype Ring<T> = Ring(
    capacity: nat, buf: seq<T>, wr: nat, rd: nat, entries: int, lost: nat,
    producer: Producer<T>, reader: Reader<T>,
    accepted: seq<T>, delivered: seq<T>, taken: nat, exact: bool)

  datatype Action<T> =
    | PLoadWr | PLoadRd | PCountLost | PScribble(junk: T) | PFill(sample: T) | PStoreWr | PCountEntry
    | RLoadRd | RLoadWr | RLoadEntries(wanted: nat) | RCopySlot(beyond: T) | RFault | RStoreRd | RDropEntries

  /** The slots that the two branches of do_ibs_read copy, in order. */
  function CopySlots(rd: nat, wr: nat, n: nat, capacity: nat): seq<nat>
    requires rd < capacity
  {
    if rd < wr then seq(n, i => rd + i)
    else if n <= capacity - rd then seq(n, i => rd + i)
    else seq(capacity - rd, i => rd + i) + seq(Min(n - (capacity - rd), wr), i => i)
  }

  /** The slots of the `n` oldest samples. */
  function OldestSlots(rd: nat, n: nat, capacity: nat): seq<nat>
    requires capacity > 0
  {
    seq(n, i requires 0 <= i => (rd + i) % capacity)
  }

  predicate Fits(rd: nat, wr: nat, n: nat, capacity: nat) {
    if rd < wr then rd + n <= capacity else rd + n <= capacity + wr
  }

  predicate Enabled<T>(s: Ring<T>, a: Action<T>) {
    match a
    case PLoadWr => s.producer.PIdle?
    case PLoadRd => s.producer.PHaveWr?
    case PCountLost => s.producer.PFull?
    case PScribble(_) => s.producer.PFilling? && s.producer.oldWr < |s.buf|
    case PFill(_) => s.producer.PFilling? && s.producer.oldWr < |s.buf|
    case PStoreWr => s.producer.PFilled?
    case PCountEntry => s.producer.PPublished?
    case RLoadRd => s.reader.RIdle?
    case RLoadWr => s.reader.RHaveRd?
    case RLoadEntries(_) => s.reader.RHaveWr? && s.reader.rd < s.capacity
    case RCopySlot(_) => s.reader.RCopying? && |s.reader.out| < |s.reader.slots|
    case RFault => s.reader.RCopying?
    case RStoreRd => s.reader.RCopying? && |s.reader.out| == |s.reader.slots|
    case RDropEntries => s.reader.RStored?
  }

  function Next<T>(s: Ring<T>, a: Action<T>): Ring<T>
    requires s.capacity > 0 && Enabled(s, a)
  {
    match a
    case PLoadWr => s.(producer := PHaveWr(U32(s.wr)))
    case PLoadRd =>
      s.(producer := if NewWr(s.producer.oldWr, s.capacity) == s.rd then PFull else PFilling(s.producer.oldWr))
    case PCountLost => s.(lost := s.lost + 1, producer := PIdle)
    case PScribble(junk) => s.(buf := s.buf[s.producer.oldWr := junk])
    case PFill(sample) =>
      s.(buf := s.buf[s.producer.oldWr := sample], producer := PFilled(s.producer.oldWr, sample))
    case PStoreWr =>
      s.(wr := NewWr(s.producer.oldWr, s.capacity), accepted := s.accepted + [s.producer.sample],
         producer := PPublished,
         reader := if s.reader.RHaveWr? then s.reader.(published := s.reader.published + 1) else s.reader)
    case PCountEntry => s.(entries := s.entries + 1, producer := PIdle)
    case RLoadRd => s.(reader := RHaveRd(s.rd))
    case RLoadWr => s.(reader := RHaveWr(s.reader.rd, s.wr, 0))
    case RLoadEntries(wanted) =>
      var n := if s.entries <= 0 then 0 else Min(wanted, s.entries);
      if n == 0 then s.(reader := RIdle)
      else
        var fits := Fits(s.reader.rd, s.reader.wr, n, s.capacity);
        s.(reader := RCopying(n, CopySlots(s.reader.rd, s.reader.wr, n, s.capacity), [], fits),
           exact := s.exact && fits)
    case RCopySlot(beyond) =>
      var slot := s.reader.slots[|s.reader.out|];
      s.(reader := s.reader.(out := s.reader.out + [if slot < |s.buf| then s.buf[slot] else beyond]))
    case RFault => s.(reader := RIdle)
    case RStoreRd =>
      s.(rd := (s.rd + s.reader.n) % s.capacity, taken := s.taken + s.reader.n,
         delivered := s.delivered + s.reader.out, reader := RStored(s.reader.n))
    case RDropEntries => s.(entries := s.entries - s.reader.n, reader := RIdle)
  }

  /** A freshly reset buffer: reset_ibs_buffer. */
  predicate Init<T(==)>(s: Ring<T>) {
    && 0 < s.capacity == |s.buf|
    && s.wr == s.rd == s.entries == s.lost == s.taken == 0
    && s.producer.PIdle? && s.reader.RIdle? && s.accepted == [] && s.delivered == [] && s.exact
  }

  // ----- the invariant

  /** The abstract queue. */
  function Queue<T>(s: Ring<T>): seq<T>
    requires s.taken <= |s.accepted|
  {
    s.accepted[s.taken..]
  }

  predicate Shape<T>(s: Ring<T>) {
    && 0 < s.capacity == |s.buf| && s.capacity <= 0x1_0000_0000
    && s.taken <= |s.accepted| && |s.accepted| - s.taken < s.capacity
    && s.wr == |s.accepted| % s.capacity && s.rd == s.taken % s.capacity
  }

  ghost predicate Stored<T>(s: Ring<T>)
    requires s.capacity > 0
  {
    |s.buf| == s.capacity &&
    forall i: nat :: s.taken <= i < |s.accepted| ==> s.buf[i % s.capacity] == s.accepted[i]
  }

  /** 1 while the producer has published a sample that `entries` does not count yet. */
  function Uncounted<T>(p: Producer<T>): nat { if p.PPublished? then 1 else 0 }

  function Undropped<T>(r: Reader<T>): nat { if r.RStored? then r.n else 0 }

  predicate Counted<T>(s: Ring<T>)
    requires s.taken <= |s.accepted|
  {
    && s.entries == |Queue(s)| - Uncounted(s.producer) + Undropped(s.reader)
    && Uncounted(s.producer) <= |Queue(s)|
  }

  ghost predicate ProducerOk<T>(s: Ring<T>) {
    match s.producer
    case PHaveWr(oldWr) => oldWr == s.wr
    case PFilling(oldWr) => oldWr == s.wr && |s.accepted| - s.taken < s.capacity - 1
    case PFilled(oldWr, sample) =>
      && oldWr == s.wr && |s.accepted| - s.taken < s.capacity - 1
      && oldWr < |s.buf| && s.buf[oldWr] == sample
    case _ => true
  }

  ghost predicate ReaderOk<T>(s: Ring<T>)
    requires s.capacity > 0 && s.taken <= |s.accepted|
  {
    match s.reader
    case RHaveRd(rd) => rd == s.rd
    case RHaveWr(rd, wr, published) =>
      && rd == s.rd && published <= |s.accepted| - s.taken
      && wr == (|s.accepted| - published) % s.capacity
    case RCopying(n, slots, out, fits) =>
      && n + Uncounted(s.producer) <= |s.accepted| - s.taken
      && |out| <= |slots|
      && (s.exact ==> fits)
      && (fits ==> slots == OldestSlots(s.rd, n, s.capacity) && out == s.accepted[s.taken..s.taken + |out|])
    case _ => true
  }

  ghost predicate Inv<T>(s: Ring<T>) {
    && Shape(s) && Stored(s) && Counted(s) && ProducerOk(s) && ReaderOk(s)
    && (s.exact ==> s.delivered == s.accepted[..s.taken])
  }

  lemma InitInv<T>(s: Ring<T>)
    requires Init(s) && s.capacity <= 0x1_0000_0000
    ensures Inv(s)
  {}

  // ----- arithmetic of slots

  lemma NewWrIsNext(wr: nat, capacity: nat)
    requires wr < capacity <= 0x1_0000_0000
    ensures U32(wr) == wr && NewWr(wr, capacity) == (wr + 1) % capacity
  {
    RingAdd(wr, 1, capacity);
    UniqueRemainder(wr, capacity, 0, wr);
    if wr + 1 == 0x1_0000_0000 {
      UniqueRemainder(0, capacity, 0, 0);
    } else {
      assert U32(wr + 1) == wr + 1;
    }
  }

  /** The handler's 32-bit locals follow the ring exactly when the capacity is at most 2^32. */
  lemma NewWrExact(capacity: nat)
    requires capacity > 0
    ensures (forall wr: nat :: wr < capacity ==> NewWr(U32(wr), capacity) == (wr + 1) % capacity)
            <==> capacity <= 0x1_0000_0000
  {
    if capacity <= 0x1_0000_0000 {
      forall wr: nat | wr < capacity ensures NewWr(U32(wr), capacity) == (wr + 1) % capacity {
        NewWrIsNext(wr, capacity);
      }
    } else {
      var wr := 0xFFFF_FFFF;
      UniqueRemainder(0, capacity, 0, 0);
      UniqueRemainder(wr + 1, capacity, 0, wr + 1);
      assert NewWr(U32(wr), capacity) != (wr + 1) % capacity;
    }
  }

  /** The two branches of the copy follow the ring exactly when the loaded `wr` leaves room. */
  lemma CopySlotsExact(rd: nat, wr: nat, n: nat, capacity: nat)
    requires rd < capacity && wr < capacity && n < capacity
    ensures CopySlots(rd, wr, n, capacity) == OldestSlots(rd, n, capacity) <==> Fits(rd, wr, n, capacity)
  {
    var c, o := CopySlots(rd, wr, n, capacity), OldestSlots(rd, n, capacity);
    forall i: nat | i < n ensures o[i] == if rd + i < capacity then rd + i else rd + i - capacity {
      RingAdd(rd, i, capacity);
      UniqueRemainder(rd, capacity, 0, rd);
    }
    if Fits(rd, wr, n, capacity) {
      assert |c| == n;
      forall i: nat | i < n ensures c[i] == o[i] {}
    } else if rd < wr {
      assert c[n - 1] != o[n - 1];
    } else {
      assert |c| < n;
    }
  }

  // ----- each step keeps the invariant

  lemma StoreWrShape<T>(s: Ring<T>)
    requires Inv(s) && Enabled(s, PStoreWr)
    ensures Shape(Next(s, PStoreWr)) && Stored(Next(s, PStoreWr))
  {
    var s' := Next(s, PStoreWr);
    NewWrIsNext(s.wr, s.capacity);
    RingAddReduced(|s.accepted|, 1, s.capacity);
    forall i: nat | s'.taken <= i < |s'.accepted| ensures s'.buf[i % s.capacity] == s'.accepted[i] {
      if i < |s.accepted| { assert s'.accepted[i] == s.accepted[i]; }
    }
  }

  lemma StoreWrReader<T>(s: Ring<T>)
    requires Inv(s) && Enabled(s, PStoreWr)
    ensures ReaderOk(Next(s, PStoreWr))
  {
    if s.reader.RCopying? && s.reader.fits {
      var t, n := s.taken, |s.reader.out|;
      assert (s.accepted + [s.producer.sample])[t..t + n] == s.accepted[t..t + n];
    }
  }

  lemma StoreWrInv<T>(s: Ring<T>)
    requires Inv(s) && Enabled(s, PStoreWr)
    ensures Inv(Next(s, PStoreWr))
  {
    StoreWrShape(s);
    StoreWrReader(s);
    assert Next(s, PStoreWr).accepted[..s.taken] == s.accepted[..s.taken];
  }

  lemma FillInv<T>(s: Ring<T>, x: T)
    requires Inv(s) && s.producer.PFilling?
    ensures Enabled(s, PScribble(x)) && Inv(Next(s, PScribble(x))) && Inv(Next(s, PFill(x)))
  {
    WriterAvoidsQueue(s);
  }

  /** The slot being filled holds no sample that a reader may still copy. */
  lemma WriterAvoidsQueue<T>(s: Ring<T>)
    requires Inv(s) && s.producer.PFilling?
    ensures s.producer.oldWr < s.capacity
    ensures forall i: nat :: s.taken <= i < |s.accepted| ==> i % s.capacity != s.producer.oldWr
    ensures s.reader.RCopying? ==> s.producer.oldWr !in OldestSlots(s.rd, s.reader.n, s.capacity)
  {
    forall i: nat | s.taken <= i < |s.accepted| ensures i % s.capacity != s.producer.oldWr {
      RingDistinct(i, |s.accepted| - i, s.capacity);
    }
    if s.reader.RCopying? {
      var o := OldestSlots(s.rd, s.reader.n, s.capacity);
      forall i: nat | i < |o| ensures o[i] != s.producer.oldWr {
        RingAddReduced(s.taken, i, s.capacity);
        assert (s.taken + i) % s.capacity != s.producer.oldWr;
      }
    }
  }

  /** One step ahead of the last sample lies the first one, just when a single slot is free. */
  lemma FullTest(taken: nat, total: nat, capacity: nat)
    requires taken <= total < taken + capacity
    ensures (total % capacity + 1) % capacity == taken % capacity <==> total - taken == capacity - 1
  {
    RingAddReduced(total, 1, capacity);
    RingAdd(taken, total - taken + 1, capacity);
    if total - taken + 1 < capacity { RingDistinct(taken, total - taken + 1, capacity); }
    assert taken + (total - taken + 1) == total + 1;
  }

  /** The handler finds the buffer full exactly when capacity - 1 samples are queued. */
  lemma FullIsFound<T>(s: Ring<T>)
    requires Inv(s) && s.producer.PHaveWr?
    ensures NewWr(s.producer.oldWr, s.capacity) == s.rd <==> |Queue(s)| == s.capacity - 1
  {
    var wr, rd := s.wr, s.rd;
    assert wr < s.capacity;
    NewWrIsNext(wr, s.capacity);
    FullTest(s.taken, |s.accepted|, s.capacity);
  }

  lemma LoadRdInv<T>(s: Ring<T>)
    requires Inv(s) && Enabled(s, PLoadRd)
    ensures Inv(Next(s, PLoadRd))
    ensures Next(s, PLoadRd).producer.PFull? <==> |Queue(s)| == s.capacity - 1
  {
    FullIsFound(s);
  }

  lemma LoadEntriesInv<T>(s: Ring<T>, wanted: nat)
    requires Inv(s) && Enabled(s, RLoadEntries(wanted))
    ensures Inv(Next(s, RLoadEntries(wanted)))
  {
    var s' := Next(s, RLoadEntries(wanted));
    if s'.reader.RCopying? {
      CopySlotsExact(s.reader.rd, s.reader.wr, s'.reader.n, s.capacity);
      assert s.accepted[s.taken..s.taken] == [];
    }
  }

  /** The slot of rank i from `rd` holds the sample of rank i in the queue. */
  lemma SlotHolds<T>(s: Ring<T>, i: nat)
    requires Shape(s) && Stored(s) && s.taken + i < |s.accepted|
    ensures var slot := (s.rd + i) % s.capacity; slot < |s.buf| && s.buf[slot] == s.accepted[s.taken + i]
  {
    RingAddReduced(s.taken, i, s.capacity);
    assert s.taken <= s.taken + i < |s.accepted|;
  }

  lemma OneMoreCopied<T>(a: seq<T>, from: nat, n: nat)
    requires from + n < |a|
    ensures a[from..from + (n + 1)] == a[from..from + n] + [a[from + n]]
  {}

  lemma CopySlotInv<T>(s: Ring<T>, beyond: T)
    requires Inv(s) && Enabled(s, RCopySlot(beyond))
    ensures Inv(Next(s, RCopySlot(beyond)))
  {
    var i := |s.reader.out|;
    if s.reader.fits {
      assert s.reader.slots[i] == (s.rd + i) % s.capacity;
      SlotHolds(s, i);
      OneMoreCopied(s.accepted, s.taken, i);
    }
  }

  lemma StoreRdInv<T>(s: Ring<T>)
    requires Inv(s) && Enabled(s, RStoreRd)
    ensures Inv(Next(s, RStoreRd))
  {
    RingAddReduced(s.taken, s.reader.n, s.capacity);
    if s.exact {
      var t, n := s.taken, s.reader.n;
      assert s.accepted[..t + n] == s.accepted[..t] + s.accepted[t..t + n];
    }
  }

  lemma StepInv<T>(s: Ring<T>, a: Action<T>)
    requires Inv(s) && Enabled(s, a)
    ensures Inv(Next(s, a))
  {
    match a
    case PLoadWr => NewWrIsNext(s.wr, s.capacity);
    case PLoadRd => LoadRdInv(s);
    case PCountLost =>
    case PScribble(junk) => FillInv(s, junk);
    case PFill(sample) => FillInv(s, sample);
    case PStoreWr => StoreWrInv(s);
    case PCountEntry =>
    case RLoadRd =>
    case RLoadWr =>
    case RLoadEntries(wanted) => LoadEntriesInv(s, wanted);
    case RCopySlot(beyond) => CopySlotInv(s, beyond);
    case RFault =>
    case RStoreRd => StoreRdInv(s);
    case RDropEntries =>
  }

  // ----- whole runs

  predicate Runs<T>(s: Ring<T>, acts: seq<Action<T>>)
    decreases |acts|
  {
    acts == [] || (s.capacity > 0 && Enabled(s, acts[0]) && Runs(Next(s, acts[0]), acts[1..]))
  }

  function Run<T>(s: Ring<T>, acts: seq<Action<T>>): Ring<T>
    requires Runs(s, acts)
    decreases |acts|
  {
    if acts == [] then s else Run(Next(s, acts[0]), acts[1..])
  }

  lemma {:induction false} RunInv<T>(s: Ring<T>, acts: seq<Action<T>>)
    requires Inv(s) && Runs(s, acts)
    ensures Inv(Run(s, acts))
    decreases |acts|
  {
    if acts != [] {
      StepInv(s, acts[0]);
      RunInv(Next(s, acts[0]), acts[1..]);
    }
  }

  /** Publishing appends to a queue that was not full. */
  lemma PublishAppends<T>(s: Ring<T>)
    requires Inv(s) && Enabled(s, PStoreWr)
    ensures var s' := Next(s, PStoreWr);
      s'.taken <= |s'.accepted| && Queue(s') == Queue(s) + [s.producer.sample] && |Queue(s)| < s.capacity - 1
  {}

  /** Releasing drops the oldest. */
  lemma ReleaseDrops<T>(s: Ring<T>)
    requires Inv(s) && Enabled(s, RStoreRd)
    ensures var s' := Next(s, RStoreRd);
      s'.taken <= |s'.accepted| && s.reader.n <= |Queue(s)| && Queue(s') == Queue(s)[s.reader.n..]
  {}

  /** Every step is a step of a queue of at most capacity - 1 samples: it appends the sample just
      published, removes the oldest n, or leaves the queue alone; and a sample is counted as lost
      only when the queue was found full. */
  lemma StepRefinesQueue<T>(s: Ring<T>, a: Action<T>)
    requires Inv(s) && Enabled(s, a)
    ensures var s' := Next(s, a);
      && s'.taken <= |s'.accepted| && |Queue(s')| < s.capacity
      && match a {
        case PStoreWr => Queue(s') == Queue(s) + [s.producer.sample]
        case RStoreRd => s.reader.n <= |Queue(s)| && Queue(s') == Queue(s)[s.reader.n..]
        case PLoadRd => Queue(s') == Queue(s) && (s'.producer.PFull? <==> |Queue(s)| == s.capacity - 1)
        case _ => Queue(s') == Queue(s)
      }
    ensures Next(s, a).lost == s.lost + if a.PCountLost? then 1 else 0
  {
    match a
    case PStoreWr => PublishAppends(s);
    case RStoreRd => ReleaseDrops(s);
    case PLoadRd => LoadRdInv(s);
    case _ =>
  }

  /** What a finished copy hands over, if its slots were the right ones. */
  lemma CopyIsExact<T>(s: Ring<T>)
    requires Inv(s) && Enabled(s, RStoreRd) && s.reader.fits
    ensures s.reader.out == Queue(s)[..s.reader.n]
    ensures Next(s, RStoreRd).delivered == s.delivered + Queue(s)[..s.reader.n]
  {
    var n := s.reader.n;
    assert s.accepted[s.taken..s.taken + n] == Queue(s)[..n];
  }

  /** In general, with `published` samples stored between the loads: the slots are right exactly when
      the read asks for no more than was queued at the load of `wr`, or nothing was queued then, or
      the read does not reach the end of a buffer that had not wrapped. */
  lemma TornSnapshotFits<T>(s: Ring<T>, n: nat)
    requires Inv(s) && s.reader.RHaveWr? && n <= |Queue(s)|
    ensures var rd, wr, known := s.reader.rd, s.reader.wr, |Queue(s)| - s.reader.published;
      Fits(rd, wr, n, s.capacity) <==> n <= known || known == 0 || (rd < wr && rd + n <= s.capacity)
  {
    RingAdd(s.taken, |Queue(s)| - s.reader.published, s.capacity);
  }

  /** No sample published between the loads of `wr` and `entries`: the read is exact. */
  lemma QuietSnapshotFits<T>(s: Ring<T>, n: nat)
    requires Inv(s) && s.reader.RHaveWr? && s.reader.published == 0
    requires n <= s.entries
    ensures Fits(s.reader.rd, s.reader.wr, n, s.capacity)
  {
    TornSnapshotFits(s, n);
  }

  /** All copied slots lie inside the buffer, except when a buffer that had not wrapped is read past
      its end. */
  lemma CopiesInside(rd: nat, wr: nat, n: nat, capacity: nat)
    requires rd < capacity && wr < capacity
    ensures (forall slot :: slot in CopySlots(rd, wr, n, capacity) ==> slot < capacity)
            <==> (rd < wr ==> rd + n <= capacity)
  {
    if rd < wr && rd + n > capacity {
      assert CopySlots(rd, wr, n, capacity)[n - 1] == rd + n - 1;
      assert rd + n - 1 in CopySlots(rd, wr, n, capacity);
    }
  }

  /** The hypothesis on a run: no sample is published while a reader holds `wr` but not `entries`. */
  predicate QuietReads<T>(s: Ring<T>, acts: seq<Action<T>>)
    requires Runs(s, acts)
    decreases |acts|
  {
    acts == [] || (!(acts[0].PStoreWr? && s.reader.RHaveWr?) && QuietReads(Next(s, acts[0]), acts[1..]))
  }

  lemma {:induction false} QuietRunIsExact<T>(s: Ring<T>, acts: seq<Action<T>>)
    requires Inv(s) && Runs(s, acts) && QuietReads(s, acts)
    requires s.exact && (s.reader.RHaveWr? ==> s.reader.published == 0)
    ensures Run(s, acts).exact
    decreases |acts|
  {
    if acts != [] {
      StepInv(s, acts[0]);
      if acts[0].RLoadEntries? {
        var n := if s.entries <= 0 then 0 else Min(acts[0].wanted, s.entries);
        QuietSnapshotFits(s, n);
      }
      QuietRunIsExact(Next(s, acts[0]), acts[1..]);
    }
  }

  /** Exact delivery: over every run from a reset buffer whose reads all fitted, what the user got
      followed by what is still queued is what the producer accepted, in order and without gaps. */
  lemma ExactDelivery<T>(s: Ring<T>, acts: seq<Action<T>>)
    requires Init(s) && s.capacity <= 0x1_0000_0000
    requires Runs(s, acts) && Run(s, acts).exact
    ensures var e := Run(s, acts);
      e.taken <= |e.accepted| && e.delivered + Queue(e) == e.accepted && |Queue(e)| < e.capacity
  {
    InitInv(s);
    RunInv(s, acts);
    var e := Run(s, acts);
    assert e.accepted[..e.taken] + e.accepted[e.taken..] == e.accepted;
  }

  /** In particular every quiet run delivers exactly. */
  lemma QuietDelivery<T>(s: Ring<T>, acts: seq<Action<T>>)
    requires Init(s) && s.capacity <= 0x1_0000_0000
    requires Runs(s, acts) && QuietReads(s, acts)
    ensures var e := Run(s, acts); e.taken <= |e.accepted| && e.delivered + Queue(e) == e.accepted
  {
    InitInv(s);
    QuietRunIsExact(s, acts);
    ExactDelivery(s, acts);
  }

  // ----- what one read takes

  /** The load of `entries` decides the read: it takes the smaller of what is wanted and what is
      counted, and ends at once, with nothing, just when that is zero. */
  lemma ReadTakesTheLess<T>(s: Ring<T>, wanted: nat)
    requires s.capacity > 0 && Enabled(s, RLoadEntries(wanted))
    ensures var r := Next(s, RLoadEntries(wanted)).reader;
      if wanted == 0 || s.entries <= 0 then r.RIdle?
      else r.RCopying? && r.out == [] && r.n <= wanted && r.n <= s.entries && (r.n == wanted || r.n == s.entries)
  {}

  /** What holds while the copy is under way. */
  predicate Copying<T>(s: Ring<T>, n: nat, fits: bool) {
    s.reader.RCopying? && s.reader.n == n && s.reader.fits == fits
  }

  ghost predicate NoEnd<T>(acts: seq<Action<T>>) {
    forall a :: a in acts ==> !a.RStoreRd? && !a.RFault?
  }

  lemma {:induction false} CopyGoesOn<T>(s: Ring<T>, acts: seq<Action<T>>, n: nat, fits: bool)
    requires Inv(s) && Runs(s, acts) && NoEnd(acts) && Copying(s, n, fits)
    ensures var e := Run(s, acts);
      Inv(e) && Copying(e, n, fits) && e.taken == s.taken && e.delivered == s.delivered && s.accepted <= e.accepted
    decreases |acts|
  {
    if acts != [] {
      assert acts[0] in acts;
      StepInv(s, acts[0]);
      CopyGoesOn(Next(s, acts[0]), acts[1..], n, fits);
    }
  }

  /** A read of any size, whatever the producer does during the copy: if the loaded `wr` fits, it
      delivers the oldest samples, as many as wanted or counted, whichever is less, and leaves the
      rest of the queue and all newer samples. */
  lemma ReadDelivers<T>(s: Ring<T>, wanted: nat, acts: seq<Action<T>>)
    requires Inv(s) && Enabled(s, RLoadEntries(wanted)) && wanted > 0 && s.entries > 0
    requires Runs(Next(s, RLoadEntries(wanted)), acts) && NoEnd(acts)
    ensures var e := Run(Next(s, RLoadEntries(wanted)), acts); var n := Min(wanted, s.entries);
      && e.capacity > 0 && n <= |Queue(s)| && e.reader.RCopying? && e.reader.n == n
      && (Fits(s.reader.rd, s.reader.wr, n, s.capacity) && Enabled(e, RStoreRd) ==>
            var d := Next(e, RStoreRd);
            && d.delivered == s.delivered + Queue(s)[..n]
            && d.taken <= |d.accepted| && Queue(s)[n..] <= Queue(d))
  {
    var c := Next(s, RLoadEntries(wanted));
    var n := Min(wanted, s.entries);
    LoadEntriesInv(s, wanted);
    CopyGoesOn(c, acts, n, Fits(s.reader.rd, s.reader.wr, n, s.capacity));
    var e := Run(c, acts);
    PrefixParts(s.accepted, e.accepted, s.taken, n);
    if e.reader.fits && Enabled(e, RStoreRd) { CopyIsExact(e); }
  }

  /** So a read that asks for everything, with nothing published between its loads, delivers exactly
      the samples counted, oldest first. */
  lemma QuietReadTakesAll<T>(s: Ring<T>, wanted: nat, acts: seq<Action<T>>)
    requires Inv(s) && s.reader.RHaveWr? && s.reader.published == 0 && 0 < s.entries <= wanted
    requires Enabled(s, RLoadEntries(wanted)) && Runs(Next(s, RLoadEntries(wanted)), acts) && NoEnd(acts)
    requires Enabled(Run(Next(s, RLoadEntries(wanted)), acts), RStoreRd)
    ensures s.entries <= |Queue(s)| && Run(Next(s, RLoadEntries(wanted)), acts).capacity > 0
    ensures Next(Run(Next(s, RLoadEntries(wanted)), acts), RStoreRd).delivered == s.delivered + Queue(s)[..s.entries]
  {
    QuietSnapshotFits(s, s.entries);
    ReadDelivers(s, wanted, acts);
  }

  /** A fault in the copy costs nothing: the samples stay queued and counted. */
  lemma FaultKeepsQueue<T>(s: Ring<T>)
    requires Inv(s) && Enabled(s, RFault)
    ensures var e := Next(s, RFault);
      && e.reader.RIdle? && e.delivered == s.delivered
      && e.taken <= |e.accepted| && Queue(e) == Queue(s) && e.entries == |Queue(s)| - Uncounted(s.producer)
  {}

  /** A pass of the handler over a full buffer counts the sample as lost and ends; nothing else changes. */
  lemma FullPass<T>(s: Ring<T>)
    requires Inv(s) && s.producer.PIdle? && |Queue(s)| == s.capacity - 1
    ensures Runs(s, [PLoadWr, PLoadRd, PCountLost])
    ensures Run(s, [PLoadWr, PLoadRd, PCountLost]) == s.(lost := s.lost + 1)
  {
    var acts: seq<Action<T>> := [PLoadWr, PLoadRd, PCountLost];
    var a := Next(s, PLoadWr);
    StepInv(s, PLoadWr);
    LoadRdInv(a);
    var b := Next(a, PLoadRd);
    assert acts[1..] == [PLoadRd, PCountLost] && acts[1..][1..] == [PCountLost];
    assert Runs(b, [PCountLost]) && Run(b, [PCountLost]) == Next(b, PCountLost);
    assert Runs(a, acts[1..]) && Run(a, acts[1..]) == Next(b, PCountLost);
  }

  // ----- reads of counted samples

  /** A run from the moment FIONREAD counted at least `wanted` samples up to the end of the copy of
      one read of `wanted` samples that does not fault. */
  ghost predicate ServesRead<T>(s: Ring<T>, acts: seq<Action<T>>, wanted: nat) {
    && Inv(s) && s.reader.RIdle? && 0 < wanted <= s.entries
    && Runs(s, acts) && Run(s, acts).reader.RCopying? && Enabled(Run(s, acts), RStoreRd)
    && OneRead(acts, wanted)
  }

  ghost predicate OneRead<T>(acts: seq<Action<T>>, wanted: nat) {
    forall a :: a in acts ==> !a.RStoreRd? && !a.RFault? && (a.RLoadEntries? ==> a.wanted == wanted)
  }

  /** The `wanted` oldest samples stay safe for a read in any of its stages. */
  predicate Reserved<T>(s: Ring<T>, wanted: nat)
    requires s.taken <= |s.accepted|
  {
    match s.reader
    case RIdle | RHaveRd(_) => wanted <= s.entries
    case RHaveWr(_, _, published) => wanted <= s.entries && wanted + published <= |Queue(s)|
    case RCopying(n, _, _, fits) => n == wanted && fits
    case RStored(_) => false
  }

  lemma StaysReserved<T>(s: Ring<T>, a: Action<T>, wanted: nat)
    requires Inv(s) && Enabled(s, a) && Reserved(s, wanted) && 0 < wanted
    requires !a.RStoreRd? && !a.RFault? && (a.RLoadEntries? ==> a.wanted == wanted)
    ensures var s' := Next(s, a);
      && s'.taken == s.taken && s'.delivered == s.delivered && s.accepted <= s'.accepted && Reserved(s', wanted)
  {
    if a.RLoadEntries? { TornSnapshotFits(s, wanted); }
  }

  lemma {:induction false} RunStaysReserved<T>(s: Ring<T>, acts: seq<Action<T>>, wanted: nat)
    requires Inv(s) && Runs(s, acts) && Reserved(s, wanted) && 0 < wanted && OneRead(acts, wanted)
    ensures var e := Run(s, acts);
      && Inv(e) && e.taken == s.taken && e.delivered == s.delivered && s.accepted <= e.accepted && Reserved(e, wanted)
    decreases |acts|
  {
    if acts != [] {
      assert acts[0] in acts;
      StepInv(s, acts[0]);
      StaysReserved(s, acts[0], wanted);
      RunStaysReserved(Next(s, acts[0]), acts[1..], wanted);
    }
  }

  /** A read of no more than FIONREAD counted is served in full, with the very samples that were
      counted, whatever the producer publishes between the loads or during the copy: no hypothesis
      on the snapshot is needed. */
  lemma ReadIsNeverShort<T>(s: Ring<T>, acts: seq<Action<T>>, wanted: nat)
    requires ServesRead(s, acts, wanted)
    ensures wanted <= |Queue(s)| && Run(s, acts).capacity > 0
    ensures var e := Next(Run(s, acts), RStoreRd);
      && e.reader == RStored(wanted) && e.delivered == s.delivered + Queue(s)[..wanted]
      && e.taken <= |e.accepted| && Queue(s)[wanted..] <= Queue(e)
  {
    RunStaysReserved(s, acts, wanted);
    var e := Run(s, acts);
    CopyIsExact(e);
    PrefixParts(s.accepted, e.accepted, s.taken, wanted);
  }

  lemma PrefixParts<T>(a: seq<T>, b: seq<T>, from: nat, n: nat)
    requires a <= b && from + n <= |a|
    ensures b[from..][..n] == a[from..][..n] && a[from..][n..] <= b[from + n..]
  {
    assert forall i :: 0 <= i < |a[from..][n..]| ==> a[from..][n..][i] == b[from + n..][i];
  }

  // ----- a run that is not quiet

  ghost predicate Reaches<T(!new)>(s: Ring<T>, e: Ring<T>) {
    exists acts :: Runs(s, acts) && Run(s, acts) == e
  }

  lemma {:induction false} RunAppend<T>(s: Ring<T>, acts: seq<Action<T>>, a: Action<T>)
    requires Runs(s, acts) && Run(s, acts).capacity > 0 && Enabled(Run(s, acts), a)
    ensures Runs(s, acts + [a]) && Run(s, acts + [a]) == Next(Run(s, acts), a)
    decreases |acts|
  {
    if acts == [] {
      assert [] + [a] == [a] && [a][1..] == [];
    } else {
      RunAppend(Next(s, acts[0]), acts[1..], a);
      assert (acts + [a])[1..] == acts[1..] + [a];
    }
  }

  lemma Extend<T(!new)>(s: Ring<T>, e: Ring<T>, a: Action<T>)
    requires Reaches(s, e) && e.capacity > 0 && Enabled(e, a)
    ensures Reaches(s, Next(e, a))
  {
    var acts :| Runs(s, acts) && Run(s, acts) == e;
    RunAppend(s, acts, a);
  }

  /** One undisturbed pass of the handler over a buffer that is not full. */
  lemma Produce(s: Ring<int>, e: Ring<int>, x: int) returns (e': Ring<int>)
    requires Reaches(s, e) && e.producer.PIdle? && e.wr < e.capacity == |e.buf| && e.capacity <= 0x1_0000_0000
    requires (e.wr + 1) % e.capacity != e.rd
    ensures Reaches(s, e')
    ensures e' ==
      e.(buf := e.buf[e.wr := x], wr := (e.wr + 1) % e.capacity, entries := e.entries + 1,
         accepted := e.accepted + [x],
         reader := if e.reader.RHaveWr? then e.reader.(published := e.reader.published + 1) else e.reader)
  {
    NewWrIsNext(e.wr, e.capacity);
    Extend(s, e, PLoadWr); e' := Next(e, PLoadWr);
    Extend(s, e', PLoadRd); e' := Next(e', PLoadRd);
    Extend(s, e', PFill(x)); e' := Next(e', PFill(x));
    Extend(s, e', PStoreWr); e' := Next(e', PStoreWr);
    Extend(s, e', PCountEntry); e' := Next(e', PCountEntry);
  }

  function At(buf: seq<int>, slot: nat, beyond: int): int { if slot < |buf| then buf[slot] else beyond }

  /** What copying the slots yields; memory after the buffer holds `beyond`. */
  function Copied(buf: seq<int>, slots: seq<nat>, beyond: int): seq<int> {
    seq(|slots|, i requires 0 <= i < |slots| => At(buf, slots[i], beyond))
  }

  lemma {:induction false} CopyRest(s: Ring<int>, e: Ring<int>, beyond: int) returns (e': Ring<int>)
    requires Reaches(s, e) && e.capacity > 0 && e.reader.RCopying?
    requires e.reader.out <= Copied(e.buf, e.reader.slots, beyond)
    ensures Reaches(s, e')
    ensures e' == e.(reader := e.reader.(out := Copied(e.buf, e.reader.slots, beyond)))
    decreases |e.reader.slots| - |e.reader.out|
  {
    e' := e;
    if |e.reader.out| < |e.reader.slots| {
      Extend(s, e, RCopySlot(beyond));
      e' := CopyRest(s, Next(e, RCopySlot(beyond)), beyond);
    }
  }

  lemma StartCopy(s: Ring<int>, e: Ring<int>, n: nat, beyond: int) returns (e': Ring<int>)
    requires Reaches(s, e) && e.reader.RHaveWr? && e.reader.rd < e.capacity && 0 < n == e.entries
    ensures var slots, fits := CopySlots(e.reader.rd, e.reader.wr, n, e.capacity), Fits(e.reader.rd, e.reader.wr, n, e.capacity);
      && Reaches(s, e')
      && e' == e.(reader := RCopying(n, slots, Copied(e.buf, slots, beyond), fits), exact := e.exact && fits)
  {
    Extend(s, e, RLoadEntries(n)); e' := Next(e, RLoadEntries(n));
    e' := CopyRest(s, e', beyond);
  }

  lemma EndCopy(s: Ring<int>, e: Ring<int>) returns (e': Ring<int>)
    requires Reaches(s, e) && e.reader.RCopying? && e.capacity > 0 && |e.reader.out| == |e.reader.slots|
    ensures Reaches(s, e')
    ensures e' == e.(rd := (e.rd + e.reader.n) % e.capacity, entries := e.entries - e.reader.n,
                     taken := e.taken + e.reader.n, delivered := e.delivered + e.reader.out, reader := RIdle)
  {
    Extend(s, e, RStoreRd); e' := Next(e, RStoreRd);
    Extend(s, e', RDropEntries); e' := Next(e', RDropEntries);
  }

  /** The rest of a read, from the load of `entries` on, undisturbed. */
  lemma FinishRead(s: Ring<int>, e: Ring<int>, n: nat, slots: seq<nat>, beyond: int) returns (e': Ring<int>)
    requires Reaches(s, e) && e.reader.RHaveWr? && e.reader.rd < e.capacity && 0 < n == e.entries
    requires slots == CopySlots(e.reader.rd, e.reader.wr, n, e.capacity)
    ensures Reaches(s, e')
    ensures e' == e.(rd := (e.rd + n) % e.capacity, entries := 0, taken := e.taken + n, reader := RIdle,
                     delivered := e.delivered + Copied(e.buf, slots, beyond),
                     exact := e.exact && Fits(e.reader.rd, e.reader.wr, n, e.capacity))
  {
    e' := StartCopy(s, e, n, beyond);
    e' := EndCopy(s, e');
  }

  lemma StartRead(s: Ring<int>, e: Ring<int>) returns (e': Ring<int>)
    requires Reaches(s, e) && e.reader.RIdle? && e.capacity > 0
    ensures Reaches(s, e') && e' == e.(reader := RHaveWr(e.rd, e.wr, 0))
  {
    Extend(s, e, RLoadRd); e' := Next(e, RLoadRd);
    Extend(s, e', RLoadWr); e' := Next(e', RLoadWr);
  }

  /** A buffer of `capacity` slots with the first two used and read. */
  lemma TwoRead(capacity: nat) returns (s: Ring<int>, e: Ring<int>)
    requires 3 <= capacity <= 4
    ensures Init(s) && s.capacity == capacity && Reaches(s, e)
    ensures e == Ring(capacity, [10, 11] + seq(capacity - 2, _ => 0), 2, 2, 0, 0, PIdle, RIdle,
                      [10, 11], [10, 11], 2, true)
  {
    s := Ring(capacity, seq(capacity, _ => 0), 0, 0, 0, 0, PIdle, RIdle, [], [], 0, true);
    assert Runs(s, []) && Run(s, []) == s;
    e := Produce(s, s, 10);
    e := Produce(s, e, 11);
    assert e.buf == [10, 11] + seq(capacity - 2, _ => 0);
    e := StartRead(s, e);
    assert CopySlots(0, 2, 2, capacity) == [0, 1];
    e := FinishRead(s, e, 2, [0, 1], 0);
    assert e.delivered == [10, 11];
  }

  /** A buffer of three slots that has wrapped. */
  lemma WrapAround() returns (s: Ring<int>, e: Ring<int>)
    ensures Init(s) && Reaches(s, e)
    ensures e == Ring(3, [10, 11, 12], 0, 2, 1, 0, PIdle, RIdle, [10, 11, 12], [10, 11], 2, true)
  {
    s, e := TwoRead(3);
    e := Produce(s, e, 12);
    assert e.buf == [10, 11, 12];
  }

  /** The torn read. In that buffer, a sample published between the loads of `wr` and `entries`
      makes do_ibs_read copy one slot, report two samples and release both: the fourth sample is
      never delivered. */
  lemma TornRead() returns (s: Ring<int>, e: Ring<int>)
    ensures Init(s) && Reaches(s, e)
    ensures e.reader.RIdle? && e.accepted == [10, 11, 12, 13] && e.taken == 4 && e.delivered == [10, 11, 12]
  {
    s, e := WrapAround();
    e := StartRead(s, e);
    e := Produce(s, e, 13);
    assert CopySlots(2, 0, 2, 3) == [2];
    e := FinishRead(s, e, 2, [2], 0);
    assert e.delivered == [10, 11, 12];
  }

  /** The over-long read. In a buffer of four slots that has not wrapped, two samples published
      between the loads make do_ibs_read copy the slot after the last one: the third sample it
      delivers is whatever lies there. */
  lemma ReadPastEnd(beyond: int) returns (s: Ring<int>, e: Ring<int>)
    ensures Init(s) && s.capacity == 4 && Reaches(s, e)
    ensures e.reader.RIdle? && e.accepted == [10, 11, 12, 13, 14] && e.delivered == [10, 11, 12, 13, beyond]
  {
    s, e := TwoRead(4);
    e := Produce(s, e, 12);
    e := StartRead(s, e);
    e := Produce(s, e, 13);
    e := Produce(s, e, 14);
    assert e.buf == [14, 11, 12, 13];
    assert CopySlots(2, 3, 3, 4) == [2, 3, 4];
    e := FinishRead(s, e, 3, [2, 3, 4], beyond);
    assert Copied([14, 11, 12, 13], [2, 3, 4], beyond) == [12, 13, beyond];
  }
}
