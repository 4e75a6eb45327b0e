/** Sleeping and waking: ibs_read and ibs_poll wait on queues that only the bottom half of the NMI
    handler wakes. Readers wait for rd != wr, pollers for `entries` to reach the poll threshold,
    which stays fixed. */
module Wakeup {

  datatype Nmi = NIdle | NStored | NCounted

  datatype BottomHalf = BIdle | BStarted | BWokeReaders | BLoaded(entries: int)

  /** A thread on a wait queue: registered, then found its condition false. `woken` records a wake-up
      since it registered; a thread with `woken` set does not sleep on. */
  datatype Sleeper = Up | Watching(woken: bool) | Waiting(woken: bool)

  /** `published` and `taken` count the stores to `wr` and the samples released by stores to `rd`. */
  datatype State = State(
    published: nat, taken: nat, entries: int, threshold: int,
    nmi: Nmi, pending: bool, bottom: BottomHalf, reader: Sleeper, poller: Sleeper)

  datatype Action =
    | StoreWr | CountEntry | QueueWork
    | StartWork | WakeReaders | LoadEntries | WakePollers
    | ReaderRegisters | ReaderChecks | ReaderRises
    | PollerRegisters | PollerChecks | PollerRises
    | Release(n: nat) | DropEntries(n: nat)

  predicate Enabled(s: State, a: Action) {
    match a
    case StoreWr => s.nmi.NIdle?
    case CountEntry => s.nmi.NStored?
    case QueueWork => s.nmi.NCounted?
    case StartWork => s.pending && s.bottom.BIdle?
    case WakeReaders => s.bottom.BStarted?
    case LoadEntries => s.bottom.BWokeReaders?
    case WakePollers => s.bottom.BLoaded?
    case ReaderRegisters => s.reader.Up?
    case ReaderChecks => s.reader.Watching?
    case ReaderRises => s.reader.Waiting? && s.reader.woken
    case PollerRegisters => s.poller.Up?
    case PollerChecks => s.poller.Watching?
    case PollerRises => s.poller.Waiting? && s.poller.woken
    case Release(n) => s.taken + n <= s.published
    case DropEntries(n) => true
  }

  function Wake(t: Sleeper): Sleeper { if t.Up? then t else t.(woken := true) }

  function Next(s: State, a: Action): State
    requires Enabled(s, a)
  {
    match a
    case StoreWr => s.(published := s.published + 1, nmi := NStored)
    case CountEntry => s.(entries := s.entries + 1, nmi := NCounted)
    case QueueWork => s.(pending := true, nmi := NIdle)
    case StartWork => s.(pending := false, bottom := BStarted)
    case WakeReaders => s.(reader := Wake(s.reader), bottom := BWokeReaders)
    case LoadEntries => s.(bottom := BLoaded(s.entries))
    case WakePollers =>
      s.(poller := if s.bottom.entries >= s.threshold then Wake(s.poller) else s.poller, bottom := BIdle)
    case ReaderRegisters => s.(reader := Watching(false))
    case ReaderChecks => s.(reader := if s.published != s.taken then Up else Waiting(s.reader.woken))
    case ReaderRises => s.(reader := Up)
    case PollerRegisters => s.(poller := Watching(false))
    case PollerChecks => s.(poller := if s.entries >= s.threshold then Up else Waiting(s.poller.woken))
    case PollerRises => s.(poller := Up)
    case Release(n) => s.(taken := s.taken + n)
    case DropEntries(n) => s.(entries := s.entries - n)
  }

  /** Registering and finding the condition false is going to sleep; finding it true is not. */
  lemma SleepsJustWhenFalse(s: State)
    ensures Enabled(s, ReaderChecks) ==>
      var r := Next(s, ReaderChecks).reader; if s.published == s.taken then r == Waiting(s.reader.woken) else r.Up?
    ensures Enabled(s, PollerChecks) ==>
      var p := Next(s, PollerChecks).poller; if s.entries < s.threshold then p == Waiting(s.poller.woken) else p.Up?
  {}

  /** A thread that registers over a false condition and checks it at once falls asleep. */
  lemma RegisteringSleeps(s: State)
    ensures Enabled(s, ReaderRegisters) && s.published == s.taken ==>
      Asleep(Next(Next(s, ReaderRegisters), ReaderChecks).reader)
    ensures Enabled(s, PollerRegisters) && s.entries < s.threshold ==>
      Asleep(Next(Next(s, PollerRegisters), PollerChecks).poller)
  {}

  /** The bottom half wakes all readers, wakes pollers just when it found enough entries, and ends. */
  lemma WakesJustThese(s: State)
    ensures Enabled(s, WakeReaders) ==>
      !Asleep(Next(s, WakeReaders).reader) && Next(s, WakeReaders).poller == s.poller
    ensures Enabled(s, WakePollers) ==>
      var s' := Next(s, WakePollers);
      && s'.bottom.BIdle? && s'.reader == s.reader
      && (s.bottom.entries >= s.threshold ==> !Asleep(s'.poller))
      && (s.bottom.entries < s.threshold ==> s'.poller == s.poller)
  {}

  /** In its last two steps it looks at `entries` once, and wakes a sleeping poller just if they are enough. */
  lemma PollersWokenByEntries(s: State)
    requires s.bottom.BWokeReaders? && Asleep(s.poller)
    ensures Asleep(Next(Next(s, LoadEntries), WakePollers).poller) <==> s.entries < s.threshold
  {}

  lemma RisesWhenWoken(s: State)
    ensures Enabled(s, ReaderRises) ==> Next(s, ReaderRises).reader.Up?
    ensures Enabled(s, PollerRises) ==> Next(s, PollerRises).poller.Up?
  {}

  /** A thread that registers while its condition is false, and is not woken, sleeps until it is woken. */
  lemma {:induction false} SleepsUntilWoken(s: State, acts: seq<Action>)
    requires Runs(s, acts) && Asleep(s.reader) && WakeReaders !in acts
    ensures Asleep(Run(s, acts).reader)
    decreases |acts|
  {
    if acts != [] { SleepsUntilWoken(Next(s, acts[0]), acts[1..]); }
  }

  predicate Asleep(t: Sleeper) { t.Waiting? && !t.woken }

  predicate ReaderCovered(s: State) {
    Asleep(s.reader) && s.published != s.taken ==> s.pending || !s.nmi.NIdle? || s.bottom.BStarted?
  }

  predicate PollerCovered(s: State) {
    Asleep(s.poller) && s.entries >= s.threshold ==>
      || s.pending || s.nmi.NCounted? || s.bottom.BStarted? || s.bottom.BWokeReaders?
      || (s.bottom.BLoaded? && s.bottom.entries >= s.threshold)
  }

  predicate Inv(s: State) { s.taken <= s.published && ReaderCovered(s) && PollerCovered(s) }

  predicate Runs(s: State, acts: seq<Action>)
    decreases |acts|
  {
    acts == [] || (Enabled(s, acts[0]) && Runs(Next(s, acts[0]), acts[1..]))
  }

  function Run(s: State, acts: seq<Action>): State
    requires Runs(s, acts)
    decreases |acts|
  {
    if acts == [] then s else Run(Next(s, acts[0]), acts[1..])
  }

  lemma {:induction false} RunInv(s: State, acts: seq<Action>)
    requires Inv(s) && Runs(s, acts)
    ensures Inv(Run(s, acts)) && Run(s, acts).threshold == s.threshold
    decreases |acts|
  {
    if acts != [] { RunInv(Next(s, acts[0]), acts[1..]); }
  }

  /** No wake-up is lost: in every run from a state without sleepers, between NMI handlers, a poller
      asleep over enough entries or a reader asleep over an unread sample has a bottom half queued or
      already on its way to that wake-up. */
  lemma NoLostWakeup(s: State, acts: seq<Action>)
    requires s.reader.Up? && s.poller.Up? && s.taken <= s.published && Runs(s, acts)
    ensures var e := Run(s, acts);
      e.nmi.NIdle? ==>
        && (Asleep(e.reader) && e.published != e.taken ==> e.pending || e.bottom.BStarted?)
        && (Asleep(e.poller) && e.entries >= e.threshold ==>
              e.pending || (!e.bottom.BIdle? && (e.bottom.BLoaded? ==> e.bottom.entries >= e.threshold)))
  {
    RunInv(s, acts);
  }

  /** So when the handler and the bottom half are idle and nothing is queued, nobody sleeps over a true
      condition, whatever the interleaving was. */
  lemma NobodyOversleeps(s: State, acts: seq<Action>)
    requires s.reader.Up? && s.poller.Up? && s.taken <= s.published && Runs(s, acts)
    ensures var e := Run(s, acts);
      e.nmi.NIdle? && e.bottom.BIdle? && !e.pending ==>
        && (Asleep(e.reader) ==> e.published == e.taken)
        && (Asleep(e.poller) ==> e.entries < e.threshold)
  {
    NoLostWakeup(s, acts);
  }

  /** Not asleep, nor about to fall asleep without a new registration. */
  predicate Awake(t: Sleeper) { t.Up? || t.woken }

  lemma {:induction false} StaysAwake(s: State, acts: seq<Action>)
    requires Runs(s, acts)
    ensures Awake(s.reader) && ReaderRegisters !in acts ==> Awake(Run(s, acts).reader)
    ensures Awake(s.poller) && PollerRegisters !in acts ==> Awake(Run(s, acts).poller)
    decreases |acts|
  {
    if acts != [] { StaysAwake(Next(s, acts[0]), acts[1..]); }
  }

  /** And the bottom half delivers: once it has woken the readers, a reader that registered before is
      awake, and once it has loaded enough entries and gone on to wake the pollers, so is a poller,
      whatever else is interleaved. */
  lemma {:induction false} BottomHalfWakes(s: State, acts: seq<Action>)
    requires Runs(s, acts)
    ensures WakeReaders in acts && ReaderRegisters !in acts ==> !Asleep(Run(s, acts).reader)
    ensures s.bottom.BLoaded? && s.bottom.entries >= s.threshold && WakePollers in acts && PollerRegisters !in acts ==>
      !Asleep(Run(s, acts).poller)
    decreases |acts|
  {
    if acts != [] {
      StaysAwake(Next(s, acts[0]), acts[1..]);
      BottomHalfWakes(Next(s, acts[0]), acts[1..]);
    }
  }

  // ----- what the steps count

  /** Samples published, released and counted, bottom halves queued and started. */
  datatype Totals = Totals(stores: nat, releases: nat, counts: nat, drops: nat, queues: nat, starts: nat)

  function TotalsOf(acts: seq<Action>): Totals
    decreases |acts|
  {
    if acts == [] then Totals(0, 0, 0, 0, 0, 0)
    else
      var t := TotalsOf(acts[1..]);
      match acts[0]
      case StoreWr => t.(stores := t.stores + 1)
      case Release(n) => t.(releases := t.releases + n)
      case CountEntry => t.(counts := t.counts + 1)
      case DropEntries(n) => t.(drops := t.drops + n)
      case QueueWork => t.(queues := t.queues + 1)
      case StartWork => t.(starts := t.starts + 1)
      case _ => t
  }

  /** Over every run the indices and `entries` move by what was stored and released, and no bottom half
      runs without having been queued: several requests may share one run, none is repeated. */
  lemma {:induction false} RunCounts(s: State, acts: seq<Action>)
    requires Runs(s, acts)
    ensures var e, t := Run(s, acts), TotalsOf(acts);
      && e.published == s.published + t.stores && e.taken == s.taken + t.releases
      && e.entries == s.entries + t.counts - t.drops
      && t.starts + (if e.pending then 1 else 0) <= t.queues + (if s.pending then 1 else 0)
    decreases |acts|
  {
    if acts != [] { RunCounts(Next(s, acts[0]), acts[1..]); }
  }
}
