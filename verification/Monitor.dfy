/** The accounting of tools/ibs_monitor over a whole run: how many samples the handlers stored or
    dropped, how many the monitor read or was told were lost, and how many are still in the driver. */
module Monitor {
  import opened Arith

  datatype Kind = OpDevice | FetchDevice

  /** One device: `queued` and `lost` as the driver keeps them, `stored` and `dropped` every sample that
      its handler claimed since the device was enabled. */
  datatype Dev = Dev(kind: Kind, enabled: bool, queued: nat, lost: nat, stored: nat, dropped: nat)

  /** What arrives on a device between two driver calls: samples stored and samples dropped. */
  datatype Arrivals = Arrivals(stored: nat, dropped: nat)

  type Schedule = (nat, nat) -> Arrivals   // before driver call number t, on device i

  /** An NMI burst on one device: nothing happens to a device that is not enabled. */
  function Arrive(d: Dev, a: Arrivals): Dev {
    if d.enabled
    then d.(queued := d.queued + a.stored, lost := d.lost + a.dropped,
            stored := d.stored + a.stored, dropped := d.dropped + a.dropped)
    else d
  }

  /** The reply to RESET_BUFFER: refused while enabled. */
  function ResetBuffer(d: Dev): Dev { if d.enabled then d else d.(queued := 0, lost := 0) }

  /** IBS_DISABLE and close: release resets the buffer. */
  function Closed(d: Dev): Dev { d.(enabled := false, queued := 0, lost := 0) }

  // ----- sums over the devices of one kind

  datatype Count = Stored | Dropped | Queued | Lost

  function One(d: Dev, k: Kind, c: Count): int {
    if d.kind != k then 0
    else match c case Stored => d.stored case Dropped => d.dropped case Queued => d.queued case Lost => d.lost
  }

  function Total(devs: seq<Dev>, k: Kind, c: Count): int
    decreases |devs|
  {
    if devs == [] then 0 else Total(devs[..|devs| - 1], k, c) + One(devs[|devs| - 1], k, c)
  }

  lemma {:induction false} TotalUpdate(devs: seq<Dev>, i: nat, d: Dev, k: Kind, c: Count)
    requires i < |devs|
    ensures Total(devs[i := d], k, c) == Total(devs, k, c) - One(devs[i], k, c) + One(d, k, c)
    decreases |devs|
  {
    var n := |devs| - 1;
    if i == n {
      assert devs[i := d][..n] == devs[..n];
    } else {
      TotalUpdate(devs[..n], i, d, k, c);
      assert devs[i := d][..n] == devs[..n][i := d];
    }
  }

  lemma TotalsUpdate(devs: seq<Dev>, i: nat, d: Dev)
    requires i < |devs|
    ensures forall k, c :: Total(devs[i := d], k, c) == Total(devs, k, c) - One(devs[i], k, c) + One(d, k, c)
  {
    forall k, c ensures Total(devs[i := d], k, c) == Total(devs, k, c) - One(devs[i], k, c) + One(d, k, c) {
      TotalUpdate(devs, i, d, k, c);
    }
  }

  lemma {:induction false} TotalOfFresh(devs: seq<Dev>, k: Kind, c: Count)
    requires forall i :: 0 <= i < |devs| ==> devs[i] == Dev(devs[i].kind, true, 0, 0, 0, 0)
    ensures Total(devs, k, c) == 0
    decreases |devs|
  {
    if devs != [] { TotalOfFresh(devs[..|devs| - 1], k, c); }
  }

  /** The lost counts of the devices that have nothing queued: the monitor does not ask for them. */
  function Stranded(devs: seq<Dev>, k: Kind): nat {
    if devs == [] then 0
    else Stranded(devs[..|devs| - 1], k) +
         if devs[|devs| - 1].kind == k && devs[|devs| - 1].queued == 0 then devs[|devs| - 1].lost else 0
  }

  /** A device after it was read with nothing arriving meanwhile. */
  function Drained(d: Dev): Dev { if d.queued == 0 then d else d.(queued := 0, lost := 0) }

  lemma {:induction false} DrainedTotal(devs: seq<Dev>, after: seq<Dev>, k: Kind, c: Count)
    requires |after| == |devs| && forall i :: 0 <= i < |devs| ==> after[i] == Drained(devs[i])
    ensures Total(after, k, c) == match c
      case Queued => 0
      case Lost => Stranded(devs, k)
      case _ => Total(devs, k, c)
    decreases |devs|
  {
    if devs != [] {
      var n := |devs| - 1;
      assert after[n] == Drained(devs[n]);
      DrainedTotal(devs[..n], after[..n], k, c);
    }
  }

  lemma {:induction false} ClosedTotal(devs: seq<Dev>, after: seq<Dev>, k: Kind, c: Count)
    requires |after| == |devs| && forall i :: 0 <= i < |devs| ==> after[i] == Closed(devs[i])
    ensures Total(after, k, c) == match c
      case Queued => 0
      case Lost => 0
      case _ => Total(devs, k, c)
    decreases |devs|
  {
    if devs != [] {
      var n := |devs| - 1;
      assert after[n] == Closed(devs[n]);
      ClosedTotal(devs[..n], after[..n], k, c);
    }
  }

  /** A counter for each kind of device. */
  datatype Tally = Tally(op: nat, fetch: nat) {
    function Of(k: Kind): nat { if k.OpDevice? then op else fetch }

    function Add(k: Kind, n: nat): Tally { if k.OpDevice? then this.(op := op + n) else this.(fetch := fetch + n) }

    function Plus(other: Tally): Tally { Tally(op + other.op, fetch + other.fetch) }
  }

  /** Every stored sample was taken or is still queued, and every dropped one was reported or is still
      in a lost count. */
  predicate Conserved(devs: seq<Dev>, taken: Tally, lost: Tally, k: Kind) {
    && Total(devs, k, Stored) == taken.Of(k) + Total(devs, k, Queued)
    && Total(devs, k, Dropped) == lost.Of(k) + Total(devs, k, Lost)
  }

  predicate Balanced(devs: seq<Dev>, taken: Tally, lost: Tally) {
    Conserved(devs, taken, lost, OpDevice) && Conserved(devs, taken, lost, FetchDevice)
  }

  lemma ArrivalKeepsBalance(devs: seq<Dev>, i: nat, a: Arrivals, taken: Tally, lost: Tally)
    requires i < |devs| && Balanced(devs, taken, lost)
    ensures Balanced(devs[i := Arrive(devs[i], a)], taken, lost)
  {
    TotalsUpdate(devs, i, Arrive(devs[i], a));
  }

  /** Reading moves samples from queued to taken; GET_LOST moves lost counts likewise. */
  lemma ReadKeepsBalance(devs: seq<Dev>, i: nat, taken: Tally, lost: Tally)
    requires i < |devs| && Balanced(devs, taken, lost)
    ensures Balanced(devs[i := devs[i].(queued := 0)], taken.Add(devs[i].kind, devs[i].queued), lost)
    ensures Balanced(devs[i := devs[i].(lost := 0)], taken, lost.Add(devs[i].kind, devs[i].lost))
  {
    TotalsUpdate(devs, i, devs[i].(queued := 0));
    TotalsUpdate(devs, i, devs[i].(lost := 0));
  }

  /** Closing a device discards what it held. */
  lemma CloseKeepsBalance(devs: seq<Dev>, i: nat, taken: Tally, lost: Tally)
    requires i < |devs| && Balanced(devs, taken, lost)
    ensures var d := devs[i];
      Balanced(devs[i := Closed(d)], taken.Add(d.kind, d.queued), lost.Add(d.kind, d.lost))
  {
    TotalsUpdate(devs, i, Closed(devs[i]));
  }

  predicate AllEnabled(devs: seq<Dev>) {
    forall i :: 0 <= i < |devs| ==> devs[i].enabled
  }

  // ----- what becomes of each device

  /** A device after the arrivals before the calls numbered from..till. */
  function Grow(arrivals: Schedule, d: Dev, i: nat, from: nat, till: nat): Dev
    requires from <= till
    decreases till - from
  {
    if from == till then d else Arrive(Grow(arrivals, d, i, from, till - 1), arrivals(till - 1, i))
  }

  lemma {:induction false} GrowAppend(arrivals: Schedule, d: Dev, i: nat, a: nat, b: nat, c: nat)
    requires a <= b <= c
    ensures Grow(arrivals, Grow(arrivals, d, i, a, b), i, b, c) == Grow(arrivals, d, i, a, c)
    decreases c - b
  {
    if b < c { GrowAppend(arrivals, d, i, a, b, c - 1); }
  }

  ghost predicate QuietFrom(arrivals: Schedule, t: nat) {
    forall u: nat, i: nat :: t <= u ==> arrivals(u, i) == Arrivals(0, 0)
  }

  lemma {:induction false} GrowQuiet(arrivals: Schedule, d: Dev, i: nat, from: nat, till: nat)
    requires from <= till && QuietFrom(arrivals, from)
    ensures Grow(arrivals, d, i, from, till) == d
    decreases till - from
  {
    if from < till { GrowQuiet(arrivals, d, i, from, till - 1); }
  }

  /** What became of a device between the calls numbered from and till: if it was read, with call number
      t, then everything queued up to there was taken, and its lost count with the next call; an empty
      device, or one that was not read, only grew. */
  predicate Outcome(arrivals: Schedule, before: Dev, after: Dev, i: nat, read: bool, from: nat, t: nat, till: nat)
    requires from <= till
  {
    if !read then after == Grow(arrivals, before, i, from, till)
    else
      && from <= t < till
      && var found := Grow(arrivals, before, i, from, t + 1);
      if found.queued == 0 then after == Grow(arrivals, before, i, from, till)
      else t + 2 <= till &&
           after == Grow(arrivals, Arrive(found.(queued := 0), arrivals(t + 1, i)).(lost := 0), i, t + 2, till)
  }

  lemma OutcomeGrows(arrivals: Schedule, before: Dev, after: Dev, i: nat, read: bool, from: nat, t: nat, till: nat, later: nat)
    requires from <= till <= later && Outcome(arrivals, before, after, i, read, from, t, till)
    ensures Outcome(arrivals, before, Grow(arrivals, after, i, till, later), i, read, from, t, later)
  {
    GrowAppend(arrivals, before, i, from, till, later);
    if read {
      var found := Grow(arrivals, before, i, from, t + 1);
      if found.queued != 0 {
        GrowAppend(arrivals, Arrive(found.(queued := 0), arrivals(t + 1, i)).(lost := 0), i, t + 2, till, later);
      }
    }
  }

  /** A device that had grown up to `at` and was read then. */
  lemma OutcomeAfterGrowth(arrivals: Schedule, before: Dev, after: Dev, i: nat, from: nat, at: nat, till: nat)
    requires from <= at < till && Outcome(arrivals, Grow(arrivals, before, i, from, at), after, i, true, at, at, till)
    ensures Outcome(arrivals, before, after, i, true, from, at, till)
  {
    GrowAppend(arrivals, before, i, from, at, at + 1);
    GrowAppend(arrivals, before, i, from, at, till);
  }

  lemma QuietOutcome(arrivals: Schedule, before: Dev, after: Dev, i: nat, from: nat, t: nat, till: nat)
    requires from <= till && QuietFrom(arrivals, from) && before.enabled
    requires Outcome(arrivals, before, after, i, true, from, t, till)
    ensures after == Drained(before)
  {
    GrowQuiet(arrivals, before, i, from, t + 1);
    GrowQuiet(arrivals, before, i, from, till);
    if before.queued != 0 {
      GrowQuiet(arrivals, Arrive(before.(queued := 0), arrivals(t + 1, i)).(lost := 0), i, t + 2, till);
    }
  }

  // ----- all devices at once

  predicate AllGrew(arrivals: Schedule, before: seq<Dev>, after: seq<Dev>, from: nat, till: nat)
    requires from <= till
  {
    |before| == |after| && forall j :: 0 <= j < |after| ==> after[j] == Grow(arrivals, before[j], j, from, till)
  }

  lemma GrewOneMore(arrivals: Schedule, before: seq<Dev>, was: seq<Dev>, now: seq<Dev>, from: nat, at: nat)
    requires from <= at && AllGrew(arrivals, before, was, from, at) && |now| == |was|
    requires forall j :: 0 <= j < |now| ==> now[j] == Arrive(was[j], arrivals(at, j))
    ensures AllGrew(arrivals, before, now, from, at + 1)
  {}

  /** What one read_and_write leaves: device i was read with call number `at`, the others only grew. */
  predicate OneRead(arrivals: Schedule, before: seq<Dev>, after: seq<Dev>, i: nat, at: nat, till: nat)
    requires at <= till
  {
    && |before| == |after|
    && forall j :: 0 <= j < |after| ==> Outcome(arrivals, before[j], after[j], j, j == i, at, at, till)
  }

  lemma EmptyRead(arrivals: Schedule, before: seq<Dev>, found: seq<Dev>, i: nat, at: nat)
    requires AllGrew(arrivals, before, found, at, at + 1) && i < |found| && found[i].queued == 0
    ensures OneRead(arrivals, before, found, i, at, at + 1)
  {}

  /** The read empties the queue, the next call takes the lost count. */
  lemma FullRead(arrivals: Schedule, before: seq<Dev>, found: seq<Dev>, later: seq<Dev>, i: nat, at: nat)
    requires AllGrew(arrivals, before, found, at, at + 1) && i < |found| == |later| && found[i].queued != 0
    requires forall j :: 0 <= j < |later| ==>
      later[j] == Arrive(if j == i then found[j].(queued := 0) else found[j], arrivals(at + 1, j))
    ensures OneRead(arrivals, before, later[i := later[i].(lost := 0)], i, at, at + 2)
  {
    var after := later[i := later[i].(lost := 0)];
    forall j | 0 <= j < |after| ensures Outcome(arrivals, before[j], after[j], j, j == i, at, at, at + 2) {
      assert found[j] == Grow(arrivals, before[j], j, at, at + 1);
    }
  }

  /** What poll_ibs or flush_ibs_buffers has done up to device n; times[j] is the number of the call that
      read device j. */
  predicate ReadUpTo(arrivals: Schedule, before: seq<Dev>, now: seq<Dev>, reported: nat -> bool, times: seq<nat>,
                     n: nat, from: nat, till: nat)
  {
    && |now| == |before| && |times| == n <= |now| && from <= till
    && (forall j :: 0 <= j < n ==> Outcome(arrivals, before[j], now[j], j, reported(j), from, times[j], till))
    && (forall j :: n <= j < |now| ==> now[j] == Grow(arrivals, before[j], j, from, till))
  }

  lemma NothingRead(arrivals: Schedule, devs: seq<Dev>, reported: nat -> bool, from: nat)
    ensures ReadUpTo(arrivals, devs, devs, reported, [], 0, from, from)
  {}

  lemma ReadOneMore(arrivals: Schedule, before: seq<Dev>, was: seq<Dev>, now: seq<Dev>, reported: nat -> bool,
                    times: seq<nat>, i: nat, from: nat, at: nat, till: nat)
    requires ReadUpTo(arrivals, before, was, reported, times, i, from, at) && i < |was| && reported(i)
    requires at < till && OneRead(arrivals, was, now, i, at, till)
    ensures ReadUpTo(arrivals, before, now, reported, times + [at], i + 1, from, till)
  {
    forall j | 0 <= j < i ensures Outcome(arrivals, before[j], now[j], j, reported(j), from, times[j], till) {
      assert now[j] == Grow(arrivals, was[j], j, at, till);
      OutcomeGrows(arrivals, before[j], was[j], j, reported(j), from, times[j], at, till);
    }
    OutcomeAfterGrowth(arrivals, before[i], now[i], i, from, at, till);
    forall j | i < j < |now| ensures now[j] == Grow(arrivals, before[j], j, from, till) {
      assert now[j] == Grow(arrivals, was[j], j, at, till);
      GrowAppend(arrivals, before[j], j, from, at, till);
    }
  }

  lemma SkipOne(arrivals: Schedule, before: seq<Dev>, now: seq<Dev>, reported: nat -> bool,
                times: seq<nat>, i: nat, from: nat, at: nat)
    requires ReadUpTo(arrivals, before, now, reported, times, i, from, at) && i < |now| && !reported(i)
    ensures ReadUpTo(arrivals, before, now, reported, times + [at], i + 1, from, at)
  {}

  lemma FlushDrains(arrivals: Schedule, before: seq<Dev>, now: seq<Dev>, reported: nat -> bool, times: seq<nat>,
                    from: nat, till: nat)
    requires QuietFrom(arrivals, from) && AllEnabled(before) && forall i: nat :: reported(i)
    requires ReadUpTo(arrivals, before, now, reported, times, |now|, from, till)
    ensures forall i :: 0 <= i < |now| ==> now[i] == Drained(before[i])
  {
    forall i | 0 <= i < |now| ensures now[i] == Drained(before[i]) {
      QuietOutcome(arrivals, before[i], now[i], i, from, times[i], till);
    }
  }

  /** The devices that were reported, in order. */
  function Reported(reported: nat -> bool, n: nat): seq<nat> {
    if n == 0 then [] else Reported(reported, n - 1) + if reported(n - 1) then [n - 1] else []
  }

  /** The reads of all polls, one after the other. */
  function Polled(polls: seq<nat -> bool>, n: nat): seq<nat> {
    if polls == [] then [] else Polled(polls[..|polls| - 1], n) + Reported(polls[|polls| - 1], n)
  }

  lemma PolledMore(polls: seq<nat -> bool>, p: nat, n: nat)
    requires p < |polls|
    ensures Polled(polls[..p + 1], n) == Polled(polls[..p], n) + Reported(polls[p], n)
  {
    assert polls[..p + 1][..p] == polls[..p];
  }

  class Run {
    var devs: seq<Dev>
    var counted: Tally               // n_op_samples, n_fetch_samples
    var lostTaken: Tally             // n_lost_op_samples, n_lost_fetch_samples
    var calls: nat                   // driver calls so far
    const arrivals: Schedule
    ghost var log: seq<nat>          // the devices read so far

    ghost predicate Valid()
      reads this
    {
      Balanced(devs, counted, lostTaken)
    }

    /** enable_ibs_flavors: every device opened, reset and enabled, the counters at zero. */
    constructor (kinds: seq<Kind>, arrivals: Schedule)
      ensures Valid() && AllEnabled(devs) && |devs| == |kinds| && this.arrivals == arrivals && log == []
      ensures forall i :: 0 <= i < |devs| ==> devs[i] == Dev(kinds[i], true, 0, 0, 0, 0)
      ensures counted == Tally(0, 0) && lostTaken == Tally(0, 0)
    {
      devs := seq(|kinds|, i requires 0 <= i < |kinds| => Dev(kinds[i], true, 0, 0, 0, 0));
      counted, lostTaken, calls := Tally(0, 0), Tally(0, 0), 0;
      this.arrivals, log := arrivals, [];
      new;
      forall k, c ensures Total(devs, k, c) == 0 { TotalOfFresh(devs, k, c); }
    }

    /** NMIs on all devices, at any time before the next driver call. `taken` and `lost` are what the
        monitor got or what went with a closed device. */
    method Interrupts(ghost taken: Tally, ghost lost: Tally)
      requires Balanced(devs, taken, lost)
      modifies `devs, `calls
      ensures Balanced(devs, taken, lost) && |devs| == |old(devs)| && calls == old(calls) + 1
      ensures forall i :: 0 <= i < |devs| ==> devs[i] == Arrive(old(devs)[i], arrivals(old(calls), i))
    {
      ghost var before := devs;
      for i := 0 to |devs|
        invariant Balanced(devs, taken, lost) && |devs| == |before| && calls == old(calls)
        invariant forall j :: 0 <= j < i ==> devs[j] == Arrive(before[j], arrivals(calls, j))
        invariant forall j :: i <= j < |devs| ==> devs[j] == before[j]
      {
        ArrivalKeepsBalance(devs, i, arrivals(calls, i), taken, lost);
        devs := devs[i := Arrive(devs[i], arrivals(calls, i))];
      }
      calls := calls + 1;
    }

    /** RESET_BUFFER on one device. */
    method ResetOne(i: nat)
      requires Valid() && AllEnabled(devs) && i < |devs|
      modifies `devs, `calls
      ensures Valid() && |devs| == |old(devs)| && calls == old(calls) + 1
      ensures forall j :: 0 <= j < |devs| ==> devs[j] == Arrive(old(devs)[j], arrivals(old(calls), j))
    {
      Interrupts(counted, lostTaken);
      assert devs[i := ResetBuffer(devs[i])] == devs;
      devs := devs[i := ResetBuffer(devs[i])];
    }

    /** reset_ibs_buffers, which forgets nothing because every device is enabled. */
    method ResetBuffers()
      requires Valid() && AllEnabled(devs)
      modifies `devs, `calls
      ensures Valid() && AllEnabled(devs) && old(calls) <= calls
      ensures AllGrew(arrivals, old(devs), devs, old(calls), calls)
    {
      ghost var before, from := devs, calls;
      for i := 0 to |devs|
        invariant Valid() && AllEnabled(devs) && from <= calls && AllGrew(arrivals, before, devs, from, calls)
      {
        ghost var was, at := devs, calls;
        ResetOne(i);
        GrewOneMore(arrivals, before, was, devs, from, at);
      }
    }

    /** The read: everything queued up to this call. `found` are the devices as the call meets them. */
    method TakeQueued(i: nat) returns (n: nat, ghost found: seq<Dev>)
      requires Valid() && AllEnabled(devs) && i < |devs|
      modifies `devs, `calls, `counted
      ensures Valid() && AllEnabled(devs) && calls == old(calls) + 1 && |found| == |devs| == |old(devs)|
      ensures AllGrew(arrivals, old(devs), found, old(calls), old(calls) + 1)
      ensures found[i] == Arrive(old(devs)[i], arrivals(old(calls), i))
      ensures n == found[i].queued && counted == old(counted).Add(found[i].kind, n)
      ensures devs == found[i := found[i].(queued := 0)]
    {
      Interrupts(counted, lostTaken);
      found := devs;
      n := devs[i].queued;
      GrewOneMore(arrivals, old(devs), old(devs), found, old(calls), old(calls));
      ReadKeepsBalance(devs, i, counted, lostTaken);
      devs, counted := devs[i := devs[i].(queued := 0)], counted.Add(devs[i].kind, n);
    }

    /** GET_LOST. */
    method TakeLost(i: nat) returns (ghost found: seq<Dev>)
      requires Valid() && AllEnabled(devs) && i < |devs|
      modifies `devs, `calls, `lostTaken
      ensures Valid() && AllEnabled(devs) && calls == old(calls) + 1 && |found| == |devs| == |old(devs)|
      ensures forall j :: 0 <= j < |found| ==> found[j] == Arrive(old(devs)[j], arrivals(old(calls), j))
      ensures lostTaken == old(lostTaken).Add(found[i].kind, found[i].lost)
      ensures devs == found[i := found[i].(lost := 0)]
    {
      Interrupts(counted, lostTaken);
      found := devs;
      ReadKeepsBalance(devs, i, counted, lostTaken);
      devs, lostTaken := devs[i := devs[i].(lost := 0)], lostTaken.Add(devs[i].kind, devs[i].lost);
    }

    /** read_and_write_op_data and its fetch twin: read everything queued, then take the lost count;
        an empty device is left alone. */
    method ReadAndWrite(i: nat)
      requires Valid() && AllEnabled(devs) && i < |devs|
      modifies `devs, `calls, `counted, `lostTaken, `log
      ensures Valid() && AllEnabled(devs) && log == old(log) + [i] && old(calls) < calls
      ensures OneRead(arrivals, old(devs), devs, i, old(calls), calls)
      ensures var found := Arrive(old(devs)[i], arrivals(old(calls), i));
        if found.queued == 0 then counted == old(counted) && lostTaken == old(lostTaken)
        else
          var taken := Arrive(found.(queued := 0), arrivals(old(calls) + 1, i));
          && counted == old(counted).Add(found.kind, found.queued)
          && lostTaken == old(lostTaken).Add(found.kind, taken.lost)
    {
      log := log + [i];
      var n, found := TakeQueued(i);
      if n == 0 {
        assert devs == found;
        EmptyRead(arrivals, old(devs), devs, i, old(calls));
      } else {
        FinishRead(i, old(devs), found);
      }
    }

    /** GET_LOST after a read that found something. */
    method FinishRead(i: nat, ghost before: seq<Dev>, ghost found: seq<Dev>)
      requires Valid() && AllEnabled(devs) && i < |found| && calls > 0 && AllGrew(arrivals, before, found, calls - 1, calls)
      requires found[i].queued != 0 && devs == found[i := found[i].(queued := 0)]
      modifies `devs, `calls, `lostTaken
      ensures Valid() && AllEnabled(devs) && calls == old(calls) + 1
      ensures OneRead(arrivals, before, devs, i, old(calls) - 1, calls)
      ensures lostTaken == old(lostTaken).Add(found[i].kind, Arrive(found[i].(queued := 0), arrivals(old(calls), i)).lost)
    {
      ghost var later := TakeLost(i);
      FullRead(arrivals, before, found, later, i, old(calls) - 1);
    }

    /** One turn of the loops of poll_ibs and flush_ibs_buffers. */
    method ReadIfReported(i: nat, reported: nat -> bool, ghost before: seq<Dev>, ghost from: nat, ghost times: seq<nat>)
      requires Valid() && AllEnabled(devs) && i < |devs|
      requires ReadUpTo(arrivals, before, devs, reported, times, i, from, calls)
      modifies `devs, `calls, `counted, `lostTaken, `log
      ensures Valid() && AllEnabled(devs) && log == old(log) + if reported(i) then [i] else []
      ensures ReadUpTo(arrivals, before, devs, reported, times + [old(calls)], i + 1, from, calls)
    {
      if reported(i) {
        ReadAndWrite(i);
        ReadOneMore(arrivals, before, old(devs), devs, reported, times, i, from, old(calls), calls);
      } else {
        SkipOne(arrivals, before, devs, reported, times, i, from, calls);
      }
    }

    /** poll_ibs and flush_ibs_buffers: the devices that poll() reported, or all of them, are read once
        each and in order. */
    method ReadDevices(reported: nat -> bool) returns (ghost times: seq<nat>)
      requires Valid() && AllEnabled(devs)
      modifies `devs, `calls, `counted, `lostTaken, `log
      ensures Valid() && AllEnabled(devs) && log == old(log) + Reported(reported, |devs|)
      ensures ReadUpTo(arrivals, old(devs), devs, reported, times, |devs|, old(calls), calls)
    {
      ghost var before, from, start := devs, calls, log;
      times := [];
      NothingRead(arrivals, before, reported, from);
      assert log == start + [];
      for i := 0 to |devs|
        invariant Valid() && AllEnabled(devs) && ReadUpTo(arrivals, before, devs, reported, times, i, from, calls)
        invariant log == start + Reported(reported, i)
      {
        ghost var at := calls;
        ReadIfReported(i, reported, before, from, times);
        times := times + [at];
        Regroup(start, Reported(reported, i), if reported(i) then [i] else []);
      }
    }

    /** One turn of the main loop. */
    method PollOnce(reported: nat -> bool)
      requires Valid() && AllEnabled(devs)
      modifies `devs, `calls, `counted, `lostTaken, `log
      ensures Valid() && AllEnabled(devs) && |devs| == |old(devs)| && log == old(log) + Reported(reported, |devs|)
    {
      ghost var times := ReadDevices(reported);
    }

    /** The main loop: one poll after the other. */
    method Poll(polls: seq<nat -> bool>)
      requires Valid() && AllEnabled(devs)
      modifies `devs, `calls, `counted, `lostTaken, `log
      ensures Valid() && AllEnabled(devs) && |devs| == |old(devs)| && log == old(log) + Polled(polls, |devs|)
    {
      ghost var size := |devs|;
      for p := 0 to |polls|
        invariant Valid() && AllEnabled(devs) && |devs| == size
        invariant log == old(log) + Polled(polls[..p], size)
      {
        PollOnce(polls[p]);
        PolledMore(polls, p, size);
        Regroup(old(log), Polled(polls[..p], size), Reported(polls[p], size));
      }
      assert polls[..|polls|] == polls;
    }

    /** flush_ibs_buffers. */
    method Flush()
      requires Valid() && AllEnabled(devs)
      modifies `devs, `calls, `counted, `lostTaken, `log
      ensures Valid() && AllEnabled(devs) && |devs| == |old(devs)| && old(calls) <= calls
      ensures log == old(log) + Reported(_ => true, |devs|)
      ensures QuietFrom(arrivals, old(calls)) ==> forall i :: 0 <= i < |devs| ==> devs[i] == Drained(old(devs)[i])
    {
      ghost var before, from := devs, calls;
      ghost var times := ReadDevices(_ => true);
      if QuietFrom(arrivals, from) { FlushDrains(arrivals, before, devs, _ => true, times, from, calls); }
    }

    /** IBS_DISABLE and close on one device. */
    method CloseOne(i: nat, unread: Tally, untold: Tally) returns (unread': Tally, untold': Tally)
      requires i < |devs| && Balanced(devs, counted.Plus(unread), lostTaken.Plus(untold))
      modifies `devs, `calls
      ensures |devs| == |old(devs)| && calls == old(calls) + 1
      ensures Balanced(devs, counted.Plus(unread'), lostTaken.Plus(untold'))
      ensures forall j :: 0 <= j < |devs| ==>
        var d := Arrive(old(devs)[j], arrivals(old(calls), j)); devs[j] == if j == i then Closed(d) else d
    {
      Interrupts(counted.Plus(unread), lostTaken.Plus(untold));
      CloseKeepsBalance(devs, i, counted.Plus(unread), lostTaken.Plus(untold));
      unread', untold' := unread.Add(devs[i].kind, devs[i].queued), untold.Add(devs[i].kind, devs[i].lost);
      devs := devs[i := Closed(devs[i])];
    }

    /** disable_ibs: each device in turn is disabled and closed, while the others go on sampling. What a
        closed device still held is gone with it: `unread` counts the samples, `untold` the lost ones. */
    method DisableAll() returns (unread: Tally, untold: Tally)
      requires Valid() && AllEnabled(devs)
      modifies `devs, `calls
      ensures |devs| == |old(devs)| && Balanced(devs, counted.Plus(unread), lostTaken.Plus(untold))
      ensures forall i :: 0 <= i < |devs| ==> devs[i] == Closed(devs[i])
      ensures QuietFrom(arrivals, old(calls)) ==> forall i :: 0 <= i < |devs| ==> devs[i] == Closed(old(devs)[i])
    {
      ghost var before, from := devs, calls;
      unread, untold := Tally(0, 0), Tally(0, 0);
      for i := 0 to |devs|
        invariant |devs| == |before| && from <= calls && Balanced(devs, counted.Plus(unread), lostTaken.Plus(untold))
        invariant forall j :: 0 <= j < i ==> devs[j] == Closed(devs[j])
        invariant QuietFrom(arrivals, from) ==>
          forall j :: 0 <= j < |devs| ==> devs[j] == if j < i then Closed(before[j]) else before[j]
      {
        unread, untold := CloseOne(i, unread, untold);
      }
    }

    /** The whole run: main loop, flush, disable_ibs. What the handlers stored is what the printed
        statistics count, plus what the devices still held when they were closed; what they dropped is
        what the statistics call lost, plus lost counts never asked for. Each poll reads the devices
        reported to it and the flush reads all. If nothing arrives from the flush on, every stored
        sample was counted, and all that is left are the lost counts of devices that had nothing queued
        at the flush. */
    method Collect(polls: seq<nat -> bool>) returns (unread: Tally, untold: Tally, ghost flushed: nat, ghost atFlush: seq<Dev>)
      requires Valid() && AllEnabled(devs)
      modifies this
      ensures |devs| == |old(devs)| && forall i :: 0 <= i < |devs| ==> devs[i] == Closed(devs[i])
      ensures forall k :: Total(devs, k, Stored) == counted.Of(k) + unread.Of(k)
      ensures forall k :: Total(devs, k, Dropped) == lostTaken.Of(k) + untold.Of(k)
      ensures log == old(log) + Polled(polls, |devs|) + Reported(_ => true, |devs|)
      ensures QuietFrom(arrivals, flushed) ==> forall k :: unread.Of(k) == 0 && untold.Of(k) == Stranded(atFlush, k)
      ensures forall k :: Total(devs, k, Dropped) == 0 ==> lostTaken.Of(k) == 0 && untold.Of(k) == 0
    {
      ResetBuffers();
      Poll(polls);
      flushed, atFlush := calls, devs;
      Flush();
      ghost var drained, later := devs, calls;
      unread, untold := DisableAll();
      AfterClosing(devs, counted, unread, lostTaken, untold);
      if QuietFrom(arrivals, flushed) {
        assert QuietFrom(arrivals, later);
        AfterFlush(atFlush, drained, devs, counted, unread, lostTaken, untold);
      }
    }
  }

  lemma AfterClosing(devs: seq<Dev>, counted: Tally, unread: Tally, lost: Tally, untold: Tally)
    requires Balanced(devs, counted.Plus(unread), lost.Plus(untold))
    requires forall i :: 0 <= i < |devs| ==> devs[i] == Closed(devs[i])
    ensures forall k :: Total(devs, k, Stored) == counted.Of(k) + unread.Of(k)
    ensures forall k :: Total(devs, k, Dropped) == lost.Of(k) + untold.Of(k)
  {
    forall k
      ensures Total(devs, k, Stored) == counted.Of(k) + unread.Of(k)
      ensures Total(devs, k, Dropped) == lost.Of(k) + untold.Of(k)
    {
      ClosedTotal(devs, devs, k, Queued);
      ClosedTotal(devs, devs, k, Lost);
      assert Conserved(devs, counted.Plus(unread), lost.Plus(untold), k);
    }
  }

  lemma AfterFlush(atFlush: seq<Dev>, drained: seq<Dev>, closed: seq<Dev>, counted: Tally, unread: Tally, lost: Tally,
                   untold: Tally)
    requires |atFlush| == |drained| == |closed| && Balanced(drained, counted, lost)
    requires forall i :: 0 <= i < |drained| ==> drained[i] == Drained(atFlush[i])
    requires forall i :: 0 <= i < |closed| ==> closed[i] == Closed(drained[i])
    requires forall k :: Total(closed, k, Stored) == counted.Of(k) + unread.Of(k)
    requires forall k :: Total(closed, k, Dropped) == lost.Of(k) + untold.Of(k)
    ensures forall k :: unread.Of(k) == 0 && untold.Of(k) == Stranded(atFlush, k)
  {
    forall k ensures unread.Of(k) == 0 && untold.Of(k) == Stranded(atFlush, k) {
      DrainedTotal(atFlush, drained, k, Queued);
      DrainedTotal(atFlush, drained, k, Lost);
      ClosedTotal(drained, closed, k, Stored);
      ClosedTotal(drained, closed, k, Dropped);
      assert Conserved(drained, counted, lost, k);
    }
  }
}
