/** The user-space library lib/ibs.c: collecting samples from all devices, and enabling all CPUs. */
module Library {
  import opened Arith
  import opened RingProtocol

  datatype Kind = OpSample | FetchSample

  /** One CPU as the library sees it; a descriptor is in use when it is positive. */
  datatype Cpu = Cpu(listed: bool, opFd: int, fetchFd: int, opEnabled: bool, fetchEnabled: bool)

  // ----- collecting samples

  /** What one call of do_ibs_get_all_samples meets: the flags and options, the descriptors that
      select() found ready, each device's buffer at the moment FIONREAD counts it, and all that
      happens to that buffer from then to the end of the copy if the library reads `n` samples. */
  datatype Situation<S> = Situation(
    cpus: seq<Cpu>, wantOp: bool, wantFetch: bool, aggressive: bool, threshold: nat,
    ready: set<int>, rings: map<int, Ring<S>>, runs: (int, nat) -> seq<Action<S>>)

  /** The library is the only reader of its descriptors, and no read faults. Producers are free. */
  ghost predicate SoleReader<S>(w: Situation<S>) {
    forall fd :: fd in w.rings ==>
      && Inv(w.rings[fd]) && w.rings[fd].reader.RIdle?
      && forall n: nat :: 0 < n <= w.rings[fd].entries ==> ServesRead(w.rings[fd], w.runs(fd, n), n)
  }

  /** FIONREAD. */
  function Count<S>(w: Situation<S>, fd: int): int { if fd in w.rings then w.rings[fd].entries else 0 }

  /** The samples that FIONREAD counts. */
  function Queued<S>(w: Situation<S>, fd: int): (q: seq<S>)
    requires SoleReader(w)
    ensures |q| == Count(w, fd)
  {
    if fd in w.rings then Queue(w.rings[fd])[..w.rings[fd].entries] else []
  }

  /** The samples a device contributes if the caller's array never fills: all that are counted, provided
      the flavour is asked for and the device open; unless the library reads aggressively, select() must
      also have found it ready and the count must have reached the poll threshold. */
  function Offer<S>(w: Situation<S>, want: bool, fd: int): seq<S>
    requires SoleReader(w)
  {
    if want && fd > 0 && (w.aggressive || (fd in w.ready && Count(w, fd) >= w.threshold)) then Queued(w, fd) else []
  }

  function Tagged<S>(kind: Kind, s: seq<S>): (t: seq<(Kind, S)>)
    ensures |t| == |s|
  {
    seq(|s|, i requires 0 <= i < |s| => (kind, s[i]))
  }

  /** In CPU order, op before fetch. */
  function Offered<S>(w: Situation<S>, n: nat): seq<(Kind, S)>
    requires SoleReader(w) && n <= |w.cpus|
  {
    if n == 0 then [] else Offered(w, n - 1) + OfferedBy(w, w.cpus[n - 1])
  }

  function OfferedBy<S>(w: Situation<S>, cpu: Cpu): seq<(Kind, S)>
    requires SoleReader(w)
  {
    if !cpu.listed then []
    else Tagged(OpSample, Offer(w, w.wantOp, cpu.opFd)) + Tagged(FetchSample, Offer(w, w.wantFetch, cpu.fetchFd))
  }

  lemma {:induction false} OfferedPrefix<S>(w: Situation<S>, i: nat, n: nat)
    requires SoleReader(w) && i <= n <= |w.cpus|
    ensures Offered(w, i) <= Offered(w, n)
  {
    if i < n { OfferedPrefix(w, i, n - 1); }
  }

  /** What read() hands over for `n` samples: the driver's copy at the end of whatever happened. */
  function ReadReply<S>(w: Situation<S>, fd: int, n: nat): (r: seq<S>)
    requires SoleReader(w) && 0 < n <= Count(w, fd)
    ensures r == Queued(w, fd)[..n]
  {
    var ring, acts := w.rings[fd], w.runs(fd, n);
    ReadIsNeverShort(ring, acts, n);
    Next(Run(ring, acts), RStoreRd).delivered[|ring.delivered|..]
  }

  predicate Holds<S(==)>(samples: array<S>, types: array<Kind>, n: nat, all: seq<(Kind, S)>)
    reads samples, types
    requires n <= |all| && n <= samples.Length && n <= types.Length
  {
    forall k :: 0 <= k < n ==> all[k] == (types[k], samples[k])
  }

  /** The two loops that copy a reply into the caller's arrays and tag it. */
  method Append<S(==)>(kind: Kind, reply: seq<S>, samples: array<S>, types: array<Kind>, total: nat,
                       ghost all: seq<(Kind, S)>)
    requires total + |reply| <= samples.Length && total + |reply| <= types.Length && samples as object != types
    requires total + |reply| <= |all| && all[total..total + |reply|] == Tagged(kind, reply)
    requires Holds(samples, types, total, all)
    modifies samples, types
    ensures Holds(samples, types, total + |reply|, all)
  {
    for i := 0 to |reply|
      invariant Holds(samples, types, total, all)
      invariant forall j :: total <= j < total + i ==> samples[j] == reply[j - total]
    {
      samples[total + i] := reply[i];
    }
    for i := 0 to |reply|
      invariant Holds(samples, types, total, all)
      invariant forall j :: total <= j < total + |reply| ==> samples[j] == reply[j - total]
      invariant forall j :: total <= j < total + i ==> types[j] == kind
    {
      types[total + i] := kind;
    }
    forall k | total <= k < total + |reply| ensures all[k] == (types[k], samples[k]) {
      assert all[k] == all[total..total + |reply|][k - total];
    }
  }

  /** do_ibs_get_sample and the tagging loop after it: `count` is the new total. */
  method Collect<S(==)>(w: Situation<S>, kind: Kind, want: bool, fd: int, samples: array<S>, types: array<Kind>,
                        total: nat, max: nat, ghost base: seq<(Kind, S)>, ghost all: seq<(Kind, S)>)
    returns (count: nat)
    requires SoleReader(w) && total < max <= samples.Length && max <= types.Length && samples as object != types
    requires total == |base| && base + Tagged(kind, Offer(w, want, fd)) <= all
    requires Holds(samples, types, total, all)
    modifies samples, types
    ensures count == Min(max, total + |Offer(w, want, fd)|) <= |all|
    ensures Holds(samples, types, count, all)
  {
    if !want || fd <= 0 { return total; }
    if !w.aggressive && fd !in w.ready { return total; }
    var available := Count(w, fd);
    if available == 0 { return total; }
    if !w.aggressive && available < w.threshold { return total; }
    if available > max - total { available := max - total; }
    var temp := ReadReply(w, fd, available);
    SliceOfTagged(kind, Offer(w, want, fd), available, base, all);
    Append(kind, temp, samples, types, total, all);
    count := total + available;
  }

  lemma SliceOfTagged<S>(kind: Kind, offer: seq<S>, n: nat, base: seq<(Kind, S)>, all: seq<(Kind, S)>)
    requires n <= |offer| && base + Tagged(kind, offer) <= all
    ensures |base| + n <= |all| && all[|base|..|base| + n] == Tagged(kind, offer[..n])
  {
    var full := base + Tagged(kind, offer);
    var k := |base| + n;
    assert all[..|full|] == full && full[|base|..k] == Tagged(kind, offer)[..n];
    assert all[|base|..k] == all[..|full|][|base|..k];
    assert Tagged(kind, offer)[..n] == Tagged(kind, offer[..n]);
  }

  /** The loop body: op device first, then fetch device unless the array is full. */
  method CollectCpu<S(==)>(w: Situation<S>, cpu: Cpu, samples: array<S>, types: array<Kind>,
                           total: nat, max: nat, ghost base: seq<(Kind, S)>, ghost all: seq<(Kind, S)>)
    returns (count: nat)
    requires SoleReader(w) && total < max <= samples.Length && max <= types.Length && samples as object != types
    requires cpu.listed && total == |base| && base + OfferedBy(w, cpu) <= all
    requires Holds(samples, types, total, all)
    modifies samples, types
    ensures count == Min(max, total + |OfferedBy(w, cpu)|) <= |all|
    ensures Holds(samples, types, count, all)
  {
    ghost var op := Tagged(OpSample, Offer(w, w.wantOp, cpu.opFd));
    ghost var fetch := Tagged(FetchSample, Offer(w, w.wantFetch, cpu.fetchFd));
    Shorter(base, op, fetch);
    ShorterStill(base + op, fetch, all);
    count := Collect(w, OpSample, w.wantOp, cpu.opFd, samples, types, total, max, base, all);
    if count < max {
      count := Collect(w, FetchSample, w.wantFetch, cpu.fetchFd, samples, types, count, max, base + op, all);
    }
  }

  /** do_ibs_get_all_samples: the caller gets the first max samples of what the devices offer, in CPU
      order and op before fetch, each with its type, whatever arrives while it reads. */
  method GetAllSamples<S(==)>(w: Situation<S>, samples: array<S>, types: array<Kind>, max: nat) returns (total: nat)
    requires SoleReader(w) && 0 < max <= samples.Length && max <= types.Length && samples as object != types
    modifies samples, types
    ensures total == Min(max, |Offered(w, |w.cpus|)|)
    ensures Holds(samples, types, total, Offered(w, |w.cpus|))
  {
    total := 0;
    ghost var all := Offered(w, |w.cpus|);
    for i := 0 to |w.cpus|
      invariant total < max && total == |Offered(w, i)| <= |all|
      invariant Holds(samples, types, total, all)
    {
      OfferedStep(w, i, all);
      if w.cpus[i].listed {
        total := CollectCpu(w, w.cpus[i], samples, types, total, max, Offered(w, i), all);
        if total == max { return; }
      }
    }
  }

  lemma OfferedStep<S>(w: Situation<S>, i: nat, all: seq<(Kind, S)>)
    requires SoleReader(w) && i < |w.cpus| && all == Offered(w, |w.cpus|)
    ensures Offered(w, i) + OfferedBy(w, w.cpus[i]) <= all
    ensures |Offered(w, i + 1)| == |Offered(w, i)| + |OfferedBy(w, w.cpus[i])| <= |all|
    ensures !w.cpus[i].listed ==> OfferedBy(w, w.cpus[i]) == []
  {
    OfferedPrefix(w, i + 1, |w.cpus|);
  }

  lemma Shorter<T>(a: seq<T>, b: seq<T>, c: seq<T>)
    ensures a + (b + c) == a + b + c && a <= a + (b + c)
  {}

  lemma ShorterStill<T>(a: seq<T>, b: seq<T>, all: seq<T>)
    requires a + b <= all
    ensures a <= all
  {}

  // ----- enabling all CPUs

  class Enabler {
    var cpus: seq<Cpu>
    const refusing: set<int>   // descriptors whose IBS_ENABLE fails

    constructor (cpus: seq<Cpu>, refusing: set<int>)
      ensures this.cpus == cpus && this.refusing == refusing
    {
      this.cpus, this.refusing := cpus, refusing;
    }

    method DisableCpu(cpu: nat)
      requires cpu < |cpus|
      modifies this
      ensures cpus == if !old(cpus)[cpu].listed then old(cpus)
                      else old(cpus)[cpu := old(cpus)[cpu].(opEnabled := false, fetchEnabled := false)]
    {
      if !cpus[cpu].listed { return; }
      if cpus[cpu].opEnabled { cpus := cpus[cpu := cpus[cpu].(opEnabled := false)]; }
      if cpus[cpu].fetchEnabled { cpus := cpus[cpu := cpus[cpu].(fetchEnabled := false)]; }
    }

    /** Success sets the flag of every open descriptor; failure clears both. */
    method EnableCpu(cpu: nat) returns (ok: bool)
      requires cpu < |cpus| && cpus[cpu].listed
      modifies this
      ensures ok <==> !(old(cpus)[cpu].opFd > 0 && old(cpus)[cpu].opFd in refusing) &&
                      !(old(cpus)[cpu].fetchFd > 0 && old(cpus)[cpu].fetchFd in refusing)
      ensures cpus == old(cpus)[cpu := if ok then Enabled(old(cpus)[cpu])
                                       else old(cpus)[cpu].(opEnabled := false, fetchEnabled := false)]
    {
      if cpus[cpu].opFd > 0 {
        if cpus[cpu].opFd in refusing { DisableCpu(cpu); return false; }
        cpus := cpus[cpu := cpus[cpu].(opEnabled := true)];
      }
      if cpus[cpu].fetchFd > 0 {
        if cpus[cpu].fetchFd in refusing { DisableCpu(cpu); return false; }
        cpus := cpus[cpu := cpus[cpu].(fetchEnabled := true)];
      }
      return true;
    }

    static function Enabled(c: Cpu): Cpu {
      c.(opEnabled := c.opEnabled || c.opFd > 0, fetchEnabled := c.fetchEnabled || c.fetchFd > 0)
    }

    predicate Refuses(c: Cpu) { c.listed && ((c.opFd > 0 && c.opFd in refusing) || (c.fetchFd > 0 && c.fetchFd in refusing)) }

    /** CPU k is the first that refuses; every listed CPU up to it is disabled and the rest are untouched. */
    ghost predicate UndoneFrom(was: seq<Cpu>, now: seq<Cpu>, k: int) {
      && 0 <= k < |now| == |was| && Refuses(was[k]) && (forall i :: 0 <= i < k ==> !Refuses(was[i]))
      && (forall i :: 0 <= i <= k && was[i].listed ==> now[i] == was[i].(opEnabled := false, fetchEnabled := false))
      && (forall i :: 0 <= i < |now| && (i > k || !was[i].listed) ==> now[i] == was[i])
    }

    /** ibs_enable_all. It succeeds exactly when no listed CPU refuses, and then every listed CPU has its
        open descriptors enabled. Otherwise all is undone up to the first CPU that refuses; so if nothing
        was enabled beforehand, nothing is afterwards. */
    method EnableAll() returns (ok: bool)
      modifies this
      ensures |cpus| == |old(cpus)|
      ensures ok <==> forall i :: 0 <= i < |cpus| ==> !Refuses(old(cpus)[i])
      ensures ok ==> forall i :: 0 <= i < |cpus| ==>
        cpus[i] == if old(cpus)[i].listed then Enabled(old(cpus)[i]) else old(cpus)[i]
      ensures !ok ==> exists k :: UndoneFrom(old(cpus), cpus, k)
      ensures !ok && (forall i :: 0 <= i < |cpus| && old(cpus)[i].listed ==> !old(cpus)[i].opEnabled && !old(cpus)[i].fetchEnabled)
        ==> forall i :: 0 <= i < |cpus| && cpus[i].listed ==> !cpus[i].opEnabled && !cpus[i].fetchEnabled
    {
      ghost var before := cpus;
      var cpu := 0;
      while cpu < |cpus|
        invariant cpu <= |cpus| == |before|
        invariant forall i :: 0 <= i < cpu ==> cpus[i] == if before[i].listed then Enabled(before[i]) else before[i]
        invariant forall i :: cpu <= i < |cpus| ==> cpus[i] == before[i]
        invariant forall i :: 0 <= i < cpu ==> !Refuses(before[i])
      {
        if cpus[cpu].listed {
          ok := EnableCpu(cpu);
          if !ok { break; }
        }
        cpu := cpu + 1;
      }
      if cpu == |cpus| { return true; }
      ok := false;
      var k := cpu;
      while k >= 0
        invariant -1 <= k <= cpu < |cpus| == |before|
        invariant forall i :: 0 <= i <= cpu ==>
          cpus[i].(opEnabled := false, fetchEnabled := false) == before[i].(opEnabled := false, fetchEnabled := false)
        invariant forall i :: 0 <= i <= cpu && !before[i].listed ==> cpus[i] == before[i]
        invariant forall i :: k < i <= cpu && cpus[i].listed ==> !cpus[i].opEnabled && !cpus[i].fetchEnabled
        invariant forall i :: cpu < i < |cpus| ==> cpus[i] == before[i]
      {
        if cpus[k].listed { DisableCpu(k); }
        k := k - 1;
      }
      assert UndoneFrom(before, cpus, cpu);
    }
  }
}
