/** The sample buffer with its fields updated in place, as one thread at a time sees it:
    setup_ibs_buffer, reset_ibs_buffer, the handler's store and ibs_read. */
module SampleBuffer {
  import opened Arith

  datatype ReadResult = Bytes(n: nat) | InvalidCount | WouldBlock | MustWait

  function Wrap(k: nat, m: nat): nat { if k < m then k else k - m }

  /** The `n` elements from position `rd` on, continuing at the front. */
  function Unroll<T>(d: seq<T>, rd: nat, n: nat): (s: seq<T>)
    requires rd < |d| && n <= |d|
    ensures |s| == n
  {
    if rd + n <= |d| then d[rd..rd + n] else d[rd..] + d[..rd + n - |d|]
  }

  lemma UnrollStore<T>(d: seq<T>, rd: nat, n: nat, x: T)
    requires rd < |d| && n < |d|
    ensures Unroll(d[Wrap(rd + n, |d|) := x], rd, n + 1) == Unroll(d, rd, n) + [x]
  {}

  lemma UnrollDrop<T>(d: seq<T>, rd: nat, n: nat, k: nat)
    requires rd < |d| && k <= n < |d|
    ensures Unroll(d, Wrap(rd + k, |d|), n - k) == Unroll(d, rd, n)[k..]
    ensures Wrap(Wrap(rd + k, |d|) + (n - k), |d|) == Wrap(rd + n, |d|)
  {}

  lemma UnrollTake<T>(d: seq<T>, rd: nat, n: nat, k: nat)
    requires rd < |d| && k <= n < |d|
    ensures Unroll(d, rd, n)[..k] == Unroll(d, rd, k)
  {}

  /** `u` with `piece` written over it from `at` on. */
  function Patch<T>(u: seq<T>, at: nat, piece: seq<T>): seq<T>
    requires at + |piece| <= |u|
  {
    u[..at] + piece + u[at + |piece|..]
  }

  lemma PatchMore<T>(u: seq<T>, at: nat, piece: seq<T>, x: T)
    requires at + |piece| < |u|
    ensures Patch(u, at, piece)[at + |piece| := x] == Patch(u, at, piece + [x])
  {}

  lemma OneCopy<T>(u: seq<T>, d: seq<T>, rd: nat, n: nat)
    requires rd < |d| && rd + n <= |d| && n <= |u|
    ensures Patch(u, 0, d[rd..rd + n]) == Unroll(d, rd, n) + u[n..]
  {}

  /** Two copies, the second picking up where the first left off. */
  lemma TwoCopies<T>(u: seq<T>, d: seq<T>, rd: nat, n: nat)
    requires rd < |d| && |d| - rd < n <= |d| && n <= |u|
    ensures Patch(Patch(u, 0, d[rd..|d|]), |d| - rd, d[0..n - (|d| - rd)]) == Unroll(d, rd, n) + u[n..]
  {}

  lemma WrapIsRemainder(k: nat, m: nat)
    requires 0 < m && k < 2 * m
    ensures k % m == Wrap(k, m)
  {
    if k < m { UniqueRemainder(k, m, 0, k); } else { UniqueRemainder(k, m, 1, k - m); }
  }

  class Buffer<T(0)> {
    var data: array<T>
    var size: nat
    const entrySize: nat
    var wr: nat
    var rd: nat
    var entries: nat
    var lost: nat

    ghost predicate Valid()
      reads this
    {
      && 0 < entrySize && 0 < data.Length == size / entrySize
      && rd < data.Length && entries < data.Length
      && wr == Wrap(rd + entries, data.Length)
    }

    /** The queued samples, oldest first. */
    ghost function Contents(): (s: seq<T>)
      requires Valid()
      reads this, data
      ensures |s| == entries
    {
      Unroll(data[..], rd, entries)
    }

    constructor (size: nat, entrySize: nat)
      requires 0 < entrySize <= size
      ensures Valid() && Contents() == [] && lost == 0
      ensures this.size == size && this.entrySize == entrySize && fresh(data)
    {
      this.size, this.entrySize := size, entrySize;
      data := new T[size / entrySize];
      wr, rd, entries, lost := 0, 0, 0, 0;
      AtLeastOne(size, entrySize);
    }

    method Reset()
      requires Valid()
      modifies this
      ensures Valid() && Contents() == [] && lost == 0 && data == old(data) && size == old(size)
    {
      wr, rd, entries, lost := 0, 0, 0, 0;
    }

    /** The handler's part: store the sample, or count it as lost when the buffer is full. */
    method Accept(sample: T) returns (stored: bool)
      requires Valid()
      modifies this, data
      ensures Valid() && data == old(data) && size == old(size)
      ensures stored <==> |old(Contents())| < data.Length - 1
      ensures Contents() == if stored then old(Contents()) + [sample] else old(Contents())
      ensures lost == old(lost) + if stored then 0 else 1
    {
      WrapIsRemainder(wr + 1, data.Length);
      var newWr := (wr + 1) % data.Length;
      if newWr == rd {
        lost := lost + 1;
        return false;
      }
      UnrollStore(data[..], rd, entries, sample);
      ghost var d := data[..];
      data[wr] := sample;
      assert data[..] == d[wr := sample];
      wr := newWr;
      entries := entries + 1;
      return true;
    }

    /** copy_to_user of `n` slots from `slot` on. */
    method CopyOut(user: array<T>, at: nat, slot: nat, n: nat)
      requires user != data && at + n <= user.Length && slot + n <= data.Length
      modifies user
      ensures user[..] == Patch(old(user[..]), at, data[..][slot..slot + n])
    {
      ghost var u, d := user[..], data[..];
      for i := 0 to n
        invariant user[..] == Patch(u, at, d[slot..slot + i])
      {
        PatchMore(u, at, d[slot..slot + i], d[slot + i]);
        user[at + i] := data[slot + i];
        assert user[..] == Patch(u, at, d[slot..slot + i])[at + i := d[slot + i]];
        assert d[slot..slot + i] + [d[slot + i]] == d[slot..slot + i + 1];
      }
    }

    /** The copy across the end of the array, in two pieces. */
    method CopyAcross(user: array<T>, n: nat)
      requires user != data && rd < data.Length < rd + n <= data.Length + wr && wr <= rd && n <= user.Length
      modifies user
      ensures user[..] == Unroll(data[..], rd, n) + old(user[n..])
    {
      ghost var u, d := user[..], data[..];
      var toEnd := data.Length - rd;
      CopyOut(user, 0, rd, toEnd);
      CopyOut(user, toEnd, 0, Min(n - toEnd, wr));
      TwoCopies(u, d, rd, n);
    }

    /** The copying half of do_ibs_read. */
    method CopyOldest(user: array<T>, n: nat)
      requires Valid() && user != data && 0 < n <= entries && n <= user.Length
      modifies user
      ensures user[..] == Contents()[..n] + old(user[n..])
    {
      UnrollTake(data[..], rd, entries, n);
      if rd < wr || n <= data.Length - rd {
        OneCopy(user[..], data[..], rd, n);
        CopyOut(user, 0, rd, n);
      } else {
        CopyAcross(user, n);
      }
    }

    /** The other half: the copied samples are released. */
    method Release(n: nat)
      requires Valid() && n <= entries
      modifies `rd, `entries
      ensures Valid() && Contents() == old(Contents())[n..]
    {
      UnrollDrop(data[..], rd, entries, n);
      WrapIsRemainder(rd + n, data.Length);
      rd := (rd + n) % data.Length;
      entries := entries - n;
    }

    /** do_ibs_read, for a request of `wanted` entries: the oldest samples move to the user, in order. */
    method DoRead(user: array<T>, wanted: nat) returns (n: nat)
      requires Valid() && user != data && wanted <= user.Length
      modifies this, user
      ensures Valid() && data == old(data) && size == old(size) && lost == old(lost)
      ensures n == Min(wanted, |old(Contents())|)
      ensures user[..] == old(Contents())[..n] + old(user[n..])
      ensures Contents() == old(Contents())[n..]
    {
      n := Min(wanted, entries);
      if n == 0 { return; }
      CopyOldest(user, n);
      Release(n);
    }

    /** ibs_read up to the first sleep. */
    method Read(user: array<T>, count: nat, enabled: bool, nonblock: bool) returns (r: ReadResult)
      requires Valid() && user != data && count / entrySize <= user.Length
      modifies this, user
      ensures Valid() && lost == old(lost)
      ensures r.InvalidCount? <==> count < entrySize || count > size
      ensures !r.InvalidCount? && old(entries) == 0 ==>
        r == if !enabled then Bytes(0) else if nonblock then WouldBlock else MustWait
      ensures !r.InvalidCount? && old(entries) > 0 ==>
        var n := Min(count / entrySize, |old(Contents())|);
        && n > 0 && r == Bytes(n * entrySize)
        && user[..] == old(Contents())[..n] + old(user[n..]) && Contents() == old(Contents())[n..]
      ensures r.InvalidCount? || old(entries) == 0 ==> Contents() == old(Contents()) && user[..] == old(user[..])
    {
      if count < entrySize || count > size { return InvalidCount; }
      if entries == 0 {
        return if !enabled then Bytes(0) else if nonblock then WouldBlock else MustWait;
      }
      AtLeastOne(count, entrySize);
      var n := DoRead(user, count / entrySize);
      r := Bytes(n * entrySize);
    }
  }

  lemma AtLeastOne(count: nat, unit: nat)
    requires 0 < unit <= count
    ensures count / unit >= 1
  {
    UniqueRemainder(count, unit, count / unit, count % unit);
  }
}
