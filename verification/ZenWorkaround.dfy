/** The per-core workaround of first-generation Family 17h processors (driver/ibs-workarounds.c),
    with the enable and disable writes of driver/ibs-fops.c around it. The operations on one core
    do not overlap; the core may have any number of sibling threads. */
module ZenWorkaround {
  import opened Words
  import opened ControlRegister

  /** 0x40000000000000 and 0x404040. */
  function Bits1(): Word { {54} }
  function Bits3(): Word { {6, 14, 22} }

  lemma MaskValues()
    ensures Num(Bits1(), 64) == 0x40_0000_0000_0000 && Num(Bits3(), 64) == 0x40_4040
  {
    BitPowers();
    var a: Word, b: Word, c: Word := {6}, {14}, {22};
    BitValue(54); BitValue(6); BitValue(14); BitValue(22);
    NumOfUnion(a, b, 64);
    NumOfUnion(a + b, c, 64);
    assert Bits3() == a + b + c;
  }

  lemma BitPowers()
    ensures Pow2(54) == 0x40_0000_0000_0000 && Pow2(6) == 0x40 && Pow2(14) == 0x4000 && Pow2(22) == 0x40_0000
  {
    MorePow2();
    LargePow2();
    assert Pow2(54) == 4 * Pow2(52) && Pow2(14) * 4 == Pow2(16) && Pow2(22) == 4 * Pow2(20);
  }

  /** The MSRs of a core: both control words of each sibling, and the two workaround registers. */
  datatype Msrs = Msrs(op: seq<Word>, fetch: seq<Word>, wa1: Word, wa3: Word)

  predicate AnyEnabled(m: Msrs) {
    (exists i :: 0 <= i < |m.op| && OP_EN in m.op[i]) || (exists i :: 0 <= i < |m.fetch| && FETCH_EN in m.fetch[i])
  }

  /** While any sibling samples, the workaround bits are in force. */
  predicate Safe(m: Msrs) {
    AnyEnabled(m) ==> Bits1() <= m.wa1 && Bits3() !! m.wa3
  }

  /** What the last disable leaves, given the original and the saved value of each register. */
  function Left1(original: Word, saved: Word): Word { (original - Bits1()) + saved }

  function Left3(original: Word, saved: Word): Word { original + Bits3() + saved }

  datatype Operation =
    | Enable(flavor: Flavor, cpu: nat, ctl: Word)
    | Disable(flavor: Flavor, cpu: nat)
    | Rearm(flavor: Flavor, cpu: nat, ctl: Word)

  predicate On(o: Operation, flavor: Flavor, cpu: nat) { o.flavor == flavor && o.cpu == cpu }

  /** What an operation does to the control word of one sibling: an enable and the re-arming of an
      enabled sibling store theirs, a disable clears it, and those on other registers leave it alone. */
  function Effect(flavor: Flavor, cpu: nat, r: Word, o: Operation): Word {
    if !On(o, flavor, cpu) then r
    else
      match o
      case Enable(_, _, ctl) => ctl
      case Disable(_, _) => {}
      case Rearm(_, _, ctl) => if En(Config(flavor, true)) in r then ctl else r
  }

  function Register(flavor: Flavor, cpu: nat, start: Word, ops: seq<Operation>): Word
    decreases |ops|
  {
    if ops == [] then start else Effect(flavor, cpu, Register(flavor, cpu, start, ops[..|ops| - 1]), ops[|ops| - 1])
  }

  /** The control words of all siblings, op and fetch, after some operations. */
  predicate Follows(op: seq<Word>, fetch: seq<Word>, m: Msrs, ops: seq<Operation>) {
    && |m.op| == |op| && |m.fetch| == |fetch|
    && (forall i :: 0 <= i < |op| ==> m.op[i] == Register(Op, i, op[i], ops))
    && (forall i :: 0 <= i < |fetch| ==> m.fetch[i] == Register(Fetch, i, fetch[i], ops))
  }

  predicate Affected(before: Msrs, after: Msrs, o: Operation) {
    && |after.op| == |before.op| && |after.fetch| == |before.fetch|
    && (forall i :: 0 <= i < |before.op| ==> after.op[i] == Effect(Op, i, before.op[i], o))
    && (forall i :: 0 <= i < |before.fetch| ==> after.fetch[i] == Effect(Fetch, i, before.fetch[i], o))
  }

  lemma OneMoreOperation(op: seq<Word>, fetch: seq<Word>, before: Msrs, after: Msrs, ops: seq<Operation>, i: nat)
    requires i < |ops| && Follows(op, fetch, before, ops[..i]) && Affected(before, after, ops[i])
    ensures Follows(op, fetch, after, ops[..i + 1])
  {
    assert ops[..i + 1][..i] == ops[..i];
  }

  /** The control registers of one sibling replaced. */
  function Put(m: Msrs, flavor: Flavor, cpu: nat, r: Word): Msrs
    requires cpu < |m.op| == |m.fetch|
  {
    if flavor.Op? then m.(op := m.op[cpu := r]) else m.(fetch := m.fetch[cpu := r])
  }

  predicate WellFormed(ops: seq<Operation>) {
    forall o :: o in ops && !o.Disable? ==> En(Config(o.flavor, true)) in o.ctl
  }

  /** Operation number i enabled the sibling and nothing disabled it since. */
  predicate StillEnabled(flavor: Flavor, cpu: nat, ops: seq<Operation>, i: nat)
    requires i < |ops|
  {
    && On(ops[i], flavor, cpu) && ops[i].Enable?
    && forall j :: i < j < |ops| && On(ops[j], flavor, cpu) ==> !ops[j].Disable?
  }

  /** A sibling that started disabled is enabled in the end exactly when some operation enabled it and
      none disabled it after that. */
  lemma {:induction false} EnabledByLast(flavor: Flavor, cpu: nat, start: Word, ops: seq<Operation>)
    requires WellFormed(ops) && En(Config(flavor, true)) !in start
    ensures En(Config(flavor, true)) in Register(flavor, cpu, start, ops) <==>
      exists i :: 0 <= i < |ops| && StillEnabled(flavor, cpu, ops, i)
    decreases |ops|
  {
    if ops != [] {
      var n := |ops| - 1;
      var before, o := ops[..n], ops[n];
      assert o in ops && forall p :: p in before ==> p in ops;
      EnabledByLast(flavor, cpu, start, before);
      if !(On(o, flavor, cpu) && o.Disable?) {
        forall i | 0 <= i < n ensures StillEnabled(flavor, cpu, ops, i) <==> StillEnabled(flavor, cpu, before, i) {
          assert forall j :: 0 <= j < n ==> ops[j] == before[j];
        }
      }
      if On(o, flavor, cpu) && o.Enable? { assert StillEnabled(flavor, cpu, ops, n); }
    }
  }

  class Core {
    var m: Msrs
    const saved1: Word
    const saved3: Word
    ghost const original1: Word
    ghost const original3: Word
    ghost var disabled: bool       // some disable has found the whole core off
    ghost var trace: seq<Msrs>     // the registers after every MSR write

    ghost function Base1(): Word reads this { if disabled then Left1(original1, saved1) else original1 }

    ghost function Base3(): Word reads this { if disabled then Left3(original3, saved3) else original3 }

    ghost predicate Active()
      reads this
    {
      m.wa1 == Base1() + Bits1() && m.wa3 == Base3() - Bits3()
    }

    ghost predicate TraceSafe()
      reads this
    {
      forall i :: 0 <= i < |trace| ==> Safe(trace[i])
    }

    ghost predicate Valid()
      reads this
    {
      && |m.op| == |m.fetch| && TraceSafe()
      && (if AnyEnabled(m) then Active() else Active() || (m.wa1 == Base1() && m.wa3 == Base3()))
    }

    constructor (siblings: nat, original1: Word, original3: Word, saved1: Word, saved3: Word)
      ensures Valid() && |m.op| == siblings && !AnyEnabled(m) && !disabled
      ensures this.original1 == original1 && this.original3 == original3
      ensures this.saved1 == saved1 && this.saved3 == saved3
    {
      m := Msrs(seq(siblings, _ => {}), seq(siblings, _ => {}), original1, original3);
      this.saved1, this.saved3, this.original1, this.original3 := saved1, saved3, original1, original3;
      disabled, trace := false, [];
    }

    /** One MSR write. */
    method Write(next: Msrs)
      requires TraceSafe() && Safe(next)
      modifies `m, `trace
      ensures m == next && TraceSafe() && trace == old(trace) + [next]
    {
      m := next;
      trace := trace + [next];
    }

    /** The sibling loops of both workaround functions. */
    method Scan() returns (any: bool)
      requires |m.op| == |m.fetch|
      ensures any <==> AnyEnabled(m)
    {
      for i := 0 to |m.op|
        invariant forall k :: 0 <= k < i ==> OP_EN !in m.op[k] && FETCH_EN !in m.fetch[k]
      {
        if OP_EN in m.op[i] || FETCH_EN in m.fetch[i] { return true; }
      }
      return false;
    }

    method StartWorkaround()
      requires Valid()
      modifies `m, `trace
      ensures Valid() && Active() && m.op == old(m.op) && m.fetch == old(m.fetch)
      ensures old(AnyEnabled(m)) ==> trace == old(trace)
      ensures !old(AnyEnabled(m)) ==> trace == old(trace) + [old(m).(wa1 := old(m).wa1 + Bits1()), m]
    {
      var any := Scan();
      if any { return; }
      var (cur1, cur3) := (m.wa1, m.wa3);
      Write(m.(wa1 := cur1 + Bits1()));
      Write(m.(wa3 := cur3 - Bits3()));
    }

    method StopWorkaround()
      requires Valid()
      modifies `m, `trace, `disabled
      ensures Valid() && m.op == old(m.op) && m.fetch == old(m.fetch) && old(trace) <= trace
      ensures !AnyEnabled(m) ==> disabled && m.wa1 == Left1(original1, saved1) && m.wa3 == Left3(original3, saved3)
      ensures AnyEnabled(m) ==> disabled == old(disabled) && trace == old(trace)
      ensures !AnyEnabled(m) ==> trace == old(trace) + [old(m).(wa1 := m.wa1), m]
    {
      var any := Scan();
      if any { return; }
      var (cur1, cur3) := (m.wa1, m.wa3);
      Write(m.(wa1 := (cur1 - Bits1()) + saved1));
      Write(m.(wa3 := cur3 + Bits3() + saved3));
      Restored(original1, saved1, original3, saved3);
      disabled := true;
    }

    /** Between operations: a core that samples nothing has its registers back at the base values. */
    ghost predicate Settled()
      reads this
    {
      Valid() && (!AnyEnabled(m) ==> m.wa1 == Base1() && m.wa3 == Base3())
    }

    /** IBS_ENABLE on one sibling: the workaround first, then the enable write. */
    method EnableOn(flavor: Flavor, cpu: nat, ctl: Word)
      requires Settled() && cpu < |m.op| && En(Config(flavor, true)) in ctl
      modifies `m, `trace
      ensures Settled() && AnyEnabled(m)
      ensures m.op == if flavor.Op? then old(m.op)[cpu := ctl] else old(m.op)
      ensures m.fetch == if flavor.Op? then old(m.fetch) else old(m.fetch)[cpu := ctl]
      ensures trace != [] && trace[|trace| - 1] == m
    {
      StartWorkaround();
      if flavor.Op? {
        Write(m.(op := m.op[cpu := ctl]));
        assert OP_EN in m.op[cpu];
      } else {
        Write(m.(fetch := m.fetch[cpu := ctl]));
        assert FETCH_EN in m.fetch[cpu];
      }
    }

    /** IBS_DISABLE on one sibling: the disable writes first, then the workaround. */
    method DisableOn(flavor: Flavor, cpu: nat)
      requires Settled() && cpu < |m.op|
      modifies `m, `trace, `disabled
      ensures Settled()
      ensures m.op == if flavor.Op? then old(m.op)[cpu := {}] else old(m.op)
      ensures m.fetch == if flavor.Op? then old(m.fetch) else old(m.fetch)[cpu := {}]
      ensures var off := Put(old(m), flavor, cpu, {});
        old(trace) + (if flavor.Op? then [Put(old(m), flavor, cpu, {OP_VAL}), off] else [off]) <= trace
      ensures !AnyEnabled(m) ==> disabled && m.wa1 == Left1(original1, saved1) && m.wa3 == Left3(original3, saved3)
    {
      if flavor.Op? {
        Write(m.(op := m.op[cpu := {OP_VAL}]));
        Write(m.(op := m.op[cpu := {}]));
      } else {
        Write(m.(fetch := m.fetch[cpu := {}]));
      }
      StopWorkaround();
    }

    /** The handler's re-arming write; a fetch register is cleared in between. */
    method RearmOn(flavor: Flavor, cpu: nat, ctl: Word)
      requires Settled() && cpu < |m.op| && En(Config(flavor, true)) in ctl
      requires En(Config(flavor, true)) in (if flavor.Op? then m.op[cpu] else m.fetch[cpu])
      modifies `m, `trace
      ensures Settled() && AnyEnabled(m) && m == Put(old(m), flavor, cpu, ctl)
      ensures trace == old(trace) + if flavor.Op? then [m] else [Put(old(m), flavor, cpu, {}), m]
    {
      assert AnyEnabled(m);
      if flavor.Op? {
        Write(m.(op := m.op[cpu := ctl]));
        assert OP_EN in m.op[cpu];
      } else {
        Write(m.(fetch := m.fetch[cpu := {}]));
        Write(m.(fetch := m.fetch[cpu := ctl]));
        assert FETCH_EN in m.fetch[cpu];
      }
    }

    /** Any sequence of operations: the registers are safe after every single MSR write, every sibling's
        control word is the one its own operations lead to, and once something was disabled and nothing
        samples any more, the workaround registers are back at the values of Left1 and Left3. Re-arming
        a sibling that is not enabled does not happen and is skipped. */
    method Perform(ops: seq<Operation>)
      requires Settled() && WellFormed(ops) && forall o :: o in ops ==> o.cpu < |m.op|
      modifies this
      ensures Settled() && TraceSafe() && Follows(old(m.op), old(m.fetch), m, ops)
      ensures (exists i :: 0 <= i < |ops| && ops[i].Disable?) && !AnyEnabled(m) ==>
        m.wa1 == Left1(original1, saved1) && m.wa3 == Left3(original3, saved3)
    {
      ghost var op, fetch := m.op, m.fetch;
      for i := 0 to |ops|
        invariant Settled() && Follows(op, fetch, m, ops[..i])
        invariant (exists k :: 0 <= k < i && ops[k].Disable?) && !AnyEnabled(m) ==> disabled
      {
        assert ops[i] in ops;
        ghost var before := m;
        Do(ops[i]);
        OneMoreOperation(op, fetch, before, m, ops, i);
      }
      assert ops[..|ops|] == ops;
    }

    method Do(o: Operation)
      requires Settled() && o.cpu < |m.op| && (!o.Disable? ==> En(Config(o.flavor, true)) in o.ctl)
      modifies this
      ensures Settled() && Affected(old(m), m, o)
      ensures (old(disabled) || o.Disable? || old(AnyEnabled(m))) && !AnyEnabled(m) ==> disabled
    {
      match o {
        case Enable(flavor, cpu, ctl) => EnableOn(flavor, cpu, ctl);
        case Disable(flavor, cpu) => DisableOn(flavor, cpu);
        case Rearm(flavor, cpu, ctl) =>
          if En(Config(flavor, true)) in (if flavor.Op? then m.op[cpu] else m.fetch[cpu]) {
            RearmOn(flavor, cpu, ctl);
          }
      }
    }
  }

  /** The registers get their original values back exactly when the saved value of register 1 has no
      bit the original lacks and every workaround bit the original has, and register 3 originally
      had its workaround bits set and all saved bits. With the values saved at load time equal to the
      original ones, only the condition on the bits of register 3 remains. */
  lemma LeavesOriginal(original1: Word, saved1: Word, original3: Word, saved3: Word)
    ensures Left1(original1, saved1) == original1 <==> saved1 <= original1 && original1 * Bits1() <= saved1
    ensures Left3(original3, saved3) == original3 <==> Bits3() <= original3 && saved3 <= original3
    ensures saved1 == original1 && saved3 == original3 ==>
      Left1(original1, saved1) == original1 && (Left3(original3, saved3) == original3 <==> Bits3() <= original3)
  {
    var gap := original1 * Bits1();
    assert Left1(original1, saved1) == original1 ==> gap <= saved1;
  }

  /** Setting and clearing the bits from either base ends in the same place. */
  lemma Restored(original1: Word, saved1: Word, original3: Word, saved3: Word)
    ensures var l := Left1(original1, saved1);
      forall b: Word :: b == original1 || b == l ==> (b - Bits1()) + saved1 == l && ((b + Bits1()) - Bits1()) + saved1 == l
    ensures var l := Left3(original3, saved3);
      forall b: Word :: b == original3 || b == l ==> b + Bits3() + saved3 == l && (b - Bits3()) + Bits3() + saved3 == l
  {}
}
