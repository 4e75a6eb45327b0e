/** The control word `dev->ctl`: the fields that ioctl commands store in it, the value written back
    to the hardware after a sample, and the sampling rate on its way from the monitor's command line
    to the decoder's CSV. */
module ControlRegister {
  import opened Words
  import opened Arith

  datatype Flavor = Op | Fetch

  /** The device, as far as its control word depends on it: `ext` is ibs_op_cnt_ext_supported. */
  datatype Config = Config(flavor: Flavor, ext: bool)

  const OP_EN := 17
  const OP_VAL := 18
  const OP_CNT_CTL := 19
  const FETCH_EN := 48
  const FETCH_VAL := 49
  const RAND_EN := 57

  /** include/ibs-msr-index.h: 0x7f0ffff, 0xffff, 0x7fffff0 << 32, 0xfffff << 32, 0xffff << 16. */
  function OpMaxCnt(): Word { Field(0, 16) + Field(20, 27) }
  function OpMaxCntOld(): Word { Field(0, 16) }
  function OpCurCnt23(): Word { Field(36, 59) }
  function OpCurCntOld(): Word { Field(32, 52) }
  function FetchMaxCnt(): Word { Field(0, 16) }
  function FetchCnt(): Word { Field(16, 32) }

  function En(c: Config): nat { if c.flavor.Op? then OP_EN else FETCH_EN }

  function Val(c: Config): nat { if c.flavor.Op? then OP_VAL else FETCH_VAL }

  function MaxField(c: Config): Word {
    if c.flavor.Fetch? then FetchMaxCnt() else if c.ext then OpMaxCnt() else OpMaxCntOld()
  }

  function CurField(c: Config): Word {
    if c.flavor.Fetch? then FetchCnt() else if c.ext then OpCurCnt23() else OpCurCntOld()
  }

  /** The one-bit option: count control on op devices, randomisation on fetch devices. */
  function Option(c: Config): nat { if c.flavor.Op? then OP_CNT_CTL else RAND_EN }

  datatype Cmd =
    | Enable | Disable
    | SetCurCnt | GetCurCnt | SetCnt | GetCnt | SetMaxCnt | GetMaxCnt
    | SetCntCtl | GetCntCtl | SetRandEn | GetRandEn

  datatype Reply = Ok(value: nat) | Busy | Invalid

  function SetField(ctl: Word, fmt: Word, arg: nat): Word {
    (ctl - fmt) + Scatter(Digits(arg), fmt)
  }

  function Defaults(c: Config): Word {
    match c.flavor
    case Op => Scatter(Digits(0), CurField(c)) + Scatter(Digits(0x4000), MaxField(c)) + {OP_CNT_CTL}
    case Fetch => {RAND_EN} + Scatter(Digits(0), FetchCnt()) + Scatter(Digits(0x1000), FetchMaxCnt())
  }

  predicate IsSet(cmd: Cmd) {
    cmd.SetCurCnt? || cmd.SetCnt? || cmd.SetMaxCnt? || cmd.SetCntCtl? || cmd.SetRandEn?
  }

  function SetBit(ctl: Word, bit: nat, arg: nat): (Word, Reply)
    requires bit < 64
  {
    if arg == 1 then (ctl + {bit}, Ok(0)) else if arg == 0 then (ctl - {bit}, Ok(0)) else (ctl, Invalid)
  }

  /** ibs_ioctl, for the commands that touch the control word. */
  function Ioctl(c: Config, ctl: Word, cmd: Cmd, arg: nat): (Word, Reply) {
    if IsSet(cmd) && En(c) in ctl then (ctl, Busy) else
    match cmd
    case Enable => (ctl + {En(c)}, Ok(0))
    case Disable => (ctl - {En(c)}, Ok(0))
    case SetCurCnt => (SetField(ctl, CurField(c), arg), Ok(0))
    case SetCnt => (SetField(ctl, CurField(c), arg), Ok(0))
    case GetCurCnt => (ctl, Ok(Num(Gather(ctl, CurField(c)), 64)))
    case GetCnt => (ctl, Ok(Num(Gather(ctl, CurField(c)), 64)))
    case SetMaxCnt => (SetField(ctl, MaxField(c), arg), Ok(0))
    case GetMaxCnt => (ctl, Ok(Num(Gather(ctl, MaxField(c)), 64)))
    case SetCntCtl => if c.flavor.Fetch? then (ctl, Invalid) else SetBit(ctl, OP_CNT_CTL, arg)
    case GetCntCtl => (ctl, if c.flavor.Fetch? then Invalid else Ok(if OP_CNT_CTL in ctl then 1 else 0))
    case SetRandEn => if c.flavor.Op? then (ctl, Invalid) else SetBit(ctl, RAND_EN, arg)
    case GetRandEn => (ctl, if c.flavor.Op? then Invalid else Ok(if RAND_EN in ctl then 1 else 0))
  }

  // ----- the same commands on a plain record

  datatype Settings = Settings(enabled: bool, cur: nat, max: nat, option: bool)

  function CurWidth(c: Config): nat { if c.flavor.Fetch? then 16 else if c.ext then 23 else 20 }

  function MaxWidth(c: Config): nat { if c.flavor.Op? && c.ext then 23 else 16 }

  function InitialSettings(c: Config): Settings {
    Settings(false, 0, if c.flavor.Op? then 0x4000 else 0x1000, true)
  }

  function SetOption(s: Settings, arg: nat): (Settings, Reply) {
    if arg > 1 then (s, Invalid) else (s.(option := arg == 1), Ok(0))
  }

  function Apply(c: Config, s: Settings, cmd: Cmd, arg: nat): (Settings, Reply) {
    if IsSet(cmd) && s.enabled then (s, Busy) else
    match cmd
    case Enable => (s.(enabled := true), Ok(0))
    case Disable => (s.(enabled := false), Ok(0))
    case SetCurCnt | SetCnt => (s.(cur := arg % Pow2(CurWidth(c))), Ok(0))
    case GetCurCnt | GetCnt => (s, Ok(s.cur))
    case SetMaxCnt => (s.(max := arg % Pow2(MaxWidth(c))), Ok(0))
    case GetMaxCnt => (s, Ok(s.max))
    case SetCntCtl => if c.flavor.Op? then SetOption(s, arg) else (s, Invalid)
    case GetCntCtl => (s, if c.flavor.Op? then Ok(if s.option then 1 else 0) else Invalid)
    case SetRandEn => if c.flavor.Fetch? then SetOption(s, arg) else (s, Invalid)
    case GetRandEn => (s, if c.flavor.Fetch? then Ok(if s.option then 1 else 0) else Invalid)
  }

  /** What a control word means. */
  function Meaning(c: Config, ctl: Word): Settings {
    Settings(En(c) in ctl, Num(Gather(ctl, CurField(c)), 64), Num(Gather(ctl, MaxField(c)), 64), Option(c) in ctl)
  }

  /** Positions a control word may use; the sample-valid bit is not among them. */
  function Used(c: Config): Word {
    CurField(c) + MaxField(c) + {En(c), Option(c)}
  }

  lemma {:induction false} RankOfField(lo: nat, hi: nat, n: nat)
    requires lo <= hi <= 64
    ensures Rank(Field(lo, hi), n) == if n <= lo then 0 else if n <= hi then n - lo else hi - lo
  {
    if n > 0 { RankOfField(lo, hi, n - 1); }
  }

  lemma {:induction false} RankOfOpMaxCnt(n: nat)
    ensures Rank(OpMaxCnt(), n) ==
      if n <= 16 then n else if n <= 20 then 16 else if n <= 27 then n - 4 else 23
  {
    if n > 0 { RankOfOpMaxCnt(n - 1); }
  }

  lemma Widths(c: Config)
    ensures Rank(CurField(c), 64) == CurWidth(c) && Rank(MaxField(c), 64) == MaxWidth(c)
  {
    RankOfField(0, 16, 64); RankOfField(16, 32, 64); RankOfField(36, 59, 64); RankOfField(32, 52, 64);
    RankOfOpMaxCnt(64);
  }

  lemma Apart(c: Config)
    ensures CurField(c) !! MaxField(c)
    ensures {En(c), Option(c), Val(c)} !! CurField(c) + MaxField(c)
    ensures Val(c) !in Used(c)
  {}

  /** Writing a field changes its own number and nothing else. */
  lemma SetCurMeaning(c: Config, ctl: Word, arg: nat)
    ensures Meaning(c, SetField(ctl, CurField(c), arg)) == Meaning(c, ctl).(cur := arg % Pow2(CurWidth(c)))
  {
    Widths(c);
    Apart(c);
    var (cur, max) := (CurField(c), MaxField(c));
    FieldRoundTrip(ctl, arg, cur);
    WriteField(ctl, cur, Digits(arg), max);
  }

  lemma SetMaxMeaning(c: Config, ctl: Word, arg: nat)
    ensures Meaning(c, SetField(ctl, MaxField(c), arg)) == Meaning(c, ctl).(max := arg % Pow2(MaxWidth(c)))
  {
    Widths(c);
    Apart(c);
    var (cur, max) := (CurField(c), MaxField(c));
    FieldRoundTrip(ctl, arg, max);
    WriteField(ctl, max, Digits(arg), cur);
  }

  lemma SetBitMeaning(c: Config, ctl: Word, bit: nat)
    requires bit == En(c) || bit == Option(c)
    ensures Gather(ctl + {bit}, CurField(c)) == Gather(ctl, CurField(c)) == Gather(ctl - {bit}, CurField(c))
    ensures Gather(ctl + {bit}, MaxField(c)) == Gather(ctl, MaxField(c)) == Gather(ctl - {bit}, MaxField(c))
  {
    GatherDepends(ctl + {bit}, ctl, CurField(c));
    GatherDepends(ctl - {bit}, ctl, CurField(c));
    GatherDepends(ctl + {bit}, ctl, MaxField(c));
    GatherDepends(ctl - {bit}, ctl, MaxField(c));
  }

  /** One command on the control word is that command on the record: same new settings, same reply,
      and no position outside the fields is ever used. */
  predicate Refines(c: Config, ctl: Word, cmd: Cmd, arg: nat) {
    var (ctl', reply) := Ioctl(c, ctl, cmd, arg);
    && (Meaning(c, ctl'), reply) == Apply(c, Meaning(c, ctl), cmd, arg)
    && ctl' <= Used(c) && Val(c) !in ctl'
  }

  lemma BitRefines(c: Config, ctl: Word, cmd: Cmd, arg: nat)
    requires ctl <= Used(c) && (cmd.Enable? || cmd.Disable? || cmd.SetCntCtl? || cmd.SetRandEn?)
    ensures Refines(c, ctl, cmd, arg)
  {
    Apart(c);
    SetBitMeaning(c, ctl, if cmd.Enable? || cmd.Disable? then En(c) else Option(c));
  }

  lemma FieldRefines(c: Config, ctl: Word, cmd: Cmd, arg: nat)
    requires ctl <= Used(c) && (cmd.SetCurCnt? || cmd.SetCnt? || cmd.SetMaxCnt?)
    ensures Refines(c, ctl, cmd, arg)
  {
    Apart(c);
    if cmd.SetMaxCnt? { SetMaxMeaning(c, ctl, arg); } else { SetCurMeaning(c, ctl, arg); }
  }

  lemma IoctlRefines(c: Config, ctl: Word, cmd: Cmd, arg: nat)
    requires ctl <= Used(c)
    ensures Refines(c, ctl, cmd, arg)
  {
    match cmd
    case Enable | Disable | SetCntCtl | SetRandEn => BitRefines(c, ctl, cmd, arg);
    case SetCurCnt | SetCnt | SetMaxCnt => FieldRefines(c, ctl, cmd, arg);
    case GetCurCnt | GetCnt | GetMaxCnt | GetCntCtl | GetRandEn => Apart(c);
  }

  lemma DefaultsMeaning(c: Config)
    ensures Meaning(c, Defaults(c)) == InitialSettings(c) && Defaults(c) <= Used(c)
  {
    var max := if c.flavor.Op? then 0x4000 else 0x1000;
    var bare: Word := {Option(c)};
    var one := SetField(bare, CurField(c), 0);
    SetCurMeaning(c, bare, 0);
    SetMaxMeaning(c, one, max);
    DefaultsBuilt(c, bare, one, max);
    SmallModulus(0, CurWidth(c));
    SmallModulus(max, MaxWidth(c));
  }

  lemma DefaultStartIsClear(c: Config)
    ensures Defaults(c) * CurField(c) == {}
  {
    var none: Word := {};
    DefaultsMeaning(c);
    NumOfEmpty(Gather(none, CurField(c)), 64);
    FieldInjective(Defaults(c), none, CurField(c));
  }

  lemma DefaultsBuilt(c: Config, bare: Word, one: Word, max: nat)
    requires bare == {Option(c)} && one == SetField(bare, CurField(c), 0)
    requires max == if c.flavor.Op? then 0x4000 else 0x1000
    ensures Defaults(c) == SetField(one, MaxField(c), max)
  {
    Apart(c);
  }

  lemma SmallModulus(v: nat, width: nat)
    requires width == 16 || width == 20 || width == 23
    requires v < 0x1_0000
    ensures v % Pow2(width) == v
  {
    LargePow2();
  }

  lemma LargePow2()
    ensures Pow2(16) == 0x1_0000 && Pow2(20) == 0x10_0000 && Pow2(23) == 0x80_0000
    ensures Pow2(4) == 16 && Pow2(7) == 128 && Pow2(27) == 0x800_0000
  {
    assert Pow2(4) == 16 && Pow2(8) == 256 && Pow2(12) == 4096;
    assert Pow2(20) == 16 * Pow2(16);
    assert Pow2(24) == 16 * Pow2(20);
  }

  lemma MorePow2()
    ensures Pow2(17) == 0x2_0000 && Pow2(18) == 0x4_0000 && Pow2(19) == 0x8_0000 && Pow2(27) == 0x800_0000
    ensures Pow2(32) == 0x1_0000_0000 && Pow2(36) == 0x10_0000_0000 && Pow2(48) == 0x1_0000_0000_0000
    ensures Pow2(52) == 0x10_0000_0000_0000 && Pow2(57) == 0x200_0000_0000_0000 && Pow2(59) == 0x800_0000_0000_0000
  {
    LargePow2();
    assert Pow2(28) == 16 * Pow2(24) && Pow2(24) == 2 * Pow2(23) && Pow2(32) == 16 * Pow2(28);
    assert Pow2(36) == 16 * Pow2(32) && Pow2(40) == 16 * Pow2(36) && Pow2(44) == 16 * Pow2(40);
    assert Pow2(48) == 16 * Pow2(44) && Pow2(52) == 16 * Pow2(48) && Pow2(56) == 16 * Pow2(52);
  }

  lemma BitValue(i: nat)
    requires i < 64
    ensures Num({i}, 64) == Pow2(i)
  {
    NumOfField(i, i + 1, 64);
    var one: Word := {i};
    assert one == Field(i, i + 1);
  }

  /** The sets of positions are the masks of include/ibs-msr-index.h. */
  lemma MaskValues()
    ensures Num(OpMaxCnt(), 64) == 0x7f0_ffff && Num(OpMaxCntOld(), 64) == 0xffff
    ensures Num(OpCurCnt23(), 64) == 0x7ff_fff0 * 0x1_0000_0000 && Num(OpCurCntOld(), 64) == 0xf_ffff * 0x1_0000_0000
    ensures Num(FetchMaxCnt(), 64) == 0xffff && Num(FetchCnt(), 64) == 0xffff * 0x1_0000
    ensures Num({OP_EN}, 64) == 0x2_0000 && Num({OP_VAL}, 64) == 0x4_0000 && Num({OP_CNT_CTL}, 64) == 0x8_0000
    ensures Num({FETCH_EN}, 64) == 0x1_0000_0000_0000 && Num({FETCH_VAL}, 64) == 0x2_0000_0000_0000
    ensures Num({RAND_EN}, 64) == 0x200_0000_0000_0000
  {
    LargePow2();
    MorePow2();
    NumOfField(0, 16, 64); NumOfField(20, 27, 64); NumOfField(36, 59, 64); NumOfField(32, 52, 64); NumOfField(16, 32, 64);
    NumOfUnion(Field(0, 16), Field(20, 27), 64);
    BitValue(OP_EN); BitValue(OP_VAL); BitValue(OP_CNT_CTL); BitValue(FETCH_EN); BitValue(FETCH_VAL); BitValue(RAND_EN);
    assert Pow2(0) == 1 && Pow2(49) == 2 * Pow2(48);
  }

  // ----- histories

  datatype Call = Call(cmd: Cmd, arg: nat)

  function CtlAfter(c: Config, calls: seq<Call>): Word {
    if calls == [] then Defaults(c)
    else Ioctl(c, CtlAfter(c, calls[..|calls| - 1]), calls[|calls| - 1].cmd, calls[|calls| - 1].arg).0
  }

  function SettingsAfter(c: Config, calls: seq<Call>): Settings {
    if calls == [] then InitialSettings(c)
    else Apply(c, SettingsAfter(c, calls[..|calls| - 1]), calls[|calls| - 1].cmd, calls[|calls| - 1].arg).0
  }

  predicate Agrees(c: Config, ctl: Word, s: Settings) {
    Meaning(c, ctl) == s && ctl <= Used(c) && Val(c) !in ctl
  }

  lemma DefaultsAgree(c: Config)
    ensures Agrees(c, Defaults(c), InitialSettings(c))
  {
    DefaultsMeaning(c);
    Apart(c);
  }

  lemma CallAgrees(c: Config, ctl: Word, s: Settings, call: Call)
    requires Agrees(c, ctl, s)
    ensures Agrees(c, Ioctl(c, ctl, call.cmd, call.arg).0, Apply(c, s, call.cmd, call.arg).0)
  {
    IoctlRefines(c, ctl, call.cmd, call.arg);
  }

  /** After every history of calls the control word means what the record says; so every GET returns
      the last accepted SET modulo its width, or the default. */
  lemma {:induction false} HistoryRefines(c: Config, calls: seq<Call>)
    ensures Agrees(c, CtlAfter(c, calls), SettingsAfter(c, calls))
  {
    if calls == [] {
      DefaultsAgree(c);
    } else {
      var before, call := calls[..|calls| - 1], calls[|calls| - 1];
      HistoryRefines(c, before);
      CallAgrees(c, CtlAfter(c, before), SettingsAfter(c, before), call);
    }
  }

  lemma OneMoreCall(c: Config, calls: seq<Call>, call: Call)
    ensures CtlAfter(c, calls + [call]) == Ioctl(c, CtlAfter(c, calls), call.cmd, call.arg).0
  {
    var all := calls + [call];
    assert all[..|all| - 1] == calls;
  }

  /** The call after a history replies as the record would. */
  lemma ReplyAfterHistory(c: Config, calls: seq<Call>, call: Call)
    ensures var (ctl, reply) := Ioctl(c, CtlAfter(c, calls), call.cmd, call.arg);
      && (Meaning(c, ctl), reply) == Apply(c, SettingsAfter(c, calls), call.cmd, call.arg)
      && Val(c) !in ctl
  {
    HistoryRefines(c, calls);
    IoctlRefines(c, CtlAfter(c, calls), call.cmd, call.arg);
  }

  // ----- re-arming after a sample

  /** randomize_op_ctl: the low four bits of the start count are replaced by random ones. */
  function Randomize(ctl: Word, nibble: Word): Word {
    (nibble * Field(32, 36)) + (ctl - Field(32, 36))
  }

  /** With the extended counter the random bits lie outside every field: the value written back
      means exactly what the control word means, and the valid bit is clear. */
  lemma RearmKeepsSettings(ctl: Word, nibble: Word)
    requires ctl <= Used(Config(Op, true))
    ensures var c := Config(Op, true);
      Meaning(c, Randomize(ctl, nibble)) == Meaning(c, ctl) && OP_VAL !in Randomize(ctl, nibble)
  {
    var c := Config(Op, true);
    var out := Randomize(ctl, nibble);
    assert out * CurField(c) == ctl * CurField(c) && out * MaxField(c) == ctl * MaxField(c);
    GatherDepends(out, ctl, CurField(c));
    GatherDepends(out, ctl, MaxField(c));
  }

  /** Without it the random bits are the low bits of the 20-bit start count: the settings survive
      just when the random bits happen to be the ones already there. */
  lemma RearmOldCounter(ctl: Word, nibble: Word)
    requires ctl <= Used(Config(Op, false)) && nibble <= Field(32, 36)
    ensures var c := Config(Op, false);
      && OP_VAL !in Randomize(ctl, nibble)
      && Meaning(c, Randomize(ctl, nibble)).(cur := 0) == Meaning(c, ctl).(cur := 0)
      && (Meaning(c, Randomize(ctl, nibble)) == Meaning(c, ctl) <==> nibble == ctl * Field(32, 36))
  {
    var c := Config(Op, false);
    var out := Randomize(ctl, nibble);
    var low := Field(32, 36);
    assert out * MaxField(c) == ctl * MaxField(c);
    GatherDepends(out, ctl, MaxField(c));
    FieldInjective(out, ctl, CurField(c));
    assert low <= CurField(c);
    assert out * low == nibble;
    if nibble == ctl * low {
      assert out == ctl;
    } else {
      assert out * low != ctl * low;
      assert out * CurField(c) * low == out * low && ctl * CurField(c) * low == ctl * low;
    }
  }

  // ----- the sampling rate, end to end

  datatype Maybe = Refused | Count(n: nat)

  /** set_global_op_sample_rate: the argument later given to SET_MAX_CNT. */
  function OpCountForRate(rate: int, ext: bool): Maybe {
    if rate < 0x90 || rate >= (if ext then 0x800_0000 else 0x10_0000) then Refused else Count(rate / 16)
  }

  /** set_global_fetch_sample_rate. */
  function FetchCountForRate(rate: int): Maybe {
    if rate < 0 || rate >= 0x10_0000 then Refused else Count(rate / 16)
  }

  function CountForRate(c: Config, rate: int): Maybe {
    if c.flavor.Op? then OpCountForRate(rate, c.ext) else FetchCountForRate(rate)
  }

  /** Exactly these rates are accepted, and the count is the rate divided by 16. */
  lemma AcceptedRates(c: Config, rate: int)
    ensures var r := CountForRate(c, rate);
      && (r.Count? <==>
            if c.flavor.Fetch? then 0 <= rate < 0x10_0000
            else if c.ext then 0x90 <= rate < 0x800_0000
            else 0x90 <= rate < 0x10_0000)
      && (r.Count? ==> r.n * 16 <= rate < r.n * 16 + 16 && r.n < Pow2(MaxWidth(c)))
  {
    LargePow2();
  }

  /** The decoder's reassembly of the maximum count from the bit fields of a sample's control word. */
  function DecodedRate(c: Config, reg: Word): nat {
    (if c.flavor.Op? && c.ext then Num(Slice(reg, 20, 7), 7) * 0x10_0000 else 0) + Num(Slice(reg, 0, 16), 16) * 16
  }

  lemma LowSlice(c: Config, reg: Word, q: nat)
    requires reg * MaxField(c) == Scatter(Digits(q), MaxField(c))
    ensures Num(Slice(reg, 0, 16), 16) == q % 0x1_0000
  {
    var f := MaxField(c);
    forall i: nat | i < 16 ensures i in Slice(reg, 0, 16) <==> i in Slice(Digits(q), 0, 16) {
      RankOfField(0, 16, i);
      RankOfOpMaxCnt(i);
      assert i in reg <==> i in reg * f;
    }
    NumAgrees(Slice(reg, 0, 16), Slice(Digits(q), 0, 16), 16);
    SliceOfDigits(q, 0, 16);
    LargePow2();
  }

  lemma ShrBy4(v: nat)
    ensures Shr(v, 4) == v / 16
  {
    var h := v / 2 / 2;
    assert Shr(v, 4) == Shr(v / 2, 3) == Shr(h, 2);
    assert Shr(h, 2) == Shr(h / 2, 1) == Shr(h / 2 / 2, 0);
  }

  lemma ShrBy16(v: nat)
    ensures Shr(v, 16) == v / 0x1_0000
  {
    ShrAdd(v, 4, 12); ShrAdd(v / 16, 4, 8); ShrAdd(v / 16 / 16, 4, 4);
    ShrBy4(v); ShrBy4(v / 16); ShrBy4(v / 16 / 16); ShrBy4(v / 16 / 16 / 16);
  }

  lemma HighSlice(reg: Word, q: nat)
    requires reg * OpMaxCnt() == Scatter(Digits(q), OpMaxCnt())
    ensures Num(Slice(reg, 20, 7), 7) == (q / 0x1_0000) % 128
  {
    var f := OpMaxCnt();
    forall i: nat | i < 7 ensures i in Slice(reg, 20, 7) <==> i in Slice(Digits(q), 16, 7) {
      RankOfOpMaxCnt(20 + i);
      assert 20 + i in reg <==> 20 + i in reg * f;
    }
    NumAgrees(Slice(reg, 20, 7), Slice(Digits(q), 16, 7), 7);
    SliceOfDigits(q, 16, 7);
    LargePow2();
    ShrBy16(q);
  }

  /** The two slices of a 23-bit count make it up again. */
  lemma Reassembled(rate: nat, q: nat, ext: bool)
    requires q == rate / 16 && q < (if ext then 0x80_0000 else 0x1_0000)
    ensures (if ext then q / 0x1_0000 % 128 * 0x10_0000 else 0) + q % 0x1_0000 * 16 == rate - rate % 16
  {
    if ext { assert q / 0x1_0000 < 128; }
  }

  /** Every accepted rate is decoded as that rate rounded down to a multiple of 16, from any register
      whose maximum-count field is the one SET_MAX_CNT stored. */
  lemma RateSurvives(c: Config, rate: int, ctl: Word, reg: Word)
    requires CountForRate(c, rate).Count?
    requires reg * MaxField(c) == SetField(ctl, MaxField(c), CountForRate(c, rate).n) * MaxField(c)
    ensures DecodedRate(c, reg) == rate - rate % 16
  {
    var q := CountForRate(c, rate).n;
    assert SetField(ctl, MaxField(c), q) * MaxField(c) == Scatter(Digits(q), MaxField(c));
    LowSlice(c, reg, q);
    if c.flavor.Op? && c.ext { HighSlice(reg, q); }
    Reassembled(rate, q, c.flavor.Op? && c.ext);
  }
}
