/** The control word as ibs_ioctl updates it in place, calling the scatter and gather loops. */
module DeviceControl {
  import opened Words
  import opened ControlRegister

  class ControlWord {
    const c: Config
    var ctl: Word
    ghost var calls: seq<Call>

    /** The word is the one that the calls so far, from the defaults on, lead to. */
    ghost predicate Valid()
      reads this
    {
      ctl == CtlAfter(c, calls)
    }

    /** ibs_open: set_ibs_defaults. */
    constructor (c: Config)
      ensures Valid() && calls == [] && this.c == c
    {
      this.c := c;
      calls := [];
      ctl := {};
      new;
      var cur := ScatterBits(Digits(0), CurField(c));
      var max := ScatterBits(Digits(if c.flavor.Op? then 0x4000 else 0x1000), MaxField(c));
      ctl := cur + max + {Option(c)};
    }

    method StoreField(fmt: Word, arg: nat)
      modifies `ctl
      ensures ctl == SetField(old(ctl), fmt, arg)
    {
      ctl := ctl - fmt;
      var bits := ScatterBits(Digits(arg), fmt);
      ctl := ctl + bits;
    }

    method LoadField(fmt: Word) returns (v: nat)
      ensures v == Num(Gather(ctl, fmt), 64)
    {
      var qty := GatherBits(ctl, fmt);
      v := Num(qty, 64);
    }

    method StoreBit(bit: nat, arg: nat) returns (reply: Reply)
      requires bit < 64
      modifies `ctl
      ensures (ctl, reply) == SetBit(old(ctl), bit, arg)
    {
      reply := Ok(0);
      if arg == 1 { ctl := ctl + {bit}; }
      else if arg == 0 { ctl := ctl - {bit}; }
      else { reply := Invalid; }
    }

    /** Every reply is the one that the record of settings would have given. */
    method Command(cmd: Cmd, arg: nat) returns (reply: Reply)
      requires Valid()
      modifies this
      ensures Valid() && calls == old(calls) + [Call(cmd, arg)]
      ensures (Meaning(c, ctl), reply) == Apply(c, SettingsAfter(c, old(calls)), cmd, arg)
      ensures Val(c) !in ctl
    {
      ReplyAfterHistory(c, calls, Call(cmd, arg));
      OneMoreCall(c, calls, Call(cmd, arg));
      reply := Perform(cmd, arg);
      calls := calls + [Call(cmd, arg)];
    }

    method Perform(cmd: Cmd, arg: nat) returns (reply: Reply)
      modifies `ctl
      ensures (ctl, reply) == Ioctl(c, old(ctl), cmd, arg)
    {
      if IsSet(cmd) && En(c) in ctl { return Busy; }
      reply := Ok(0);
      match cmd {
        case Enable => ctl := ctl + {En(c)};
        case Disable => ctl := ctl - {En(c)};
        case SetCurCnt | SetCnt => StoreField(CurField(c), arg);
        case SetMaxCnt => StoreField(MaxField(c), arg);
        case GetCurCnt | GetCnt => var v := LoadField(CurField(c)); reply := Ok(v);
        case GetMaxCnt => var v := LoadField(MaxField(c)); reply := Ok(v);
        case SetCntCtl =>
          if c.flavor.Fetch? { reply := Invalid; } else { reply := StoreBit(OP_CNT_CTL, arg); }
        case GetCntCtl =>
          reply := if c.flavor.Fetch? then Invalid else Ok(if OP_CNT_CTL in ctl then 1 else 0);
        case SetRandEn =>
          if c.flavor.Op? { reply := Invalid; } else { reply := StoreBit(RAND_EN, arg); }
        case GetRandEn =>
          reply := if c.flavor.Op? then Invalid else Ok(if RAND_EN in ctl then 1 else 0);
      }
    }
  }
}
