/** One device and its CPU as a state machine: open, release and ioctl under `ctl_lock`
    (driver/ibs-fops.c), the control MSR, and the NMI handler (driver/ibs-interrupt.c).

    Each MSR write, each update of `dev->ctl` and each part of the handler that other CPUs can see
    is a step. MSR writes run on the device's own CPU, so they wait for the handler to return; an
    NMI may arrive between any two steps. */
module Driver {
  import opened Arith
  import opened Words
  import opened ControlRegister

  /** `wa420` is workaround_fam10h_err_420, which only op devices act on; `entry` is entry_size. */
  datatype Device = Device(c: Config, wa420: bool, entry: nat)

  /** A SET_BUFFER_SIZE call: its argument, and whether vmalloc would grant the memory. */
  datatype Request = Request(arg: nat, granted: bool)

  datatype Stage = Quiesce | Force | Clear | Forget

  /** What the holder of `ctl_lock` is doing. */
  datatype Control =
    | Free
    | Opening
    | Arming                                // IBS_ENABLE, between dev->ctl and the MSR write
    | Stopping(stage: Stage, closing: bool) // IBS_DISABLE or release
    | Closing                               // release, before in_use is cleared
    | Storing(fmt: Word, arg: nat)          // a SET command, between clearing a field and filling it

  /** The handler past its early returns: `tmp` is the control word it read. */
  datatype Handler = Idle | Claimed(tmp: Word) | Rearming | Zeroed

  /** `stored` lists the control word kept in every stored sample; `resets` counts buffer resets.
      `size` is what GET_BUFFER_SIZE returns and `present` tells whether `buf` points to memory that
      has not been freed. */
  datatype State = State(
    dev: Device, ctl: Word, inUse: bool, unopened: bool, control: Control,
    msr: Word, handler: Handler,
    stored: seq<Word>, lost: nat, rearmed: nat, resets: nat, size: nat, present: bool)

  datatype Action =
    | TakeUse | LockForOpen | FinishOpen
    | StartEnable | WriteEnable
    | StartDisable(closing: bool) | WriteQuiesce(read: Word) | WriteForce | WriteClear | FinishDisable | LeaveUse
    | StartSet(max: bool, arg: nat) | FinishSet | SetOption(on: bool) | ResetBuffer | Resize(req: Request)
    | Sample(noise: Word) | Nmi | Store | Lose | ZeroFetch | Rearm(nibble: Word) | CpuDown

  /** Control bits that the hardware leaves alone. */
  function Kept(c: Config): Word { MaxField(c) + {En(c), Option(c)} }

  predicate HandlerSkips(dev: Device, msr: Word) {
    || Val(dev.c) !in msr
    || (dev.c.flavor.Op? && dev.wa420 && msr * OpMaxCntOld() == {})
    || (dev.c.flavor.Op? && msr * OpMaxCnt() == {})
  }

  /** handle_ibs_event reports the NMI as handled. */
  predicate Claims(s: State) { Val(s.dev.c) in s.msr }

  predicate IsOpen(s: State) { s.inUse && !s.unopened }

  predicate Enabled(s: State, a: Action) {
    var en := En(s.dev.c);
    match a
    case TakeUse => !s.inUse
    case LockForOpen => s.control.Free? && s.unopened
    case FinishOpen => s.control.Opening?
    case StartEnable => s.control.Free? && IsOpen(s)
    case WriteEnable => s.control.Arming? && s.handler.Idle?
    case StartDisable(_) => s.control.Free? && IsOpen(s)
    case WriteQuiesce(_) => s.control.Stopping? && s.control.stage.Quiesce? && s.handler.Idle?
    case WriteForce => s.control.Stopping? && s.control.stage.Force? && s.handler.Idle?
    case WriteClear => s.control.Stopping? && s.control.stage.Clear? && s.handler.Idle?
    case FinishDisable => s.control.Stopping? && s.control.stage.Forget?
    case LeaveUse => s.control.Closing?
    case StartSet(_, _) => s.control.Free? && IsOpen(s) && en !in s.ctl
    case FinishSet => s.control.Storing?
    case SetOption(_) => s.control.Free? && IsOpen(s) && en !in s.ctl
    case ResetBuffer => s.control.Free? && IsOpen(s) && en !in s.ctl
    case Resize(_) => s.control.Free? && IsOpen(s) && en !in s.ctl
    case Sample(_) => en in s.msr && s.msr * MaxField(s.dev.c) != {} && Val(s.dev.c) !in s.msr
    case Nmi => s.handler.Idle?
    case Store => s.handler.Claimed?
    case Lose => s.handler.Claimed?
    case ZeroFetch => s.handler.Rearming? && s.dev.c.flavor.Fetch?
    case Rearm(_) => if s.dev.c.flavor.Op? then s.handler.Rearming? else s.handler.Zeroed?
    case CpuDown => s.handler.Idle?
  }

  datatype ResizeReply = Done | TooSmall | NoMemory

  /** What SET_BUFFER_SIZE returns: 0, -EINVAL or -ENOMEM. */
  function ReplyTo(s: State, req: Request): ResizeReply {
    if req.arg < s.dev.entry then TooSmall else if req.arg == s.size || req.granted then Done else NoMemory
  }

  /** The reply tells the state: 0 exactly when the size in force afterwards is the one asked for,
      -EINVAL exactly when the request cannot hold one entry, -ENOMEM exactly when the buffer is lost. */
  lemma ReplyMeaning(s: State, req: Request)
    requires Enabled(s, Resize(req))
    ensures var s' := Next(s, Resize(req)); var r := ReplyTo(s, req);
      && (r.TooSmall? <==> req.arg < s.dev.entry)
      && (r.TooSmall? ==> s' == s)
      && (!r.TooSmall? ==> (r.Done? <==> s'.size == req.arg))
      && (r.NoMemory? ==> !s'.present && s'.size == s.size)
      && (r.Done? ==> s'.resets == s.resets + 1 && (s.present ==> s'.present))
  {}

  function Next(s: State, a: Action): State
    requires Enabled(s, a)
  {
    var c := s.dev.c;
    match a
    case TakeUse => s.(inUse := true, unopened := true)
    case LockForOpen => s.(control := Opening)
    case FinishOpen => s.(ctl := Defaults(c), resets := s.resets + 1, unopened := false, control := Free)
    case StartEnable => s.(ctl := s.ctl + {En(c)}, control := Arming)
    case WriteEnable => s.(msr := s.ctl, control := Free)
    case StartDisable(closing) => s.(control := Stopping(Quiesce, closing))
    case WriteQuiesce(read) =>
      if c.flavor.Fetch? then s.(control := s.control.(stage := Clear))
      else s.(msr := if s.dev.wa420 then (read + {OP_VAL}) - OpMaxCntOld() else s.msr,
              control := s.control.(stage := Force))
    case WriteForce => s.(msr := {OP_VAL}, control := s.control.(stage := Clear))
    case WriteClear => s.(msr := {}, control := s.control.(stage := Forget))
    case FinishDisable =>
      if s.control.closing then s.(ctl := Defaults(c), resets := s.resets + 1, control := Closing)
      else s.(ctl := s.ctl - {En(c)}, control := Free)
    case LeaveUse => s.(inUse := false, control := Free)
    case StartSet(max, arg) =>
      var fmt := if max then MaxField(c) else CurField(c);
      s.(ctl := s.ctl - fmt, control := Storing(fmt, arg))
    case FinishSet => s.(ctl := s.ctl + Scatter(Digits(s.control.arg), s.control.fmt), control := Free)
    case SetOption(on) => s.(ctl := if on then s.ctl + {Option(c)} else s.ctl - {Option(c)})
    case ResetBuffer => s.(resets := s.resets + 1)
    case Resize(req) =>
      if req.arg < s.dev.entry then s
      else if req.arg == s.size then s.(resets := s.resets + 1)
      else if req.granted then s.(resets := s.resets + 1, size := req.arg, present := true)
      else s.(present := false)
    case Sample(noise) => s.(msr := (s.msr * Kept(c)) + {Val(c)} + (noise - Kept(c)))
    case Nmi => if HandlerSkips(s.dev, s.msr) then s else s.(handler := Claimed(s.msr))
    case Store => s.(stored := s.stored + [s.handler.tmp], handler := Rearming)
    case Lose => s.(lost := s.lost + 1, handler := Rearming)
    case ZeroFetch => s.(msr := {}, handler := Zeroed)
    case Rearm(nibble) =>
      s.(msr := if c.flavor.Op? then Randomize(s.ctl, nibble) else s.ctl, rearmed := s.rearmed + 1, handler := Idle)
    case CpuDown => s.(msr := {})
  }

  /** After module load: device closed, control word and MSR zero, buffer allocated. */
  predicate Init(s: State) {
    && s.ctl == {} && s.msr == {} && !s.inUse && !s.unopened && s.control.Free? && s.handler.Idle?
    && s.stored == [] && s.lost == 0 && s.rearmed == 0 && s.present
  }

  // ----- the invariant

  /** An MSR value from which neither the hardware nor an NMI can start anything. */
  predicate Muted(dev: Device, msr: Word) {
    msr == {} || (Val(dev.c) in msr && HandlerSkips(dev, msr))
  }

  /** The MSR is under the control word's rule: not yet touched by a disable. */
  predicate Governed(s: State) {
    match s.control
    case Free | Arming => true
    case Stopping(stage, _) =>
      stage.Quiesce? || (stage.Force? && !s.dev.wa420) || (stage.Clear? && s.dev.c.flavor.Fetch?)
    case _ => false
  }

  predicate ControlOk(s: State) {
    var en := En(s.dev.c);
    match s.control
    case Free => true
    case Opening => s.unopened && s.inUse && en !in s.ctl
    case Arming => IsOpen(s) && en in s.ctl
    case Stopping(stage, _) =>
      IsOpen(s) && (stage.Force? ==> s.dev.c.flavor.Op?) && (stage.Forget? ==> s.msr == {})
    case Closing => IsOpen(s) && en !in s.ctl
    case Storing(fmt, _) => IsOpen(s) && en !in s.ctl && (fmt == MaxField(s.dev.c) || fmt == CurField(s.dev.c))
  }

  predicate MsrOk(s: State) {
    if Governed(s) && En(s.dev.c) in s.ctl
    then s.msr == {} || s.msr * Kept(s.dev.c) == s.ctl * Kept(s.dev.c)
    else Muted(s.dev, s.msr) && (s.control.Stopping? || s.msr == {})
  }

  predicate HandlerOk(s: State) {
    && (!s.handler.Idle? ==> Governed(s) && En(s.dev.c) in s.ctl)
    && (s.handler.Claimed? ==> s.handler.tmp * Kept(s.dev.c) == s.ctl * Kept(s.dev.c))
    && (s.handler.Zeroed? ==> s.msr == {})
  }

  predicate Inv(s: State) {
    && s.ctl <= Used(s.dev.c)
    && (En(s.dev.c) in s.ctl ==> IsOpen(s))
    && (s.unopened ==> s.inUse)
    && ControlOk(s) && MsrOk(s) && HandlerOk(s)
  }

  lemma InitInv(s: State)
    requires Init(s)
    ensures Inv(s)
  {}

  lemma DefaultsOff(c: Config)
    ensures Defaults(c) <= Used(c) && En(c) !in Defaults(c)
  {
    DefaultsMeaning(c);
  }

  lemma SampleInv(s: State, noise: Word)
    requires Inv(s) && Enabled(s, Sample(noise))
    ensures Inv(Next(s, Sample(noise)))
  {
    var k := Kept(s.dev.c);
    Apart(s.dev.c);
    assert ((s.msr * k) + {Val(s.dev.c)} + (noise - k)) * k == s.msr * k;
  }

  lemma RearmInv(s: State, nibble: Word)
    requires Inv(s) && Enabled(s, Rearm(nibble))
    ensures Inv(Next(s, Rearm(nibble)))
  {
    var k := Kept(s.dev.c);
    if s.dev.c.flavor.Op? {
      assert Randomize(s.ctl, nibble) * k == s.ctl * k;
    }
  }

  lemma WriteInv(s: State, a: Action)
    requires Inv(s) && Enabled(s, a)
    requires a.WriteQuiesce? || a.WriteForce? || a.WriteClear?
    ensures Inv(Next(s, a))
  {
    Apart(s.dev.c);
    if a.WriteQuiesce? && s.dev.c.flavor.Op? && s.dev.wa420 {
      assert ((a.read + {OP_VAL}) - OpMaxCntOld()) * OpMaxCntOld() == {};
    }
    if a.WriteForce? {
      var forced: Word := {OP_VAL};
      assert forced * OpMaxCnt() == {};
    }
  }

  lemma SetInv(s: State, a: Action)
    requires Inv(s) && Enabled(s, a)
    requires a.StartSet? || a.FinishSet? || a.SetOption? || a.ResetBuffer? || a.Resize?
    ensures Inv(Next(s, a))
  {
    Apart(s.dev.c);
  }

  lemma OpenInv(s: State, a: Action)
    requires Inv(s) && Enabled(s, a)
    requires a.TakeUse? || a.LockForOpen? || a.FinishOpen? || a.StartEnable? || a.WriteEnable?
    ensures Inv(Next(s, a))
  {
    DefaultsOff(s.dev.c);
  }

  lemma CloseInv(s: State, a: Action)
    requires Inv(s) && Enabled(s, a)
    requires a.StartDisable? || a.FinishDisable? || a.LeaveUse?
    ensures Inv(Next(s, a))
  {
    DefaultsOff(s.dev.c);
  }

  lemma StepInv(s: State, a: Action)
    requires Inv(s) && Enabled(s, a)
    ensures Inv(Next(s, a))
  {
    match a
    case Sample(noise) => SampleInv(s, noise);
    case Rearm(nibble) => RearmInv(s, nibble);
    case WriteQuiesce(_) | WriteForce | WriteClear => WriteInv(s, a);
    case TakeUse | LockForOpen | FinishOpen | StartEnable | WriteEnable => OpenInv(s, a);
    case StartDisable(_) | FinishDisable | LeaveUse => CloseInv(s, a);
    case StartSet(_, _) | FinishSet | SetOption(_) | ResetBuffer | Resize(_) => SetInv(s, a);
    case Nmi | Store | Lose | ZeroFetch | CpuDown =>
  }

  // ----- whole runs

  predicate Runs(s: State, acts: seq<Action>)
    decreases |acts|
  {
    acts == [] || (Enabled(s, acts[0]) && Runs(Next(s, acts[0]), acts[1..]))
  }

  function Run(s: State, acts: seq<Action>): State
    requires Runs(s, acts)
    decreases |acts|
  {
    if acts == [] then s else Run(Next(s, acts[0]), acts[1..])
  }

  lemma {:induction false} RunInv(s: State, acts: seq<Action>)
    requires Inv(s) && Runs(s, acts)
    ensures Inv(Run(s, acts))
    decreases |acts|
  {
    if acts != [] {
      StepInv(s, acts[0]);
      RunInv(Next(s, acts[0]), acts[1..]);
    }
  }

  /** In every reachable state: an enabled MSR outside a disable in progress implies an enabled
      control word, which implies an open device; and a handler at work implies the same. */
  lemma HardwareFollowsControl(s: State, acts: seq<Action>)
    requires Init(s) && Runs(s, acts)
    ensures var e := Run(s, acts); var en := En(e.dev.c);
      && (e.control.Free? && en in e.msr ==> en in e.ctl)
      && (en in e.ctl ==> e.inUse && !e.unopened)
      && (!e.handler.Idle? ==> en in e.ctl)
  {
    InitInv(s);
    RunInv(s, acts);
  }

  /** A step that changes `ctl` outside its enable bit, resets the buffer or replaces it finds the
      MSR zero and the handler idle, and leaves them so. */
  lemma ReconfiguredOnlyWhenStopped(s: State, a: Action)
    requires Inv(s) && Enabled(s, a)
    requires var s' := Next(s, a); var en := {En(s.dev.c)};
      s'.ctl - en != s.ctl - en || s'.resets != s.resets || s'.size != s.size || s'.present != s.present
    ensures s.msr == {} && s.handler.Idle? && Next(s, a).msr == {} && Next(s, a).handler.Idle?
  {
    match a
    case StartEnable | FinishDisable => OnlyEnableBit(s.ctl, En(s.dev.c));
    case _ =>
  }

  lemma OnlyEnableBit(ctl: Word, en: nat)
    requires en < 64
    ensures (ctl - {en}) - {en} == ctl - {en} && (ctl + {en}) - {en} == ctl - {en}
  {}

  /** The last write of a disable leaves the MSR zero, and the disable ends with the enable bit out
      of the control word. */
  lemma DisableEndsClear(s: State)
    requires Inv(s) && Enabled(s, FinishDisable)
    ensures var s' := Next(s, FinishDisable); s'.msr == {} && En(s.dev.c) !in s'.ctl && s'.handler.Idle?
  {
    DefaultsOff(s.dev.c);
  }

  // ----- the ioctl commands, step by step

  /** The control word moves as the ioctl commands say: the two steps of a SET, the option, enable and
      disable are the commands of ControlRegister, arguments and all. */
  lemma StepsAreCommands(s: State, a: Action)
    requires Enabled(s, a)
    ensures var c := s.dev.c; var s' := Next(s, a);
      match a
      case StartSet(max, arg) =>
        && Enabled(s', FinishSet) && Next(s', FinishSet).control.Free?
        && Next(s', FinishSet).ctl == Ioctl(c, s.ctl, if max then SetMaxCnt else SetCurCnt, arg).0
      case SetOption(on) => s'.ctl == Ioctl(c, s.ctl, if c.flavor.Op? then SetCntCtl else SetRandEn, if on then 1 else 0).0
      case StartEnable => s'.ctl == Ioctl(c, s.ctl, Enable, 0).0
      case FinishDisable => s.control.closing || s'.ctl == Ioctl(c, s.ctl, Disable, 0).0
      case _ => true
  {}

  /** Opening and releasing leave the default settings, and a released device can be opened again. */
  lemma DefaultsAtOpenAndRelease(s: State, a: Action)
    requires Enabled(s, a)
    ensures var s' := Next(s, a);
      && (a.FinishOpen? || (a.FinishDisable? && s.control.closing) ==>
            Meaning(s.dev.c, s'.ctl) == InitialSettings(s.dev.c) && s'.resets == s.resets + 1)
      && (a.FinishOpen? ==> s'.control.Free? && (s.inUse ==> IsOpen(s')))
      && (a.FinishDisable? && s.control.closing ==> Enabled(s', LeaveUse))
      && (a.LeaveUse? ==> s'.control.Free? && Enabled(s', TakeUse))
  {
    DefaultsMeaning(s.dev.c);
  }

  /** reset_ibs_buffer is called at open, at release, on RESET_BUFFER and when a resize succeeds. */
  lemma BufferResets(s: State, a: Action)
    requires Enabled(s, a)
    ensures Next(s, a).resets > s.resets <==>
      || a.FinishOpen? || a.ResetBuffer? || (a.FinishDisable? && s.control.closing)
      || (a.Resize? && ReplyTo(s, a.req).Done?)
  {}

  /** An NMI that is not a sample's passes by: it is not claimed and changes nothing. The one that comes
      after the forcing write of a disable is claimed. A CPU that goes down stops sampling. */
  lemma OtherNmis(s: State)
    requires Inv(s) && s.handler.Idle?
    ensures Val(s.dev.c) !in s.msr ==> !Claims(s) && Next(s, Nmi) == s
    ensures Enabled(s, WriteForce) ==> Claims(Next(s, WriteForce)) && Next(Next(s, WriteForce), Nmi) == Next(s, WriteForce)
    ensures var down := Next(s, CpuDown); !Claims(down) && forall noise: Word :: !Enabled(down, Sample(noise))
  {
    if Enabled(s, WriteForce) {
      var forced: Word := {OP_VAL};
      assert forced * OpMaxCnt() == {};
    }
  }

  predicate SameEffects(s: State, e: State) {
    e.stored == s.stored && e.lost == s.lost && e.rearmed == s.rearmed
  }

  /** From then on, over every run that does not enable again, no NMI gets past the early returns:
      nothing is stored, lost or re-armed, whatever else the run does. */
  lemma {:induction false} DisableIsFinal(s: State, acts: seq<Action>)
    requires Inv(s) && Runs(s, acts)
    requires En(s.dev.c) !in s.ctl
    requires forall a :: a in acts ==> !a.StartEnable?
    ensures var e := Run(s, acts);
      && SameEffects(s, e) && e.handler.Idle? && En(e.dev.c) !in e.ctl
      && Next(e, Nmi) == e && (e.control.Free? ==> e.msr == {})
    decreases |acts|
  {
    if acts != [] {
      assert acts[0] in acts;
      StepInv(s, acts[0]);
      StaysOff(s, acts[0]);
      DisableIsFinal(Next(s, acts[0]), acts[1..]);
    }
  }

  lemma StaysOff(s: State, a: Action)
    requires Inv(s) && Enabled(s, a) && En(s.dev.c) !in s.ctl && !a.StartEnable?
    ensures var s' := Next(s, a); SameEffects(s, s') && En(s'.dev.c) !in s'.ctl && s'.dev == s.dev
  {
    match a
    case FinishOpen | FinishDisable => DefaultsOff(s.dev.c);
    case FinishSet | SetOption(_) => Apart(s.dev.c);
    case _ =>
  }

  /** Inside a disable: once the forcing write is out, an NMI changes nothing, and it is claimed as
      long as the forced valid bit stands. The same holds after the erratum-420 write. */
  lemma NmiDuringDisable(s: State)
    requires Inv(s) && s.control.Stopping? && !Governed(s)
    ensures s.handler.Idle? && Next(s, Nmi) == s
    ensures Claims(s) <==> s.msr != {}
  {}

  /** The MSR counts towards the next sample, with the maximum count of the control word. */
  predicate Live(s: State) {
    En(s.dev.c) in s.msr && s.msr * MaxField(s.dev.c) == s.ctl * MaxField(s.dev.c)
  }

  /** Whatever was sampled before, the handler re-arms every device: enabled, with the maximum count of
      the control word and a clear valid bit, so the next sample can come if that count is not zero.
      A fetch register goes through zero and is the control word again, an extended op register means the
      same settings. */
  lemma RearmRestoresSettings(s: State, nibble: Word)
    requires Inv(s) && Enabled(s, Rearm(nibble))
    ensures var s' := Next(s, Rearm(nibble)); var c := s.dev.c;
      && Live(s') && Val(c) !in s'.msr && s'.ctl == s.ctl && s'.handler.Idle?
      && (forall noise: Word :: Enabled(s', Sample(noise)) <==> s.ctl * MaxField(c) != {})
      && (c.flavor.Fetch? ==> s.msr == {} && s'.msr == s.ctl)
      && (c == Config(Op, true) ==> Meaning(c, s'.msr) == Meaning(c, s.ctl))
  {
    var c := s.dev.c;
    Apart(c);
    if c.flavor.Op? {
      assert Randomize(s.ctl, nibble) * MaxField(c) == s.ctl * MaxField(c);
      if c.ext { RearmKeepsSettings(s.ctl, nibble); }
    }
  }

  /** IBS_ENABLE makes the MSR live. */
  lemma EnableMakesLive(s: State)
    requires Inv(s) && Enabled(s, WriteEnable)
    ensures Live(Next(s, WriteEnable)) && Next(s, WriteEnable).control.Free?
  {}

  predicate KeepsSampling(a: Action) { !a.StartDisable? && !a.CpuDown? }

  lemma StaysLive(s: State, a: Action)
    requires Inv(s) && Enabled(s, a) && KeepsSampling(a)
    requires En(s.dev.c) in s.ctl && (s.control.Free? || s.control.Arming?) && (s.handler.Idle? ==> Live(s))
    ensures var s' := Next(s, a);
      && En(s'.dev.c) in s'.ctl && (s'.control.Free? || s'.control.Arming?) && (s'.handler.Idle? ==> Live(s'))
  {
    match a
    case Rearm(nibble) => RearmRestoresSettings(s, nibble);
    case Sample(noise) =>
      var k, m, c := Kept(s.dev.c), MaxField(s.dev.c), s.dev.c;
      Apart(c);
      assert ((s.msr * k) + {Val(c)} + (noise - k)) * m == s.msr * m;
    case StartEnable => assert s.ctl + {En(s.dev.c)} == s.ctl;
    case _ =>
  }

  /** Sampling goes on: over every run from a live MSR without a disable or a CPU going down, the MSR is
      live whenever the handler is idle, however many samples were taken. */
  lemma {:induction false} SamplingGoesOn(s: State, acts: seq<Action>)
    requires Inv(s) && Runs(s, acts) && Live(s) && En(s.dev.c) in s.ctl && s.control.Free?
    requires forall a :: a in acts ==> KeepsSampling(a)
    ensures var e := Run(s, acts); En(e.dev.c) in e.ctl && (e.handler.Idle? ==> Live(e))
  {
    RunStaysLive(s, acts);
  }

  lemma {:induction false} RunStaysLive(s: State, acts: seq<Action>)
    requires Inv(s) && Runs(s, acts) && (forall a :: a in acts ==> KeepsSampling(a))
    requires En(s.dev.c) in s.ctl && (s.control.Free? || s.control.Arming?) && (s.handler.Idle? ==> Live(s))
    ensures var e := Run(s, acts); En(e.dev.c) in e.ctl && (e.handler.Idle? ==> Live(e))
    decreases |acts|
  {
    if acts != [] {
      assert acts[0] in acts;
      StepInv(s, acts[0]);
      StaysLive(s, acts[0]);
      RunStaysLive(Next(s, acts[0]), acts[1..]);
    }
  }

  /** And each sample is claimed: with the valid bit set and a nonzero maximum count, the NMI gets past
      the early returns (erratum 420 is one of family 10h, which has no extended counter). */
  lemma SampleIsClaimed(s: State)
    requires Inv(s) && s.handler.Idle? && Live(s) && Val(s.dev.c) in s.msr && s.ctl * MaxField(s.dev.c) != {}
    requires s.dev.wa420 ==> !s.dev.c.ext
    ensures Claims(s) && Next(s, Nmi) == s.(handler := Claimed(s.msr))
  {
    NotSkipped(s.dev, s.msr);
  }

  lemma NotSkipped(dev: Device, msr: Word)
    requires Val(dev.c) in msr && msr * MaxField(dev.c) != {} && (dev.wa420 ==> !dev.c.ext)
    ensures !HandlerSkips(dev, msr)
  {
    assert dev.c.flavor.Op? ==> MaxField(dev.c) <= OpMaxCnt() && msr * MaxField(dev.c) <= msr * OpMaxCnt();
  }

  /** The sample in service: stored or counted as lost, but not yet re-armed. */
  function InService(s: State): nat { if s.handler.Rearming? || s.handler.Zeroed? then 1 else 0 }

  /** Every claimed sample is stored or lost once and re-armed once: over every run the counts agree up
      to the one in service. */
  lemma {:induction false} EachSampleRearmsOnce(s: State, acts: seq<Action>)
    requires Runs(s, acts)
    ensures var e := Run(s, acts);
      |e.stored| + e.lost - e.rearmed - InService(e) == |s.stored| + s.lost - s.rearmed - InService(s)
    decreases |acts|
  {
    if acts != [] {
      OneServiceEach(s, acts[0]);
      EachSampleRearmsOnce(Next(s, acts[0]), acts[1..]);
    }
  }

  predicate OfHandler(a: Action) { a.Nmi? || a.Store? || a.Lose? || a.ZeroFetch? || a.Rearm? }

  lemma HandlerCounts(s: State, a: Action)
    requires Enabled(s, a) && OfHandler(a)
    ensures var s' := Next(s, a);
      |s'.stored| + s'.lost - s'.rearmed - InService(s') == |s.stored| + s.lost - s.rearmed - InService(s)
  {}

  lemma OthersLeaveHandler(s: State, a: Action)
    requires Enabled(s, a) && !OfHandler(a)
    ensures SameEffects(s, Next(s, a)) && Next(s, a).handler == s.handler
  {}

  lemma OneServiceEach(s: State, a: Action)
    requires Enabled(s, a)
    ensures var s' := Next(s, a);
      |s'.stored| + s'.lost - s'.rearmed - InService(s') == |s.stored| + s.lost - s.rearmed - InService(s)
  {
    if OfHandler(a) { HandlerCounts(s, a); } else { OthersLeaveHandler(s, a); }
  }

  lemma SampleHasMaxField(s: State)
    requires Inv(s) && s.handler.Claimed?
    ensures s.handler.tmp * MaxField(s.dev.c) == s.ctl * MaxField(s.dev.c)
  {
    var tmp, m, k := s.handler.tmp, MaxField(s.dev.c), Kept(s.dev.c);
    assert tmp * m == (tmp * k) * m && s.ctl * m == (s.ctl * k) * m;
  }

  lemma EnabledKeepsCtl(s: State, a: Action)
    requires Inv(s) && Enabled(s, a) && En(s.dev.c) in s.ctl && !a.FinishDisable?
    ensures Next(s, a).ctl == s.ctl && Next(s, a).dev == s.dev
    ensures Next(s, a).stored == s.stored + if a.Store? then [s.handler.tmp] else []
  {
    if a.StartEnable? { assert s.ctl + {En(s.dev.c)} == s.ctl; }
  }

  /** Every sample stored while the device stays enabled carries the sampling rate that the monitor
      was given, rounded down to a multiple of 16. */
  lemma {:induction false} SamplesCarryTheRate(s: State, acts: seq<Action>, before: Word, rate: int)
    requires Inv(s) && Runs(s, acts) && En(s.dev.c) in s.ctl
    requires forall a :: a in acts ==> !a.FinishDisable?
    requires var c := s.dev.c;
      && CountForRate(c, rate).Count?
      && s.ctl * MaxField(c) == SetField(before, MaxField(c), CountForRate(c, rate).n) * MaxField(c)
    ensures var e := Run(s, acts);
      && s.stored <= e.stored
      && forall i :: |s.stored| <= i < |e.stored| ==> DecodedRate(s.dev.c, e.stored[i]) == rate - rate % 16
    decreases |acts|
  {
    if acts != [] {
      var a, c := acts[0], s.dev.c;
      assert a in acts;
      StepInv(s, a);
      if a.Store? { SampleHasMaxField(s); RateSurvives(c, rate, before, s.handler.tmp); }
      EnabledKeepsCtl(s, a);
      SamplesCarryTheRate(Next(s, a), acts[1..], before, rate);
    }
  }

  // ----- is there a buffer?

  /** The SET_BUFFER_SIZE calls of a run. */
  function Requests(acts: seq<Action>): seq<Request>
    decreases |acts|
  {
    if acts == [] then [] else (if acts[0].Resize? then [acts[0].req] else []) + Requests(acts[1..])
  }

  /** The size in force after some requests: the last one that was big enough and granted. */
  function SizeAfter(entry: nat, size: nat, reqs: seq<Request>): nat
    decreases |reqs|
  {
    if reqs == [] then size
    else SizeAfter(entry, if entry <= reqs[0].arg && reqs[0].granted then reqs[0].arg else size, reqs[1..])
  }

  /** One of the requests is granted another size than `size`. */
  predicate Regranted(entry: nat, size: nat, reqs: seq<Request>) {
    exists k :: 0 <= k < |reqs| && entry <= reqs[k].arg != size && reqs[k].granted
  }

  /** Request number f is for a new size and fails. */
  predicate Fails(entry: nat, size: nat, reqs: seq<Request>, f: nat)
    requires f < |reqs|
  {
    entry <= reqs[f].arg != SizeAfter(entry, size, reqs[..f]) && !reqs[f].granted
  }

  /** Every failed request is followed by a granted one for a size other than the one then in force. */
  predicate Recovers(entry: nat, size: nat, reqs: seq<Request>) {
    forall f :: 0 <= f < |reqs| && Fails(entry, size, reqs, f) ==>
      Regranted(entry, SizeAfter(entry, size, reqs[..f]), reqs[f + 1..])
  }

  predicate KeepsBuffer(entry: nat, size: nat, present: bool, reqs: seq<Request>) {
    (present || Regranted(entry, size, reqs)) && Recovers(entry, size, reqs)
  }

  lemma RegrantedStep(entry: nat, size: nat, reqs: seq<Request>)
    requires reqs != []
    ensures Regranted(entry, size, reqs) <==>
      (entry <= reqs[0].arg != size && reqs[0].granted) || Regranted(entry, size, reqs[1..])
  {
    if Regranted(entry, size, reqs[1..]) {
      var k :| 0 <= k < |reqs[1..]| && entry <= reqs[1..][k].arg != size && reqs[1..][k].granted;
      assert reqs[k + 1] == reqs[1..][k];
    }
    if Regranted(entry, size, reqs) {
      var k :| 0 <= k < |reqs| && entry <= reqs[k].arg != size && reqs[k].granted;
      if k > 0 { assert reqs[1..][k - 1] == reqs[k]; }
    }
  }

  lemma SizeStep(entry: nat, size: nat, reqs: seq<Request>, f: nat)
    requires f < |reqs|
    ensures SizeAfter(entry, size, reqs[..f + 1]) == SizeAfter(entry, SizeAfter(entry, size, reqs[..1]), reqs[1..][..f])
  {
    assert reqs[..f + 1][1..] == reqs[1..][..f] && reqs[..1][1..] == [];
  }

  lemma FailsStep(entry: nat, size: nat, reqs: seq<Request>, f: nat)
    requires 0 < f < |reqs|
    ensures Fails(entry, size, reqs, f) <==> Fails(entry, SizeAfter(entry, size, reqs[..1]), reqs[1..], f - 1)
    ensures SizeAfter(entry, size, reqs[..f]) == SizeAfter(entry, SizeAfter(entry, size, reqs[..1]), reqs[1..][..f - 1])
    ensures reqs[1..][f - 1 + 1..] == reqs[f + 1..]
  {
    SizeStep(entry, size, reqs, f - 1);
  }

  lemma RecoversStep(entry: nat, size: nat, reqs: seq<Request>)
    requires reqs != []
    ensures Recovers(entry, size, reqs) <==>
      && (Fails(entry, size, reqs, 0) ==> Regranted(entry, size, reqs[1..]))
      && Recovers(entry, SizeAfter(entry, size, reqs[..1]), reqs[1..])
  {
    var rest, next := reqs[1..], SizeAfter(entry, size, reqs[..1]);
    assert SizeAfter(entry, size, reqs[..0]) == size;
    if Recovers(entry, size, reqs) {
      forall f | 0 <= f < |rest| && Fails(entry, next, rest, f)
        ensures Regranted(entry, SizeAfter(entry, next, rest[..f]), rest[f + 1..])
      {
        FailsStep(entry, size, reqs, f + 1);
      }
    }
    if Recovers(entry, next, rest) && (Fails(entry, size, reqs, 0) ==> Regranted(entry, size, rest)) {
      forall f | 0 <= f < |reqs| && Fails(entry, size, reqs, f)
        ensures Regranted(entry, SizeAfter(entry, size, reqs[..f]), reqs[f + 1..])
      {
        if f > 0 { FailsStep(entry, size, reqs, f); }
      }
    }
  }

  /** One request: the new size and whether the buffer is kept follow the recurrences. */
  lemma KeepsStep(entry: nat, size: nat, present: bool, reqs: seq<Request>)
    requires reqs != []
    ensures var r := reqs[0];
      var next := if entry <= r.arg && r.granted then r.arg else size;
      var still := if entry <= r.arg != size then r.granted else present;
      KeepsBuffer(entry, size, present, reqs) <==> KeepsBuffer(entry, next, still, reqs[1..])
  {
    assert reqs[..1][1..] == [] && reqs[..0] == [];
    RegrantedStep(entry, size, reqs);
    RecoversStep(entry, size, reqs);
  }

  /** Over every run, whatever else happens in it: GET_BUFFER_SIZE returns the last size granted, and
      there is a buffer if and only if every failed request was followed by a granted one for a size
      other than the one in force at the failure. Asking again for the size in force does not help. */
  lemma {:induction false} BufferAfterRequests(s: State, acts: seq<Action>)
    requires Runs(s, acts)
    ensures var e, reqs := Run(s, acts), Requests(acts);
      && e.dev == s.dev && e.size == SizeAfter(s.dev.entry, s.size, reqs)
      && (e.present <==> KeepsBuffer(s.dev.entry, s.size, s.present, reqs))
    decreases |acts|
  {
    if acts != [] {
      BufferAfterRequests(Next(s, acts[0]), acts[1..]);
      if acts[0].Resize? {
        assert Requests(acts)[1..] == Requests(acts[1..]);
        KeepsStep(s.dev.entry, s.size, s.present, Requests(acts));
      } else {
        SameBuffer(s, acts[0]);
        assert Requests(acts) == Requests(acts[1..]);
      }
    }
  }

  lemma SameBuffer(s: State, a: Action)
    requires Enabled(s, a) && !a.Resize?
    ensures var s' := Next(s, a); s'.dev == s.dev && s'.size == s.size && s'.present == s.present
  {}

  /** The trap: a resize fails, and asking for the old size then succeeds without getting a buffer. */
  lemma OldSizeAfterFailure(s: State, arg: nat, granted: bool)
    requires Enabled(s, Resize(Request(arg, false))) && s.dev.entry <= s.size && s.dev.entry <= arg != s.size
    ensures var s' := Next(s, Resize(Request(arg, false)));
      && ReplyTo(s, Request(arg, false)) == NoMemory && ReplyTo(s', Request(s.size, granted)) == Done
      && !Next(s', Resize(Request(s.size, granted))).present
  {}

  /** Which stores go to freed memory: in a run from module load, one after requests that do not keep
      the buffer. */
  lemma StoreFindsBuffer(s: State, acts: seq<Action>, k: nat)
    requires Init(s) && Runs(s, acts) && k < |acts| && acts[k].Store?
    ensures Runs(s, acts[..k])
    ensures Run(s, acts[..k]).present <==> KeepsBuffer(s.dev.entry, s.size, true, Requests(acts[..k]))
  {
    RunsPrefix(s, acts, k);
    BufferAfterRequests(s, acts[..k]);
  }

  lemma {:induction false} RunsPrefix(s: State, acts: seq<Action>, k: nat)
    requires Runs(s, acts) && k <= |acts|
    ensures Runs(s, acts[..k])
    decreases k
  {
    if k > 0 {
      RunsPrefix(Next(s, acts[0]), acts[1..], k - 1);
      assert acts[..k][1..] == acts[1..][..k - 1];
    }
  }

  /** Some run makes just these requests and ends in `e`. */
  ghost predicate Reaches(s: State, reqs: seq<Request>, e: State) {
    exists acts :: Runs(s, acts) && Run(s, acts) == e && Requests(acts) == reqs
  }

  lemma {:induction false} RequestsAppend(acts: seq<Action>, a: Action)
    ensures Requests(acts + [a]) == Requests(acts) + if a.Resize? then [a.req] else []
    decreases |acts|
  {
    var last := if a.Resize? then [a.req] else [];
    if acts == [] {
      assert [] + [a] == [a] && [a][1..] == [];
      assert Requests([a]) == last + Requests([a][1..]);
    } else {
      var first := if acts[0].Resize? then [acts[0].req] else [];
      RequestsAppend(acts[1..], a);
      assert (acts + [a])[1..] == acts[1..] + [a];
      Regroup(first, Requests(acts[1..]), last);
    }
  }

  lemma {:induction false} RunAppend(s: State, acts: seq<Action>, a: Action)
    requires Runs(s, acts) && Enabled(Run(s, acts), a)
    ensures Runs(s, acts + [a]) && Run(s, acts + [a]) == Next(Run(s, acts), a)
    decreases |acts|
  {
    if acts == [] {
      assert [] + [a] == [a] && [a][1..] == [];
    } else {
      RunAppend(Next(s, acts[0]), acts[1..], a);
      assert (acts + [a])[1..] == acts[1..] + [a];
    }
  }

  lemma Extend(s: State, reqs: seq<Request>, e: State, a: Action)
    requires Reaches(s, reqs, e) && Enabled(e, a)
    ensures Reaches(s, reqs + if a.Resize? then [a.req] else [], Next(e, a))
  {
    var acts :| Runs(s, acts) && Run(s, acts) == e && Requests(acts) == reqs;
    RunAppend(s, acts, a);
    RequestsAppend(acts, a);
  }

  predicate Ready(s: State) {
    IsOpen(s) && s.control.Free? && s.handler.Idle? && s.ctl == Defaults(s.dev.c) && s.msr == {}
  }

  lemma ReachOpen(s: State) returns (e: State)
    requires Init(s)
    ensures Reaches(s, [], e) && Ready(e) && e.dev == s.dev
  {
    assert Runs(s, []) && Run(s, []) == s && Requests([]) == [];
    Extend(s, [], s, TakeUse); e := Next(s, TakeUse);
    Extend(s, [], e, LockForOpen); e := Next(e, LockForOpen);
    Extend(s, [], e, FinishOpen); e := Next(e, FinishOpen);
  }

  lemma {:induction false} ReachReady(s: State, reqs: seq<Request>) returns (e: State)
    requires Init(s)
    ensures Reaches(s, reqs, e) && Ready(e) && e.dev == s.dev
    decreases |reqs|
  {
    if reqs == [] {
      e := ReachOpen(s);
    } else {
      var n := |reqs| - 1;
      var r := ReachReady(s, reqs[..n]);
      DefaultsOff(s.dev.c);
      Extend(s, reqs[..n], r, Resize(reqs[n]));
      e := Next(r, Resize(reqs[n]));
      assert reqs[..n] + [reqs[n]] == reqs;
    }
  }

  lemma DefaultsSample(c: Config)
    ensures Defaults(c) * MaxField(c) != {}
  {
    DefaultsMeaning(c);
    if Defaults(c) * MaxField(c) == {} {
      var none: Word := {};
      GatherDepends(Defaults(c), none, MaxField(c));
      NumOfEmpty(Gather(none, MaxField(c)), 64);
    }
  }

  lemma ReachEnabled(s: State, reqs: seq<Request>, r: State) returns (e: State)
    requires Reaches(s, reqs, r) && IsOpen(r) && r.control.Free? && r.handler.Idle?
    ensures Reaches(s, reqs, e) && e.dev == r.dev && e.handler.Idle? && e.present == r.present
    ensures e.msr == r.ctl + {En(r.dev.c)}
  {
    Extend(s, reqs, r, StartEnable); e := Next(r, StartEnable);
    Extend(s, reqs, e, WriteEnable); e := Next(e, WriteEnable);
  }

  lemma ReachStore(s: State, reqs: seq<Request>, r: State) returns (e: State)
    requires Reaches(s, reqs, r) && r.handler.Idle? && (r.dev.wa420 ==> !r.dev.c.ext)
    requires r.msr == Defaults(r.dev.c) + {En(r.dev.c)}
    ensures Reaches(s, reqs, e) && e.handler.Claimed? && e.present == r.present
  {
    var max := MaxField(r.dev.c);
    DefaultsSample(r.dev.c);
    DefaultsOff(r.dev.c);
    Apart(r.dev.c);
    assert r.msr * max == Defaults(r.dev.c) * max;
    Extend(s, reqs, r, Sample({})); e := Next(r, Sample({}));
    assert e.msr * max == Defaults(r.dev.c) * max;
    NotSkipped(r.dev, e.msr);
    Extend(s, reqs, e, Nmi); e := Next(e, Nmi);
  }

  /** And every list of requests leads to a store: some run makes just these requests and ends with the
      handler about to store a sample, into a buffer or not as the requests decide. Erratum 420 is one
      of family 10h, which has no extended counter. */
  lemma EveryRequestListReachesAStore(s: State, reqs: seq<Request>) returns (e: State)
    requires Init(s) && (s.dev.wa420 ==> !s.dev.c.ext)
    ensures Reaches(s, reqs, e) && Enabled(e, Store)
    ensures e.present <==> KeepsBuffer(s.dev.entry, s.size, true, reqs)
  {
    var r := ReachReady(s, reqs);
    e := ReachEnabled(s, reqs, r);
    e := ReachStore(s, reqs, e);
    var acts :| Runs(s, acts) && Run(s, acts) == e && Requests(acts) == reqs;
    BufferAfterRequests(s, acts);
  }
}
