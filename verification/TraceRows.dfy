/** The CSV rows of tools/ibs_decoder: which text stands under which column title, for every sample.
    Titles and cells are appended to their stream one by one; a line of text is read back by splitting
    it at its commas. */
module TraceRows {
  import ControlRegister
  import opened HeaderText
  import TraceHeader
  import Words

  /** The register fields of a sample. `NoMabAlloc` is titled IbsDcMabHit on the older families. */
  datatype Reg =
    | Tsc | CpuNumber | Tid | Pid | KernMode
    | OpRip | OpMaxCnt | OpMaxCntUpper | CompToRet | TagToRet | BrnResync | MispReturn | OpReturn
    | BrnTaken | BrnMisp | BrnRet | RipInvalid | BrnFuse | Microcode | ReqSrc | DstNode | CacheHitSt
    | LdOp | StOp | L1Miss | L2TlbMiss | L1Hit2M | L1Hit1G | L2Hit2M | DcMiss | MissAcc
    | LdBnkCon | StBnkCon | StToLdFwd | StToLdCan | WcMem | UcMem | Locked | NoMabAlloc
    | LinValid | PhyValid | L2Hit1G | L2Miss | SwPf | MemWidth | OpenMemReqs | MissLat | TlbRefillLat
    | LinAd | PhysAd | BrnTarget | LdResync
    | FetchPhyValid | FetchLinAd | FetchPhysAd | FetchMaxCnt | FetchLat | FetchComp | IcMiss | PageSize
    | FetchL1Miss | FetchL2Miss | FetchL2CacheMiss | ItlbRefillLat

  /** A sample: the values of its fields. */
  datatype Sample = Sample(fields: map<Reg, nat>) {
    function At(col: Reg): nat { if col in fields then fields[col] else 0 }
  }

  datatype Cell =
    | Num(n: nat) | Hex64(n: nat) | Dash | Reserved(n: nat)
    | LocalL3 | OtherCoreCache | Dram | Other | OtherNode | SameNode | Owned | Modified
    | Page4K | Page2M | Page1G | Page16K

  /** What a decoder run knows from the header of an op trace. */
  datatype OpTrace = OpTrace(
    family: nat, model: nat, brnResync: bool, mispReturn: bool, brnTrgt: bool, opCntExt: bool, ripInvalidChk: bool,
    opBrnFuse: bool, opData4: bool, microcode: bool, data2Bits: bool, ldBnkCon: bool, stBnkCon: bool,
    stToLdFwd: bool, stToLdCan: bool, data3Bits: bool)

  datatype FetchTrace = FetchTrace(family: nat, model: nat, ctlExt: bool)

  /** The titles printed so far. */
  datatype Titles = NoTitle | Title(front: Titles, last: Reg) {
    function Size(): nat { if NoTitle? then 0 else front.Size() + 1 }

    function Items(): seq<Reg> { if NoTitle? then [] else front.Items() + [last] }

    function Add(x: Reg): (r: Titles)
      ensures r.Size() == Size() + 1
    {
      Title(this, x)
    }

    function AddIf(b: bool, x: Reg): (r: Titles)
      ensures r.Size() == Size() + if b then 1 else 0
    {
      if b then Add(x) else this
    }
  }

  /** The cells of the current row printed so far. */
  datatype Row = NoCell | Cells(front: Row, last: Cell) {
    function Items(): seq<Cell> { if NoCell? then [] else front.Items() + [last] }
  }

  // ----- the titles, as output_op_header prints them

  function CommonTitles(pre: Titles): Titles { pre.Add(Tsc).Add(CpuNumber).Add(Tid).Add(Pid).Add(KernMode) }

  function ReturnTitles(pre: Titles, t: OpTrace): Titles {
    CommonTitles(pre).Add(OpRip).Add(OpMaxCnt).Add(CompToRet).Add(TagToRet)
      .AddIf(t.brnResync, BrnResync).AddIf(t.mispReturn, MispReturn)
  }

  function BranchTitles(pre: Titles, t: OpTrace): Titles {
    pre.Add(OpReturn).Add(BrnTaken).Add(BrnMisp).Add(BrnRet)
      .AddIf(t.ripInvalidChk, RipInvalid).AddIf(t.opBrnFuse, BrnFuse).AddIf(t.microcode, Microcode)
  }

  function Data2Titles(pre: Titles, wide: bool): Titles {
    pre.Add(ReqSrc).AddIf(wide, DstNode).AddIf(wide, CacheHitSt)
  }

  function CacheTitles(pre: Titles, t: OpTrace): Titles {
    pre.Add(LdOp).Add(StOp).Add(L1Miss).Add(L2TlbMiss).Add(L1Hit2M).Add(L1Hit1G).Add(L2Hit2M).Add(DcMiss).Add(MissAcc)
      .AddIf(t.ldBnkCon, LdBnkCon).AddIf(t.stBnkCon, StBnkCon)
      .AddIf(t.stToLdFwd, StToLdFwd).AddIf(t.stToLdCan, StToLdCan)
  }

  function AccessTitles(pre: Titles): Titles {
    pre.Add(WcMem).Add(UcMem).Add(Locked).Add(NoMabAlloc).Add(LinValid).Add(PhyValid).Add(L2Hit1G)
  }

  function MissTitles(pre: Titles, t: OpTrace): Titles {
    pre.AddIf(t.data3Bits, L2Miss).AddIf(t.data3Bits, SwPf).AddIf(t.data3Bits, MemWidth)
      .AddIf(t.data3Bits, OpenMemReqs).Add(MissLat).AddIf(t.data3Bits, TlbRefillLat)
  }

  function AddressTitles(pre: Titles, t: OpTrace): Titles {
    pre.Add(LinAd).Add(PhysAd).AddIf(t.brnTrgt, BrnTarget).AddIf(t.opData4, LdResync)
  }

  function TitlesAfterData2(pre: Titles, t: OpTrace): Titles {
    AddressTitles(MissTitles(AccessTitles(CacheTitles(pre, t)), t), t)
  }

  /** The titles of a trace with or without the two extra IbsOpData2 fields. */
  function Layout(t: OpTrace, wide: bool): Titles {
    TitlesAfterData2(Data2Titles(BranchTitles(ReturnTitles(NoTitle, t), t), wide), t)
  }

  function OpTitles(t: OpTrace): Titles { Layout(t, t.data2Bits) }

  // ----- what a column holds

  /** The condition of the decoder under which IbsOpData2 is printed at all; erratum 484 of family 14h
      is part of it. */
  predicate Data2Shown(t: OpTrace, s: Sample) {
    && s.At(LdOp) != 0 && s.At(DcMiss) != 0 && (t.data3Bits ==> s.At(L2Miss) != 0)
    && !(t.family == 0x14 && s.At(WcMem) != 0)
  }

  function Source(t: OpTrace, src: nat): Cell {
    if src == 0 then Dash
    else if src == 1 && (t.family == 0x10 || (t.family == 0x15 && t.model < 0x10)) then LocalL3
    else if src == 2 then OtherCoreCache
    else if src == 3 then Dram
    else if src == 7 then Other
    else Reserved(src)
  }

  function Width(w: nat): Cell {
    if w < 3 then Num(w) else if w == 3 then Num(4) else if w == 4 then Num(8) else if w == 5 then Num(16) else Reserved(w)
  }

  function HexIf(valid: bool, n: nat): Cell { if valid then Hex64(n) else Dash }

  /** What the title of a column promises: the field, or a dash where the field is not valid. */
  function Titled(t: OpTrace, s: Sample, col: Reg): Cell {
    match col
    case OpRip => Hex64(s.At(OpRip))
    case OpMaxCnt => Num((if t.opCntExt then s.At(OpMaxCntUpper) * 0x10_0000 else 0) + s.At(OpMaxCnt) * 16)
    case ReqSrc => if Data2Shown(t, s) then Source(t, s.At(ReqSrc)) else Dash
    case DstNode => if !Data2Shown(t, s) || s.At(ReqSrc) == 0 then Dash else if s.At(DstNode) == 1 then OtherNode else SameNode
    case CacheHitSt =>
      if !Data2Shown(t, s) || s.At(ReqSrc) != 2 then Dash else if s.At(CacheHitSt) == 1 then Owned else Modified
    case MemWidth => Width(s.At(MemWidth))
    case LinAd => HexIf(s.At(LinValid) != 0, s.At(LinAd))
    case PhysAd => HexIf(s.At(PhyValid) != 0, s.At(PhysAd))
    case BrnTarget => HexIf(s.At(BrnRet) != 0, s.At(BrnTarget))
    case _ => Num(s.At(col))
  }

  /** fam15h_model01h_err717. */
  predicate Erratum717(t: OpTrace) { t.family == 0x15 && t.model <= 1 }

  /** What the decoder prints there instead: IbsOpReturn is filled from the branch-retired bit, and the
      test `ibs_dc_miss -= 0` makes the workaround of erratum 717 act on misses. */
  function Printed(t: OpTrace, s: Sample, col: Reg): Cell {
    if col.OpReturn? then Num(s.At(BrnRet))
    else if col.NoMabAlloc? && Erratum717(t) && s.At(DcMiss) != 0 then Num(0)
    else Titled(t, s, col)
  }

  /** A sample to print, with its trace. */
  datatype Entry = OpEntry(t: OpTrace, s: Sample) | FetchEntry(u: FetchTrace, s: Sample)

  function Wanted(e: Entry, col: Reg): Cell {
    match e
    case OpEntry(t, s) => Printed(t, s, col)
    case FetchEntry(u, s) => FetchCell(u, s, col)
  }

  /** Columns whose field is printed as it is. */
  predicate IsPlain(col: Reg) {
    !(col.OpRip? || col.OpMaxCnt? || col.OpReturn? || col.ReqSrc? || col.DstNode? || col.CacheHitSt? ||
      col.NoMabAlloc? || col.MemWidth? || col.LinAd? || col.PhysAd? || col.BrnTarget? ||
      col.FetchLinAd? || col.FetchPhysAd? || col.FetchMaxCnt? || col.PageSize? || col.ItlbRefillLat?)
  }

  lemma PlainIsAsItIs(e: Entry, col: Reg)
    requires IsPlain(col)
    ensures Wanted(e, col) == Num(e.s.At(col))
  {}

  /** The cells of an entry under some columns. */
  function Under(e: Entry, cols: Titles): Row {
    if cols.NoTitle? then NoCell else Cells(Under(e, cols.front), Wanted(e, cols.last))
  }

  /** Without IbsOpData2 to show, three dashes are printed whatever the header announced. */
  function OpRow(t: OpTrace, s: Sample): Row { Under(OpEntry(t, s), Layout(t, t.data2Bits || !Data2Shown(t, s))) }

  /** Every column prints what its title promises, except IbsOpReturn when the two bits differ, and the
      MAB column on family 15h models 0 and 1 when the access missed and the bit is set. */
  lemma ColumnIsRight(t: OpTrace, s: Sample, col: Reg)
    ensures Printed(t, s, col) == Titled(t, s, col) <==>
      && (col == OpReturn ==> s.At(BrnRet) == s.At(OpReturn))
      && (col == NoMabAlloc ==> !(t.family == 0x15 && t.model <= 1 && s.At(DcMiss) != 0) || s.At(NoMabAlloc) == 0)
  {}

  /** So a set MAB bit is lost there on every miss, while hits, for which the erratum makes the bit
      unreliable, print it as it is. */
  lemma MabBitLost(t: OpTrace, s: Sample)
    requires t.family == 0x15 && t.model <= 1 && s.At(NoMabAlloc) == 1
    ensures Printed(t, s, NoMabAlloc) == Num(if s.At(DcMiss) != 0 then 0 else 1)
    ensures Titled(t, s, NoMabAlloc) == Num(1)
  {}

  // ----- text

  function Text(c: Cell): string {
    match c
    case Num(n) => Dec(n)
    case Hex64(n) => "0x" + Hex(n)
    case Dash => "-"
    case Reserved(n) => "Reserved-" + Dec(n)
    case LocalL3 => "local_L3"
    case OtherCoreCache => "other_core_cache"
    case Dram => "DRAM"
    case Other => "Other"
    case OtherNode => "other_node"
    case SameNode => "same_node"
    case Owned => "O"
    case Modified => "M"
    case Page4K => "4 KB"
    case Page2M => "2 MB"
    case Page1G => "1 GB"
    case Page16K => "16 KB"
  }

  lemma {:induction false} HexHasNoComma(n: nat)
    ensures ',' !in Hex(n)
  {
    assert HexDigit(n % 16) != ',';
    if n >= 16 { HexHasNoComma(n / 16); }
  }

  lemma TextHasNoComma(c: Cell)
    ensures ',' !in Text(c)
  {
    match c
    case Num(n) => DecCharacters(n);
    case Reserved(n) => DecCharacters(n);
    case Hex64(n) => HexHasNoComma(n);
    case _ =>
  }

  /** A number read back from a CSV field. */
  lemma NumberOfText(c: Cell)
    requires c.Num? || c.Hex64?
    ensures Magnitude(Text(c)) == c.n
  {
    if c.Num? { MagnitudeDec(c.n); } else { MagnitudeOfHex(c.n); }
  }

  /** Length and first character of the cells that are words. */
  function Shape(c: Cell): (nat, char) {
    match c
    case Dash => (1, '-')
    case LocalL3 => (8, 'l')
    case OtherCoreCache => (16, 'o')
    case Dram => (4, 'D')
    case Other => (5, 'O')
    case OtherNode => (10, 'o')
    case SameNode => (9, 's')
    case Owned => (1, 'O')
    case Modified => (1, 'M')
    case Page4K => (4, '4')
    case Page2M => (4, '2')
    case Page1G => (4, '1')
    case Page16K => (5, '1')
    case _ => (0, ' ')
  }

  predicate IsPage(c: Cell) { c.Page4K? || c.Page2M? || c.Page1G? || c.Page16K? }

  predicate IsWord(c: Cell) { !c.Num? && !c.Hex64? && !c.Reserved? }

  lemma WordShape(c: Cell)
    requires IsWord(c)
    ensures |Text(c)| == Shape(c).0 && Text(c)[0] == Shape(c).1
  {}

  lemma PageHasSpace(c: Cell)
    requires IsPage(c)
    ensures ' ' in Text(c)
  {
    match c
    case Page4K => assert Text(c)[1] == ' ';
    case Page2M => assert Text(c)[1] == ' ';
    case Page1G => assert Text(c)[1] == ' ';
    case Page16K => assert Text(c)[2] == ' ';
  }

  lemma NumberShape(c: Cell)
    requires c.Num? || c.Hex64?
    ensures Text(c) != "" && DigitValue(Text(c)[0]) < 10 && ' ' !in Text(c)
    ensures c.Hex64? ==> |Text(c)| > 1 && Text(c)[0] == '0'
    ensures c.Num? && |Text(c)| > 1 ==> Text(c)[0] != '0'
  {
    if c.Num? {
      DecCharacters(c.n);
    } else {
      HexHasNoSpace(c.n);
      HexCharacters(c.n);
    }
  }

  lemma {:induction false} HexHasNoSpace(n: nat)
    ensures ' ' !in Hex(n)
  {
    assert HexDigit(n % 16) != ' ';
    if n >= 16 { HexHasNoSpace(n / 16); }
  }

  lemma ReservedText(a: nat, b: nat)
    requires Text(Reserved(a)) == Text(Reserved(b))
    ensures a == b
  {
    var word := "Reserved-";
    assert (word + Dec(a))[|word|..] == Dec(a) && (word + Dec(b))[|word|..] == Dec(b);
    MagnitudeDec(a);
    MagnitudeDec(b);
  }

  lemma ReservedShape(n: nat)
    ensures Text(Reserved(n)) != "" && Text(Reserved(n))[0] == 'R'
  {}

  lemma NumberText(a: Cell, b: Cell)
    requires (a.Num? || a.Hex64?) && Text(a) == Text(b)
    ensures a == b
  {
    NumberOfText(a);
    NumberShape(a);
    match b
    case Num(_) => NumberOfText(b); NumberShape(b);
    case Hex64(_) => NumberOfText(b); NumberShape(b);
    case Reserved(n) => ReservedShape(n);
    case _ =>
      WordShape(b);
      if IsPage(b) { PageHasSpace(b); }
  }

  /** The text of a field determines the cell: nothing is lost in printing. */
  lemma TextDetermines(a: Cell, b: Cell)
    requires Text(a) == Text(b)
    ensures a == b
  {
    if !IsWord(a) && !a.Reserved? { NumberText(a, b); }
    else if !IsWord(b) && !b.Reserved? { NumberText(b, a); }
    else if a.Reserved? && b.Reserved? { ReservedText(a.n, b.n); }
    else if a.Reserved? { ReservedShape(a.n); WordShape(b); }
    else if b.Reserved? { ReservedShape(b.n); WordShape(a); }
    else { WordShape(a); WordShape(b); }
  }

  function RowText(row: seq<Cell>): string {
    if row == [] then "\n" else Text(row[0]) + ([','] + RowText(row[1..]))
  }

  function Line(row: Row): string { RowText(row.Items()) }

  function FieldEnd(line: string): (n: nat)
    ensures n <= |line|
  {
    if line == "" || line[0] == ',' then 0 else 1 + FieldEnd(line[1..])
  }

  /** The fields that a reader of the CSV file finds: each one ends in a comma. */
  function Fields(line: string): seq<string>
    decreases |line|
  {
    var n := FieldEnd(line);
    if n == |line| then [] else [line[..n]] + Fields(line[n + 1..])
  }

  lemma {:induction false} FieldEndOf(a: string, rest: string)
    requires ',' !in a && rest != "" && rest[0] == ','
    ensures FieldEnd(a + rest) == |a|
  {
    if a == "" {
      assert a + rest == rest;
    } else {
      assert (a + rest)[1..] == a[1..] + rest;
      FieldEndOf(a[1..], rest);
    }
  }

  lemma NoMoreFields()
    ensures Fields("\n") == []
  {
    assert FieldEnd("\n") == 1 + FieldEnd("\n"[1..]);
  }

  lemma FirstField(first: string, rest: string)
    requires ',' !in first
    ensures Fields(first + ([','] + rest)) == [first] + Fields(rest)
  {
    var tail := [','] + rest;
    FieldEndOf(first, tail);
    assert (first + tail)[..|first|] == first && (first + tail)[|first| + 1..] == rest;
  }

  /** Reading a printed row back gives the cells, one field each. */
  lemma {:induction false} FieldsOfLine(row: seq<Cell>)
    ensures |Fields(RowText(row))| == |row|
    ensures forall k :: 0 <= k < |row| ==> Fields(RowText(row))[k] == Text(row[k])
  {
    if row == [] {
      NoMoreFields();
    } else {
      TextHasNoComma(row[0]);
      FirstField(Text(row[0]), RowText(row[1..]));
      FieldsOfLine(row[1..]);
    }
  }

  // ----- op rows and their header

  lemma {:induction false} ItemsUnder(e: Entry, cols: Titles)
    ensures |cols.Items()| == |Under(e, cols).Items()| == cols.Size()
    ensures forall k :: 0 <= k < cols.Size() ==> Under(e, cols).Items()[k] == Wanted(e, cols.Items()[k])
  {
    if !cols.NoTitle? { ItemsUnder(e, cols.front); }
  }

  /** The text of a row has as many fields as there are columns, and each is what is wanted there. */
  predicate StandsUnder(row: Row, e: Entry, cols: Titles) {
    var f, c := Fields(Line(row)), cols.Items();
    |f| == |c| == cols.Size() && forall k :: 0 <= k < |c| ==> f[k] == Text(Wanted(e, c[k]))
  }

  lemma LineUnder(e: Entry, cols: Titles)
    ensures StandsUnder(Under(e, cols), e, cols)
  {
    ItemsUnder(e, cols);
    FieldsOfLine(Under(e, cols).Items());
  }

  lemma LineWidth(e: Entry, cols: Titles)
    ensures |Fields(Line(Under(e, cols)))| == cols.Size()
  {
    LineUnder(e, cols);
  }

  lemma WiderByTwo(t: OpTrace)
    ensures Layout(t, true).Size() == Layout(t, false).Size() + 2
  {
    var pre := BranchTitles(ReturnTitles(NoTitle, t), t);
    SizeAfter(Data2Titles(pre, false), t);
    SizeAfter(Data2Titles(pre, true), t);
  }

  lemma SizeAfter(pre: Titles, t: OpTrace)
    ensures TitlesAfterData2(pre, t).Size() == pre.Size() + TitlesAfterData2(NoTitle, t).Size()
  {
    var none: Titles := NoTitle;
    var c, c0 := CacheTitles(pre, t), CacheTitles(none, t);
    SizeOfCache(pre, t);
    SizeOfRest(c, c0, t);
  }

  lemma SizeOfCache(pre: Titles, t: OpTrace)
    ensures CacheTitles(pre, t).Size() == pre.Size() + CacheTitles(NoTitle, t).Size()
  {}

  lemma SizeOfRest(a: Titles, b: Titles, t: OpTrace)
    ensures AddressTitles(MissTitles(AccessTitles(a), t), t).Size() - a.Size() ==
            AddressTitles(MissTitles(AccessTitles(b), t), t).Size() - b.Size()
  {}

  /** For every sample, when the trace has the two extra IbsOpData2 bits or the sample shows that
      register, the line has one field under each title. Otherwise it is laid out under the titles that
      a trace with those bits would have. */
  lemma OpRowMatchesHeader(t: OpTrace, s: Sample)
    ensures StandsUnder(OpRow(t, s), OpEntry(t, s), if t.data2Bits || Data2Shown(t, s) then OpTitles(t) else Layout(t, true))
  {
    LineUnder(OpEntry(t, s), Layout(t, t.data2Bits || !Data2Shown(t, s)));
  }

  /** So a line is as wide as its header just then, and two fields too long otherwise. */
  lemma OpRowWidth(t: OpTrace, s: Sample)
    ensures |Fields(Line(OpRow(t, s)))| == OpTitles(t).Size() + if t.data2Bits || Data2Shown(t, s) then 0 else 2
  {
    LineWidth(OpEntry(t, s), Layout(t, t.data2Bits || !Data2Shown(t, s)));
    if !t.data2Bits && !Data2Shown(t, s) { WiderByTwo(t); }
  }

  /** A reader of the CSV file recovers every field that is printed as it is. */
  lemma FieldReadsBack(e: Entry, cols: Titles, k: nat)
    requires k < |cols.Items()| && (Wanted(e, cols.Items()[k]).Num? || Wanted(e, cols.Items()[k]).Hex64?)
    ensures k < |Fields(Line(Under(e, cols)))|
    ensures Magnitude(Fields(Line(Under(e, cols)))[k]) == Wanted(e, cols.Items()[k]).n
    ensures IsPlain(cols.Items()[k]) ==> Magnitude(Fields(Line(Under(e, cols)))[k]) == e.s.At(cols.Items()[k])
  {
    var col := cols.Items()[k];
    LineUnder(e, cols);
    ItemsUnder(e, cols);
    NumberOfText(Wanted(e, col));
    if IsPlain(col) { PlainIsAsItIs(e, col); }
  }

  /** The bit fields of a control word that the decoder puts together to the rate. */
  predicate HasRate(e: Entry, reg: Words.Word) {
    if e.OpEntry?
    then e.s.At(OpMaxCnt) == Words.Num(Words.Slice(reg, 0, 16), 16) && e.s.At(OpMaxCntUpper) == Words.Num(Words.Slice(reg, 20, 7), 7)
    else e.s.At(FetchMaxCnt) == Words.Num(Words.Slice(reg, 0, 16), 16)
  }

  function RateColumn(e: Entry): Reg { if e.OpEntry? then OpMaxCnt else FetchMaxCnt }

  function RateConfig(e: Entry): ControlRegister.Config {
    if e.OpEntry? then ControlRegister.Config(ControlRegister.Op, e.t.opCntExt)
    else ControlRegister.Config(ControlRegister.Fetch, false)
  }

  /** The rate column reads as the rate decoded from the sample's control word. */
  lemma RateReadsBack(e: Entry, reg: Words.Word, cols: Titles, k: nat)
    requires k < |cols.Items()| && cols.Items()[k] == RateColumn(e) && HasRate(e, reg)
    ensures k < |Fields(Line(Under(e, cols)))|
    ensures Magnitude(Fields(Line(Under(e, cols)))[k]) == ControlRegister.DecodedRate(RateConfig(e), reg)
  {
    RateCell(e, reg);
    FieldReadsBack(e, cols, k);
  }

  lemma RateCell(e: Entry, reg: Words.Word)
    requires HasRate(e, reg)
    ensures Wanted(e, RateColumn(e)) == Num(ControlRegister.DecodedRate(RateConfig(e), reg))
  {}

  /** From the command line to the CSV file: a rate that the monitor accepts, stored with SET_MAX_CNT in
      the control word that the sample carries, is read in the rate column rounded down to a multiple
      of 16. */
  lemma RateFromEndToEnd(e: Entry, rate: int, ctl: Words.Word, reg: Words.Word, cols: Titles, k: nat)
    requires k < |cols.Items()| && cols.Items()[k] == RateColumn(e) && HasRate(e, reg)
    requires var c := RateConfig(e); var f := ControlRegister.MaxField(c);
      && ControlRegister.CountForRate(c, rate).Count?
      && reg * f == ControlRegister.SetField(ctl, f, ControlRegister.CountForRate(c, rate).n) * f
    ensures k < |Fields(Line(Under(e, cols)))|
    ensures Magnitude(Fields(Line(Under(e, cols)))[k]) == rate - rate % 16
  {
    RateReadsBack(e, reg, cols, k);
    ControlRegister.RateSurvives(RateConfig(e), rate, ctl, reg);
  }

  /** The trace that the decoder sees for a machine that the monitor ran on. */
  function TraceOf(fam: nat, model: nat, id: nat): OpTrace {
    var f := TraceHeader.OpFlags(fam, model, id);
    OpTrace(fam, model, f[0] == 1, f[1] == 1, f[2] == 1, f[3] == 1, f[4] == 1, f[5] == 1, f[6] == 1, f[7] == 1,
            f[8] == 1, f[9] == 1, f[10] == 1, f[11] == 1, f[12] == 1, f[13] == 1)
  }

  /** The decoder takes the wide count exactly on the machines where the monitor accepts wide rates. */
  lemma WideCountAsAccepted(fam: nat, model: nat, id: nat, rate: int)
    requires 0x10_0000 <= rate < 0x800_0000
    ensures TraceOf(fam, model, id).opCntExt <==> ControlRegister.OpCountForRate(rate, id / 64 % 2 == 1).Count?
  {}

  /** From monitor to CSV: rows line up with their header for every sample on every machine, except on
      families 14h and 16h, where they do just for samples that show IbsOpData2. */
  lemma RowsLineUpByMachine(fam: nat, model: nat, id: nat, s: Sample)
    ensures var t := TraceOf(fam, model, id);
      |Fields(Line(OpRow(t, s)))| == OpTitles(t).Size() <==> (fam != 0x14 && fam != 0x16) || Data2Shown(t, s)
  {
    OpRowWidth(TraceOf(fam, model, id), s);
  }

  // ----- fetch traces

  predicate HasL2Miss(t: FetchTrace) { (t.family == 0x15 && t.model >= 0x60) || t.family == 0x17 }

  /** output_fetch_header. */
  function FetchTitles(t: FetchTrace): Titles {
    CommonTitles(NoTitle).Add(FetchPhyValid).Add(FetchLinAd).Add(FetchPhysAd)
      .Add(FetchMaxCnt).Add(FetchLat).Add(FetchComp).Add(IcMiss).Add(PageSize).Add(FetchL1Miss).Add(FetchL2Miss)
      .AddIf(HasL2Miss(t), FetchL2CacheMiss).AddIf(t.ctlExt, ItlbRefillLat)
  }

  function PageCell(t: FetchTrace, size: nat): Cell {
    match size
    case 0 => Page4K
    case 1 => Page2M
    case 2 => Page1G
    case _ => if size == 3 && t.family == 0x17 then Page16K else Reserved(size)
  }

  function FetchCell(t: FetchTrace, s: Sample, col: Reg): Cell {
    match col
    case FetchLinAd => Hex64(s.At(FetchLinAd))
    case FetchPhysAd => if s.At(FetchPhyValid) != 0 then Hex64(s.At(FetchPhysAd)) else Dash
    case FetchMaxCnt => Num(s.At(FetchMaxCnt) * 16)
    case PageSize => if s.At(FetchPhyValid) != 0 then PageCell(t, s.At(PageSize)) else Dash
    case ItlbRefillLat => if s.At(FetchComp) != 0 then Num(s.At(ItlbRefillLat)) else Dash
    case _ => Num(s.At(col))
  }

  function FetchRow(t: FetchTrace, s: Sample): Row { Under(FetchEntry(t, s), FetchTitles(t)) }

  /** Every fetch row has one field under each title, whatever the sample. */
  lemma FetchRowMatchesHeader(t: FetchTrace, s: Sample)
    ensures StandsUnder(FetchRow(t, s), FetchEntry(t, s), FetchTitles(t))
  {
    LineUnder(FetchEntry(t, s), FetchTitles(t));
  }

  // ----- which columns a machine gets

  predicate Early(g: TraceHeader.Generation) { g.Gen10h? || g.Gen12h? || g.Gen14h? || g.Gen15h00? }

  predicate Small(g: TraceHeader.Generation) { g.Gen14h? || g.Gen16h? }

  predicate Late(g: TraceHeader.Generation) { g.Gen15h60? || g.Gen17h? }

  predicate Recent(g: TraceHeader.Generation) { g.Gen15h30? || g.Gen16h? || Late(g) }

  /** From machine to decoder: the optional columns of a trace are those of the features that the machine
      has. Only the last models of family 15h and family 17h tell about fetches that miss in the L2. */
  lemma ColumnsByMachine(g: TraceHeader.Generation, fam: nat, model: nat, id: nat)
    requires TraceHeader.IsGeneration(g, fam, model)
    ensures var t := TraceOf(fam, model, id);
      && (t.brnResync <==> Early(g)) && (t.mispReturn <==> Early(g))
      && (t.microcode <==> Late(g)) && (t.data3Bits <==> Recent(g)) && (t.data2Bits <==> !Small(g))
      && (t.ldBnkCon <==> Early(g) && !Small(g)) && (t.stToLdCan <==> Early(g) && !Small(g))
      && (t.stToLdFwd <==> Early(g) || Small(g)) && (t.stBnkCon <==> g.Gen10h? || g.Gen12h?)
      && (t.brnTrgt <==> id / 32 % 2 == 1) && (t.opCntExt <==> id / 64 % 2 == 1)
      && (t.ripInvalidChk <==> id / 128 % 2 == 1) && (t.opBrnFuse <==> id / 256 % 2 == 1)
      && (t.opData4 <==> id / 1024 % 2 == 1)
    ensures forall ext :: HasL2Miss(FetchTrace(fam, model, ext)) <==> Late(g)
  {
    TraceHeader.OpFlagsMeaning(g, fam, model, id);
  }

  // ----- the printing functions

  // Each method appends to the row. `h` are the columns that the row stands under so far.

  method Put(row: Row, c: Cell, ghost e: Entry, ghost h: Titles, ghost col: Reg) returns (r: Row)
    requires row == Under(e, h) && c == Wanted(e, col)
    ensures r == Under(e, h.Add(col))
  {
    r := Cells(row, c);
  }

  /** print_u8 and its siblings, for a field that is printed as it is. */
  method PutField(row: Row, s: Sample, ghost e: Entry, ghost h: Titles, col: Reg) returns (r: Row)
    requires row == Under(e, h) && s == e.s && IsPlain(col)
    ensures r == Under(e, h.Add(col))
  {
    PlainIsAsItIs(e, col);
    r := Cells(row, Num(s.At(col)));
  }

  method PutFieldIf(row: Row, b: bool, s: Sample, ghost e: Entry, ghost h: Titles, col: Reg) returns (r: Row)
    requires row == Under(e, h) && s == e.s && IsPlain(col)
    ensures r == Under(e, h.AddIf(b, col))
  {
    r := row;
    if b { r := PutField(row, s, e, h, col); }
  }

  method PutCommon(row: Row, s: Sample, ghost e: Entry, ghost h: Titles) returns (r: Row)
    requires row == Under(e, h) && s == e.s
    ensures r == Under(e, CommonTitles(h))
  {
    ghost var c := h;
    r := PutField(row, s, e, c, Tsc); c := c.Add(Tsc);
    r := PutField(r, s, e, c, CpuNumber); c := c.Add(CpuNumber);
    r := PutField(r, s, e, c, Tid); c := c.Add(Tid);
    r := PutField(r, s, e, c, Pid); c := c.Add(Pid);
    r := PutField(r, s, e, c, KernMode);
  }

  method PutRate(row: Row, t: OpTrace, s: Sample, ghost e: Entry, ghost h: Titles) returns (r: Row)
    requires row == Under(e, h) && e == OpEntry(t, s)
    ensures r == Under(e, h.Add(OpRip).Add(OpMaxCnt))
  {
    r := Put(row, Hex64(s.At(OpRip)), e, h, OpRip);
    var max := 0;
    if t.opCntExt { max := s.At(OpMaxCntUpper) * 0x10_0000; }
    max := max + s.At(OpMaxCnt) * 16;
    r := Put(r, Num(max), e, h.Add(OpRip), OpMaxCnt);
  }

  method PutReturn(row: Row, t: OpTrace, s: Sample, ghost e: Entry, ghost h: Titles) returns (r: Row)
    requires row == Under(e, h) && e == OpEntry(t, s)
    ensures r == Under(e, ReturnTitles(h, t))
  {
    ghost var c := CommonTitles(h);
    r := PutCommon(row, s, e, h);
    r := PutRate(r, t, s, e, c); c := c.Add(OpRip).Add(OpMaxCnt);
    r := PutField(r, s, e, c, CompToRet); c := c.Add(CompToRet);
    r := PutField(r, s, e, c, TagToRet); c := c.Add(TagToRet);
    r := PutFieldIf(r, t.brnResync, s, e, c, BrnResync); c := c.AddIf(t.brnResync, BrnResync);
    r := PutFieldIf(r, t.mispReturn, s, e, c, MispReturn);
  }

  method PutBranches(row: Row, t: OpTrace, s: Sample, ghost e: Entry, ghost h: Titles) returns (r: Row)
    requires row == Under(e, h) && e == OpEntry(t, s)
    ensures r == Under(e, BranchTitles(h, t))
  {
    ghost var c := h;
    r := Put(row, Num(s.At(BrnRet)), e, c, OpReturn); c := c.Add(OpReturn);
    r := PutField(r, s, e, c, BrnTaken); c := c.Add(BrnTaken);
    r := PutField(r, s, e, c, BrnMisp); c := c.Add(BrnMisp);
    r := PutField(r, s, e, c, BrnRet); c := c.Add(BrnRet);
    r := PutFieldIf(r, t.ripInvalidChk, s, e, c, RipInvalid); c := c.AddIf(t.ripInvalidChk, RipInvalid);
    r := PutFieldIf(r, t.opBrnFuse, s, e, c, BrnFuse); c := c.AddIf(t.opBrnFuse, BrnFuse);
    r := PutFieldIf(r, t.microcode, s, e, c, Microcode);
  }

  method SourceCell(t: OpTrace, src: nat) returns (c: Cell)
    ensures c == Source(t, src)
  {
    match src {
      case 0 => c := Dash;
      case 1 => c := if t.family == 0x10 || (t.family == 0x15 && t.model < 0x10) then LocalL3 else Reserved(1);
      case 2 => c := OtherCoreCache;
      case 3 => c := Dram;
      case 7 => c := Other;
      case _ => c := Reserved(src);
    }
  }

  method PutNode(row: Row, t: OpTrace, s: Sample, ghost e: Entry, ghost h: Titles) returns (r: Row)
    requires row == Under(e, h) && e == OpEntry(t, s) && Data2Shown(t, s)
    ensures r == Under(e, h.Add(DstNode).Add(CacheHitSt))
  {
    var node := if s.At(ReqSrc) == 0 then Dash else if s.At(DstNode) == 1 then OtherNode else SameNode;
    r := Put(row, node, e, h, DstNode);
    var state := if s.At(ReqSrc) != 2 then Dash else if s.At(CacheHitSt) == 1 then Owned else Modified;
    r := Put(r, state, e, h.Add(DstNode), CacheHitSt);
  }

  method PutDashes(row: Row, t: OpTrace, s: Sample, ghost e: Entry, ghost h: Titles) returns (r: Row)
    requires row == Under(e, h) && e == OpEntry(t, s) && !Data2Shown(t, s)
    ensures r == Under(e, Data2Titles(h, true))
  {
    r := Put(row, Dash, e, h, ReqSrc);
    r := Put(r, Dash, e, h.Add(ReqSrc), DstNode);
    r := Put(r, Dash, e, h.Add(ReqSrc).Add(DstNode), CacheHitSt);
  }

  /** The IbsOpData2 part, branch by branch. */
  method PutData2(row: Row, t: OpTrace, s: Sample, ghost e: Entry, ghost h: Titles) returns (r: Row)
    requires row == Under(e, h) && e == OpEntry(t, s)
    ensures r == Under(e, Data2Titles(h, t.data2Bits || !Data2Shown(t, s)))
  {
    if (t.data3Bits && s.At(LdOp) != 0 && s.At(L2Miss) != 0 && s.At(DcMiss) != 0)
       || (!t.data3Bits && s.At(LdOp) != 0 && s.At(DcMiss) != 0) {
      if t.family == 0x14 && s.At(WcMem) != 0 {
        r := PutDashes(row, t, s, e, h);
      } else {
        var source := SourceCell(t, s.At(ReqSrc));
        r := Put(row, source, e, h, ReqSrc);
        if t.data2Bits { r := PutNode(r, t, s, e, h.Add(ReqSrc)); }
      }
    } else {
      r := PutDashes(row, t, s, e, h);
    }
  }

  method PutCache(row: Row, t: OpTrace, s: Sample, ghost e: Entry, ghost h: Titles) returns (r: Row)
    requires row == Under(e, h) && s == e.s
    ensures r == Under(e, CacheTitles(h, t))
  {
    ghost var c := h.Add(LdOp).Add(StOp).Add(L1Miss).Add(L2TlbMiss);
    r := PutOps(row, s, e, h);
    r := PutHits(r, s, e, c); c := c.Add(L1Hit2M).Add(L1Hit1G).Add(L2Hit2M).Add(DcMiss).Add(MissAcc);
    r := PutFieldIf(r, t.ldBnkCon, s, e, c, LdBnkCon); c := c.AddIf(t.ldBnkCon, LdBnkCon);
    r := PutFieldIf(r, t.stBnkCon, s, e, c, StBnkCon); c := c.AddIf(t.stBnkCon, StBnkCon);
    r := PutFieldIf(r, t.stToLdFwd, s, e, c, StToLdFwd); c := c.AddIf(t.stToLdFwd, StToLdFwd);
    r := PutFieldIf(r, t.stToLdCan, s, e, c, StToLdCan);
  }

  method PutOps(row: Row, s: Sample, ghost e: Entry, ghost h: Titles) returns (r: Row)
    requires row == Under(e, h) && s == e.s
    ensures r == Under(e, h.Add(LdOp).Add(StOp).Add(L1Miss).Add(L2TlbMiss))
  {
    ghost var c := h;
    r := PutField(row, s, e, c, LdOp); c := c.Add(LdOp);
    r := PutField(r, s, e, c, StOp); c := c.Add(StOp);
    r := PutField(r, s, e, c, L1Miss); c := c.Add(L1Miss);
    r := PutField(r, s, e, c, L2TlbMiss);
  }

  method PutHits(row: Row, s: Sample, ghost e: Entry, ghost h: Titles) returns (r: Row)
    requires row == Under(e, h) && s == e.s
    ensures r == Under(e, h.Add(L1Hit2M).Add(L1Hit1G).Add(L2Hit2M).Add(DcMiss).Add(MissAcc))
  {
    ghost var c := h;
    r := PutField(row, s, e, c, L1Hit2M); c := c.Add(L1Hit2M);
    r := PutField(r, s, e, c, L1Hit1G); c := c.Add(L1Hit1G);
    r := PutField(r, s, e, c, L2Hit2M); c := c.Add(L2Hit2M);
    r := PutField(r, s, e, c, DcMiss); c := c.Add(DcMiss);
    r := PutField(r, s, e, c, MissAcc);
  }

  /** The test of erratum 717 compares nothing: it yields the miss bit itself. */
  method PutMab(row: Row, t: OpTrace, s: Sample, ghost e: Entry, ghost h: Titles) returns (r: Row)
    requires row == Under(e, h) && e == OpEntry(t, s)
    ensures r == Under(e, h.Add(NoMabAlloc))
  {
    var missed := s.At(DcMiss) - 0;
    if Erratum717(t) && missed != 0 {
      r := Put(row, Num(0), e, h, NoMabAlloc);
    } else {
      r := Put(row, Num(s.At(NoMabAlloc)), e, h, NoMabAlloc);
    }
  }

  method PutKind(row: Row, s: Sample, ghost e: Entry, ghost h: Titles) returns (r: Row)
    requires row == Under(e, h) && s == e.s
    ensures r == Under(e, h.Add(WcMem).Add(UcMem).Add(Locked))
  {
    r := PutField(row, s, e, h, WcMem);
    r := PutField(r, s, e, h.Add(WcMem), UcMem);
    r := PutField(r, s, e, h.Add(WcMem).Add(UcMem), Locked);
  }

  method PutAccess(row: Row, t: OpTrace, s: Sample, ghost e: Entry, ghost h: Titles) returns (r: Row)
    requires row == Under(e, h) && e == OpEntry(t, s)
    ensures r == Under(e, AccessTitles(h))
  {
    ghost var c := h.Add(WcMem).Add(UcMem).Add(Locked);
    r := PutKind(row, s, e, h);
    r := PutMab(r, t, s, e, c); c := c.Add(NoMabAlloc);
    r := PutField(r, s, e, c, LinValid); c := c.Add(LinValid);
    r := PutField(r, s, e, c, PhyValid); c := c.Add(PhyValid);
    r := PutField(r, s, e, c, L2Hit1G);
  }

  method WidthCell(w: nat) returns (c: Cell)
    ensures c == Width(w)
  {
    match w {
      case 0 => c := Num(0);
      case 1 => c := Num(1);
      case 2 => c := Num(2);
      case 3 => c := Num(4);
      case 4 => c := Num(8);
      case 5 => c := Num(16);
      case _ => c := Reserved(w);
    }
  }

  method PutWidth(row: Row, t: OpTrace, s: Sample, ghost e: Entry, ghost h: Titles) returns (r: Row)
    requires row == Under(e, h) && e == OpEntry(t, s)
    ensures r == Under(e, h.Add(MemWidth))
  {
    var width := WidthCell(s.At(MemWidth));
    r := Put(row, width, e, h, MemWidth);
  }

  method PutMiss(row: Row, t: OpTrace, s: Sample, ghost e: Entry, ghost h: Titles) returns (r: Row)
    requires row == Under(e, h) && e == OpEntry(t, s)
    ensures r == Under(e, MissTitles(h, t))
  {
    r := row;
    ghost var c := h;
    if t.data3Bits {
      r := PutField(r, s, e, c, L2Miss); c := c.Add(L2Miss);
      r := PutField(r, s, e, c, SwPf); c := c.Add(SwPf);
      r := PutWidth(r, t, s, e, c); c := c.Add(MemWidth);
      r := PutField(r, s, e, c, OpenMemReqs); c := c.Add(OpenMemReqs);
    }
    r := PutField(r, s, e, c, MissLat);
    r := PutFieldIf(r, t.data3Bits, s, e, c.Add(MissLat), TlbRefillLat);
  }

  method PutHexIf(row: Row, valid: bool, n: nat, ghost e: Entry, ghost h: Titles, ghost col: Reg) returns (r: Row)
    requires row == Under(e, h) && Wanted(e, col) == HexIf(valid, n)
    ensures r == Under(e, h.Add(col))
  {
    if valid { r := Put(row, Hex64(n), e, h, col); } else { r := Put(row, Dash, e, h, col); }
  }

  /** An address is printed if its valid bit is set; a branch target, if the op was a retired branch. */
  lemma LinColumn(t: OpTrace, s: Sample)
    ensures Wanted(OpEntry(t, s), LinAd) == HexIf(s.At(LinValid) != 0, s.At(LinAd))
  {}

  lemma PhysColumn(t: OpTrace, s: Sample)
    ensures Wanted(OpEntry(t, s), PhysAd) == HexIf(s.At(PhyValid) != 0, s.At(PhysAd))
  {}

  lemma TargetColumn(t: OpTrace, s: Sample)
    ensures Wanted(OpEntry(t, s), BrnTarget) == HexIf(s.At(BrnRet) != 0, s.At(BrnTarget))
  {}

  method PutAddresses(row: Row, t: OpTrace, s: Sample, ghost e: Entry, ghost h: Titles) returns (r: Row)
    requires row == Under(e, h) && e == OpEntry(t, s)
    ensures r == Under(e, AddressTitles(h, t))
  {
    LinColumn(t, s); PhysColumn(t, s); TargetColumn(t, s);
    r := PutHexIf(row, s.At(LinValid) != 0, s.At(LinAd), e, h, LinAd);
    r := PutHexIf(r, s.At(PhyValid) != 0, s.At(PhysAd), e, h.Add(LinAd), PhysAd);
    ghost var c := h.Add(LinAd).Add(PhysAd);
    if t.brnTrgt { r := PutHexIf(r, s.At(BrnRet) != 0, s.At(BrnTarget), e, c, BrnTarget); }
    r := PutFieldIf(r, t.opData4, s, e, c.AddIf(t.brnTrgt, BrnTarget), LdResync);
  }

  /** output_op_entry. */
  method PutOpEntry(t: OpTrace, s: Sample) returns (line: string)
    ensures line == Line(OpRow(t, s))
  {
    ghost var e, h := OpEntry(t, s), NoTitle;
    var row := PutReturn(NoCell, t, s, e, h); h := ReturnTitles(h, t);
    row := PutBranches(row, t, s, e, h); h := BranchTitles(h, t);
    row := PutData2(row, t, s, e, h); h := Data2Titles(h, t.data2Bits || !Data2Shown(t, s));
    row := PutCache(row, t, s, e, h); h := CacheTitles(h, t);
    row := PutAccess(row, t, s, e, h); h := AccessTitles(h);
    row := PutMiss(row, t, s, e, h); h := MissTitles(h, t);
    row := PutAddresses(row, t, s, e, h);
    line := Line(row);
  }

  method PageSizeCell(t: FetchTrace, s: Sample) returns (c: Cell)
    ensures c == FetchCell(t, s, PageSize)
  {
    c := Dash;
    if s.At(FetchPhyValid) != 0 {
      match s.At(PageSize) {
        case 0 => c := Page4K;
        case 1 => c := Page2M;
        case 2 => c := Page1G;
        case _ => c := if s.At(PageSize) == 3 && t.family == 0x17 then Page16K else Reserved(s.At(PageSize));
      }
    }
  }

  method PutFetchAddress(row: Row, t: FetchTrace, s: Sample, ghost e: Entry, ghost h: Titles) returns (r: Row)
    requires row == Under(e, h) && e == FetchEntry(t, s)
    ensures r == Under(e, h.Add(FetchLinAd).Add(FetchPhysAd))
  {
    r := Put(row, Hex64(s.At(FetchLinAd)), e, h, FetchLinAd);
    var phys := if s.At(FetchPhyValid) != 0 then Hex64(s.At(FetchPhysAd)) else Dash;
    r := Put(r, phys, e, h.Add(FetchLinAd), FetchPhysAd);
  }

  method PutFetchRate(row: Row, t: FetchTrace, s: Sample, ghost e: Entry, ghost h: Titles) returns (r: Row)
    requires row == Under(e, h) && e == FetchEntry(t, s)
    ensures r == Under(e, h.Add(FetchMaxCnt))
  {
    r := Put(row, Num(s.At(FetchMaxCnt) * 16), e, h, FetchMaxCnt);
  }

  method PutPageSize(row: Row, t: FetchTrace, s: Sample, ghost e: Entry, ghost h: Titles) returns (r: Row)
    requires row == Under(e, h) && e == FetchEntry(t, s)
    ensures r == Under(e, h.Add(PageSize))
  {
    var size := PageSizeCell(t, s);
    r := Put(row, size, e, h, PageSize);
  }

  method PutRefill(row: Row, t: FetchTrace, s: Sample, ghost e: Entry, ghost h: Titles) returns (r: Row)
    requires row == Under(e, h) && e == FetchEntry(t, s)
    ensures r == Under(e, h.AddIf(t.ctlExt, ItlbRefillLat))
  {
    r := row;
    if t.ctlExt {
      if s.At(FetchComp) != 0 { r := Put(row, Num(s.At(ItlbRefillLat)), e, h, ItlbRefillLat); }
      else { r := Put(row, Dash, e, h, ItlbRefillLat); }
    }
  }

  method PutFetchFields(row: Row, t: FetchTrace, s: Sample, ghost e: Entry, ghost h: Titles) returns (r: Row)
    requires row == Under(e, h) && e == FetchEntry(t, s)
    ensures r == Under(e, h.Add(FetchLat).Add(FetchComp).Add(IcMiss).Add(PageSize).Add(FetchL1Miss).Add(FetchL2Miss))
  {
    ghost var c := h;
    r := PutField(row, s, e, c, FetchLat); c := c.Add(FetchLat);
    r := PutField(r, s, e, c, FetchComp); c := c.Add(FetchComp);
    r := PutField(r, s, e, c, IcMiss); c := c.Add(IcMiss);
    r := PutPageSize(r, t, s, e, c); c := c.Add(PageSize);
    r := PutField(r, s, e, c, FetchL1Miss); c := c.Add(FetchL1Miss);
    r := PutField(r, s, e, c, FetchL2Miss);
  }

  /** output_fetch_entry. */
  method PutFetchEntry(t: FetchTrace, s: Sample) returns (line: string)
    ensures line == Line(FetchRow(t, s))
  {
    ghost var e, h := FetchEntry(t, s), CommonTitles(NoTitle);
    var row := PutCommon(NoCell, s, e, NoTitle);
    row := PutField(row, s, e, h, FetchPhyValid); h := h.Add(FetchPhyValid);
    row := PutFetchAddress(row, t, s, e, h); h := h.Add(FetchLinAd).Add(FetchPhysAd);
    row := PutFetchRate(row, t, s, e, h); h := h.Add(FetchMaxCnt);
    row := PutFetchFields(row, t, s, e, h);
    h := h.Add(FetchLat).Add(FetchComp).Add(IcMiss).Add(PageSize).Add(FetchL1Miss).Add(FetchL2Miss);
    row := PutFieldIf(row, HasL2Miss(t), s, e, h, FetchL2CacheMiss); h := h.AddIf(HasL2Miss(t), FetchL2CacheMiss);
    row := PutRefill(row, t, s, e, h);
    line := Line(row);
  }
}
