/** The text header of a trace file: printed by tools/ibs_monitor, read back by tools/ibs_decoder. */
module TraceHeader {
  import opened HeaderText

  const MARK_LENGTH := 45

  /** The line of equal signs that ends a header. */
  function Mark(n: nat): (m: string)
    ensures |m| == n && forall i :: 0 <= i < n ==> m[i] == '='
  {
    seq(n, _ => '=')
  }

  // ----- the decoder

  /** The first of the names, from number k on, whose "name:" begins the line; |names| if none. */
  function FindName(names: seq<string>, line: string, k: nat): (i: nat)
    requires k <= |names|
    ensures k <= i <= |names|
    ensures i < |names| ==> names[i] + ":" <= line
    ensures forall j :: k <= j < i ==> !(names[j] + ":" <= line)
    decreases |names| - k
  {
    if k == |names| || names[k] + ":" <= line then k else FindName(names, line, k + 1)
  }

  /** The header_parse lines applied to one piece; the targets are 32-bit. */
  function Update(names: seq<string>, vals: seq<nat>, line: string): (out: seq<nat>)
    requires |vals| == |names|
    ensures |out| == |names|
  {
    var i := FindName(names, line, 0);
    if i == |names| || SecondToken(line) == "" then vals
    else vals[i := Strtoul(SecondToken(line)) % 0x1_0000_0000]
  }

  predicate IsMark(line: string) {
    |line| >= MARK_LENGTH && forall i :: 0 <= i < MARK_LENGTH ==> line[i] == '='
  }

  /** The parsing loop: the values found, and where in the file it stops. */
  function Parse(names: seq<string>, vals: seq<nat>, file: string): (seq<nat>, string)
    requires |vals| == |names|
    decreases |file|
  {
    if file == "" then (vals, "")
    else if IsMark(Piece(file)) then (vals, AfterPiece(file))
    else Parse(names, Update(names, vals, Piece(file)), AfterPiece(file))
  }

  method ParseHeader(names: seq<string>, file: string) returns (vals: seq<nat>, rest: string)
    ensures (vals, rest) == Parse(names, seq(|names|, _ => 0), file)
  {
    vals, rest := seq(|names|, _ => 0), file;
    var line := "";
    while !IsMark(line)
      invariant |vals| == |names|
      invariant if IsMark(line) then (vals, rest) == Parse(names, seq(|names|, _ => 0), file)
                else Parse(names, vals, rest) == Parse(names, seq(|names|, _ => 0), file)
      decreases |rest|, if IsMark(line) then 0 else 1
    {
      if rest == "" { break; }
      line, rest := Piece(rest), AfterPiece(rest);
      if IsMark(line) { break; }
      vals := Update(names, vals, line);
    }
  }

  // ----- parsing a file line by line

  /** The effect of a text without the end mark. */
  function Absorb(names: seq<string>, vals: seq<nat>, text: string): (out: seq<nat>)
    requires |vals| == |names|
    ensures |out| == |names|
    decreases |text|
  {
    if text == "" then vals else Absorb(names, Update(names, vals, Piece(text)), AfterPiece(text))
  }

  predicate NoMark(text: string)
    decreases |text|
  {
    text == "" || (!IsMark(Piece(text)) && NoMark(AfterPiece(text)))
  }

  lemma {:induction false} ParsePrefix(names: seq<string>, vals: seq<nat>, a: string, b: string)
    requires |vals| == |names| && WholeLines(a)
    ensures NoMark(a) ==> Parse(names, vals, a + b) == Parse(names, Absorb(names, vals, a), b)
    ensures !NoMark(a) ==> |Parse(names, vals, a + b).1| >= |b|
    decreases |a|
  {
    if a == "" {
      assert a + b == b;
    } else {
      PieceOfPrefix(a, b);
      if !IsMark(Piece(a)) { ParsePrefix(names, Update(names, vals, Piece(a)), AfterPiece(a), b); }
    }
  }

  lemma {:induction false} AbsorbAppend(names: seq<string>, vals: seq<nat>, a: string, b: string)
    requires |vals| == |names| && WholeLines(a)
    ensures Absorb(names, vals, a + b) == Absorb(names, Absorb(names, vals, a), b)
    ensures NoMark(a + b) <==> NoMark(a) && NoMark(b)
    decreases |a|
  {
    if a == "" {
      assert a + b == b;
    } else {
      PieceOfPrefix(a, b);
      AbsorbAppend(names, Update(names, vals, Piece(a)), AfterPiece(a), b);
    }
  }

  /** A line that fits one piece. */
  lemma AbsorbLine(names: seq<string>, vals: seq<nat>, text: string)
    requires |vals| == |names| && FitsOnePiece(text)
    ensures Absorb(names, vals, text + "\n") == Update(names, vals, text + "\n")
    ensures NoMark(text + "\n") <==> !IsMark(text + "\n")
  {
    PieceOfLine(text);
  }

  // ----- lines of the form "name: value"

  predicate Plain(name: string) { name != "" && ':' !in name && '\n' !in name && name[0] != '=' }

  ghost predicate GoodNames(names: seq<string>) {
    && (forall i :: 0 <= i < |names| ==> Plain(names[i]))
    && (forall i, j :: 0 <= i < j < |names| ==> names[i] != names[j])
  }

  lemma SameColon(a: string, b: string, line: string)
    requires ':' !in a && ':' !in b && a + ":" <= line && b + ":" <= line
    ensures a == b
  {
    assert line[|a|] == ':' && line[|b|] == ':';
    assert a == line[..|a|] && b == line[..|b|];
  }

  lemma FindPlain(names: seq<string>, name: string, tail: string)
    requires GoodNames(names) && Plain(name)
    ensures var i := FindName(names, name + (":" + tail), 0);
      if i < |names| then names[i] == name else name !in names
  {
    var line := name + (":" + tail);
    var i := FindName(names, line, 0);
    assert name + ":" <= line;
    if i < |names| {
      SameColon(names[i], name, line);
    }
  }

  lemma LineIsUpdate(names: seq<string>, vals: seq<nat>, name: string, value: string)
    requires |vals| == |names| && Plain(name) && FitsOnePiece(name + (":" + value))
    ensures var text := name + (":" + value) + "\n";
      NoMark(text) && Absorb(names, vals, text) == Update(names, vals, name + (":" + (value + "\n")))
  {
    var text := name + (":" + value);
    AbsorbLine(names, vals, text);
    assert text + "\n" == name + (":" + (value + "\n"));
    assert (text + "\n")[0] == name[0];
  }

  /** A labelled line for no wanted name changes nothing. */
  lemma OtherLine(names: seq<string>, vals: seq<nat>, name: string, value: string)
    requires |vals| == |names| && GoodNames(names) && Plain(name) && name !in names
    requires FitsOnePiece(name + (":" + value))
    ensures var text := name + (":" + value) + "\n"; NoMark(text) && Absorb(names, vals, text) == vals
  {
    LineIsUpdate(names, vals, name, value);
    FindPlain(names, name, value + "\n");
  }

  /** A line for a wanted name stores its value. */
  lemma WantedLine(names: seq<string>, vals: seq<nat>, i: nat, value: string)
    requires |vals| == |names| && GoodNames(names) && i < |names| && ':' !in value
    requires FitsOnePiece(names[i] + (":" + value))
    ensures var text := names[i] + (":" + value) + "\n";
      NoMark(text) && Absorb(names, vals, text) == vals[i := Strtoul(value + "\n") % 0x1_0000_0000]
  {
    LineIsUpdate(names, vals, names[i], value);
    UpdateWanted(names, vals, i, value + "\n");
  }

  lemma UpdateWanted(names: seq<string>, vals: seq<nat>, i: nat, value: string)
    requires |vals| == |names| && GoodNames(names) && i < |names| && ':' !in value && value != ""
    ensures Update(names, vals, names[i] + (":" + value)) == vals[i := Strtoul(value) % 0x1_0000_0000]
  {
    FindPlain(names, names[i], value);
    SecondTokenOf(names[i], value);
  }

  // ----- printed values

  lemma MagnitudeHex(n: nat, tail: string)
    requires tail != "" && DigitValue(tail[0]) >= 16
    ensures Magnitude("0x" + (Hex(n) + tail)) == n
  {
    HexCharacters(n);
    HexRoundTrip(n, tail);
    var s := "0x" + (Hex(n) + tail);
    assert s[2] == Hex(n)[0];
    assert s[2..] == Hex(n) + tail;
  }

  /** One leading space and no sign. */
  lemma StrtoulOfDigits(s: string)
    requires s != "" && '0' <= s[0] <= '9' && Magnitude(s) < 0x1_0000_0000
    ensures Strtoul(" " + s) == Magnitude(s)
  {
    assert (" " + s)[1..] == s;
    assert SkipSpaces(" " + s) == SkipSpaces(s) == s;
  }

  lemma StrtoulHex(n: nat, tail: string)
    requires n < 0x1_0000_0000 && tail != "" && DigitValue(tail[0]) >= 16
    ensures Strtoul(" 0x" + Hex(n) + tail) == n
  {
    MagnitudeHex(n, tail);
    StrtoulOfDigits("0x" + (Hex(n) + tail));
    assert " 0x" + Hex(n) + tail == " " + ("0x" + (Hex(n) + tail));
  }

  /** %u of a flag. */
  function Flag(b: nat): string { if b == 1 then "1" else "0" }

  lemma StrtoulFlag(b: nat)
    requires b <= 1
    ensures Strtoul(" " + Flag(b) + "\n") == b
  {
    var s := Flag(b) + "\n";
    assert s[1..] == "\n";
    assert Number("\n", Octal, 0) == 0 && Number("\n", Decimal, 1) == 1;
    assert Magnitude(s) == b;
    StrtoulOfDigits(s);
    assert " " + Flag(b) + "\n" == " " + s;
  }

  // ----- the monitor

  function Line(name: string, value: string): string { name + (":" + value) + "\n" }

  function HexLine(name: string, n: nat): string { Line(name, " 0x" + Hex(n)) }

  function FlagLine(name: string, b: nat): string { Line(name, " " + Flag(b)) }

  /** The lines for names[k..], whose values are flags[k - 2..]. */
  function FlagLines(names: seq<string>, flags: seq<nat>, k: nat): string
    requires 2 <= k <= |names| == |flags| + 2
    decreases |names| - k
  {
    if k == |names| then "" else FlagLine(names[k], flags[k - 2]) + FlagLines(names, flags, k + 1)
  }

  /** The free-text lines: processor name, memory, system, OS, time, directory, command. */
  function FreeText(lines: seq<(string, string)>): string {
    if lines == [] then "" else Line(lines[0].0, " " + lines[0].1) + FreeText(lines[1..])
  }

  /** output_op_header and output_fetch_header: they differ in the title, the version line and the
      flags. names[0] and names[1] are the processor family and model. */
  datatype Header = Header(title: string, names: seq<string>, family: nat, model: nat, stepping: nat,
                           free: string, version: string, flags: seq<nat>)

  predicate Known(h: Header) {
    |h.names| == |h.flags| + 2
  }

  function Front(h: Header): string
    requires Known(h)
  {
    h.title + "\n" + (HexLine(h.names[0], h.family) +
      (HexLine(h.names[1], h.model) + HexLine("AMD Processor Stepping", h.stepping)))
  }

  function Back(h: Header): string
    requires Known(h)
  {
    Line(h.version, " 1") + (FlagLines(h.names, h.flags, 2) + "\n")
  }

  function Print(h: Header): string
    requires Known(h)
  {
    Front(h) + (h.free + (Back(h) + (Mark(MARK_LENGTH) + "\n")))
  }

  ghost predicate NamesFit(names: seq<string>) {
    GoodNames(names) && (forall i :: 0 <= i < |names| ==> |names[i]| < 200)
  }

  predicate LabelsFit(names: seq<string>, version: string) {
    "AMD Processor Stepping" !in names && version !in names && Plain(version) && |version| < 200
  }

  predicate TitleFits(title: string) {
    FitsOnePiece(title) && ':' !in title && title != "" && title[0] != '='
  }

  /** What holds of both headers that the monitor prints. */
  ghost predicate WellFormed(h: Header) {
    && Known(h) && NamesFit(h.names) && LabelsFit(h.names, h.version) && TitleFits(h.title)
    && h.family < 0x1_0000_0000 && h.model < 0x1_0000_0000 && h.stepping < 0x1_0000_0000
    && (forall i :: 0 <= i < |h.flags| ==> h.flags[i] <= 1)
    && WholeLines(h.free)
  }

  function Values(h: Header): seq<nat> { [h.family, h.model] + h.flags }

  function Blank(h: Header): seq<nat>
    requires Known(h)
  {
    [h.family, h.model] + seq(|h.flags|, _ => 0)
  }

  /** The pieces in which fgets delivers a text. */
  function Pieces(text: string): seq<string>
    decreases |text|
  {
    if text == "" then [] else [Piece(text)] + Pieces(AfterPiece(text))
  }

  /** A piece that stores a value for the name: it starts with the name and a colon, and something
      follows. */
  predicate Sets(name: string, piece: string) { name + ":" <= piece && SecondToken(piece) != "" }

  /** The last piece that stores a value for the name, if there is one, stores n. */
  predicate LastSays(name: string, n: nat, pieces: seq<string>)
    decreases |pieces|
  {
    if pieces == [] then true
    else
      var last := pieces[|pieces| - 1];
      if Sets(name, last) then Strtoul(SecondToken(last)) % 0x1_0000_0000 == n
      else LastSays(name, n, pieces[..|pieces| - 1])
  }

  /** Free text for which the round trip holds: no piece of it starts with the mark, and if it mentions
      the family or the model, then last with the printed value. Flags it may well touch: their lines
      come later and win. */
  predicate Harmless(h: Header)
    requires Known(h)
  {
    var pieces := Pieces(h.free);
    && (forall p :: p in pieces ==> !IsMark(p))
    && LastSays(h.names[0], h.family, pieces) && LastSays(h.names[1], h.model, pieces)
  }

  // ----- the same condition on what the decoder has read

  lemma {:induction false} NoMarkInPieces(text: string)
    ensures NoMark(text) <==> forall p :: p in Pieces(text) ==> !IsMark(p)
    decreases |text|
  {
    if text != "" {
      NoMarkInPieces(AfterPiece(text));
      assert Piece(text) in Pieces(text);
      assert forall p :: p in Pieces(text) <==> p == Piece(text) || p in Pieces(AfterPiece(text));
    }
  }

  /** The value of one name after some pieces. */
  function After(name: string, v: nat, pieces: seq<string>): nat
    decreases |pieces|
  {
    if pieces == [] then v
    else After(name, if Sets(name, pieces[0]) then Strtoul(SecondToken(pieces[0])) % 0x1_0000_0000 else v, pieces[1..])
  }

  lemma UpdateAt(names: seq<string>, vals: seq<nat>, piece: string, i: nat)
    requires |vals| == |names| && GoodNames(names) && i < |names|
    ensures Update(names, vals, piece)[i] ==
      if Sets(names[i], piece) then Strtoul(SecondToken(piece)) % 0x1_0000_0000 else vals[i]
  {
    var k := FindName(names, piece, 0);
    if k < |names| && k != i && names[i] + ":" <= piece { SameColon(names[i], names[k], piece); }
  }

  lemma {:induction false} AbsorbAt(names: seq<string>, vals: seq<nat>, text: string, i: nat)
    requires |vals| == |names| && GoodNames(names) && i < |names|
    ensures Absorb(names, vals, text)[i] == After(names[i], vals[i], Pieces(text))
    decreases |text|
  {
    if text != "" {
      UpdateAt(names, vals, Piece(text), i);
      AbsorbAt(names, Update(names, vals, Piece(text)), AfterPiece(text), i);
      assert Pieces(text)[1..] == Pieces(AfterPiece(text));
    }
  }

  lemma {:induction false} AfterLast(name: string, v: nat, pieces: seq<string>, last: string)
    ensures After(name, v, pieces + [last]) ==
      if Sets(name, last) then Strtoul(SecondToken(last)) % 0x1_0000_0000 else After(name, v, pieces)
    decreases |pieces|
  {
    if pieces == [] {
      assert [] + [last] == [last] && [last][1..] == [];
    } else {
      var next := if Sets(name, pieces[0]) then Strtoul(SecondToken(pieces[0])) % 0x1_0000_0000 else v;
      AfterLast(name, next, pieces[1..], last);
      assert (pieces + [last])[1..] == pieces[1..] + [last];
    }
  }

  lemma {:induction false} LastWins(name: string, n: nat, pieces: seq<string>)
    ensures After(name, n, pieces) == n <==> LastSays(name, n, pieces)
    decreases |pieces|
  {
    if pieces != [] {
      var k := |pieces| - 1;
      LastWins(name, n, pieces[..k]);
      AfterLast(name, n, pieces[..k], pieces[k]);
      assert pieces[..k] + [pieces[k]] == pieces;
    }
  }

  lemma HarmlessText(h: Header)
    requires Known(h) && GoodNames(h.names)
    ensures Harmless(h) <==> NoMark(h.free) && Absorb(h.names, Blank(h), h.free)[..2] == [h.family, h.model]
  {
    NoMarkInPieces(h.free);
    AbsorbAt(h.names, Blank(h), h.free, 0);
    AbsorbAt(h.names, Blank(h), h.free, 1);
    LastWins(h.names[0], h.family, Pieces(h.free));
    LastWins(h.names[1], h.model, Pieces(h.free));
  }

  // ----- effect of each printed part

  lemma PlainLine(names: seq<string>, vals: seq<nat>, text: string)
    requires |vals| == |names| && FitsOnePiece(text) && ':' !in text && (text != "" ==> text[0] != '=')
    requires GoodNames(names)
    ensures NoMark(text + "\n") && Absorb(names, vals, text + "\n") == vals
  {
    AbsorbLine(names, vals, text);
    NoColonNoName(names, text + "\n");
  }

  lemma NoColonNoName(names: seq<string>, line: string)
    requires ':' !in line
    ensures FindName(names, line, 0) == |names|
  {
    var i := FindName(names, line, 0);
    if i < |names| { ColonInside(names[i], line); }
  }

  lemma ColonInside(name: string, line: string)
    requires name + ":" <= line
    ensures ':' in line
  {
    assert line[|name|] == ':';
  }

  lemma ValueLineEffect(names: seq<string>, vals: seq<nat>, i: nat, value: string)
    requires |vals| == |names| && GoodNames(names) && i < |names|
    requires ':' !in value && FitsOnePiece(names[i] + (":" + value))
    ensures NoMark(Line(names[i], value))
    ensures Absorb(names, vals, Line(names[i], value)) == vals[i := Strtoul(value + "\n") % 0x1_0000_0000]
  {
    WantedLine(names, vals, i, value);
  }

  lemma FitsWord(v: nat, n: nat)
    requires v == n < 0x1_0000_0000
    ensures v % 0x1_0000_0000 == n
  {}

  lemma HexLineEffect(names: seq<string>, vals: seq<nat>, i: nat, n: nat)
    requires |vals| == |names| && GoodNames(names) && i < |names| && |names[i]| < 200 && n < 0x1_0000_0000
    ensures NoMark(HexLine(names[i], n)) && Absorb(names, vals, HexLine(names[i], n)) == vals[i := n]
  {
    HexValue(n);
    WantedFits(names[i], " 0x" + Hex(n));
    ValueLineEffect(names, vals, i, " 0x" + Hex(n));
    FitsWord(Strtoul(" 0x" + Hex(n) + "\n"), n);
  }

  lemma HexValue(n: nat)
    requires n < 0x1_0000_0000
    ensures var v := " 0x" + Hex(n); ':' !in v && '\n' !in v && |v| < 12 && Strtoul(v + "\n") == n
  {
    HexCharacters(n);
    HexLengthOfWord(n);
    StrtoulHex(n, "\n");
  }

  lemma WantedFits(name: string, value: string)
    requires Plain(name) && |name| < 200 && '\n' !in value && |value| < 50
    ensures FitsOnePiece(name + (":" + value))
  {}

  lemma FlagLineEffect(names: seq<string>, vals: seq<nat>, i: nat, b: nat)
    requires |vals| == |names| && GoodNames(names) && i < |names| && |names[i]| < 200 && b <= 1
    ensures NoMark(FlagLine(names[i], b)) && Absorb(names, vals, FlagLine(names[i], b)) == vals[i := b]
  {
    FlagValue(b);
    WantedFits(names[i], " " + Flag(b));
    ValueLineEffect(names, vals, i, " " + Flag(b));
    FitsWord(Strtoul(" " + Flag(b) + "\n"), b);
  }

  lemma FlagValue(b: nat)
    requires b <= 1
    ensures var v := " " + Flag(b); ':' !in v && '\n' !in v && |v| < 12 && Strtoul(v + "\n") == b
  {
    StrtoulFlag(b);
  }

  /** Text that turns vals into next, followed by text that turns next into last. */
  lemma Chain(names: seq<string>, vals: seq<nat>, next: seq<nat>, last: seq<nat>, line: string, text: string)
    requires |vals| == |names| == |next| && WholeLines(line) && WholeLines(text)
    requires NoMark(line) && Absorb(names, vals, line) == next
    requires NoMark(text) && Absorb(names, next, text) == last
    ensures WholeLines(line + text) && NoMark(line + text) && Absorb(names, vals, line + text) == last
  {
    AbsorbAppend(names, vals, line, text);
    WholeAppend(line, text);
  }

  lemma WholeAppend(a: string, b: string)
    requires WholeLines(a) && WholeLines(b)
    ensures WholeLines(a + b)
  {
    if b == "" { assert a + b == a; }
  }

  lemma OneMoreFlag(vals: seq<nat>, flags: seq<nat>, k: nat)
    requires 2 <= k < |vals| == |flags| + 2
    ensures vals[k := flags[k - 2]][..k + 1] + flags[k - 1..] == vals[..k] + flags[k - 2..]
  {}

  lemma {:induction false} FlagLinesEffect(names: seq<string>, vals: seq<nat>, flags: seq<nat>, k: nat)
    requires |vals| == |names| == |flags| + 2 && GoodNames(names) && 2 <= k <= |names|
    requires forall i :: 0 <= i < |names| ==> |names[i]| < 200
    requires forall i :: 0 <= i < |flags| ==> flags[i] <= 1
    ensures var text := FlagLines(names, flags, k);
      WholeLines(text) && NoMark(text) && Absorb(names, vals, text) == vals[..k] + flags[k - 2..]
    decreases |names| - k
  {
    if k < |names| {
      var line, rest := FlagLine(names[k], flags[k - 2]), FlagLines(names, flags, k + 1);
      var next := vals[k := flags[k - 2]];
      FlagLineEffect(names, vals, k, flags[k - 2]);
      FlagLinesEffect(names, next, flags, k + 1);
      OneMoreFlag(vals, flags, k);
      Chain(names, vals, next, vals[..k] + flags[k - 2..], line, rest);
    } else {
      assert vals[..k] + flags[k - 2..] == vals;
    }
  }

  lemma FrontEffect(h: Header)
    requires WellFormed(h)
    ensures WholeLines(Front(h)) && NoMark(Front(h))
    ensures Absorb(h.names, seq(|h.names|, _ => 0), Front(h)) == Blank(h)
  {
    var names, zero := h.names, seq(|h.names|, _ => 0);
    var v1 := zero[0 := h.family];
    var v2 := v1[1 := h.model];
    assert v2 == Blank(h);
    var l1, l2, l3 := HexLine(names[0], h.family), HexLine(names[1], h.model), HexLine("AMD Processor Stepping", h.stepping);
    OtherHexLine(names, v2, "AMD Processor Stepping", h.stepping);
    HexLineEffect(names, v1, 1, h.model);
    Chain(names, v1, v2, v2, l2, l3);
    HexLineEffect(names, zero, 0, h.family);
    Chain(names, zero, v1, v2, l1, l2 + l3);
    PlainLine(names, zero, h.title);
    Chain(names, zero, zero, v2, h.title + "\n", l1 + (l2 + l3));
  }

  lemma OtherHexLine(names: seq<string>, vals: seq<nat>, name: string, n: nat)
    requires |vals| == |names| && GoodNames(names) && Plain(name) && name !in names && |name| < 200
    requires n < 0x1_0000_0000
    ensures var l := HexLine(name, n); WholeLines(l) && NoMark(l) && Absorb(names, vals, l) == vals
  {
    HexValue(n);
    WantedFits(name, " 0x" + Hex(n));
    OtherLine(names, vals, name, " 0x" + Hex(n));
  }

  /** The lines that the decoder does not ask for can be read back as well: the stepping and, as 1, the
      version of the sample structure. */
  lemma OtherLabelsReadBack(h: Header)
    requires WellFormed(h)
    ensures Absorb(["AMD Processor Stepping"], [0], Front(h)) == [h.stepping]
    ensures Absorb([h.version], [0], Line(h.version, " 1")) == [1]
  {
    var step, first := ["AMD Processor Stepping"], 0;
    SteppingIsGood(step);
    var l1, l2, l3 := HexLine(h.names[0], h.family), HexLine(h.names[1], h.model), HexLine(step[first], h.stepping);
    HexLineEffect(step, [0], first, h.stepping);
    OtherHexLine(step, [0], h.names[1], h.model);
    Chain(step, [0], [0], [h.stepping], l2, l3);
    OtherHexLine(step, [0], h.names[0], h.family);
    Chain(step, [0], [0], [h.stepping], l1, l2 + l3);
    PlainLine(step, [0], h.title);
    Chain(step, [0], [0], [h.stepping], h.title + "\n", l1 + (l2 + l3));
    VersionReads([h.version], first);
  }

  lemma SteppingIsGood(step: seq<string>)
    requires step == ["AMD Processor Stepping"]
    ensures GoodNames(step) && |step[0]| < 200
  {}

  lemma VersionReads(names: seq<string>, i: nat)
    requires |names| == 1 && i == 0 && Plain(names[i]) && |names[i]| < 200
    ensures Absorb(names, [0], Line(names[i], " 1")) == [1]
  {
    var one := 1;
    assert FlagLine(names[i], one) == Line(names[i], " 1");
    FlagLineEffect(names, [0], i, one);
  }

  lemma BackEffect(h: Header, vals: seq<nat>)
    requires WellFormed(h) && |vals| == |h.names|
    ensures WholeLines(Back(h)) && NoMark(Back(h)) && Back(h) != ""
    ensures Absorb(h.names, vals, Back(h)) == vals[..2] + h.flags
  {
    var names := h.names;
    var l, f := Line(h.version, " 1"), FlagLines(names, h.flags, 2);
    WantedFits(h.version, " 1");
    OtherLine(names, vals, h.version, " 1");
    AbsorbAppend(names, vals, l, f + "\n");
    FlagLinesEffect(names, vals, h.flags, 2);
    AbsorbAppend(names, vals, f, "\n");
    PlainLine(names, vals[..2] + h.flags, "");
    assert "" + "\n" == "\n";
  }

  lemma MarkEnds(names: seq<string>, vals: seq<nat>, data: string)
    requires |vals| == |names|
    ensures Parse(names, vals, Mark(MARK_LENGTH) + "\n" + data) == (vals, data)
  {
    var line := Mark(MARK_LENGTH) + "\n";
    PieceOfLine(Mark(MARK_LENGTH));
    PieceOfPrefix(line, data);
    assert IsMark(line);
    assert "" + data == data;
  }

  /** The mark is a line of 45 equal signs; a shorter one is not. */
  lemma MarkLength(n: nat)
    ensures IsMark(Mark(n) + "\n") <==> n >= 45
    ensures MARK_LENGTH == 45
  {
    var line := Mark(n) + "\n";
    if n < 45 { assert line[n] == '\n'; }
  }

  lemma Regrouped(h: Header, data: string)
    requires Known(h)
    ensures Print(h) + data == Front(h) + (h.free + (Back(h) + (Mark(MARK_LENGTH) + "\n" + data)))
  {}

  /** Printing and parsing are inverse exactly when the free text is harmless: the decoder then gets
      the printed family, model and flags, and stops at the first byte of sample data. */
  lemma HeaderRoundTrip(h: Header, data: string)
    requires WellFormed(h)
    ensures Parse(h.names, seq(|h.names|, _ => 0), Print(h) + data) == (Values(h), data) <==> Harmless(h)
  {
    var names, zero := h.names, seq(|h.names|, _ => 0);
    var tail := Mark(MARK_LENGTH) + "\n" + data;
    HarmlessText(h);
    Regrouped(h, data);
    FrontEffect(h);
    ParsePrefix(names, zero, Front(h), h.free + (Back(h) + tail));
    ParsePrefix(names, Blank(h), h.free, Back(h) + tail);
    if NoMark(h.free) {
      var v := Absorb(names, Blank(h), h.free);
      BackEffect(h, v);
      ParsePrefix(names, v, Back(h), tail);
      MarkEnds(names, v[..2] + h.flags, data);
      SameFront(v, h);
    }
  }

  lemma SameFront(v: seq<nat>, h: Header)
    requires |v| >= 2
    ensures v[..2] + h.flags == Values(h) <==> v[..2] == [h.family, h.model]
  {
    if v[..2] + h.flags == Values(h) {
      assert (v[..2] + h.flags)[..2] == v[..2];
      assert Values(h)[..2] == [h.family, h.model];
    }
  }

  // ----- when the free text is harmless

  predicate OrdinaryLine(names: seq<string>, line: (string, string)) {
    Plain(line.0) && line.0 !in names && FitsOnePiece(line.0 + (":" + (" " + line.1)))
  }

  /** Labelled lines without newlines that each fit one fgets buffer change nothing at all. */
  lemma {:induction false} OrdinaryTextIsInert(names: seq<string>, vals: seq<nat>, lines: seq<(string, string)>)
    requires |vals| == |names| && GoodNames(names)
    requires forall i :: 0 <= i < |lines| ==> OrdinaryLine(names, lines[i])
    ensures WholeLines(FreeText(lines)) && NoMark(FreeText(lines)) && Absorb(names, vals, FreeText(lines)) == vals
  {
    if lines != [] {
      var l := Line(lines[0].0, " " + lines[0].1);
      OtherLine(names, vals, lines[0].0, " " + lines[0].1);
      OrdinaryTextIsInert(names, vals, lines[1..]);
      AbsorbAppend(names, vals, l, FreeText(lines[1..]));
    }
  }

  lemma OrdinaryHeaderRoundTrip(h: Header, lines: seq<(string, string)>, data: string)
    requires WellFormed(h) && h.free == FreeText(lines)
    requires forall i :: 0 <= i < |lines| ==> OrdinaryLine(h.names, lines[i])
    ensures Parse(h.names, seq(|h.names|, _ => 0), Print(h) + data) == (Values(h), data)
  {
    OrdinaryTextIsInert(h.names, Blank(h), lines);
    HarmlessText(h);
    HeaderRoundTrip(h, data);
  }

  /** The value text of a family line with another number, then `tail`: what follows in the argument or
      the next arguments, or the space that ends the command line. */
  function Injected(name: string, other: nat, tail: string): string { name + (":" + (" 0x" + Hex(other) + tail)) }

  /** A newline in one of the free-text lines, say in the command line, can put a second family line
      into the header, whatever ordinary lines stand before and after it; it comes later than the
      printed family and wins. */
  lemma NewlineOverridesFamily(h: Header, before: seq<(string, string)>, name: string, text: string, other: nat,
                               tail: string, after: seq<(string, string)>)
    requires WellFormed(h) && other < 0x1_0000_0000 && other != h.family
    requires Plain(name) && name !in h.names && FitsOnePiece(name + (":" + text))
    requires ':' !in tail && FitsOnePiece(Injected(h.names[0], other, tail)) && (tail != "" ==> DigitValue(tail[0]) >= 16)
    requires forall i :: 0 <= i < |before| ==> OrdinaryLine(h.names, before[i])
    requires forall i :: 0 <= i < |after| ==> OrdinaryLine(h.names, after[i])
    requires h.free == FreeText(before) + (Line(name, text + "\n" + Injected(h.names[0], other, tail)) + FreeText(after))
    ensures !Harmless(h)
  {
    var names, was := h.names, Blank(h);
    var now := was[0 := other];
    var first, second := Line(name, text), Injected(names[0], other, tail) + "\n";
    TwoLines(name, text, Injected(names[0], other, tail));
    OrdinaryTextIsInert(names, was, before);
    OtherLine(names, was, name, text);
    InjectedLine(names, was, other, tail);
    OrdinaryTextIsInert(names, now, after);
    Chain(names, was, was, now, first, second);
    Chain(names, was, now, now, first + second, FreeText(after));
    Chain(names, was, was, now, FreeText(before), first + second + FreeText(after));
    HarmlessText(h);
    assert now[..2][0] == other;
  }

  lemma InjectedLine(names: seq<string>, vals: seq<nat>, other: nat, tail: string)
    requires |vals| == |names| && GoodNames(names) && |names| > 0 && other < 0x1_0000_0000
    requires ':' !in tail && FitsOnePiece(Injected(names[0], other, tail)) && (tail != "" ==> DigitValue(tail[0]) >= 16)
    ensures var text := Injected(names[0], other, tail) + "\n";
      NoMark(text) && Absorb(names, vals, text) == vals[0 := other] && WholeLines(text)
  {
    InjectedValue(other, tail);
    var family, value := 0, " 0x" + Hex(other) + tail;
    ValueLineEffect(names, vals, family, value);
    FitsWord(Strtoul(value + "\n"), other);
    EndsInNewline(Injected(names[0], other, tail));
    assert Line(names[0], value) == Injected(names[0], other, tail) + "\n";
  }

  lemma EndsInNewline(text: string)
    ensures WholeLines(text + "\n")
  {}

  lemma InjectedValue(other: nat, tail: string)
    requires other < 0x1_0000_0000 && ':' !in tail && (tail != "" ==> DigitValue(tail[0]) >= 16)
    ensures var value := " 0x" + Hex(other) + tail; ':' !in value && Strtoul(value + "\n") == other
  {
    HexCharacters(other);
    StrtoulHex(other, tail + "\n");
    assert (" 0x" + Hex(other) + tail) + "\n" == " 0x" + Hex(other) + (tail + "\n");
  }

  lemma TwoLines(name: string, text: string, more: string)
    ensures Line(name, text + "\n" + more) == Line(name, text) + (more + "\n")
  {}

  // ----- the two headers

  function OpNames(): seq<string> {
    ["AMD Processor Family", "AMD Processor Model", "IbsOpBrnResync", "IbsOpMispReturn", "BrnTrgt", "OpCntExt",
     "RipInvalidChk", "OpBrnFuse", "IbsOpData4", "Microcode", "IBSOpData2_4_5", "IbsDcLdBnkCon",
     "IbsDcStBnkCon", "IbsDcStToLdFwd", "IbsDcStToLdCan", "IbsData3_20_31_48_63"]
  }

  function FetchNames(): seq<string> {
    ["AMD Processor Family", "AMD Processor Model", "IbsFetchCtlExtd"]
  }

  function One(b: bool): nat { if b then 1 else 0 }

  /** A bit of CPUID function 8000_001B. */
  function IdBit(id: nat, k: nat): (b: nat)
    requires k <= 10
    ensures b <= 1
  {
    (id / [1, 2, 4, 8, 16, 32, 64, 128, 256, 512, 1024][k]) % 2
  }

  /** The flags that output_op_header derives from family, model and CPUID. */
  function OpFlags(fam: nat, model: nat, id: nat): (flags: seq<nat>)
    ensures |flags| == 14 && forall i :: 0 <= i < 14 ==> flags[i] <= 1
  {
    var early := fam == 0x10 || fam == 0x12 || fam == 0x14 || (fam == 0x15 && model < 0x10);
    var banks := fam <= 0x12 || (fam == 0x15 && model < 0x10);
    [One(early), One(early), IdBit(id, 5), IdBit(id, 6), IdBit(id, 7), IdBit(id, 8), IdBit(id, 10),
     One((fam == 0x15 && model >= 0x60) || fam == 0x17),
     One(!(fam == 0x14 || fam == 0x16)),
     One(banks), One(fam <= 0x12), One(banks || fam == 0x14 || fam == 0x16), One(banks),
     One(fam >= 0x16 || (fam == 0x15 && model >= 0x30))]
  }

  /** The processor generations with IBS. */
  datatype Generation = Gen10h | Gen12h | Gen14h | Gen15h00 | Gen15h10 | Gen15h30 | Gen15h60 | Gen16h | Gen17h

  predicate IsGeneration(g: Generation, fam: nat, model: nat) {
    match g
    case Gen10h => fam == 0x10
    case Gen12h => fam == 0x12
    case Gen14h => fam == 0x14
    case Gen15h00 => fam == 0x15 && model < 0x10
    case Gen15h10 => fam == 0x15 && 0x10 <= model < 0x30
    case Gen15h30 => fam == 0x15 && 0x30 <= model < 0x60
    case Gen15h60 => fam == 0x15 && 0x60 <= model
    case Gen16h => fam == 0x16
    case Gen17h => fam == 0x17
  }

  /** Their features: IbsOpBrnResync, IbsOpMispReturn, microcode bit, IbsOpData2 bits 4 and 5, load and
      store bank conflicts, store-to-load forwarding and its cancelling, the late IbsOpData3 bits. */
  function FeaturesOf(g: Generation): seq<nat> {
    match g
    case Gen10h => [1, 1, 0, 1, 1, 1, 1, 1, 0]
    case Gen12h => [1, 1, 0, 1, 1, 1, 1, 1, 0]
    case Gen14h => [1, 1, 0, 0, 0, 0, 1, 0, 0]
    case Gen15h00 => [1, 1, 0, 1, 1, 0, 1, 1, 0]
    case Gen15h10 => [0, 0, 0, 1, 0, 0, 0, 0, 0]
    case Gen15h30 => [0, 0, 0, 1, 0, 0, 0, 0, 1]
    case Gen15h60 => [0, 0, 1, 1, 0, 0, 0, 0, 1]
    case Gen16h => [0, 0, 0, 0, 0, 0, 1, 0, 1]
    case Gen17h => [0, 0, 1, 1, 0, 0, 0, 0, 1]
  }

  /** What the printed flags mean: the features of the generation, and bits 5, 6, 7, 8 and 10 of CPUID
      function 8000_001B. */
  lemma OpFlagsMeaning(g: Generation, fam: nat, model: nat, id: nat)
    requires IsGeneration(g, fam, model)
    ensures var f, w := OpFlags(fam, model, id), FeaturesOf(g);
      && f[0] == w[0] && f[1] == w[1] && f[7] == w[2] && f[8] == w[3] && f[9] == w[4]
      && f[10] == w[5] && f[11] == w[6] && f[12] == w[7] && f[13] == w[8]
      && f[2] == id / 32 % 2 && f[3] == id / 64 % 2 && f[4] == id / 128 % 2 && f[5] == id / 256 % 2
      && f[6] == id / 1024 % 2
    ensures FetchHeader(fam, model, 0, id, "").flags == [id / 512 % 2]
  {}

  function OpHeader(fam: nat, model: nat, stepping: nat, id: nat, free: string): Header {
    Header("IBS Op Sample File", OpNames(), fam, model, stepping, free, "IBS Op Structure Version", OpFlags(fam, model, id))
  }

  function FetchHeader(fam: nat, model: nat, stepping: nat, id: nat, free: string): Header {
    Header("IBS Fetch Sample File", FetchNames(), fam, model, stepping, free, "IBS Fetch Structure Version", [IdBit(id, 9)])
  }

  function OpNameLengths(): seq<nat> {
    [20, 19, 14, 15, 7, 8, 13, 9, 10, 9, 14, 13, 13, 14, 14, 20]
  }

  lemma OpNamesPlain1()
    ensures forall i :: 0 <= i < 4 ==> Plain(OpNames()[i])
  {}

  lemma OpNamesPlain2()
    ensures forall i :: 4 <= i < 8 ==> Plain(OpNames()[i])
  {}

  lemma OpNamesPlain3()
    ensures forall i :: 8 <= i < 12 ==> Plain(OpNames()[i])
  {}

  lemma OpNamesPlain4()
    ensures forall i :: 12 <= i < 16 ==> Plain(OpNames()[i])
  {}

  lemma OpNamesLengths()
    ensures forall i :: 0 <= i < 16 ==> |OpNames()[i]| == OpNameLengths()[i]
  {}

  lemma OpNamesDiffer()
    ensures forall i, j :: 0 <= i < j < 16 ==> OpNames()[i] != OpNames()[j]
  {
    OpNamesLengths();
    var n := OpNames();
    assert n[0][0] != n[15][0] && n[7][0] != n[9][0];
    assert n[6][5] == 'v' && n[11][5] == 'L' && n[12][5] == 'S';
    assert n[2][11] == 'y' && n[10][11] == '4' && n[13][11] == 'F' && n[14][11] == 'C';
  }

  lemma LongIsNoOpName(x: string)
    requires |x| > 20
    ensures x !in OpNames()
  {
    OpNamesLengths();
    assert forall i :: 0 <= i < 16 ==> OpNameLengths()[i] <= 20;
  }

  lemma OpNamesFit()
    ensures NamesFit(OpNames())
  {
    OpNamesPlain1(); OpNamesPlain2(); OpNamesPlain3(); OpNamesPlain4();
    OpNamesLengths();
    OpNamesDiffer();
  }

  lemma OpLabelsFit()
    ensures LabelsFit(OpNames(), "IBS Op Structure Version")
  {
    LongIsNoOpName("AMD Processor Stepping");
    LongIsNoOpName("IBS Op Structure Version");
  }

  lemma FetchNamesPlain()
    ensures Plain(FetchNames()[0]) && Plain(FetchNames()[1])
  {}

  lemma FetchFlagPlain()
    ensures Plain(FetchNames()[2])
  {}

  lemma FetchNamesLengths()
    ensures var n := FetchNames(); |n| == 3 && |n[0]| == 20 && |n[1]| == 19 && |n[2]| == 15
  {}

  lemma FetchNamesFit()
    ensures NamesFit(FetchNames())
  {
    FetchNamesPlain();
    FetchFlagPlain();
    FetchNamesLengths();
  }

  lemma FetchLabelsFit()
    ensures LabelsFit(FetchNames(), "IBS Fetch Structure Version")
  {
    var n := FetchNames();
    assert |n[0]| == 20 && |n[1]| == 19 && |n[2]| == 15;
    assert |"AMD Processor Stepping"| == 22 && |"IBS Fetch Structure Version"| == 27;
  }

  lemma TitlesFit()
    ensures TitleFits("IBS Op Sample File") && TitleFits("IBS Fetch Sample File")
  {}

  /** Both headers meet what the round trip asks of them, for every family, model and feature set. */
  lemma HeadersWellFormed(fam: nat, model: nat, stepping: nat, id: nat, free: string)
    requires fam < 0x1_0000_0000 && model < 0x1_0000_0000 && stepping < 0x1_0000_0000 && WholeLines(free)
    ensures WellFormed(OpHeader(fam, model, stepping, id, free))
    ensures WellFormed(FetchHeader(fam, model, stepping, id, free))
  {
    OpNamesFit();
    OpLabelsFit();
    FetchNamesFit();
    FetchLabelsFit();
    TitlesFit();
  }
}
