/** The annotator tools/ibs_run_and_annotate: cutting a CSV file into byte ranges for parallel workers,
    and finding the library that an instruction pointer belongs to. */
module Annotate {
  import opened Arith

  const CHUNK_ROWS := 0x4000

  // ----- lines of a text file

  function LineEnd(text: string): (n: nat)
    requires text != ""
    ensures 0 < n <= |text|
  {
    if text[0] == '\n' || |text| == 1 then 1 else 1 + LineEnd(text[1..])
  }

  /** The lines that Python's file iteration yields, newlines included. */
  function Lines(text: string): seq<string> {
    if text == "" then [] else [text[..LineEnd(text)]] + Lines(text[LineEnd(text)..])
  }

  function Join(rows: seq<string>): string {
    if rows == [] then "" else rows[0] + Join(rows[1..])
  }

  /** A row as it occurs in a file: one newline, at its end; only a last row may lack it. */
  predicate Row(r: string) {
    r != "" && forall i :: 0 <= i < |r| - 1 ==> r[i] != '\n'
  }

  predicate Closed(r: string) { r != "" && r[|r| - 1] == '\n' }

  predicate Rows(rows: seq<string>) {
    && (forall i :: 0 <= i < |rows| ==> Row(rows[i]))
    && (forall i :: 0 <= i < |rows| - 1 ==> Closed(rows[i]))
  }

  lemma {:induction false} LineEndOfRow(r: string, rest: string)
    requires Row(r) && (Closed(r) || rest == "")
    ensures LineEnd(r + rest) == |r|
  {
    if |r| > 1 {
      assert (r + rest)[1..] == r[1..] + rest;
      LineEndOfRow(r[1..], rest);
    } else {
      assert (r + rest)[0] == r[0];
    }
  }

  lemma {:induction false} LinesOfJoin(rows: seq<string>)
    requires Rows(rows)
    ensures Lines(Join(rows)) == rows
  {
    if rows != [] {
      var rest := Join(rows[1..]);
      if |rows| == 1 { assert rows[1..] == []; }
      LineEndOfRow(rows[0], rest);
      assert Join(rows) == rows[0] + rest;
      assert (rows[0] + rest)[..|rows[0]|] == rows[0] && (rows[0] + rest)[|rows[0]|..] == rest;
      LinesOfJoin(rows[1..]);
      assert [rows[0]] + rows[1..] == rows;
    }
  }

  lemma {:induction false} FirstLine(text: string)
    requires text != ""
    ensures Row(text[..LineEnd(text)])
    ensures LineEnd(text) < |text| ==> Closed(text[..LineEnd(text)])
  {
    if text[0] != '\n' && |text| > 1 {
      FirstLine(text[1..]);
      var n := LineEnd(text[1..]);
      assert text[..n + 1] == [text[0]] + text[1..][..n];
    }
  }

  lemma OneMoreRow(first: string, rest: seq<string>)
    requires Row(first) && (rest == [] || Closed(first)) && Rows(rest)
    ensures Rows([first] + rest) && Join([first] + rest) == first + Join(rest)
  {
    var all := [first] + rest;
    assert all[1..] == rest;
    forall i | 0 <= i < |all| ensures Row(all[i]) && (i < |all| - 1 ==> Closed(all[i])) {
      if i > 0 { assert all[i] == rest[i - 1]; }
    }
  }

  lemma {:induction false} LinesAreRows(text: string)
    ensures Rows(Lines(text)) && Join(Lines(text)) == text
  {
    if text != "" {
      var n := LineEnd(text);
      var first, rest := text[..n], Lines(text[n..]);
      FirstLine(text);
      LinesAreRows(text[n..]);
      assert n == |text| ==> text[n..] == "";
      OneMoreRow(first, rest);
      assert Lines(text) == [first] + rest && first + text[n..] == text;
    }
  }

  lemma {:induction false} JoinAppend(a: seq<string>, b: seq<string>)
    ensures Join(a + b) == Join(a) + Join(b)
  {
    if a == [] {
      assert a + b == b;
    } else {
      JoinAppend(a[1..], b);
      assert (a + b)[1..] == a[1..] + b;
      Regroup(a[0], Join(a[1..]), Join(b));
    }
  }

  /** Byte offset of row `k`. */
  function Offset(rows: seq<string>, k: nat): nat
    requires k <= |rows|
  {
    |Join(rows[..k])|
  }

  /** The bytes between two row offsets are those rows. */
  lemma RangeIsRows(rows: seq<string>, a: nat, b: nat)
    requires Rows(rows) && a <= b <= |rows|
    ensures Offset(rows, a) <= Offset(rows, b) <= |Join(rows)|
    ensures Join(rows)[Offset(rows, a)..Offset(rows, b)] == Join(rows[a..b])
    ensures Lines(Join(rows[a..b])) == rows[a..b]
  {
    assert rows[..b] == rows[..a] + rows[a..b] && rows == rows[..b] + rows[b..];
    JoinAppend(rows[..a], rows[a..b]);
    JoinAppend(rows[..b], rows[b..]);
    var t := Join(rows);
    assert t == Join(rows[..a]) + Join(rows[a..b]) + Join(rows[b..]);
    LinesOfJoin(rows[a..b]);
  }

  // ----- the worker

  /** The row loop of inst_lookup: lines are taken while they end by `end`. */
  method TakeRows(lines: seq<string>, start: nat, end: nat, ghost all: seq<string>, ghost a: nat, ghost b: nat)
    returns (visited: seq<string>)
    requires Rows(all) && a <= b <= |all| && lines == all[a..]
    requires start == Offset(all, a) && end == Offset(all, b)
    ensures visited == all[a..b]
  {
    visited := [];
    var total, i := 0, 0;
    while i < |lines|
      invariant 0 <= i <= b - a && i <= |lines|
      invariant visited == lines[..i] && start + total == Offset(all, a + i)
    {
      OffsetStep(all, a + i);
      OffsetsGrow(all, a + i + 1, b);
      total := total + |lines[i]|;
      if start + total > end { break; }
      visited := visited + [lines[i]];
      i := i + 1;
    }
    assert lines[..b - a] == all[a..b];
  }

  /** A worker: seek to `start`, then the row loop. */
  method Visit(text: string, start: nat, end: nat, ghost a: nat, ghost b: nat) returns (visited: seq<string>)
    requires var rows := Lines(text);
      a <= b <= |rows| && start == Offset(rows, a) && end == Offset(rows, b) && start <= |text|
    ensures visited == Lines(text)[a..b]
  {
    TailLines(text, a);
    visited := TakeRows(Lines(text[start..]), start, end, Lines(text), a, b);
  }

  lemma {:induction false} OffsetsGrow(rows: seq<string>, a: nat, b: nat)
    requires Rows(rows) && a <= |rows| && b <= |rows|
    ensures a <= b ==> Offset(rows, a) <= Offset(rows, b)
    ensures a > b ==> Offset(rows, a) > Offset(rows, b)
    decreases if a <= b then b - a else a - b
  {
    if a < b { OffsetStep(rows, b - 1); OffsetsGrow(rows, a, b - 1); }
    if a > b { OffsetStep(rows, a - 1); OffsetsGrow(rows, a - 1, b); }
  }

  lemma TailLines(text: string, a: nat)
    requires a <= |Lines(text)|
    ensures Rows(Lines(text)) && Offset(Lines(text), a) <= |text|
    ensures Lines(text[Offset(Lines(text), a)..]) == Lines(text)[a..]
  {
    var all := Lines(text);
    LinesAreRows(text);
    RangeIsRows(all, a, |all|);
    assert all[..|all|] == all && all[a..|all|] == all[a..];
    assert text[Offset(all, a)..|text|] == text[Offset(all, a)..];
  }

  lemma OffsetStep(rows: seq<string>, k: nat)
    requires Rows(rows) && k < |rows|
    ensures Offset(rows, k + 1) == Offset(rows, k) + |rows[k]|
  {
    assert rows[..k + 1] == rows[..k] + [rows[k]];
    JoinAppend(rows[..k], [rows[k]]);
    assert Join([rows[k]]) == rows[k] + Join([rows[k]][1..]);
  }

  // ----- the generator

  /** Row number at which chunk `j` starts. */
  function Cut(j: nat, n: nat): nat { Min(j * 0x4000, n) }

  /** The byte range of chunk `j`. */
  function Chunk(rows: seq<string>, j: nat): (nat, nat) {
    (Offset(rows, Cut(j, |rows|)), Offset(rows, Cut(j + 1, |rows|)))
  }

  lemma ChunkEnds(rows: seq<string>, j: nat, i: nat)
    requires j * CHUNK_ROWS <= i <= |rows|
    requires i == (j + 1) * CHUNK_ROWS || (i == |rows| && i <= (j + 1) * CHUNK_ROWS)
    ensures Chunk(rows, j) == (Offset(rows, j * CHUNK_ROWS), Offset(rows, i))
  {}

  /** dump_csv: byte ranges of 0x4000 rows each, the last one possibly shorter. */
  method DumpCsv(text: string) returns (chunks: seq<(nat, nat)>)
    ensures var rows := Lines(text);
      && Cut(|chunks|, |rows|) == |rows| && (chunks != [] ==> (|chunks| - 1) * CHUNK_ROWS < |rows|)
      && forall j: nat :: j < |chunks| ==> chunks[j] == Chunk(rows, j)
  {
    var rows := Lines(text);
    LinesAreRows(text);
    chunks := [];
    var rowCount, start, end := 0, 0, 0;
    for i := 0 to |rows|
      invariant 0 <= rowCount < CHUNK_ROWS && |chunks| * CHUNK_ROWS == i - rowCount
      invariant start == Offset(rows, |chunks| * CHUNK_ROWS) && end == Offset(rows, i)
      invariant forall j: nat :: j < |chunks| ==> chunks[j] == Chunk(rows, j)
    {
      OffsetStep(rows, i);
      end := end + |rows[i]|;
      rowCount := rowCount + 1;
      if rowCount % CHUNK_ROWS == 0 {
        ChunkEnds(rows, |chunks|, i + 1);
        chunks := chunks + [(start, end)];
        start, rowCount := end, 0;
      }
    }
    if rowCount != 0 {
      ChunkEnds(rows, |chunks|, |rows|);
      chunks := chunks + [(start, end)];
    }
  }

  /** The workers' visits put together: every line of the file, exactly once and in file order. */
  method VisitAll(text: string) returns (visited: seq<string>)
    ensures visited == Lines(text)
  {
    var chunks := DumpCsv(text);
    ghost var rows := Lines(text);
    visited := [];
    for j := 0 to |chunks|
      invariant visited == rows[..Cut(j, |rows|)]
    {
      TailLines(text, Cut(j, |rows|));
      var more := Visit(text, chunks[j].0, chunks[j].1, Cut(j, |rows|), Cut(j + 1, |rows|));
      visited := visited + more;
    }
  }

  // ----- finding the library of an instruction pointer

  datatype Lib = Lib(base: int, size: int)

  datatype Place = InProgram | InLibrary(index: nat) | Nowhere

  predicate SortedByBase(libs: seq<Lib>) {
    forall i, j :: 0 <= i < j < |libs| ==> libs[i].base <= libs[j].base
  }

  predicate Disjoint(libs: seq<Lib>) {
    forall i, j :: 0 <= i < j < |libs| ==> libs[i].base + libs[i].size <= libs[j].base
  }

  predicate Contains(l: Lib, rip: int) { l.base <= rip < l.base + l.size }

  /** Python's bisect: the number of bases not above `rip`. */
  method Bisect(libs: seq<Lib>, rip: int) returns (lo: nat)
    requires SortedByBase(libs)
    ensures lo <= |libs|
    ensures forall i :: 0 <= i < lo ==> libs[i].base <= rip
    ensures forall i :: lo <= i < |libs| ==> rip < libs[i].base
  {
    lo := 0;
    var hi := |libs|;
    while lo < hi
      invariant lo <= hi <= |libs|
      invariant forall i :: 0 <= i < lo ==> libs[i].base <= rip
      invariant forall i :: hi <= i < |libs| ==> rip < libs[i].base
    {
      var mid := (lo + hi) / 2;
      if rip < libs[mid].base { hi := mid; } else { lo := mid + 1; }
    }
  }

  /** The lookup of inst_lookup. On sorted, non-overlapping libraries it names the library that
      contains the address, if there is one, and takes the address for the program's own exactly when
      it lies below every library. */
  method FindPlace(libs: seq<Lib>, rip: int) returns (p: Place)
    requires SortedByBase(libs) && Disjoint(libs)
    ensures p.InLibrary? ==> p.index < |libs| && Contains(libs[p.index], rip)
    ensures forall i :: 0 <= i < |libs| && Contains(libs[i], rip) ==> p == InLibrary(i)
    ensures p.InProgram? <==> forall i :: 0 <= i < |libs| ==> rip < libs[i].base
  {
    var n := Bisect(libs, rip);
    if n == 0 { return InProgram; }
    if rip < libs[n - 1].base + libs[n - 1].size { return InLibrary(n - 1); }
    return Nowhere;
  }
}
