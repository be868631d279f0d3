// Terminal cells: the width of text, and clipping it to a window of cells.
module Cells {
  import opened Common

  predicate Printable(c: char) {
    ' ' <= c <= '~'
  }

  // Cells per character as the Unicode tables give them: 0 for marks, 2 for wide characters.
  // Only the values of printable ASCII are fixed.
  type Widths = w: char -> int | (forall c :: 0 <= w(c) <= 2) && (forall c :: Printable(c) ==> w(c) == 1)
    witness ((c: char) => 1)

  // text.isascii() and text.isprintable()
  predicate IsAscii(text: string) {
    forall i :: 0 <= i < |text| ==> Printable(text[i])
  }

  predicate TabFree(text: string) {
    forall i :: 0 <= i < |text| ==> text[i] != '\t'
  }

  // A tab is padding to the next multiple of eight.
  function CellWidth(w: Widths, text: string): (cells: nat) {
    if text == "" then 0
    else
      var before := CellWidth(w, text[..|text| - 1]);
      var c := text[|text| - 1];
      before + if c == '\t' then 8 - before % 8 else w(c)
  }

  lemma {:induction false} AsciiWidth(w: Widths, text: string)
    requires IsAscii(text)
    ensures CellWidth(w, text) == |text|
  {
    if text != "" {
      AsciiWidth(w, text[..|text| - 1]);
      assert Printable(text[|text| - 1]);
    }
  }

  // A tab goes on to the next multiple of eight cells, and any other character adds its own cells.
  lemma WidthOfNext(w: Widths, text: string, c: char)
    ensures CellWidth(w, "") == 0
    ensures c != '\t' ==> CellWidth(w, text + [c]) == CellWidth(w, text) + w(c)
    ensures c == '\t' ==>
      CellWidth(w, text + [c]) % 8 == 0 && CellWidth(w, text) < CellWidth(w, text + [c]) <= CellWidth(w, text) + 8
  {
    assert (text + [c])[..|text|] == text;
  }

  // The fast path for printable ASCII and the loop measure the same.
  method MeasureCellWidth(w: Widths, text: string) returns (width: nat)
    ensures width == CellWidth(w, text)
  {
    if IsAscii(text) {
      AsciiWidth(w, text);
      return |text|;
    }
    width := 0;
    for n := 0 to |text|
      invariant width == CellWidth(w, text[..n])
    {
      var c := text[n];
      assert text[..n + 1][..n] == text[..n];
      if Printable(c) {
        width := width + 1;
      } else if c == '\t' {
        width := width + (8 - width % 8);
      } else {
        width := width + w(c);
      }
    }
    assert text[..|text|] == text;
  }

  // text.expandtabs(8): columns count characters and restart after a line break.
  function Expanded(text: string): string {
    ExpandFrom(text, 0)
  }

  function ExpandFrom(text: string, column: nat): string {
    if text == "" then ""
    else if text[0] == '\t' then Spaces(8 - column % 8) + ExpandFrom(text[1..], column + (8 - column % 8))
    else if text[0] == '\n' || text[0] == '\r' then [text[0]] + ExpandFrom(text[1..], 0)
    else [text[0]] + ExpandFrom(text[1..], column + 1)
  }

  function Spaces(n: int): (spaces: string)
    ensures |spaces| == (if n <= 0 then 0 else n) && forall i :: 0 <= i < |spaces| ==> spaces[i] == ' '
  {
    seq(Max(0, n), i => ' ')
  }

  // The column at the end of a tab-free text that begins in `column`.
  function EndColumn(text: string, column: nat): nat {
    if text == "" then column
    else if text[|text| - 1] == '\n' || text[|text| - 1] == '\r' then 0
    else EndColumn(text[..|text| - 1], column) + 1
  }

  lemma {:induction false} EndColumnAppend(a: string, b: string, column: nat)
    ensures EndColumn(a + b, column) == EndColumn(b, EndColumn(a, column))
  {
    if b == "" {
      assert a + b == a;
    } else {
      assert (a + b)[..|a + b| - 1] == a + b[..|b| - 1];
      EndColumnAppend(a, b[..|b| - 1], column);
    }
  }

  lemma {:induction false} EndColumnOfSpaces(n: nat, column: nat)
    ensures EndColumn(Spaces(n), column) == column + n
  {
    if n > 0 {
      assert Spaces(n)[..n - 1] == Spaces(n - 1);
      EndColumnOfSpaces(n - 1, column);
    }
  }

  function ExpandedNext(column: nat, c: char): string {
    if c == '\t' then Spaces(8 - column % 8) else [c]
  }

  lemma ExpandHead(text: string, column: nat)
    requires text != ""
    ensures var piece := ExpandedNext(column, text[0]);
      ExpandFrom(text, column) == piece + ExpandFrom(text[1..], EndColumn(piece, column))
  {
    EndColumnOfSpaces(8 - column % 8, column);
    assert [text[0]][..0] == "";
  }

  lemma {:induction false} ExpandSnoc(text: string, c: char, column: nat)
    ensures ExpandFrom(text + [c], column)
         == ExpandFrom(text, column) + ExpandedNext(EndColumn(ExpandFrom(text, column), column), c)
  {
    ExpandHead(text + [c], column);
    if text == "" {
      assert text + [c] == [c];
      assert ExpandedNext(column, c) + "" == ExpandedNext(column, c) == "" + ExpandedNext(column, c);
    } else {
      var piece := ExpandedNext(column, text[0]);
      var next := EndColumn(piece, column);
      var rest := ExpandFrom(text[1..], next);
      ExpandHead(text, column);
      ExpandSnoc(text[1..], c, next);
      EndColumnAppend(piece, rest, column);
      assert (text + [c])[1..] == text[1..] + [c] && (text + [c])[0] == text[0];
      hide *;
      Assoc(piece, rest, ExpandedNext(EndColumn(rest, next), c));
    }
  }

  // A tab becomes the one to eight spaces that end in a column divisible by eight, counted in characters since the
  // last line break; any other character stays.
  lemma ExpandedSpelled(text: string, c: char)
    ensures Expanded("") == ""
    ensures c != '\t' ==> Expanded(text + [c]) == Expanded(text) + [c]
    ensures c == '\t' ==> exists n :: 1 <= n <= 8 && (EndColumn(Expanded(text), 0) + n) % 8 == 0
                                       && Expanded(text + [c]) == Expanded(text) + Spaces(n)
  {
    ExpandSnoc(text, c, 0);
    assert Expanded(text) == ExpandFrom(text, 0) && Expanded(text + [c]) == ExpandFrom(text + [c], 0);
    assert Expanded("") == "";
    var column := EndColumn(Expanded(text), 0);
    assert ExpandedNext(column, c) == if c == '\t' then Spaces(8 - column % 8) else [c];
    hide *;
    if c == '\t' {
      var n := 8 - column % 8;
      assert (column + n) % 8 == 0;
    }
  }

  lemma {:induction false} ExpandTabFree(text: string, column: nat)
    requires TabFree(text)
    ensures ExpandFrom(text, column) == text
  {
    if text != "" {
      ExpandTabFree(text[1..], if text[0] == '\n' || text[0] == '\r' then 0 else column + 1);
      assert text == [text[0]] + text[1..];
    }
  }

  // ----- What is on the screen -----

  datatype Part = Whole | Left | Right

  // One cell: the character that fills it (or half of it) and the marks stacked on that character.
  datatype Cell = Cell(base: char, marks: string, part: Part)

  const BLANK: Cell := Cell(' ', "", Whole)

  // A mark joins the character before it, in both its halves; with none before it, it shows nowhere.
  function AddMark(grid: seq<Cell>, mark: char): (r: seq<Cell>)
    ensures |r| == |grid|
  {
    var n := |grid|;
    seq(n, i requires 0 <= i < n =>
      if i == n - 1 || (i == n - 2 && grid[n - 1].part == Right) then Marked(grid[i], mark) else grid[i])
  }

  function Marked(cell: Cell, mark: char): Cell {
    cell.(marks := cell.marks + [mark])
  }

  function Put(w: Widths, grid: seq<Cell>, c: char): seq<Cell> {
    if w(c) == 0 then AddMark(grid, c) else grid + Drawing(w, c)
  }

  // The cells of a character that is not a mark.
  function Drawing(w: Widths, c: char): seq<Cell> {
    if w(c) == 1 then [Cell(c, "", Whole)] else [Cell(c, "", Left), Cell(c, "", Right)]
  }

  function Grid(w: Widths, text: string): seq<Cell> {
    if text == "" then [] else Put(w, Grid(w, text[..|text| - 1]), text[|text| - 1])
  }

  function Clamp(grid: seq<Cell>, at: int): nat {
    Max(0, Min(at, |grid|))
  }

  // The cells from `from` up to `to`; half a character at either edge becomes a space.
  function Window(grid: seq<Cell>, from: int, to: int): (r: seq<Cell>)
    requires from <= to
  {
    var lo, hi := Clamp(grid, from), Clamp(grid, to);
    seq(hi - lo, i requires 0 <= i < hi - lo => Shown(grid, lo, hi, lo + i))
  }

  function Shown(grid: seq<Cell>, lo: nat, hi: nat, at: nat): Cell
    requires lo <= at < hi <= |grid|
  {
    if (at == lo && grid[at].part == Right) || (at == hi - 1 && grid[at].part == Left) then BLANK else grid[at]
  }

  lemma {:induction false} GridIsWidth(w: Widths, text: string)
    requires TabFree(text)
    ensures |Grid(w, text)| == CellWidth(w, text)
  {
    if text != "" {
      GridIsWidth(w, text[..|text| - 1]);
    }
  }

  // ----- Clipping -----

  // State of the clipping loop.
  datatype Clip = Clip(out: string, position: int, included: bool, stopped: bool)

  function ClipStep(w: Widths, st: Clip, c: char, start: int, width: int): Clip {
    var amount := w(c);
    if st.stopped then st
    else if amount == 0 then if st.included then st.(out := st.out + [c]) else st
    else if st.position >= start + width then st.(stopped := true)
    else
      var included := st.position >= start && st.position + amount <= start + width;
      var piece :=
        if included then [c]
        else if st.position < start + width && st.position + amount > start then
          Spaces(Min(st.position + amount, start + width) - Max(st.position, start))
        else "";
      Clip(st.out + piece, st.position + amount, included, false)
  }

  function ClipAll(w: Widths, text: string, start: int, width: int): Clip {
    if text == "" then Clip("", 0, false, false)
    else ClipStep(w, ClipAll(w, text[..|text| - 1], start, width), text[|text| - 1], start, width)
  }

  lemma {:induction false} StoppedStays(w: Widths, text: string, more: string, start: int, width: int)
    requires ClipAll(w, text, start, width).stopped
    ensures ClipAll(w, text + more, start, width) == ClipAll(w, text, start, width)
  {
    if more == "" {
      assert text + more == text;
    } else {
      StoppedStays(w, text, more[..|more| - 1], start, width);
      assert (text + more)[..|text + more| - 1] == text + more[..|more| - 1];
    }
  }

  lemma ClipNothing(w: Widths, start: int, width: int)
    ensures ClipAll(w, "", start, width) == Clip("", 0, false, false)
  {
  }

  lemma ClipNext(w: Widths, text: string, n: nat, start: int, width: int)
    requires n < |text|
    ensures ClipAll(w, text[..n + 1], start, width)
         == ClipStep(w, ClipAll(w, text[..n], start, width), text[n], start, width)
  {
    assert text[..n + 1][..n] == text[..n];
  }

  method CellSliceMeasured(w: Widths, text: string, start: int, width: int) returns (result: string)
    ensures result == ClipAll(w, Expanded(text), start, width).out
  {
    hide ClipAll;
    ClipNothing(w, start, width);
    result := "";
    var position := 0;
    var included := false;
    var expanded := Expanded(text);
    for n := 0 to |expanded|
      invariant ClipAll(w, expanded[..n], start, width) == Clip(result, position, included, false)
    {
      var c := expanded[n];
      var amount := w(c);
      ClipNext(w, expanded, n, start, width);
      if amount == 0 {
        if included {
          result := result + [c];
        }
        continue;
      }
      if position >= start + width {
        assert expanded == expanded[..n + 1] + expanded[n + 1..];
        StoppedStays(w, expanded[..n + 1], expanded[n + 1..], start, width);
        return;
      }
      included := position >= start && position + amount <= start + width;
      if included {
        result := result + [c];
      } else if position < start + width && position + amount > start {
        result := result + Spaces(Min(position + amount, start + width) - Max(position, start));
      } else {
        assert result + "" == result;
      }
      position := position + amount;
    }
    assert expanded[..|expanded|] == expanded;
  }

  // ----- Clipping shows exactly the window -----

  // Halves come in pairs.
  ghost predicate Paired(grid: seq<Cell>) {
    forall i :: 0 <= i < |grid| ==> PairedAt(grid, i)
  }

  predicate PairedAt(grid: seq<Cell>, i: nat)
    requires i < |grid|
  {
    && (grid[i].part == Left ==> i + 1 < |grid| && grid[i + 1].part == Right)
    && (grid[i].part == Right ==> i > 0 && grid[i - 1].part == Left)
  }

  lemma NothingPaired()
    ensures Paired([])
  {
  }

  lemma MarkPaired(grid: seq<Cell>, mark: char)
    requires Paired(grid)
    ensures Paired(AddMark(grid, mark))
  {
    var r := AddMark(grid, mark);
    forall i | 0 <= i < |grid|
      ensures PairedAt(r, i)
    {
      assert PairedAt(grid, i);
    }
  }

  lemma PutPaired(w: Widths, grid: seq<Cell>, c: char)
    requires Paired(grid)
    ensures Paired(Put(w, grid, c))
  {
    MarkPaired(grid, c);
    if w(c) != 0 {
      Joined(grid, Drawing(w, c));
    }
  }

  lemma Joined(grid: seq<Cell>, more: seq<Cell>)
    requires Paired(grid) && Paired(more)
    ensures Paired(grid + more)
  {
    forall i | 0 <= i < |grid + more|
      ensures PairedAt(grid + more, i)
    {
      if i < |grid| {
        assert PairedAt(grid, i);
      } else {
        assert PairedAt(more, i - |grid|);
      }
    }
  }

  lemma {:induction false} GridPaired(w: Widths, text: string)
    ensures Paired(Grid(w, text))
  {
    hide Paired, Put;
    if text == "" {
      NothingPaired();
    } else {
      GridPaired(w, text[..|text| - 1]);
      PutPaired(w, Grid(w, text[..|text| - 1]), text[|text| - 1]);
    }
  }
  // Where the last character begins.
  function LastStart(grid: seq<Cell>): int {
    if grid == [] then -1 else if grid[|grid| - 1].part == Right then |grid| - 2 else |grid| - 1
  }

  predicate LastInside(grid: seq<Cell>, from: int, to: int) {
    grid != [] && LastStart(grid) >= from && |grid| <= to
  }

  lemma MarkInside(grid: seq<Cell>, from: int, to: int, mark: char)
    requires Paired(grid) && from <= to && LastInside(grid, from, to)
    ensures Window(AddMark(grid, mark), from, to) == AddMark(Window(grid, from, to), mark)
  {
    var n, lo := |grid|, Clamp(grid, from);
    var marked, b := AddMark(grid, mark), Window(grid, from, to);
    assert PairedAt(grid, n - 1);
    assert b[|b| - 1] == Shown(grid, lo, n, n - 1);
    forall i | 0 <= i < n - lo
      ensures Window(marked, from, to)[i] == AddMark(b, mark)[i]
    {
      assert b[i] == Shown(grid, lo, n, lo + i);
    }
  }

  lemma MarkOutside(grid: seq<Cell>, from: int, to: int, mark: char)
    requires Paired(grid) && from <= to && !LastInside(grid, from, to)
    ensures Window(AddMark(grid, mark), from, to) == Window(grid, from, to)
  {
    var n, lo, hi := |grid|, Clamp(grid, from), Clamp(grid, to);
    var marked := AddMark(grid, mark);
    assert n > 0 ==> PairedAt(grid, n - 1);
    forall i | 0 <= i < hi - lo
      ensures Window(marked, from, to)[i] == Window(grid, from, to)[i]
    {
      assert Shown(marked, lo, hi, lo + i) == Shown(grid, lo, hi, lo + i);
    }
  }

  lemma BaseInside(grid: seq<Cell>, from: int, to: int, cells: seq<Cell>)
    requires Paired(grid) && Paired(cells) && from <= |grid| && |grid| + |cells| <= to && cells != []
    ensures Window(grid + cells, from, to) == Window(grid, from, to) + cells
  {
    var lo, n := Clamp(grid, from), |grid|;
    var all, b := grid + cells, Window(grid, from, to);
    assert PairedAt(cells, 0) && PairedAt(cells, |cells| - 1);
    assert n > 0 ==> PairedAt(grid, n - 1);
    assert |Window(all, from, to)| == |all| - lo && |b| == n - lo;
    forall i | 0 <= i < |all| - lo
      ensures Window(all, from, to)[i] == (b + cells)[i]
    {
      assert Window(all, from, to)[i] == Shown(all, lo, |all|, lo + i);
      if i < |b| {
        assert b[i] == Shown(grid, lo, n, lo + i);
        assert all[lo + i] == grid[lo + i];
      } else {
        assert all[lo + i] == cells[i - |b|];
      }
    }
  }

  lemma BaseCut(grid: seq<Cell>, from: int, to: int, c: char)
    requires Paired(grid) && from <= to && |grid| < to && |grid| + 2 > from
    requires !(|grid| >= from && |grid| + 2 <= to)
    ensures Window(grid + [Cell(c, "", Left), Cell(c, "", Right)], from, to)
         == Window(grid, from, to) + if from < to then [BLANK] else []
  {
    var lo, n := Clamp(grid, from), |grid|;
    var all, b := grid + [Cell(c, "", Left), Cell(c, "", Right)], Window(grid, from, to);
    assert n > 0 ==> PairedAt(grid, n - 1);
    if n >= from {
      assert to == n + 1;
      assert |Window(all, from, to)| == |b| + 1;
      forall i | 0 <= i < |b|
        ensures Window(all, from, to)[i] == b[i]
      {
        assert Window(all, from, to)[i] == Shown(all, lo, n + 1, lo + i);
        assert b[i] == Shown(grid, lo, n, lo + i);
        assert all[lo + i] == grid[lo + i];
      }
      assert Window(all, from, to)[|b|] == Shown(all, lo, n + 1, n);
    } else {
      assert from == n + 1 && b == [];
      assert from < to ==> Window(all, from, to)[0] == Shown(all, n + 1, n + 2, n + 1);
    }
  }

  lemma BaseOutside(grid: seq<Cell>, from: int, to: int, cells: seq<Cell>)
    requires Paired(grid) && from <= to
    requires |grid| >= to || |grid| + |cells| <= from
    ensures Window(grid + cells, from, to) == Window(grid, from, to)
  {
    var all, lo, hi := grid + cells, Clamp(grid, from), Clamp(grid, to);
    if |grid| >= to {
      forall i | 0 <= i < hi - lo
        ensures Window(all, from, to)[i] == Window(grid, from, to)[i]
      {
        assert Shown(all, lo, hi, lo + i) == Shown(grid, lo, hi, lo + i);
      }
    }
  }

  // The loop has drawn the window of what it has read, and knows where the last character landed.
  ghost predicate Drawn(w: Widths, grid: seq<Cell>, st: Clip, start: int, width: nat) {
    && Paired(grid)
    && Grid(w, st.out) == Window(grid, start, start + width)
    && (st.stopped ==> |grid| > start + width)
    && (!st.stopped ==> st.position == |grid| && (st.included <==> LastInside(grid, start, start + width)))
  }

  lemma GridSnoc(w: Widths, text: string, c: char)
    ensures Grid(w, text + [c]) == Put(w, Grid(w, text), c)
  {
    assert (text + [c])[..|text|] == text;
  }

  lemma MarkKeepsLast(grid: seq<Cell>, mark: char, from: int, to: int)
    ensures LastInside(AddMark(grid, mark), from, to) <==> LastInside(grid, from, to)
  {
  }

  lemma DrawMark(w: Widths, grid: seq<Cell>, st: Clip, c: char, start: int, width: nat)
    requires Drawn(w, grid, st, start, width) && w(c) == 0
    ensures Drawn(w, AddMark(grid, c), ClipStep(w, st, c, start, width), start, width)
  {
    hide Window, Grid, AddMark, LastInside, Paired;
    MarkPaired(grid, c);
    GridSnoc(w, st.out, c);
    MarkKeepsLast(grid, c, start, start + width);
    if LastInside(grid, start, start + width) {
      LastWithin(grid, start, start + width);
      MarkInside(grid, start, start + width, c);
    } else {
      MarkOutside(grid, start, start + width, c);
    }
  }

  lemma LastWithin(grid: seq<Cell>, from: int, to: int)
    requires LastInside(grid, from, to)
    ensures |grid| <= to
  {
  }

  // A character drawn after the grid: its cells, and where it is the last one.
  lemma AfterDrawing(w: Widths, grid: seq<Cell>, c: char, from: int, to: int)
    requires w(c) != 0
    ensures Paired(Drawing(w, c)) && |Drawing(w, c)| == w(c)
    ensures LastInside(grid + Drawing(w, c), from, to) <==> |grid| >= from && |grid| + w(c) <= to
  {
  }

  lemma GridDraws(w: Widths, text: string, c: char)
    requires w(c) != 0
    ensures Grid(w, text + [c]) == Grid(w, text) + Drawing(w, c)
  {
    GridSnoc(w, text, c);
    hide Grid;
  }

  lemma GridBlank(w: Widths, text: string)
    ensures Grid(w, text + Spaces(1)) == Grid(w, text) + [BLANK]
    ensures text + Spaces(0) == text
  {
    assert Printable(' ');
    GridDraws(w, text, ' ');
    assert Spaces(1) == [' '];
  }

  lemma DrawOutside(w: Widths, grid: seq<Cell>, st: Clip, c: char, start: int, width: nat)
    requires Drawn(w, grid, st, start, width) && w(c) != 0
    requires st.stopped || |grid| >= start + width || |grid| + w(c) <= start
    ensures Drawn(w, grid + Drawing(w, c), ClipStep(w, st, c, start, width), start, width)
  {
    AfterDrawing(w, grid, c, start, start + width);
    hide Window, Grid, Drawing, LastInside, Paired;
    Joined(grid, Drawing(w, c));
    BaseOutside(grid, start, start + width, Drawing(w, c));
    assert st.out + "" == st.out;
  }

  lemma StepInside(w: Widths, st: Clip, c: char, start: int, width: nat)
    requires w(c) != 0 && !st.stopped && st.position >= start && st.position + w(c) <= start + width
    ensures ClipStep(w, st, c, start, width) == Clip(st.out + [c], st.position + w(c), true, false)
  {
  }

  lemma DrawInside(w: Widths, grid: seq<Cell>, st: Clip, c: char, start: int, width: nat)
    requires Drawn(w, grid, st, start, width) && w(c) != 0 && !st.stopped
    requires |grid| >= start && |grid| + w(c) <= start + width
    ensures Drawn(w, grid + Drawing(w, c), ClipStep(w, st, c, start, width), start, width)
  {
    StepInside(w, st, c, start, width);
    AfterDrawing(w, grid, c, start, start + width);
    WholeDrawn(w, grid, st.out, c, start, width);
    hide Window, Grid, Drawing, LastInside, Paired, ClipStep;
    Joined(grid, Drawing(w, c));
  }

  lemma WholeDrawn(w: Widths, grid: seq<Cell>, out: string, c: char, start: int, width: nat)
    requires Paired(grid) && w(c) != 0 && Grid(w, out) == Window(grid, start, start + width)
    requires |grid| >= start && |grid| + w(c) <= start + width
    ensures Grid(w, out + [c]) == Window(grid + Drawing(w, c), start, start + width)
  {
    AfterDrawing(w, grid, c, start, start + width);
    hide *;
    BaseInside(grid, start, start + width, Drawing(w, c));
    GridDraws(w, out, c);
  }

  // Only a two-cell character can be cut; what is left of it is one cell, or none in an empty window.
  lemma StepCut(w: Widths, st: Clip, c: char, start: int, width: nat)
    requires w(c) != 0 && !st.stopped && st.position < start + width && st.position + w(c) > start
    requires !(st.position >= start && st.position + w(c) <= start + width)
    ensures w(c) == 2
    ensures ClipStep(w, st, c, start, width)
         == Clip(st.out + Spaces(if width > 0 then 1 else 0), st.position + 2, false, false)
  {
  }

  lemma DrawCut(w: Widths, grid: seq<Cell>, st: Clip, c: char, start: int, width: nat)
    requires Drawn(w, grid, st, start, width) && w(c) != 0 && !st.stopped
    requires |grid| < start + width && |grid| + w(c) > start && !(|grid| >= start && |grid| + w(c) <= start + width)
    ensures Drawn(w, grid + Drawing(w, c), ClipStep(w, st, c, start, width), start, width)
  {
    StepCut(w, st, c, start, width);
    AfterDrawing(w, grid, c, start, start + width);
    HalvesDrawn(w, grid, st.out, c, start, width);
    hide Window, Grid, Drawing, LastInside, Paired, Spaces, ClipStep;
    Joined(grid, Drawing(w, c));
  }

  lemma HalvesDrawn(w: Widths, grid: seq<Cell>, out: string, c: char, start: int, width: nat)
    requires Paired(grid) && w(c) == 2 && Grid(w, out) == Window(grid, start, start + width)
    requires |grid| < start + width && |grid| + 2 > start && !(|grid| >= start && |grid| + 2 <= start + width)
    ensures Grid(w, out + Spaces(if width > 0 then 1 else 0)) == Window(grid + Drawing(w, c), start, start + width)
  {
    assert Drawing(w, c) == [Cell(c, "", Left), Cell(c, "", Right)];
    hide Window, Grid, Drawing, Paired, Spaces;
    BaseCut(grid, start, start + width, c);
    GridBlank(w, out);
    assert Grid(w, out) + [] == Grid(w, out);
  }

  lemma DrawBase(w: Widths, grid: seq<Cell>, st: Clip, c: char, start: int, width: nat)
    requires Drawn(w, grid, st, start, width) && w(c) != 0
    ensures Drawn(w, Put(w, grid, c), ClipStep(w, st, c, start, width), start, width)
  {
    hide Drawn, ClipStep, Drawing;
    if st.stopped || |grid| >= start + width || |grid| + w(c) <= start {
      DrawOutside(w, grid, st, c, start, width);
    } else if |grid| >= start && |grid| + w(c) <= start + width {
      DrawInside(w, grid, st, c, start, width);
    } else {
      DrawCut(w, grid, st, c, start, width);
    }
  }

  // For every text, window and character widths, the clipped text draws exactly the cells of the
  // window: each character wholly inside it with its marks, a space for each half cut by an edge,
  // and no mark whose character was left out.
  lemma {:induction false} ClippingDrawsWindow(w: Widths, text: string, start: int, width: nat)
    ensures Drawn(w, Grid(w, text), ClipAll(w, text, start, width), start, width)
  {
    if text != "" {
      var before, c := text[..|text| - 1], text[|text| - 1];
      ClippingDrawsWindow(w, before, start, width);
      if w(c) == 0 {
        DrawMark(w, Grid(w, before), ClipAll(w, before, start, width), c, start, width);
      } else {
        DrawBase(w, Grid(w, before), ClipAll(w, before, start, width), c, start, width);
      }
    }
  }

  lemma {:induction false} NegativeWidthDrawsNothing(w: Widths, text: string, start: int, width: int)
    requires width < 0
    ensures ClipAll(w, text, start, width).out == "" && !ClipAll(w, text, start, width).included
  {
    if text != "" {
      NegativeWidthDrawsNothing(w, text[..|text| - 1], start, width);
    }
  }

  // text[from:to] for from >= 0
  function Slice(text: string, from: nat, to: int): string {
    if from < to && from < |text| then text[from..Min(to, |text|)] else ""
  }

  ghost predicate AsciiClipped(text: string, start: nat, width: int, st: Clip) {
    && st.out == Slice(text, start, start + width)
    && (st.stopped <==> |text| > 0 && |text| > start + width)
    && (!st.stopped ==> st.position == |text|)
  }

  lemma AsciiStep(w: Widths, before: string, c: char, start: nat, width: int, st: Clip)
    requires AsciiClipped(before, start, width, st) && Printable(c)
    ensures AsciiClipped(before + [c], start, width, ClipStep(w, st, c, start, width))
  {
    hide Slice;
    SliceSnoc(before, c, start, start + width);
    assert Slice(before, start, start + width) + "" == Slice(before, start, start + width);
    assert Spaces(0) == Spaces(-1) == "";
  }

  lemma {:induction false} AsciiClip(w: Widths, text: string, start: nat, width: int)
    requires IsAscii(text)
    ensures AsciiClipped(text, start, width, ClipAll(w, text, start, width))
  {
    hide ClipStep;
    if text != "" {
      var before, c := text[..|text| - 1], text[|text| - 1];
      assert text == before + [c];
      AsciiClip(w, before, start, width);
      AsciiStep(w, before, c, start, width, ClipAll(w, before, start, width));
    }
  }

  lemma SliceSnoc(before: string, c: char, from: nat, to: int)
    ensures Slice(before + [c], from, to) == Slice(before, from, to) + if from <= |before| < to then [c] else ""
  {
  }

  lemma {:induction false} ExpandedTabFree(text: string, column: nat)
    ensures TabFree(ExpandFrom(text, column))
  {
    if text != "" {
      ExpandedTabFree(text[1..], 0);
      ExpandedTabFree(text[1..], column + 1);
      ExpandedTabFree(text[1..], column + (8 - column % 8));
    }
  }

  lemma {:induction false} ClippedTabFree(w: Widths, text: string, start: int, width: int)
    requires TabFree(text)
    ensures TabFree(ClipAll(w, text, start, width).out)
  {
    if text != "" {
      ClippedTabFree(w, text[..|text| - 1], start, width);
    }
  }

  // No mark is kept without the character it sits on.
  lemma {:induction false} NoStrayMark(w: Widths, text: string, start: int, width: int)
    ensures var st := ClipAll(w, text, start, width);
      (st.included ==> st.out != "") && (st.out != "" ==> w(st.out[0]) > 0)
  {
    if text != "" {
      NoStrayMark(w, text[..|text| - 1], start, width);
      assert Printable(' ');
    }
  }

  // What clipping an expanded text to a window gives.
  ghost predicate Clipped(w: Widths, expanded: string, start: int, width: int, result: string) {
    && (width >= 0 ==> Grid(w, result) == Window(Grid(w, expanded), start, start + width))
    && (width < 0 ==> result == "")
    && (result != "" ==> w(result[0]) > 0)
    && (start >= 0 && width >= 0 ==> CellWidth(w, result) == Min(width, Max(0, CellWidth(w, expanded) - start)))
  }

  lemma ClippingIsExact(w: Widths, expanded: string, start: int, width: int)
    requires TabFree(expanded)
    ensures Clipped(w, expanded, start, width, ClipAll(w, expanded, start, width).out)
  {
    hide ClipAll, Grid, CellWidth, TabFree;
    NoStrayMark(w, expanded, start, width);
    if width >= 0 {
      ClippingDrawsWindow(w, expanded, start, width);
      ClippedTabFree(w, expanded, start, width);
      GridIsWidth(w, expanded);
      GridIsWidth(w, ClipAll(w, expanded, start, width).out);
    } else {
      NegativeWidthDrawsNothing(w, expanded, start, width);
    }
  }

  // Plain slicing of printable ASCII is the measured loop.
  method CellSlice(w: Widths, text: string, start: int, width: int) returns (result: string)
    ensures result == ClipAll(w, Expanded(text), start, width).out
    ensures Clipped(w, Expanded(text), start, width, result)
  {
    hide ClipAll, Clipped, ExpandFrom;
    if start >= 0 && IsAscii(text) {
      result := Slice(text, start, start + Max(0, width));
      ExpandTabFree(text, 0);
      AsciiClip(w, text, start, width);
      assert AsciiClipped(text, start, width, ClipAll(w, text, start, width));
      assert Slice(text, start, start + width) == result;
    } else {
      result := CellSliceMeasured(w, text, start, width);
    }
    ExpandedTabFree(text, 0);
    ClippingIsExact(w, Expanded(text), start, width);
  }

  lemma {:induction false} PrefixNarrower(w: Widths, text: string, n: nat)
    requires n <= |text|
    ensures CellWidth(w, text[..n]) <= CellWidth(w, text)
    decreases |text| - n
  {
    if n == |text| {
      assert text[..n] == text;
    } else {
      PrefixNarrower(w, text, n + 1);
      assert text[..n + 1][..n] == text[..n];
    }
  }

  // How much of the text comes before the cursor: text[:max(0, cursor)].
  function Before(text: string, cursor: int): (n: nat)
    ensures n <= |text|
    ensures if cursor <= 0 then n == 0 else if cursor <= |text| then n == cursor else n == |text|
  {
    Min(Max(0, cursor), |text|)
  }

  // The column returned is the cell where the text before the cursor ends, counted from the first cell
  // drawn; it lies inside the field, and no cell before it is missing.
  method InputView(w: Widths, text: string, cursor: int, width: int) returns (shown: string, column: nat)
    ensures column < Max(1, width)
    ensures
      var caret := CellWidth(w, text[..if cursor <= 0 then 0 else if cursor <= |text| then cursor else |text|]);
      && column == (if caret < width then caret else if width < 1 then 0 else width - 1)
      && Clipped(w, Expanded(text), caret - column, if width < 1 then 0 else width - 1, shown)
      && (TabFree(text) ==> CaretShown(w, text, caret, if width < 1 then 1 else width, shown, column))
  {
    hide ClipAll, Expanded, Window, Grid, CellWidth, TabFree, Clipped;
    var field := Max(1, width);
    var caret := MeasureCellWidth(w, text[..Before(text, cursor)]);
    var start := Max(0, caret - field + 1);
    shown := CellSlice(w, text, start, field - 1);
    column := Min(field - 1, caret - start);
    if TabFree(text) {
      ExpandedIsText(text);
      PrefixNarrower(w, text, Before(text, cursor));
      ClippedDraws(w, text, start, field - 1, shown);
    }
  }

  lemma ClippedDraws(w: Widths, expanded: string, start: nat, width: nat, result: string)
    requires Clipped(w, expanded, start, width, result)
    ensures Grid(w, result) == Window(Grid(w, expanded), start, start + width)
    ensures CellWidth(w, result) == Min(width, Max(0, CellWidth(w, expanded) - start))
  {
  }

  lemma ExpandedIsText(text: string)
    requires TabFree(text)
    ensures Expanded(text) == text
  {
    ExpandTabFree(text, 0);
  }

  ghost predicate CaretShown(w: Widths, text: string, caret: int, field: int, shown: string, column: int)
    requires field >= 1
  {
    var start := caret - column;
    && start >= 0
    && Grid(w, shown) == Window(Grid(w, text), start, start + field - 1)
    && column <= CellWidth(w, shown)
    && (start > 0 ==> column == field - 1)
  }
}
