// Wrapping a line into rows of cells, and the maps between rows and source columns.
module Wrapping {
  import opened Common
  import opened Cells

  // ----- The wrapping loop -----

  // Finished rows, and the row being filled with its width.
  datatype Rows = Rows(rows: seq<string>, row: string, cells: nat)

  // A tab is padding to the next multiple of eight, never wider than the row itself.
  function Amount(w: Widths, width: nat, cells: nat, c: char): nat {
    if c == '\t' then Min(8 - cells % 8, width) else w(c)
  }

  function Chars(c: char, amount: nat): string {
    if c == '\t' then Spaces(amount) else [c]
  }

  // A full row is finished at once.
  function Closed(width: nat, rows: seq<string>, row: string, cells: nat): Rows {
    if cells >= width then Rows(rows + [row], "", 0) else Rows(rows, row, cells)
  }

  function WrapStep(w: Widths, width: nat, st: Rows, c: char): Rows {
    var amount := Amount(w, width, st.cells, c);
    if st.cells > 0 && st.cells + amount > width then
      var again := Amount(w, width, 0, c);
      Closed(width, st.rows + [st.row], Chars(c, again), again)
    else Closed(width, st.rows, st.row + Chars(c, amount), st.cells + amount)
  }

  function WrapFold(w: Widths, width: nat, text: string): Rows {
    if text == "" then Rows([], "", 0)
    else WrapStep(w, width, WrapFold(w, width, text[..|text| - 1]), text[|text| - 1])
  }

  function Finished(st: Rows): seq<string> {
    if st.row != "" || st.rows == [] then st.rows + [st.row] else st.rows
  }

  lemma WrapNext(w: Widths, width: nat, text: string, n: nat)
    requires n < |text|
    ensures WrapFold(w, width, text[..n + 1]) == WrapStep(w, width, WrapFold(w, width, text[..n]), text[n])
  {
    assert text[..n + 1][..n] == text[..n];
  }

  // `stop` is the next multiple of eight cells: a tab pads the row up to it if the row is that wide; if not, it pads a
  // new row, or the row itself while that has no cells, to eight cells or to the width.
  predicate TabPadded(width: nat, st: Rows, next: Rows, stop: nat)
    requires st.cells < stop
  {
    var rows, row := if st.cells > 0 then st.rows + [st.row] else st.rows, if st.cells > 0 then "" else st.row;
    if stop < width then next == Rows(st.rows, st.row + Spaces(stop - st.cells), stop)
    else if stop == width then next == Rows(st.rows + [st.row + Spaces(stop - st.cells)], "", 0)
    else if width > 8 then next == Rows(st.rows + [st.row], Spaces(8), 8)
    else next == Rows(rows + [row + Spaces(width)], "", 0)
  }

  lemma TabWraps(w: Widths, width: nat, text: string, stop: nat)
    requires width >= 1 && stop % 8 == 0
    requires WrapFold(w, width, text).cells < stop <= WrapFold(w, width, text).cells + 8
    ensures TabPadded(width, WrapFold(w, width, text), WrapFold(w, width, text + "\t"), stop)
  {
    CellsInside(w, width, text);
    assert (text + "\t")[..|text|] == text;
    assert WrapFold(w, width, text + "\t") == WrapStep(w, width, WrapFold(w, width, text), '\t');
    hide *;
    TabStep(w, width, WrapFold(w, width, text), stop);
  }

  lemma TabStep(w: Widths, width: nat, st: Rows, stop: nat)
    requires stop % 8 == 0 && st.cells < stop <= st.cells + 8 && st.cells < width
    ensures TabPadded(width, st, WrapStep(w, width, st, '\t'), stop)
  {
    TabAmount(w, width, st, stop);
    hide Amount, Spaces;
    assert "" + Spaces(width) == Spaces(width);
  }

  lemma TabAmount(w: Widths, width: nat, st: Rows, stop: nat)
    requires stop % 8 == 0 && st.cells < stop <= st.cells + 8 && st.cells < width
    ensures Amount(w, width, st.cells, '\t') == if stop - st.cells <= width then stop - st.cells else width
    ensures Amount(w, width, 0, '\t') == if width <= 8 then width else 8
    ensures st.cells == 0 ==> stop == 8
  {
  }

  // The row being filled is never full.
  lemma {:induction false} CellsInside(w: Widths, width: nat, text: string)
    requires width >= 1
    ensures WrapFold(w, width, text).cells < width
  {
    if text != "" {
      CellsInside(w, width, text[..|text| - 1]);
    }
  }

  // ----- What a wrapping is -----

  // A row fits, and is closed by the character that fills it.
  predicate RowFits(w: Widths, width: nat, row: string) {
    && row != ""
    && CellWidth(w, row) <= width
    && (CellWidth(w, row) == width ==> w(row[|row| - 1]) > 0)
  }

  // A row ends early only where a two-cell character would not fit in its last cell.
  predicate BreaksBefore(w: Widths, width: nat, row: string, next: string) {
    || CellWidth(w, row) == width
    || (CellWidth(w, row) == width - 1 && next != "" && w(next[0]) == 2)
  }

  ghost predicate IsWrapping(w: Widths, width: nat, rows: seq<string>) {
    && (forall i :: 0 <= i < |rows| ==> RowFits(w, width, rows[i]))
    && (forall i :: 0 <= i < |rows| - 1 ==> BreaksBefore(w, width, rows[i], rows[i + 1]))
  }

  // No character is wider than the field.
  predicate Narrow(w: Widths, width: nat, text: string) {
    width >= 1 && forall i :: 0 <= i < |text| ==> w(text[i]) <= width
  }

  ghost predicate Wrapped(w: Widths, width: nat, text: string, st: Rows) {
    && Flatten(st.rows) + st.row == text
    && TabFree(st.row)
    && st.cells == CellWidth(w, st.row) < width
    && IsWrapping(w, width, st.rows)
    && (st.rows != [] && st.row != "" ==> BreaksBefore(w, width, st.rows[|st.rows| - 1], st.row))
    && (st.rows != [] && st.row == "" ==> CellWidth(w, st.rows[|st.rows| - 1]) == width)
  }

  lemma WidthOfSnoc(w: Widths, row: string, c: char)
    requires c != '\t'
    ensures CellWidth(w, row + [c]) == CellWidth(w, row) + w(c)
  {
    assert (row + [c])[..|row|] == row;
  }

  lemma PushRow(w: Widths, width: nat, rows: seq<string>, row: string)
    requires IsWrapping(w, width, rows) && RowFits(w, width, row)
    requires rows != [] ==> BreaksBefore(w, width, rows[|rows| - 1], row)
    ensures IsWrapping(w, width, rows + [row])
    ensures Flatten(rows + [row]) == Flatten(rows) + row
  {
    hide RowFits, BreaksBefore, Flatten;
    PushText(rows, row);
    var more := rows + [row];
    forall i | 0 <= i < |more| - 1
      ensures BreaksBefore(w, width, more[i], more[i + 1])
    {
      if i < |rows| - 1 {
        assert more[i] == rows[i] && more[i + 1] == rows[i + 1];
      }
    }
  }

  // A character has just been added to the row.
  ghost predicate Filling(w: Widths, width: nat, text: string, rows: seq<string>, row: string) {
    && Flatten(rows) + row == text
    && TabFree(row)
    && RowFits(w, width, row)
    && IsWrapping(w, width, rows)
    && (rows != [] ==> BreaksBefore(w, width, rows[|rows| - 1], row))
  }

  lemma ExtendRow(w: Widths, width: nat, text: string, st: Rows, c: char)
    requires Wrapped(w, width, text, st) && c != '\t' && w(c) <= width
    requires !(st.cells > 0 && st.cells + w(c) > width)
    ensures Filling(w, width, text + [c], st.rows, st.row + [c])
  {
    hide IsWrapping, Flatten;
    WidthOfSnoc(w, st.row, c);
    assert (Flatten(st.rows) + st.row) + [c] == Flatten(st.rows) + (st.row + [c]);
  }

  lemma BreakRow(w: Widths, width: nat, text: string, st: Rows, c: char)
    requires Wrapped(w, width, text, st) && c != '\t' && w(c) <= width
    requires st.cells > 0 && st.cells + w(c) > width
    ensures Filling(w, width, text + [c], st.rows + [st.row], [c])
  {
    hide IsWrapping, Flatten;
    assert RowFits(w, width, [c]) && BreaksBefore(w, width, st.row, [c]) && RowFits(w, width, st.row) by {
      WidthOfSnoc(w, "", c);
      assert "" + [c] == [c];
    }
    assert TabFree([c]);
    hide RowFits, BreaksBefore, CellWidth;
    PushRow(w, width, st.rows, st.row);
  }

  lemma CloseRow(w: Widths, width: nat, text: string, rows: seq<string>, row: string)
    requires Filling(w, width, text, rows, row) && 1 <= width
    ensures Wrapped(w, width, text,
              if CellWidth(w, row) >= width then Rows(rows + [row], "", 0) else Rows(rows, row, CellWidth(w, row)))
  {
    hide IsWrapping, Flatten;
    if CellWidth(w, row) >= width {
      PushRow(w, width, rows, row);
      assert Flatten(rows + [row]) + "" == Flatten(rows + [row]);
    }
  }

  lemma WrapStepKeeps(w: Widths, width: nat, text: string, st: Rows, c: char)
    requires Wrapped(w, width, text, st) && c != '\t' && 1 <= width && w(c) <= width
    ensures Wrapped(w, width, text + [c], WrapStep(w, width, st, c))
  {
    var pushed := st.cells > 0 && st.cells + w(c) > width;
    assert st.cells == CellWidth(w, st.row);
    hide Wrapped, Filling, CellWidth;
    WidthOfSnoc(w, st.row, c);
    WidthOfSnoc(w, "", c);
    assert "" + [c] == [c];
    if pushed {
      BreakRow(w, width, text, st, c);
      CloseRow(w, width, text + [c], st.rows + [st.row], [c]);
    } else {
      ExtendRow(w, width, text, st, c);
      CloseRow(w, width, text + [c], st.rows, st.row + [c]);
    }
  }

  lemma NothingWrapped(w: Widths, width: nat)
    requires width >= 1
    ensures Wrapped(w, width, "", Rows([], "", 0))
  {
  }

  lemma {:induction false} WrapFoldKeeps(w: Widths, width: nat, text: string)
    requires TabFree(text) && Narrow(w, width, text)
    ensures Wrapped(w, width, text, WrapFold(w, width, text))
  {
    hide WrapStep, Wrapped;
    if text == "" {
      NothingWrapped(w, width);
    } else {
      var before, c := text[..|text| - 1], text[|text| - 1];
      WrapFoldKeeps(w, width, before);
      WrapStepKeeps(w, width, before, WrapFold(w, width, before), c);
      assert text == before + [c];
    }
  }

  // ----- The wrapping is the only one -----

  lemma {:induction false} WidthOfPrefix(w: Widths, a: string, b: string)
    requires TabFree(a + b)
    ensures CellWidth(w, a + b) == CellWidth(w, a) + CellWidth(w, b)
  {
    if b == "" {
      assert a + b == a;
    } else {
      var shorter, c := b[..|b| - 1], b[|b| - 1];
      assert a + b == (a + shorter) + [c] && b == shorter + [c];
      assert c == (a + b)[|a + b| - 1];
      assert TabFree(a + shorter) by {
        assert forall i :: 0 <= i < |a + shorter| ==> (a + shorter)[i] == (a + b)[i];
      }
      WidthOfPrefix(w, a, shorter);
      WidthOfSnoc(w, a + shorter, c);
      WidthOfSnoc(w, shorter, c);
    }
  }

  lemma WidthOfFirst(w: Widths, row: string)
    requires row != "" && TabFree(row)
    ensures w(row[0]) <= CellWidth(w, row)
    ensures w(row[|row| - 1]) <= CellWidth(w, row)
  {
    assert row == [row[0]] + row[1..];
    WidthOfPrefix(w, [row[0]], row[1..]);
    WidthOfSnoc(w, "", row[0]);
    assert "" + [row[0]] == [row[0]];
  }

  // Past a break the row would no longer fit.
  lemma NoRowPastBreak(w: Widths, width: nat, row: string, next: string, longer: string)
    requires BreaksBefore(w, width, row, next) && next != ""
    requires |row| < |longer| && row == longer[..|row|] && longer[|row|] == next[0] && TabFree(longer)
    ensures !RowFits(w, width, longer)
  {
    var rest := longer[|row|..];
    assert longer == row + rest;
    WidthOfPrefix(w, row, rest);
    WidthOfFirst(w, rest);
  }

  lemma FirstRowNotLonger(w: Widths, width: nat, a: seq<string>, b: seq<string>, text: string)
    requires IsWrapping(w, width, a) && IsWrapping(w, width, b) && a != [] && b != []
    requires Flatten(a) == text == Flatten(b) && TabFree(text)
    ensures |b[0]| <= |a[0]|
  {
    hide RowFits, BreaksBefore, Flatten;
    FlattenHead(a);
    FlattenHead(b);
    if |b[0]| > |a[0]| {
      assert a[1..] != [] by {
        if a[1..] == [] {
          FlattenNothing();
        }
      }
      FlattenHead(a[1..]);
      assert a[1..][0] == a[1];
      RowHasText(w, width, a[1]);
      assert b[0] == text[..|b[0]|] && a[0] == text[..|a[0]|];
      assert text[|a[0]|] == a[1][0];
      assert forall i :: 0 <= i < |b[0]| ==> b[0][i] == text[i];
      NoRowPastBreak(w, width, a[0], a[1], b[0]);
    }
  }

  lemma FlattenNothing()
    ensures Flatten<char>([]) == []
  {
  }

  lemma RowHasText(w: Widths, width: nat, row: string)
    requires RowFits(w, width, row)
    ensures row != ""
  {
  }

  // One line has one wrapping.
  lemma {:induction false} WrappingIsUnique(w: Widths, width: nat, a: seq<string>, b: seq<string>, text: string)
    requires IsWrapping(w, width, a) && IsWrapping(w, width, b)
    requires Flatten(a) == text == Flatten(b) && TabFree(text)
    ensures a == b
  {
    hide RowFits, BreaksBefore, Flatten;
    FlattenNothing();
    if a == [] || b == [] {
      if a != [] {
        FlattenHead(a);
        RowHasText(w, width, a[0]);
      }
      if b != [] {
        FlattenHead(b);
        RowHasText(w, width, b[0]);
      }
    } else {
      FirstRowNotLonger(w, width, a, b, text);
      FirstRowNotLonger(w, width, b, a, text);
      FlattenHead(a);
      FlattenHead(b);
      assert a[0] == text[..|a[0]|] == b[0];
      assert Flatten(a[1..]) == text[|a[0]|..] == Flatten(b[1..]);
      TailWraps(w, width, a);
      TailWraps(w, width, b);
      WrappingIsUnique(w, width, a[1..], b[1..], text[|a[0]|..]);
      assert a == [a[0]] + a[1..] && b == [b[0]] + b[1..];
    }
  }

  lemma TailWraps(w: Widths, width: nat, rows: seq<string>)
    requires IsWrapping(w, width, rows) && rows != []
    ensures IsWrapping(w, width, rows[1..])
  {
    var tail := rows[1..];
    forall i | 0 <= i < |tail| - 1
      ensures BreaksBefore(w, width, tail[i], tail[i + 1])
    {
      assert BreaksBefore(w, width, rows[i + 1], rows[i + 2]);
    }
  }

  // ----- The rows of a line -----

  function RowsOf(w: Widths, width: int, line: string): seq<string> {
    Finished(WrapFold(w, Max(1, width), line))
  }

  lemma FinishedWraps(w: Widths, width: nat, text: string, st: Rows)
    requires Wrapped(w, width, text, st) && text != ""
    ensures IsWrapping(w, width, Finished(st)) && Flatten(Finished(st)) == text
  {
    hide IsWrapping, Flatten;
    FlattenNothing();
    if st.row != "" {
      PushRow(w, width, st.rows, st.row);
    } else {
      assert Flatten(st.rows) + "" == Flatten(st.rows);
    }
  }

  // The rows of a tab-free line, each character of which fits the width, are its one wrapping.
  lemma RowsAreTheWrapping(w: Widths, width: int, line: string, rows: seq<string>)
    requires TabFree(line) && Narrow(w, Max(1, width), line)
    ensures rows == RowsOf(w, width, line)
       <==> if line == "" then rows == [""] else IsWrapping(w, Max(1, width), rows) && Flatten(rows) == line
  {
    hide IsWrapping, Flatten, Finished;
    NothingFinished();
    if line != "" {
      WrapFoldKeeps(w, Max(1, width), line);
      FinishedWraps(w, Max(1, width), line, WrapFold(w, Max(1, width), line));
      if IsWrapping(w, Max(1, width), rows) && Flatten(rows) == line {
        WrappingIsUnique(w, Max(1, width), rows, RowsOf(w, width, line), line);
      }
    }
  }

  lemma NothingFinished()
    ensures Finished(Rows([], "", 0)) == [""]
  {
  }

  lemma WideEnough(w: Widths, width: nat, line: string)
    requires width >= 2
    ensures Narrow(w, width, line)
  {
  }

  // [line[start:start + width] for start in range(0, len(line), width)] or [""]
  function Slices(line: string, width: nat): seq<string>
    requires width >= 1
  {
    if |line| <= width then [line] else [line[..width]] + Slices(line[width..], width)
  }

  lemma AsciiIsNarrow(w: Widths, width: nat, line: string)
    requires IsAscii(line) && width >= 1
    ensures TabFree(line) && Narrow(w, width, line)
  {
    assert forall i :: 0 <= i < |line| ==> Printable(line[i]);
  }

  lemma AsciiRowFits(w: Widths, width: nat, row: string)
    requires IsAscii(row) && 0 < |row| <= width
    ensures RowFits(w, width, row)
    ensures |row| == width ==> forall next :: BreaksBefore(w, width, row, next)
  {
    AsciiWidth(w, row);
    assert Printable(row[|row| - 1]);
  }

  lemma {:induction false} SlicesWrap(w: Widths, width: nat, line: string)
    requires IsAscii(line) && width >= 1 && line != ""
    ensures IsWrapping(w, width, Slices(line, width)) && Flatten(Slices(line, width)) == line
  {
    hide IsWrapping, Flatten, RowFits, BreaksBefore;
    FlattenNothing();
    NothingWraps(w, width);
    if |line| <= width {
      AsciiRowFits(w, width, line);
      ConsWraps(w, width, line, []);
      assert [line] + [] == [line] && line + "" == line;
    } else {
      var row, more := line[..width], Slices(line[width..], width);
      AsciiRowFits(w, width, row);
      SlicesWrap(w, width, line[width..]);
      ConsWraps(w, width, row, more);
      assert line == row + line[width..];
    }
  }

  lemma NothingWraps(w: Widths, width: nat)
    ensures IsWrapping(w, width, [])
  {
  }

  lemma ConsWraps(w: Widths, width: nat, row: string, more: seq<string>)
    requires RowFits(w, width, row) && IsWrapping(w, width, more)
    requires more != [] ==> BreaksBefore(w, width, row, more[0])
    ensures IsWrapping(w, width, [row] + more)
    ensures Flatten([row] + more) == row + Flatten(more)
  {
    FlattenHead([row] + more);
    assert ([row] + more)[1..] == more;
  }

  // Printable ASCII: plain slices are the loop's rows.
  lemma SlicesAreRows(w: Widths, width: int, line: string)
    requires IsAscii(line)
    ensures Slices(line, Max(1, width)) == RowsOf(w, width, line)
  {
    AsciiIsNarrow(w, Max(1, width), line);
    if line != "" {
      SlicesWrap(w, Max(1, width), line);
    }
    RowsAreTheWrapping(w, width, line, Slices(line, Max(1, width)));
  }

  method WrapCells(w: Widths, line: string, width: int) returns (rows: seq<string>)
    ensures rows == RowsOf(w, width, line)
  {
    hide WrapFold, Spaces, WrapStep, RowsOf;
    var field := Max(1, width);
    if IsAscii(line) {
      SlicesAreRows(w, width, line);
      return Slices(line, field);
    }
    rows := [];
    var row, cells := "", 0;
    WrapNothing(w, field);
    for n := 0 to |line|
      invariant cells >= 0 && WrapFold(w, field, line[..n]) == Rows(rows, row, cells)
    {
      var c := line[n];
      WrapNext(w, field, line, n);
      WrapTurn(w, field, rows, row, cells, c);
      var amount := if c == '\t' then Min(8 - cells % 8, field) else w(c);
      if cells > 0 && cells + amount > field {
        rows := rows + [row];
        row, cells := "", 0;
        if c == '\t' {
          amount := Min(8, field);
        }
      }
      row := row + Chars(c, amount);
      cells := cells + amount;
      if cells >= field {
        rows := rows + [row];
        row, cells := "", 0;
      }
    }
    FoldIsRows(w, width, line, Rows(rows, row, cells));
    if row != "" || rows == [] {
      rows := rows + [row];
    }
  }

  // One turn of the loop, as its statements compute it.
  lemma WrapTurn(w: Widths, field: nat, rows: seq<string>, row: string, cells: nat, c: char)
    ensures var amount := if c == '\t' then Min(8 - cells % 8, field) else w(c);
      WrapStep(w, field, Rows(rows, row, cells), c) ==
        if cells > 0 && cells + amount > field then
          var again := if c == '\t' then Min(8, field) else amount;
          Closed(field, rows + [row], "" + Chars(c, again), again)
        else Closed(field, rows, row + Chars(c, amount), cells + amount)
  {
    hide Spaces;
    var again := Amount(w, field, 0, c);
    assert "" + Chars(c, again) == Chars(c, again);
  }

  lemma FoldIsRows(w: Widths, width: int, line: string, st: Rows)
    requires WrapFold(w, Max(1, width), line[..|line|]) == st
    ensures RowsOf(w, width, line) == Finished(st)
  {
    hide WrapFold, Finished;
    assert line[..|line|] == line;
  }

  lemma WrapNothing(w: Widths, width: nat)
    ensures WrapFold(w, width, "") == Rows([], "", 0)
  {
  }

  // -(-n // d)
  function CeilDiv(n: int, d: int): int
    requires d > 0
  {
    -(-n / d)
  }

  lemma {:induction false} SlicesCount(line: string, width: nat)
    requires width >= 1
    ensures |Slices(line, width)| == Max(1, CeilDiv(|line|, width))
  {
    if |line| > width {
      SlicesCount(line[width..], width);
      DivLess(|line|, width);
    } else {
      DivSmall(|line|, width);
    }
  }

  lemma DivSmall(n: int, d: int)
    requires 0 <= n <= d && d >= 1
    ensures CeilDiv(n, d) == if n == 0 then 0 else 1
  {
  }

  lemma DivLess(n: int, d: int)
    requires n > d >= 1
    ensures CeilDiv(n, d) == CeilDiv(n - d, d) + 1 && CeilDiv(n - d, d) >= 1
  {
    var q, r := (d - n) / d, (d - n) % d;
    assert d - n == q * d + r;
    MultipleOf(q, d);
    assert (q - 1) * d == q * d - d;
    Quotient(-n, d, q - 1, r);
  }

  lemma Quotient(x: int, d: int, q: int, r: int)
    requires d >= 1 && x == q * d + r && 0 <= r < d
    ensures x / d == q
  {
    assert x == x / d * d + x % d;
    assert (q - x / d) * d == q * d - x / d * d;
    MultipleOf(q - x / d, d);
  }

  method WrapCount(w: Widths, line: string, width: int) returns (count: nat)
    ensures count == |RowsOf(w, width, line)|
  {
    if IsAscii(line) {
      SlicesAreRows(w, width, line);
      SlicesCount(line, Max(1, width));
      return Max(1, CeilDiv(|line|, Max(1, width)));
    }
    var rows := WrapCells(w, line, width);
    return |rows|;
  }

  // ----- Rows to source columns and back -----

  // The column where row `row` begins; past the last row, the end of the line.
  function RowStart(rows: seq<string>, row: int): nat {
    |Flatten(rows[..Min(Max(0, row), |rows|)])|
  }

  lemma ClosedHolds(width: nat, rows: seq<string>, row: string, cells: nat)
    ensures var st := Closed(width, rows, row, cells); Flatten(st.rows) + st.row == Flatten(rows) + row
  {
    hide Flatten;
    PushText(rows, row);
  }

  lemma StepHoldsText(w: Widths, width: nat, st: Rows, c: char)
    requires c != '\t'
    ensures var next := WrapStep(w, width, st, c);
      Flatten(next.rows) + next.row == (Flatten(st.rows) + st.row) + [c]
  {
    hide Flatten, Closed;
    PushText(st.rows, st.row);
    Assoc(Flatten(st.rows), st.row, [c]);
    ClosedHolds(width, st.rows + [st.row], [c], w(c));
    ClosedHolds(width, st.rows, st.row + [c], st.cells + w(c));
  }

  lemma {:induction false} RowsHoldText(w: Widths, width: nat, text: string)
    requires TabFree(text)
    ensures var st := WrapFold(w, width, text); Flatten(st.rows) + st.row == text
  {
    if text == "" {
      assert Flatten<char>([]) == [];
    } else {
      hide Flatten, WrapStep;
      var before, c := text[..|text| - 1], text[|text| - 1];
      RowsHoldText(w, width, before);
      StepHoldsText(w, width, WrapFold(w, width, before), c);
      FrontAndLast(text);
    }
  }

  lemma PushText(rows: seq<string>, row: string)
    ensures Flatten(rows + [row]) == Flatten(rows) + row
  {
    FlattenAppend(rows, [row]);
    FlattenHead([row]);
  }

  // Finished rows are never touched again.
  lemma {:induction false} RowsGrow(w: Widths, width: nat, text: string, n: nat)
    requires n <= |text|
    ensures WrapFold(w, width, text[..n]).rows <= WrapFold(w, width, text).rows
    decreases |text| - n
  {
    if n == |text| {
      assert text[..n] == text;
    } else {
      WrapNext(w, width, text, n);
      RowsGrow(w, width, text, n + 1);
    }
  }

  lemma RowBegins(w: Widths, width: nat, text: string, n: nat, row: int, done: seq<string>)
    requires width >= 1 && n <= |text| && |done| == Max(0, row) && |Flatten(done)| == n
    requires done <= WrapFold(w, width, text).rows
    ensures n == RowStart(RowsOf(w, width, text), row)
  {
    assert done <= RowsOf(w, width, text);
    assert RowsOf(w, width, text)[..Max(0, row)] == done;
  }

  lemma LineEnds(w: Widths, width: nat, text: string, row: int)
    requires width >= 1 && TabFree(text)
    requires var st := WrapFold(w, width, text);
      |st.rows| <= Max(0, row) && (|st.rows| == Max(0, row) ==> st.row == "")
    ensures |text| == RowStart(RowsOf(w, width, text), row)
  {
    var st := WrapFold(w, width, text);
    RowsHoldText(w, width, text);
    PushText(st.rows, st.row);
    if st.rows == [] && row <= 0 {
      assert text == "";
    } else {
      assert |Finished(st)| <= Max(0, row);
      assert Finished(st)[..|Finished(st)|] == Finished(st);
    }
  }

  method ColumnForWrappedRow(w: Widths, text: string, row: int, width: int) returns (column: nat)
    ensures TabFree(text) && width >= 1 ==> column == RowStart(RowsOf(w, width, text), row)
    ensures width < 1 ==> column == Min(Max(0, row), |text|)
  {
    hide WrapFold, RowsOf, RowStart, Flatten;
    ghost var plain := TabFree(text) && width >= 1;
    ghost var field: nat := Max(1, width);
    var cells, current := 0, 0;
    WrapNothing(w, field);
    FlattenNothing();
    for n := 0 to |text|
      invariant cells >= 0
      invariant width < 1 ==> cells == 0 && current == n <= Max(0, row)
      invariant plain ==>
        var st := WrapFold(w, field, text[..n]);
        && current == |st.rows| <= Max(0, row)
        && cells == st.cells
        && (current == Max(0, row) ==> st.row == "")
    {
      ghost var st := WrapFold(w, field, text[..n]);
      var c := text[n];
      WrapNext(w, field, text, n);
      if plain {
        RowsGrow(w, field, text, n);
        RowsGrow(w, field, text, n + 1);
        RowsHoldText(w, field, text[..n]);
        PushText(st.rows, st.row);
      }
      if current >= row {
        if plain {
          RowBegins(w, field, text, n, row, st.rows);
        }
        return n;
      }
      var amount := if c == '\t' then 8 - cells % 8 else w(c);
      if cells > 0 && cells + amount > width {
        current := current + 1;
        cells := 0;
        if current >= row {
          if plain {
            RowBegins(w, field, text, n, row, st.rows + [st.row]);
          }
          return n;
        }
        if c == '\t' {
          amount := 8;
        }
      }
      cells := cells + amount;
      if cells >= width {
        current := current + 1;
        cells := 0;
      }
    }
    assert text[..|text|] == text;
    if plain {
      LineEnds(w, field, text, row);
    }
    return |text|;
  }

  // Row and cell of a source column: rows finished before it, and cells in the row being filled.
  function PositionOf(w: Widths, width: nat, text: string, column: int): (int, int) {
    var st := WrapFold(w, width, text[..Before(text, column)]);
    (|st.rows|, st.cells)
  }

  function Wide(w: Widths, text: string): nat {
    if text == "" then 0 else Wide(w, text[..|text| - 1]) + if w(text[|text| - 1]) == 2 then 1 else 0
  }

  ghost function WideIndices(w: Widths, text: string, n: nat): set<int>
    requires n <= |text|
  {
    set i | 0 <= i < n && w(text[i]) == 2
  }

  lemma WideIndicesNext(w: Widths, text: string, n: nat)
    requires n < |text|
    ensures |WideIndices(w, text, n + 1)| == |WideIndices(w, text, n)| + if w(text[n]) == 2 then 1 else 0
  {
    var before := WideIndices(w, text, n);
    assert WideIndices(w, text, n + 1) == if w(text[n]) == 2 then before + {n} else before;
  }

  lemma {:induction false} WideCounts(w: Widths, text: string, n: nat)
    requires n <= |text|
    ensures Wide(w, text[..n]) == |WideIndices(w, text, n)|
    ensures Wide(w, text[..n]) == 0 <==> forall i :: 0 <= i < n ==> w(text[i]) != 2
  {
    if n == 0 {
      assert text[..0] == "";
      assert WideIndices(w, text, 0) == {};
    } else {
      WideCounts(w, text, n - 1);
      WideNext(w, text, n - 1);
      WideIndicesNext(w, text, n - 1);
      hide *;
    }
  }

  lemma WideNext(w: Widths, text: string, n: nat)
    requires n < |text|
    ensures Wide(w, text[..n + 1]) == Wide(w, text[..n]) + if w(text[n]) == 2 then 1 else 0
  {
    assert text[..n + 1][..n] == text[..n];
  }

  // The rows this function counts and the wrapping does not: in a field of one cell, a two-cell character
  // leaves its row and fills the next one.
  function Excess(w: Widths, field: nat, text: string): nat {
    if field == 1 then Wide(w, text) else 0
  }

  // Tab-free, the position is that of the wrapping exactly when the field has two cells or the text before
  // the column has no two-cell character; otherwise it is lower by one row for each of them.
  method WrappedRowForColumn(w: Widths, text: string, column: int, width: int) returns (row: int, cells: int)
    ensures
      var n := if column <= 0 then 0 else if column <= |text| then column else |text|;
      TabFree(text[..n]) ==>
        var (wrapped, rest) := PositionOf(w, if width < 1 then 1 else width, text, column);
        && cells == rest
        && row == wrapped + (if width >= 2 then 0 else |set i | 0 <= i < n && w(text[i]) == 2|)
        && (row == wrapped <==> width >= 2 || forall i :: 0 <= i < n ==> w(text[i]) != 2)
  {
    hide WrapFold, Wide;
    var field := Max(1, width);
    var prefix := text[..Before(text, column)];
    WideCounts(w, text, |prefix|);
    assert WideIndices(w, text, |prefix|) == set i | 0 <= i < |prefix| && w(text[i]) == 2;
    ghost var plain := TabFree(prefix);
    row, cells := 0, 0;
    WrapNothing(w, field);
    NothingWide(w);
    for n := 0 to |prefix|
      invariant cells >= 0
      invariant plain ==> Counted(w, field, prefix[..n], row, cells)
    {
      var c := prefix[n];
      if plain {
        CountNext(w, field, prefix, n, row, cells);
      }
      var amount := if c == '\t' then 8 - cells % 8 else w(c);
      if cells + amount > field {
        row := row + 1;
        cells := 0;
      }
      cells := cells + amount;
      if cells >= field {
        row := row + 1;
        cells := 0;
      }
    }
    assert prefix[..|prefix|] == prefix;
  }

  lemma NothingWide(w: Widths)
    ensures Wide(w, "") == 0
  {
  }

  ghost predicate Counted(w: Widths, field: nat, text: string, row: int, cells: int) {
    var st := WrapFold(w, field, text);
    0 <= cells < field && cells == st.cells && row == |st.rows| + Excess(w, field, text)
  }

  // One turn of the loop on a character that is not a tab.
  function Turn(row: int, cells: int, amount: int, field: nat): (int, int) {
    var (r, c) := if cells + amount > field then (row + 1, amount) else (row, cells + amount);
    if c >= field then (r + 1, 0) else (r, c)
  }

  lemma CountNext(w: Widths, field: nat, text: string, n: nat, row: int, cells: int)
    requires n < |text| && field >= 1 && text[n] != '\t' && Counted(w, field, text[..n], row, cells)
    ensures var (r, c) := Turn(row, cells, w(text[n]), field); Counted(w, field, text[..n + 1], r, c)
  {
    WrapNext(w, field, text, n);
    WideNext(w, text, n);
    hide WrapFold, Wide;
  }

  // A two-cell character did not fit in the last cell of the row above and starts this one.
  predicate PushedDown(w: Widths, width: int, above: string, row: string) {
    CellWidth(w, above) == width - 1 && row != "" && w(row[0]) == 2
  }

  // The start of every row maps back to that row and cell 0, except that after a push it maps to the
  // empty last cell of the row above.
  lemma MapsInvert(w: Widths, line: string, width: nat, r: nat)
    requires TabFree(line) && Narrow(w, width, line) && r < |RowsOf(w, width, line)|
    ensures var rows := RowsOf(w, width, line);
      PositionOf(w, width, line, RowStart(rows, r)) ==
        if r > 0 && PushedDown(w, width, rows[r - 1], rows[r]) then (r - 1, width - 1) else (r, 0)
  {
    hide WrapFold, RowFits, IsWrapping, Flatten;
    var rows := RowsOf(w, width, line);
    RowsAreTheWrapping(w, width, line, rows);
    WrapNothing(w, width);
    FlattenNothing();
    if r > 0 {
      RowsOfPrefix(w, line, width, r);
    }
  }

  lemma RowsOfPrefix(w: Widths, line: string, width: nat, r: nat)
    requires TabFree(line) && Narrow(w, width, line) && 0 < r < |RowsOf(w, width, line)|
    ensures var rows := RowsOf(w, width, line);
      PositionOf(w, width, line, RowStart(rows, r)) ==
        if PushedDown(w, width, rows[r - 1], rows[r]) then (r - 1, width - 1) else (r, 0)
  {
    hide WrapFold, RowFits, Flatten;
    var rows := RowsOf(w, width, line);
    RowsAreTheWrapping(w, width, line, rows);
    var done, rest := rows[..r], rows[r..];
    assert rows == done + rest;
    FlattenAppend(done, rest);
    var k := RowStart(rows, r);
    var prefix := line[..k];
    assert Flatten(done) == prefix == line[..Before(line, k)];
    assert IsWrapping(w, width, done);
    FlattenHead(done);
    RowHasText(w, width, rows[0]);
    RowsAreTheWrapping(w, width, prefix, done);
    WrapFoldKeeps(w, width, prefix);
    assert BreaksBefore(w, width, rows[r - 1], rows[r]);
    var st := WrapFold(w, width, prefix);
    assert done[|done| - 1] == rows[r - 1];
    if st.row == "" {
      assert st.rows == done;
    } else {
      assert st.rows + [st.row] == done;
    }
  }

  // The open row only grows, and is finished as it is.
  lemma {:induction false} OpenRowGrows(w: Widths, width: nat, text: string, n: nat)
    requires n <= |text|
    ensures Continued(WrapFold(w, width, text[..n]), WrapFold(w, width, text))
  {
    hide WrapStep;
    if n == |text| {
      assert text[..n] == text;
    } else {
      var front, c := text[..|text| - 1], text[|text| - 1];
      assert front[..n] == text[..n];
      OpenRowGrows(w, width, front, n);
      OpenRowStep(w, width, WrapFold(w, width, text[..n]), WrapFold(w, width, front), c);
    }
  }

  // `end` continues `st`: its finished rows are still there, and its open row is finished or still open.
  predicate Continued(st: Rows, end: Rows) {
    && st.rows <= end.rows
    && st.row <= if |end.rows| > |st.rows| then end.rows[|st.rows|] else end.row
  }

  lemma OpenRowStep(w: Widths, width: nat, st: Rows, end: Rows, c: char)
    requires Continued(st, end)
    ensures Continued(st, WrapStep(w, width, end, c))
  {
    hide Chars, Amount;
  }

  // The fold over a prefix, seen in the rows of the whole line.
  lemma PrefixInRows(w: Widths, line: string, width: nat, column: nat)
    requires TabFree(line) && width >= 1 && column <= |line|
    ensures var rows, st := RowsOf(w, width, line), WrapFold(w, width, line[..column]);
      && st.rows <= rows
      && (|st.rows| < |rows| ==> st.row <= rows[|st.rows|])
      && Flatten(st.rows) + st.row == line[..column]
      && Flatten(rows) == line
  {
    hide WrapFold, Flatten;
    OpenRowGrows(w, width, line, column);
    RowsHoldText(w, width, line[..column]);
    RowsHoldText(w, width, line);
    var end := WrapFold(w, width, line);
    PushText(end.rows, end.row);
    assert end.row == "" ==> Flatten(end.rows) == line;
  }

  // A source column maps to the row that holds it and to the cells between the start of that row and the column.
  lemma PositionIsExact(w: Widths, line: string, width: nat, column: nat)
    requires TabFree(line) && Narrow(w, width, line) && column <= |line|
    ensures var rows, (row, cells) := RowsOf(w, width, line), PositionOf(w, width, line, column);
      && 0 <= row <= |rows|
      && RowStart(rows, row) <= column <= RowStart(rows, row + 1)
      && cells == CellWidth(w, line[RowStart(rows, row)..column]) < width
  {
    PrefixInRows(w, line, width, column);
    WrapFoldKeeps(w, width, line[..column]);
    hide WrapFold, RowsOf, IsWrapping, Flatten, BreaksBefore, CellWidth;
    var rows, st := RowsOf(w, width, line), WrapFold(w, width, line[..column]);
    var row := |st.rows|;
    RowStarts(rows, st.rows, row);
    assert line[|Flatten(st.rows)|..column] == st.row;
  }

  lemma RowStarts(rows: seq<string>, done: seq<string>, row: nat)
    requires done <= rows && row == |done|
    ensures RowStart(rows, row) == |Flatten(done)|
    ensures RowStart(rows, row + 1) == if row < |rows| then |Flatten(done)| + |rows[row]| else |Flatten(rows)|
  {
    hide Flatten;
    assert rows[..row] == done && rows[..|rows|] == rows;
    if row < |rows| {
      assert rows[..row + 1] == done + [rows[row]];
      PushText(done, rows[row]);
    }
  }
}
