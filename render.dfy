/** The drawing half of `generateAsciiTableWrapped`: padding, border lines, header
    lines with spanning cells and the data lines of every record. */
module Render {
  import opened Text
  import opened JsonValues
  import opened HeaderRows
  import opened WordWrap

  // ---------------------------------------------------------------- pad

  datatype Align = Left | Center | Right

  /** `pad(str, width, align)`: a string at least as long as `width`, filled with
      spaces; centred text gets the smaller half of the filling on its left. */
  function Pad(s: string, width: nat, align: Align): (r: string)
    ensures |s| >= width ==> r == s
    ensures |s| < width ==> |r| == width
    ensures |s| < width && align == Left ==> r[..|s|] == s && IsBlank(r[|s|..])
    ensures |s| < width && align == Right ==> r[width - |s|..] == s && IsBlank(r[..width - |s|])
    ensures |s| < width && align == Center ==>
              var before := (width - |s|) / 2;
              r[before..before + |s|] == s && IsBlank(r[..before]) && IsBlank(r[before + |s|..])
  {
    if |s| >= width then s
    else
      var space := Repeat(' ', width - |s|);
      match align
      case Center => space[..|space| / 2] + s + space[|space| / 2..]
      case Right => space + s
      case Left => s + space
  }

  // ---------------------------------------------------------------- widths of lines

  /** `columnWidths[col] + 2` summed over the columns. */
  function SumWidths(ws: seq<nat>): nat
  {
    if ws == [] then 0 else ws[0] + 2 + SumWidths(ws[1..])
  }

  lemma {:induction false} SumWidthsAppend(a: seq<nat>, b: seq<nat>)
    ensures SumWidths(a + b) == SumWidths(a) + SumWidths(b)
    decreases |a|
  {
    if a == [] {
      assert a + b == b;
    } else {
      assert (a + b)[1..] == a[1..] + b;
      SumWidthsAppend(a[1..], b);
    }
  }

  /** The length of every full-width line of the table, its newline included. */
  function LineLength(ws: seq<nat>): nat
  {
    if ws == [] then 3 else SumWidths(ws) + |ws| + 2
  }

  lemma {:induction false} SumLengthsOf(pieces: seq<string>, ws: seq<nat>)
    requires |pieces| == |ws|
    requires forall i :: 0 <= i < |ws| ==> |pieces[i]| == ws[i] + 2
    ensures SumLengths(pieces) == SumWidths(ws)
    decreases |ws|
  {
    if ws != [] {
      SumLengthsOf(pieces[1..], ws[1..]);
    }
  }

  /** A line made of one piece per column, each as wide as its column plus its two
      margins, between the outer frame characters, is a full-width line. */
  lemma FrameLength(l: string, pieces: seq<string>, sep: string, r: string, ws: seq<nat>)
    requires |l| == 1 && |sep| == 1 && |r| == 1
    requires |pieces| == |ws|
    requires forall i :: 0 <= i < |ws| ==> |pieces[i]| == ws[i] + 2
    ensures |l + Join(pieces, sep) + r + "\n"| == LineLength(ws)
  {
    if ws != [] {
      JoinLength(pieces, sep);
      SumLengthsOf(pieces, ws);
    }
  }

  // ---------------------------------------------------------------- drawLine

  function Segments(ws: seq<nat>): (r: seq<string>)
    ensures |r| == |ws|
    ensures forall i :: 0 <= i < |ws| ==> r[i] == Repeat('─', ws[i] + 2)
  {
    seq(|ws|, i requires 0 <= i < |ws| => Repeat('─', ws[i] + 2))
  }

  /** `drawLine(left, middle, right)`. */
  function Border(ws: seq<nat>, left: string, middle: string, right: string): string
  {
    left + Join(Segments(ws), middle) + right + "\n"
  }

  function Top(ws: seq<nat>): string { Border(ws, "┌", "┬", "┐") }
  function Middle(ws: seq<nat>): string { Border(ws, "├", "┼", "┤") }
  function Bottom(ws: seq<nat>): string { Border(ws, "└", "┴", "┘") }

  /** Every border is a full-width line. */
  lemma BorderLength(ws: seq<nat>)
    ensures |Top(ws)| == LineLength(ws)
    ensures |Middle(ws)| == LineLength(ws)
    ensures |Bottom(ws)| == LineLength(ws)
  {
    FrameLength("┌", Segments(ws), "┬", "┐", ws);
    FrameLength("├", Segments(ws), "┼", "┤", ws);
    FrameLength("└", Segments(ws), "┴", "┘", ws);
  }

  // ---------------------------------------------------------------- header lines

  /** How wide a spanning header cell is drawn: as written, the widths of its
      columns plus their margins; corrected, the separators between those columns
      as well. */
  datatype SpanWidth = ColumnsOnly | WithSeparators

  function MinNat(a: nat, b: nat): nat
  {
    if a <= b then a else b
  }

  /** The columns a header cell covers: `leafColumns.slice(colIndex, colIndex + span)`. */
  function Covered(ws: seq<nat>, from: nat, span: nat): (r: seq<nat>)
    ensures from + span <= |ws| ==> r == ws[from..from + span]
  {
    ws[MinNat(from, |ws|)..MinNat(from + span, |ws|)]
  }

  /** The width a header cell is padded to. */
  function CellWidth(ws: seq<nat>, from: nat, span: nat, mode: SpanWidth): nat
  {
    var covered := Covered(ws, from, span);
    if mode == ColumnsOnly || covered == [] then SumWidths(covered)
    else SumWidths(covered) + |covered| - 1
  }

  /** The padded text of cell `j` of a header row; its columns start after the spans
      of the cells before it. */
  function HeaderPiece(row: seq<Cell>, j: nat, ws: seq<nat>, mode: SpanWidth): string
    requires j < |row|
  {
    Pad(row[j].text, CellWidth(ws, SumSpans(row[..j]), row[j].span, mode), Center)
  }

  function HeaderPieces(row: seq<Cell>, ws: seq<nat>, mode: SpanWidth): (r: seq<string>)
    ensures |r| == |row|
    ensures forall j :: 0 <= j < |row| ==> r[j] == HeaderPiece(row, j, ws, mode)
  {
    seq(|row|, j requires 0 <= j < |row| => HeaderPiece(row, j, ws, mode))
  }

  /** One header line. */
  function HeaderLine(row: seq<Cell>, ws: seq<nat>, mode: SpanWidth): string
  {
    "│" + Join(HeaderPieces(row, ws, mode), "│") + "│\n"
  }

  /** One header line as the code draws it: a spanning cell is padded to the widths
      of its columns and their margins only. */
  method HeaderLineOf(row: seq<Cell>, ws: seq<nat>) returns (line: string)
    ensures line == HeaderLine(row, ws, ColumnsOnly)
  {
    var colIndex := 0;
    var pieces: seq<string> := [];
    for j := 0 to |row|
      invariant colIndex == SumSpans(row[..j])
      invariant |pieces| == j
      invariant forall i :: 0 <= i < j ==> pieces[i] == HeaderPiece(row, i, ws, ColumnsOnly)
    {
      var cell := row[j];
      var width := SumWidths(Covered(ws, colIndex, cell.span));
      var padded := Pad(cell.text, width, Center);
      assert row[..j + 1][..j] == row[..j];
      colIndex := colIndex + cell.span;
      pieces := pieces + [padded];
    }
    assert pieces == HeaderPieces(row, ws, ColumnsOnly);
    line := "│" + Join(pieces, "│") + "│\n";
  }

  /** The cells of a header row partition the columns. */
  predicate Partitions(row: seq<Cell>, ws: seq<nat>)
  {
    SumSpans(row) == |ws| && forall j :: 0 <= j < |row| ==> row[j].span >= 1
  }

  /** Every label is no longer than the width its cell is padded to. */
  predicate LabelsFit(row: seq<Cell>, ws: seq<nat>, mode: SpanWidth)
  {
    forall j :: 0 <= j < |row| ==> LabelFits(row, ws, mode, j)
  }

  predicate LabelFits(row: seq<Cell>, ws: seq<nat>, mode: SpanWidth, j: nat)
    requires j < |row|
  {
    |row[j].text| <= CellWidth(ws, SumSpans(row[..j]), row[j].span, mode)
  }

  lemma SumSpansPrefix(row: seq<Cell>, j: nat)
    requires j < |row|
    ensures SumSpans(row[..j + 1]) == SumSpans(row[..j]) + row[j].span
    ensures SumSpans(row[..j + 1]) <= SumSpans(row)
  {
    assert row[..j + 1][..j] == row[..j];
    SumSpansAppend(row[..j + 1], row[j + 1..]);
    assert row[..j + 1] + row[j + 1..] == row;
  }

  /** The pieces before cell `k` cover the first `SumSpans(row[..k])` columns. */
  lemma {:induction false} HeaderPiecesLength(row: seq<Cell>, ws: seq<nat>, mode: SpanWidth, k: nat)
    requires Partitions(row, ws) && LabelsFit(row, ws, mode)
    requires k <= |row|
    ensures SumSpans(row[..k]) <= |ws|
    ensures SumLengths(HeaderPieces(row, ws, mode)[..k]) ==
              SumWidths(ws[..SumSpans(row[..k])]) +
              (if mode == WithSeparators then SumSpans(row[..k]) - k else 0)
    decreases k
  {
    var pieces := HeaderPieces(row, ws, mode);
    if k == 0 {
      assert row[..0] == [];
      assert pieces[..0] == [];
    } else {
      var j := k - 1;
      HeaderPiecesLength(row, ws, mode, j);
      SumSpansPrefix(row, j);
      assert row[j].span >= 1;
      assert LabelFits(row, ws, mode, j);
      PiecesStep(row, ws, mode, j);
    }
  }

  /** Cell `j` adds its padded width to the pieces before it and its covered columns
      to the columns before it. */
  lemma PiecesStep(row: seq<Cell>, ws: seq<nat>, mode: SpanWidth, j: nat)
    requires j < |row| && row[j].span >= 1
    requires SumSpans(row[..j]) + row[j].span <= |ws|
    requires LabelFits(row, ws, mode, j)
    ensures var a := SumSpans(row[..j]);
            var b := a + row[j].span;
            var pieces := HeaderPieces(row, ws, mode);
            SumLengths(pieces[..j + 1]) == SumLengths(pieces[..j]) + SumWidths(ws[a..b]) +
              (if mode == WithSeparators then row[j].span - 1 else 0) &&
            SumWidths(ws[..b]) == SumWidths(ws[..a]) + SumWidths(ws[a..b])
  {
    var pieces := HeaderPieces(row, ws, mode);
    var a := SumSpans(row[..j]);
    var b := a + row[j].span;
    PieceWidth(row, ws, mode, j);
    assert pieces[j] == HeaderPiece(row, j, ws, mode);
    SumLengthsPrefix(pieces, j);
    SumWidthsSplit(ws, a, b);
  }

  lemma SumLengthsPrefix(pieces: seq<string>, j: nat)
    requires j < |pieces|
    ensures SumLengths(pieces[..j + 1]) == SumLengths(pieces[..j]) + |pieces[j]|
  {
    SumLengthsSnoc(pieces[..j], pieces[j]);
    assert pieces[..j + 1] == pieces[..j] + [pieces[j]];
  }

  lemma SumWidthsSplit(ws: seq<nat>, a: nat, b: nat)
    requires a <= b <= |ws|
    ensures SumWidths(ws[..b]) == SumWidths(ws[..a]) + SumWidths(ws[a..b])
  {
    assert ws[..b] == ws[..a] + ws[a..b];
    SumWidthsAppend(ws[..a], ws[a..b]);
  }

  /** A fitting label is padded to exactly its cell's width. */
  lemma PieceWidth(row: seq<Cell>, ws: seq<nat>, mode: SpanWidth, j: nat)
    requires j < |row| && row[j].span >= 1
    requires SumSpans(row[..j]) + row[j].span <= |ws|
    requires |row[j].text| <= CellWidth(ws, SumSpans(row[..j]), row[j].span, mode)
    ensures |HeaderPiece(row, j, ws, mode)| ==
              SumWidths(ws[SumSpans(row[..j])..SumSpans(row[..j]) + row[j].span]) +
              (if mode == WithSeparators then row[j].span - 1 else 0)
  {
    var from := SumSpans(row[..j]);
    var span := row[j].span;
    var covered := Covered(ws, from, span);
    assert |covered| == span;
    var cw := CellWidth(ws, from, span, mode);
    assert cw == SumWidths(covered) + (if mode == WithSeparators then span - 1 else 0);
  }

  lemma {:induction false} SumLengthsSnoc(parts: seq<string>, x: string)
    ensures SumLengths(parts + [x]) == SumLengths(parts) + |x|
    decreases |parts|
  {
    if parts == [] {
      assert [x][1..] == [];
    } else {
      assert (parts + [x])[1..] == parts[1..] + [x];
      SumLengthsSnoc(parts[1..], x);
    }
  }

  /** With the separators counted, a header line whose cells partition the columns
      and whose labels fit is exactly as long as the borders. */
  lemma HeaderLineFull(row: seq<Cell>, ws: seq<nat>)
    requires row != [] && Partitions(row, ws) && LabelsFit(row, ws, WithSeparators)
    ensures |HeaderLine(row, ws, WithSeparators)| == LineLength(ws)
  {
    HeaderLineLength(row, ws, WithSeparators);
  }

  /** As written, a header line is one character short of the borders for every
      column a spanning cell covers beyond its first. */
  lemma HeaderLineShort(row: seq<Cell>, ws: seq<nat>)
    requires row != [] && Partitions(row, ws) && LabelsFit(row, ws, ColumnsOnly)
    ensures |HeaderLine(row, ws, ColumnsOnly)| + (|ws| - |row|) == LineLength(ws)
    ensures |row| <= |ws|
  {
    HeaderLineLength(row, ws, ColumnsOnly);
  }

  lemma HeaderLineLength(row: seq<Cell>, ws: seq<nat>, mode: SpanWidth)
    requires row != [] && Partitions(row, ws) && LabelsFit(row, ws, mode)
    ensures |row| <= |ws| && ws != []
    ensures |HeaderLine(row, ws, mode)| ==
              SumWidths(ws) + |row| + 2 + (if mode == WithSeparators then |ws| - |row| else 0)
  {
    var pieces := HeaderPieces(row, ws, mode);
    HeaderPiecesLength(row, ws, mode, |row|);
    assert row[..|row|] == row && pieces[..|row|] == pieces && ws[..|ws|] == ws;
    SpansAtLeastCells(row);
    JoinLength(pieces, "│");
  }

  lemma {:induction false} SpansAtLeastCells(row: seq<Cell>)
    requires forall j :: 0 <= j < |row| ==> row[j].span >= 1
    ensures SumSpans(row) >= |row|
    decreases |row|
  {
    if row != [] {
      SpansAtLeastCells(row[..|row| - 1]);
    }
  }

  // ---------------------------------------------------------------- data lines

  /** An element of an array cell as `Array.prototype.join` writes it. */
  function ElementJoinText(v: Json): string
  {
    if v.Undefined? || v.Null? then "" else ToText(v)
  }

  /** `Array.isArray(cell) ? cell.join(", ") : cell`, then an object stringified. */
  function CellValue(cell: Json, stringify: Json -> string): (r: Json)
    ensures !cell.Arr? && !cell.Obj? ==> r == cell
    ensures cell.Arr? || cell.Obj? ==> r.Str?
  {
    if cell.Arr? then
      Str(Join(seq(|cell.items|, i requires 0 <= i < |cell.items| => ElementJoinText(cell.items[i])), ", "))
    else if cell.Obj? then Str(stringify(cell))
    else cell
  }

  predicate Positive(ws: seq<nat>)
  {
    forall i :: 0 <= i < |ws| ==> ws[i] > 0
  }

  /** `wrappedRow`: every cell of a sub-row wrapped at its column's width. */
  function WrappedCells(cells: seq<Json>, ws: seq<nat>, flush: Flush, stringify: Json -> string): (r: seq<seq<string>>)
    requires |cells| <= |ws| && Positive(ws)
    ensures |r| == |cells|
  {
    seq(|cells|, i requires 0 <= i < |cells| => WrapWith(Display(CellValue(cells[i], stringify)), ws[i], flush))
  }

  /** `Math.max(...wrappedRow.map((lines) => lines.length))`; with no cells the loop
      over lines runs no time, as with 0. */
  function RowHeight(wrapped: seq<seq<string>>): (h: nat)
    ensures forall i :: 0 <= i < |wrapped| ==> |wrapped[i]| <= h
    ensures wrapped == [] ==> h == 0
    ensures wrapped != [] ==> exists i :: 0 <= i < |wrapped| && |wrapped[i]| == h
    decreases |wrapped|
  {
    if wrapped == [] then 0
    else
      var init := wrapped[..|wrapped| - 1];
      var h0 := RowHeight(init);
      var last := |wrapped[|wrapped| - 1]|;
      assert forall i :: 0 <= i < |init| ==> wrapped[i] == init[i];
      if last > h0 then last else h0
  }

  /** What line `lineIdx` of sub-row `rowIdx` shows in column `idx`: the `user_id`
      column only on the first line of the first sub-row. */
  function CellLine(lines: seq<string>, col: string, rowIdx: nat, lineIdx: nat): string
  {
    if col == "user_id" && (rowIdx > 0 || lineIdx > 0) then ""
    else if lineIdx < |lines| then lines[lineIdx]
    else ""
  }

  function DataPiece(wrapped: seq<seq<string>>, columns: seq<string>, ws: seq<nat>, idx: nat, rowIdx: nat, lineIdx: nat): string
    requires idx < |wrapped| && |wrapped| <= |columns| && |wrapped| <= |ws|
  {
    " " + Pad(CellLine(wrapped[idx], columns[idx], rowIdx, lineIdx), ws[idx], Left) + " "
  }

  function DataPieces(wrapped: seq<seq<string>>, columns: seq<string>, ws: seq<nat>, rowIdx: nat, lineIdx: nat): (r: seq<string>)
    requires |wrapped| <= |columns| && |wrapped| <= |ws|
    ensures |r| == |wrapped|
    ensures forall i :: 0 <= i < |wrapped| ==> r[i] == DataPiece(wrapped, columns, ws, i, rowIdx, lineIdx)
  {
    seq(|wrapped|, i requires 0 <= i < |wrapped| => DataPiece(wrapped, columns, ws, i, rowIdx, lineIdx))
  }

  /** One data line. */
  function DataLine(wrapped: seq<seq<string>>, columns: seq<string>, ws: seq<nat>, rowIdx: nat, lineIdx: nat): string
    requires |wrapped| <= |columns| && |wrapped| <= |ws|
  {
    "│" + Join(DataPieces(wrapped, columns, ws, rowIdx, lineIdx), "│") + "│\n"
  }

  /** The lines one sub-row takes: as many as its tallest wrapped cell. */
  function SubRowLines(cells: seq<Json>, columns: seq<string>, ws: seq<nat>, rowIdx: nat, flush: Flush, stringify: Json -> string): (r: seq<string>)
    requires |cells| == |columns| == |ws| && Positive(ws)
  {
    var wrapped := WrappedCells(cells, ws, flush, stringify);
    seq(RowHeight(wrapped), l requires 0 <= l < RowHeight(wrapped) => DataLine(wrapped, columns, ws, rowIdx, l))
  }

  /** The lines of a record's sub-rows, in order. */
  function RecordLines(subRows: seq<seq<Json>>, columns: seq<string>, ws: seq<nat>, flush: Flush, stringify: Json -> string): seq<string>
    requires |columns| == |ws| && Positive(ws)
    requires forall s :: 0 <= s < |subRows| ==> |subRows[s]| == |columns|
    decreases |subRows|
  {
    if subRows == [] then []
    else
      var k := |subRows| - 1;
      RecordLines(subRows[..k], columns, ws, flush, stringify) + SubRowLines(subRows[k], columns, ws, k, flush, stringify)
  }

  // ---------------------------------------------------------------- properties of data lines

  /** Every line of every wrapped cell fits its column. */
  predicate CellsFit(wrapped: seq<seq<string>>, ws: seq<nat>)
    requires |wrapped| <= |ws|
  {
    forall i :: 0 <= i < |wrapped| ==> LinesFit(wrapped[i], ws[i])
  }

  predicate LinesFit(lines: seq<string>, w: nat)
  {
    forall l :: 0 <= l < |lines| ==> |lines[l]| <= w
  }

  /** A data line is as long as the borders whenever every wrapped piece fits its
      column's width. */
  lemma DataLineLength(wrapped: seq<seq<string>>, columns: seq<string>, ws: seq<nat>, rowIdx: nat, lineIdx: nat)
    requires |wrapped| == |columns| == |ws| && CellsFit(wrapped, ws)
    ensures |DataLine(wrapped, columns, ws, rowIdx, lineIdx)| == LineLength(ws)
  {
    var pieces := DataPieces(wrapped, columns, ws, rowIdx, lineIdx);
    forall i | 0 <= i < |ws|
      ensures |pieces[i]| == ws[i] + 2
    {
      assert LinesFit(wrapped[i], ws[i]);
    }
    FrameLength("│", pieces, "│", "│", ws);
  }

  /** Corrected: wrapping at the column's own width with the trimmed flush keeps
      every data line as long as the borders. */
  lemma DataLineFull(cells: seq<Json>, columns: seq<string>, ws: seq<nat>, rowIdx: nat, lineIdx: nat, stringify: Json -> string)
    requires |cells| == |columns| == |ws| && Positive(ws)
    ensures |DataLine(WrappedCells(cells, ws, Trimmed, stringify), columns, ws, rowIdx, lineIdx)| == LineLength(ws)
  {
    var wrapped := WrappedCells(cells, ws, Trimmed, stringify);
    forall i | 0 <= i < |ws|
      ensures LinesFit(wrapped[i], ws[i])
    {
      assert wrapped[i] == Wrap(Display(CellValue(cells[i], stringify)), ws[i]);
      WrapWidth(Display(CellValue(cells[i], stringify)), ws[i]);
    }
    DataLineLength(wrapped, columns, ws, rowIdx, lineIdx);
  }

  /** As written, a data line is never shorter than the borders: padding never cuts. */
  lemma DataLineAtLeast(wrapped: seq<seq<string>>, columns: seq<string>, ws: seq<nat>, rowIdx: nat, lineIdx: nat)
    requires |wrapped| == |columns| == |ws|
    ensures |DataLine(wrapped, columns, ws, rowIdx, lineIdx)| >= LineLength(ws)
  {
    var pieces := DataPieces(wrapped, columns, ws, rowIdx, lineIdx);
    if ws != [] {
      JoinLength(pieces, "│");
      SumLengthsAtLeast(pieces, ws);
    }
  }

  lemma {:induction false} SumLengthsAtLeast(pieces: seq<string>, ws: seq<nat>)
    requires |pieces| == |ws|
    requires forall i :: 0 <= i < |ws| ==> |pieces[i]| >= ws[i] + 2
    ensures SumLengths(pieces) >= SumWidths(ws)
    decreases |ws|
  {
    if ws != [] {
      SumLengthsAtLeast(pieces[1..], ws[1..]);
    }
  }

  /** In a table of one column, other than `user_id`, the first data line overruns
      the borders by as much as the first wrapped line overruns the width. */
  lemma OneColumnLine(lines: seq<string>, col: string, w: nat)
    requires lines != [] && col != "user_id"
    ensures |DataLine([lines], [col], [w], 0, 0)| == LineLength([w]) + (if |lines[0]| > w then |lines[0]| - w else 0)
  {
    var pieces := DataPieces([lines], [col], [w], 0, 0);
    assert pieces == [" " + Pad(lines[0], w, Left) + " "];
    assert Join(pieces, "│") == pieces[0];
    assert SumWidths([w]) == w + 2 by {
      assert [w][1..] == [];
    }
  }

  /** As written, a data line can be longer than the borders: at width 3 the cell
      "a    bcde" wraps to " a   ", "bcd", "e", and its first line overruns by 2. */
  lemma DataLineOverrun()
    ensures |DataLine([WrapAsWritten("a    bcde", 3)], ["x"], [3], 0, 0)| == LineLength([3]) + 2
    ensures |DataLine([Wrap("a    bcde", 3)], ["x"], [3], 0, 0)| == LineLength([3])
  {
    OverrunExample();
    OneColumnLine(WrapAsWritten("a    bcde", 3), "x", 3);
    OneColumnLine(Wrap("a    bcde", 3), "x", 3);
  }

  /** A data line opens with the `│` frame. */
  lemma DataLineStarts(wrapped: seq<seq<string>>, columns: seq<string>, ws: seq<nat>, rowIdx: nat, lineIdx: nat)
    requires |wrapped| <= |columns| && |wrapped| <= |ws|
    ensures |DataLine(wrapped, columns, ws, rowIdx, lineIdx)| > 0 && DataLine(wrapped, columns, ws, rowIdx, lineIdx)[0] == '│'
  {
    var pieces := DataPieces(wrapped, columns, ws, rowIdx, lineIdx);
    assert DataLine(wrapped, columns, ws, rowIdx, lineIdx) == "│" + (Join(pieces, "│") + "│\n");
  }

  /** The `user_id` column shows its value once per record: on every other line of
      the record its piece is blank. */
  lemma UserIdOnce(wrapped: seq<seq<string>>, columns: seq<string>, ws: seq<nat>, idx: nat, rowIdx: nat, lineIdx: nat)
    requires idx < |wrapped| && |wrapped| <= |columns| && |wrapped| <= |ws|
    requires columns[idx] == "user_id" && (rowIdx > 0 || lineIdx > 0)
    ensures DataPiece(wrapped, columns, ws, idx, rowIdx, lineIdx) == " " + Repeat(' ', ws[idx]) + " "
  {
    var p := Pad("", ws[idx], Left);
    assert |p| == ws[idx];
  }

  lemma SubRowCount(cells: seq<Json>, columns: seq<string>, ws: seq<nat>, rowIdx: nat, flush: Flush, stringify: Json -> string)
    requires |cells| == |columns| == |ws| && Positive(ws)
    ensures |SubRowLines(cells, columns, ws, rowIdx, flush, stringify)| == RowHeight(WrappedCells(cells, ws, flush, stringify))
    ensures forall i :: 0 <= i < |cells| ==>
              WrappedCells(cells, ws, flush, stringify)[i] == WrapWith(Display(CellValue(cells[i], stringify)), ws[i], flush)
  {
  }

  /** A sub-row is as many lines as its tallest cell, at least one when there are
      columns; the cells of other columns show blank on lines they do not reach. */
  lemma SubRowHeight(cells: seq<Json>, columns: seq<string>, ws: seq<nat>, rowIdx: nat, flush: Flush, stringify: Json -> string)
    requires |cells| == |columns| == |ws| && Positive(ws)
    ensures columns == [] <==> SubRowLines(cells, columns, ws, rowIdx, flush, stringify) == []
    ensures forall i :: 0 <= i < |cells| ==>
              |WrapWith(Display(CellValue(cells[i], stringify)), ws[i], flush)| <=
              |SubRowLines(cells, columns, ws, rowIdx, flush, stringify)|
  {
    SubRowCount(cells, columns, ws, rowIdx, flush, stringify);
    var wrapped := WrappedCells(cells, ws, flush, stringify);
    if columns != [] {
      var i :| 0 <= i < |wrapped| && |wrapped[i]| == RowHeight(wrapped);
      WrapAtLeastOne(Display(CellValue(cells[i], stringify)), ws[i], flush);
    }
  }

  lemma WrapAtLeastOne(s: string, w: nat, flush: Flush)
    requires w > 0
    ensures |WrapWith(s, w, flush)| >= 1
  {
  }
}
