/** `generateAsciiTableWrapped`: the whole box-drawn table of a list of records. */
module Table {
  import opened Text
  import opened JsonValues
  import opened OrderedSets
  import opened Columns
  import opened HeaderTree
  import opened HeaderRows
  import opened WordWrap
  import opened Widths
  import opened Expand
  import opened Render

  // ---------------------------------------------------------------- the table, as lines

  /** The columns of a table: every path, once, in first-discovery order. */
  function ColumnsOf(data: seq<Json>): seq<string>
  {
    Dedup(DiscoveredItems(data, ""))
  }

  /** The width of every column, in column order. */
  function WidthsOf(data: seq<Json>, columns: seq<string>, stringify: Json -> string): (ws: seq<nat>)
    ensures |ws| == |columns|
    ensures forall i :: 0 <= i < |columns| ==> ws[i] == ColumnWidth(data, columns[i], stringify)
    ensures Positive(ws)
  {
    seq(|columns|, i requires 0 <= i < |columns| => ColumnWidth(data, columns[i], stringify))
  }

  /** The header lines, the spanning cells padded as `mode` says. */
  function HeaderBlock(rows: seq<seq<Cell>>, ws: seq<nat>, mode: SpanWidth): (r: seq<string>)
    ensures |r| == |rows|
    ensures forall h :: 0 <= h < |rows| ==> r[h] == HeaderLine(rows[h], ws, mode)
  {
    seq(|rows|, h requires 0 <= h < |rows| => HeaderLine(rows[h], ws, mode))
  }

  /** The lines of one record. */
  function Record(row: Json, columns: seq<string>, ws: seq<nat>, flush: Flush, stringify: Json -> string): seq<string>
    requires |columns| == |ws| && Positive(ws)
  {
    ExpandedCount(row, columns);
    RecordLines(ExpandedRows(row, columns), columns, ws, flush, stringify)
  }

  /** The lines of the first `k` records, each followed by the separator unless it
      is the last record. */
  function Interleave(recs: seq<seq<string>>, k: nat, sep: string): seq<string>
    requires k <= |recs|
  {
    if k == 0 then []
    else Interleave(recs, k - 1, sep) + recs[k - 1] + (if k < |recs| then [sep] else [])
  }

  function Records(data: seq<Json>, columns: seq<string>, ws: seq<nat>, flush: Flush, stringify: Json -> string): (r: seq<seq<string>>)
    requires |columns| == |ws| && Positive(ws)
    ensures |r| == |data|
    ensures forall i :: 0 <= i < |data| ==> r[i] == Record(data[i], columns, ws, flush, stringify)
  {
    seq(|data|, i requires 0 <= i < |data| => Record(data[i], columns, ws, flush, stringify))
  }

  /** The lines of all records, with the separators between them. */
  function BodyLines(data: seq<Json>, columns: seq<string>, ws: seq<nat>, flush: Flush, stringify: Json -> string): seq<string>
    requires |columns| == |ws| && Positive(ws)
  {
    Interleave(Records(data, columns, ws, flush, stringify), |data|, Middle(ws))
  }

  /** Every line of the table of a non-empty list of records. */
  function TableLines(data: seq<Json>, stringify: Json -> string, flush: Flush, mode: SpanWidth): seq<string>
    requires data != []
  {
    var columns := ColumnsOf(data);
    var ws := WidthsOf(data, columns, stringify);
    [Top(ws)] + HeaderBlock(HeaderRowsOf(TreeOf(columns)), ws, mode) + [Middle(ws)] +
    BodyLines(data, columns, ws, flush, stringify) + [Bottom(ws)]
  }

  /** The text of the table: with `Untrimmed` and `ColumnsOnly` the text
      `generateAsciiTableWrapped(data)` returns, with `Trimmed` and `WithSeparators`
      the text of the corrected program. */
  function AsciiTable(data: seq<Json>, stringify: Json -> string, flush: Flush, mode: SpanWidth): string
  {
    if data == [] then "No data to display" else Concat(TableLines(data, stringify, flush, mode))
  }

  // ---------------------------------------------------------------- building it

  /** `cells.map((cell, idx) => wrapText(..., columnWidths[leafColumns[idx]]))`. */
  method WrapCells(cells: seq<Json>, ws: seq<nat>, stringify: Json -> string) returns (wrapped: seq<seq<string>>)
    requires |cells| <= |ws| && Positive(ws)
    ensures wrapped == WrappedCells(cells, ws, Untrimmed, stringify)
  {
    wrapped := [];
    for idx := 0 to |cells|
      invariant |wrapped| == idx
      invariant forall i :: 0 <= i < idx ==> wrapped[i] == WrapAsWritten(Display(CellValue(cells[i], stringify)), ws[i])
    {
      var lines := WrapText(CellValue(cells[idx], stringify), ws[idx]);
      wrapped := wrapped + [lines];
    }
  }

  /** The lines of one sub-row: `for (let lineIdx = 0; lineIdx < rowHeight; lineIdx++)`. */
  method SubRowText(cells: seq<Json>, columns: seq<string>, ws: seq<nat>, rowIdx: nat, stringify: Json -> string)
    returns (text: string)
    requires |cells| == |columns| == |ws| && Positive(ws)
    ensures text == Concat(SubRowLines(cells, columns, ws, rowIdx, Untrimmed, stringify))
  {
    var wrappedRow := WrapCells(cells, ws, stringify);
    var rowHeight := RowHeight(wrappedRow);
    ghost var lines := SubRowLines(cells, columns, ws, rowIdx, Untrimmed, stringify);
    SubRowCount(cells, columns, ws, rowIdx, Untrimmed, stringify);
    text := "";
    for lineIdx := 0 to rowHeight
      invariant text == Concat(lines[..lineIdx])
    {
      var line := DataLine(wrappedRow, columns, ws, rowIdx, lineIdx);
      SubRowLineAt(cells, columns, ws, rowIdx, Untrimmed, stringify, lineIdx);
      ConcatPrefixStep(lines, lineIdx);
      text := text + line;
    }
    assert lines[..rowHeight] == lines;
  }

  lemma SubRowLineAt(cells: seq<Json>, columns: seq<string>, ws: seq<nat>, rowIdx: nat, flush: Flush, stringify: Json -> string, l: nat)
    requires |cells| == |columns| == |ws| && Positive(ws)
    requires l < RowHeight(WrappedCells(cells, ws, flush, stringify))
    ensures SubRowLines(cells, columns, ws, rowIdx, flush, stringify)[l] ==
              DataLine(WrappedCells(cells, ws, flush, stringify), columns, ws, rowIdx, l)
  {
  }

  lemma RecordLinesPrefix(subRows: seq<seq<Json>>, k: nat, columns: seq<string>, ws: seq<nat>, flush: Flush, stringify: Json -> string)
    requires k < |subRows| && |columns| == |ws| && Positive(ws)
    requires forall s :: 0 <= s < |subRows| ==> |subRows[s]| == |columns|
    ensures Concat(RecordLines(subRows[..k + 1], columns, ws, flush, stringify)) ==
              Concat(RecordLines(subRows[..k], columns, ws, flush, stringify)) +
              Concat(SubRowLines(subRows[k], columns, ws, k, flush, stringify))
  {
    assert subRows[..k + 1][..k] == subRows[..k];
    ConcatAppend(RecordLines(subRows[..k], columns, ws, flush, stringify), SubRowLines(subRows[k], columns, ws, k, flush, stringify));
  }

  /** The lines of one record: `expandedRows.forEach(...)`. */
  method RecordText(row: Json, columns: seq<string>, ws: seq<nat>, stringify: Json -> string) returns (text: string)
    requires |columns| == |ws| && Positive(ws)
    ensures text == Concat(Record(row, columns, ws, Untrimmed, stringify))
  {
    var expandedRows := ExpandDataRows(row, columns);
    ExpandedCount(row, columns);
    assert forall s :: 0 <= s < |expandedRows| ==> |expandedRows[s]| == |columns|;
    text := "";
    for rowIdx := 0 to |expandedRows|
      invariant text == Concat(RecordLines(expandedRows[..rowIdx], columns, ws, Untrimmed, stringify))
    {
      var sub := SubRowText(expandedRows[rowIdx], columns, ws, rowIdx, stringify);
      RecordLinesPrefix(expandedRows, rowIdx, columns, ws, Untrimmed, stringify);
      text := text + sub;
    }
    assert expandedRows[..|expandedRows|] == expandedRows;
    assert Record(row, columns, ws, Untrimmed, stringify) == RecordLines(expandedRows, columns, ws, Untrimmed, stringify);
  }

  /** `headerRows.forEach(...)`. */
  method HeaderText(headerRows: seq<seq<Cell>>, ws: seq<nat>) returns (text: string)
    ensures text == Concat(HeaderBlock(headerRows, ws, ColumnsOnly))
  {
    text := "";
    for h := 0 to |headerRows|
      invariant text == Concat(HeaderBlock(headerRows[..h], ws, ColumnsOnly))
    {
      var line := HeaderLineOf(headerRows[h], ws);
      assert HeaderBlock(headerRows[..h + 1], ws, ColumnsOnly) == HeaderBlock(headerRows[..h], ws, ColumnsOnly) + [line];
      ConcatSnoc(HeaderBlock(headerRows[..h], ws, ColumnsOnly), line);
      text := text + line;
    }
    assert headerRows[..|headerRows|] == headerRows;
  }

  lemma InterleaveStep(recs: seq<seq<string>>, k: nat, sep: string)
    requires k < |recs|
    ensures Concat(Interleave(recs, k + 1, sep)) ==
              Concat(Interleave(recs, k, sep)) + Concat(recs[k]) + (if k < |recs| - 1 then sep else "")
  {
    var body := Interleave(recs, k, sep);
    var tail: seq<string> := if k < |recs| - 1 then [sep] else [];
    ConcatAppend(body, recs[k]);
    ConcatAppend(body + recs[k], tail);
    if tail != [] {
      ConcatSingle(sep);
    }
  }

  /** `data.forEach((row, rowIndex) => ...)`. */
  method BodyText(data: seq<Json>, columns: seq<string>, ws: seq<nat>, stringify: Json -> string) returns (text: string)
    requires |columns| == |ws| && Positive(ws)
    ensures text == Concat(BodyLines(data, columns, ws, Untrimmed, stringify))
  {
    ghost var recs := Records(data, columns, ws, Untrimmed, stringify);
    text := "";
    for rowIndex := 0 to |data|
      invariant text == Concat(Interleave(recs, rowIndex, Middle(ws)))
    {
      var record := RecordText(data[rowIndex], columns, ws, stringify);
      InterleaveStep(recs, rowIndex, Middle(ws));
      text := text + record;
      if rowIndex < |data| - 1 {
        text := text + Border(ws, "├", "┼", "┤");
      }
    }
  }

  lemma TableConcat(data: seq<Json>, stringify: Json -> string, flush: Flush, mode: SpanWidth)
    requires data != []
    ensures var columns := ColumnsOf(data);
            var ws := WidthsOf(data, columns, stringify);
            AsciiTable(data, stringify, flush, mode) ==
              Top(ws) + Concat(HeaderBlock(HeaderRowsOf(TreeOf(columns)), ws, mode)) + Middle(ws) +
              Concat(BodyLines(data, columns, ws, flush, stringify)) + Bottom(ws)
  {
    var columns := ColumnsOf(data);
    var ws := WidthsOf(data, columns, stringify);
    var hb := HeaderBlock(HeaderRowsOf(TreeOf(columns)), ws, mode);
    var bl := BodyLines(data, columns, ws, flush, stringify);
    ConcatAppend([Top(ws)] + hb + [Middle(ws)] + bl, [Bottom(ws)]);
    ConcatAppend([Top(ws)] + hb + [Middle(ws)], bl);
    ConcatAppend([Top(ws)] + hb, [Middle(ws)]);
    ConcatAppend([Top(ws)], hb);
    ConcatSingle(Top(ws));
    ConcatSingle(Middle(ws));
    ConcatSingle(Bottom(ws));
  }

  /** The widths of `columnWidths`, read off in column order. */
  method ColumnWidthsInOrder(data: seq<Json>, columns: seq<string>, stringify: Json -> string) returns (ws: seq<nat>)
    ensures ws == WidthsOf(data, columns, stringify)
  {
    var columnWidths := ComputeColumnWidths(data, columns, stringify);
    ws := seq(|columns|, i requires 0 <= i < |columns| => columnWidths[columns[i]]);
  }

  /** Everything after the first `if`: borders, header lines, records. */
  method DrawTable(data: seq<Json>, columns: seq<string>, headerRows: seq<seq<Cell>>, ws: seq<nat>, stringify: Json -> string)
    returns (table: string)
    requires |columns| == |ws| && Positive(ws)
    ensures table == Top(ws) + Concat(HeaderBlock(headerRows, ws, ColumnsOnly)) + Middle(ws) +
                     Concat(BodyLines(data, columns, ws, Untrimmed, stringify)) + Bottom(ws)
  {
    table := Border(ws, "┌", "┬", "┐");
    var headers := HeaderText(headerRows, ws);
    table := table + headers;
    table := table + Border(ws, "├", "┼", "┤");
    var body := BodyText(data, columns, ws, stringify);
    table := table + body;
    table := table + Border(ws, "└", "┴", "┘");
  }

  /** `generateAsciiTableWrapped(data)`. */
  method GenerateAsciiTableWrapped(data: seq<Json>, stringify: Json -> string) returns (table: string)
    ensures table == AsciiTable(data, stringify, Untrimmed, ColumnsOnly)
    ensures data == [] ==> table == "No data to display"
  {
    if data == [] {
      return "No data to display";
    }
    var columns := ExtractAllColumns(data);
    var tree := BuildHeaderTree(columns);
    var headerRows := BuildHeaderRows(tree);
    var ws := ColumnWidthsInOrder(data, columns, stringify);
    table := DrawTable(data, columns, headerRows, ws, stringify);
    TableConcat(data, stringify, Untrimmed, ColumnsOnly);
  }

  // ---------------------------------------------------------------- properties

  /** The records `[{"a": 1, "b": {"c": 2}}]` have the columns "a" and "b.c", and
      their header is `a | b` over `"" | c`, every cell one column wide. */
  lemma HeaderOfRecord()
    ensures ColumnsOf([Obj([Field("a", Num(1)), Field("b", Obj([Field("c", Num(2))]))])]) == ["a", "b.c"]
    ensures HeaderRowsOf(TreeOf(ColumnsOf([Obj([Field("a", Num(1)), Field("b", Obj([Field("c", Num(2))]))])]))) ==
              [[Cell("a", 1), Cell("b", 1)], [Cell("", 1), Cell("c", 1)]]
  {
    ExampleColumns();
    HeaderExample();
  }

  /** Every line of `lines` is `n` characters long. */
  predicate AllOfLength(lines: seq<string>, n: nat)
  {
    forall i :: 0 <= i < |lines| ==> |lines[i]| == n
  }

  lemma AllOfLengthAppend(a: seq<string>, b: seq<string>, n: nat)
    requires AllOfLength(a, n) && AllOfLength(b, n)
    ensures AllOfLength(a + b, n)
  {
  }

  /** Corrected: every line of a sub-row is as long as the borders. */
  lemma SubRowAligned(cells: seq<Json>, columns: seq<string>, ws: seq<nat>, rowIdx: nat, stringify: Json -> string)
    requires |cells| == |columns| == |ws| && Positive(ws)
    ensures AllOfLength(SubRowLines(cells, columns, ws, rowIdx, Trimmed, stringify), LineLength(ws))
  {
    var lines := SubRowLines(cells, columns, ws, rowIdx, Trimmed, stringify);
    forall l | 0 <= l < |lines|
      ensures |lines[l]| == LineLength(ws)
    {
      DataLineFull(cells, columns, ws, rowIdx, l, stringify);
    }
  }

  lemma {:induction false} RecordAligned(subRows: seq<seq<Json>>, columns: seq<string>, ws: seq<nat>, stringify: Json -> string)
    requires |columns| == |ws| && Positive(ws)
    requires forall s :: 0 <= s < |subRows| ==> |subRows[s]| == |columns|
    ensures AllOfLength(RecordLines(subRows, columns, ws, Trimmed, stringify), LineLength(ws))
    decreases |subRows|
  {
    if subRows != [] {
      var k := |subRows| - 1;
      RecordAligned(subRows[..k], columns, ws, stringify);
      SubRowAligned(subRows[k], columns, ws, k, stringify);
      AllOfLengthAppend(RecordLines(subRows[..k], columns, ws, Trimmed, stringify), SubRowLines(subRows[k], columns, ws, k, Trimmed, stringify), LineLength(ws));
    }
  }

  lemma {:induction false} InterleaveAligned(recs: seq<seq<string>>, k: nat, sep: string, n: nat)
    requires k <= |recs| && |sep| == n
    requires forall r :: 0 <= r < |recs| ==> AllOfLength(recs[r], n)
    ensures AllOfLength(Interleave(recs, k, sep), n)
    decreases k
  {
    if k > 0 {
      InterleaveAligned(recs, k - 1, sep, n);
      ThreePartsAligned(Interleave(recs, k - 1, sep), recs[k - 1], if k < |recs| then [sep] else [], n);
    }
  }

  lemma BodyAligned(data: seq<Json>, columns: seq<string>, ws: seq<nat>, stringify: Json -> string)
    requires |columns| == |ws| && Positive(ws)
    ensures AllOfLength(BodyLines(data, columns, ws, Trimmed, stringify), LineLength(ws))
  {
    var recs := Records(data, columns, ws, Trimmed, stringify);
    forall r | 0 <= r < |recs|
      ensures AllOfLength(recs[r], LineLength(ws))
    {
      RecordOfAligned(data[r], columns, ws, stringify);
    }
    BorderLength(ws);
    InterleaveAligned(recs, |data|, Middle(ws), LineLength(ws));
  }

  /** How many lines of `lines` are `x`. */
  function Occurrences(lines: seq<string>, x: string): nat
    decreases |lines|
  {
    if lines == [] then 0
    else Occurrences(lines[..|lines| - 1], x) + (if lines[|lines| - 1] == x then 1 else 0)
  }

  lemma {:induction false} OccurrencesAppend(a: seq<string>, b: seq<string>, x: string)
    ensures Occurrences(a + b, x) == Occurrences(a, x) + Occurrences(b, x)
    decreases |b|
  {
    if b == [] {
      assert a + b == a;
    } else {
      var k := |b| - 1;
      assert (a + b)[..|a + b| - 1] == a + b[..k];
      OccurrencesAppend(a, b[..k], x);
    }
  }

  /** Every line of `lines` starts with `c`. */
  predicate AllStartWith(lines: seq<string>, c: char)
  {
    forall i :: 0 <= i < |lines| ==> |lines[i]| > 0 && lines[i][0] == c
  }

  lemma {:induction false} NoOccurrences(lines: seq<string>, c: char, x: string)
    requires AllStartWith(lines, c) && |x| > 0 && x[0] != c
    ensures Occurrences(lines, x) == 0
    decreases |lines|
  {
    if lines != [] {
      NoOccurrences(lines[..|lines| - 1], c, x);
    }
  }

  /** Records that never contain the separator line: the first `k` of them carry one
      separator each, except that the last record carries none. */
  lemma {:induction false} InterleaveSeparators(recs: seq<seq<string>>, k: nat, sep: string, c: char)
    requires k <= |recs| && |sep| > 0 && sep[0] != c
    requires forall r :: 0 <= r < |recs| ==> AllStartWith(recs[r], c)
    ensures Occurrences(Interleave(recs, k, sep), sep) == if k == |recs| && k > 0 then k - 1 else k
    decreases k
  {
    if k > 0 {
      var tail: seq<string> := if k < |recs| then [sep] else [];
      InterleaveSeparators(recs, k - 1, sep, c);
      NoOccurrences(recs[k - 1], c, sep);
      OccurrencesAppend(Interleave(recs, k - 1, sep), recs[k - 1], sep);
      OccurrencesAppend(Interleave(recs, k - 1, sep) + recs[k - 1], tail, sep);
      assert Occurrences(tail, sep) == |tail| by {
        if tail != [] {
          assert tail[..0] == [];
        }
      }
    }
  }

  lemma AllStartWithAppend(a: seq<string>, b: seq<string>, c: char)
    requires AllStartWith(a, c) && AllStartWith(b, c)
    ensures AllStartWith(a + b, c)
  {
  }

  /** Every line of a sub-row opens with the `│` frame. */
  lemma SubRowStarts(cells: seq<Json>, columns: seq<string>, ws: seq<nat>, rowIdx: nat, flush: Flush, stringify: Json -> string)
    requires |cells| == |columns| == |ws| && Positive(ws)
    ensures AllStartWith(SubRowLines(cells, columns, ws, rowIdx, flush, stringify), '│')
  {
    var lines := SubRowLines(cells, columns, ws, rowIdx, flush, stringify);
    SubRowCount(cells, columns, ws, rowIdx, flush, stringify);
    forall l | 0 <= l < |lines|
      ensures |lines[l]| > 0 && lines[l][0] == '│'
    {
      SubRowLineAt(cells, columns, ws, rowIdx, flush, stringify, l);
      DataLineStarts(WrappedCells(cells, ws, flush, stringify), columns, ws, rowIdx, l);
    }
  }

  lemma {:induction false} RecordStarts(subRows: seq<seq<Json>>, columns: seq<string>, ws: seq<nat>, flush: Flush, stringify: Json -> string)
    requires |columns| == |ws| && Positive(ws)
    requires forall s :: 0 <= s < |subRows| ==> |subRows[s]| == |columns|
    ensures AllStartWith(RecordLines(subRows, columns, ws, flush, stringify), '│')
    decreases |subRows|
  {
    if subRows != [] {
      var k := |subRows| - 1;
      RecordStarts(subRows[..k], columns, ws, flush, stringify);
      SubRowStarts(subRows[k], columns, ws, k, flush, stringify);
      AllStartWithAppend(RecordLines(subRows[..k], columns, ws, flush, stringify), SubRowLines(subRows[k], columns, ws, k, flush, stringify), '│');
    }
  }

  /** Between the records of a non-empty list there are exactly one fewer separator
      lines than records, and no record line is a separator. */
  lemma BodySeparators(data: seq<Json>, columns: seq<string>, ws: seq<nat>, flush: Flush, stringify: Json -> string)
    requires |columns| == |ws| && Positive(ws) && data != []
    ensures Occurrences(BodyLines(data, columns, ws, flush, stringify), Middle(ws)) == |data| - 1
  {
    var recs := Records(data, columns, ws, flush, stringify);
    forall r | 0 <= r < |recs|
      ensures AllStartWith(recs[r], '│')
    {
      ExpandedCount(data[r], columns);
      RecordStarts(ExpandedRows(data[r], columns), columns, ws, flush, stringify);
    }
    assert Middle(ws)[0] == '├';
    InterleaveSeparators(recs, |data|, Middle(ws), '│');
  }

  lemma ThreePartsAligned(a: seq<string>, b: seq<string>, c: seq<string>, n: nat)
    requires AllOfLength(a, n) && AllOfLength(b, n) && AllOfLength(c, n)
    ensures AllOfLength(a + b + c, n)
  {
  }

  lemma RecordOfAligned(row: Json, columns: seq<string>, ws: seq<nat>, stringify: Json -> string)
    requires |columns| == |ws| && Positive(ws)
    ensures AllOfLength(Record(row, columns, ws, Trimmed, stringify), LineLength(ws))
  {
    ExpandedCount(row, columns);
    RecordAligned(ExpandedRows(row, columns), columns, ws, stringify);
  }

  /** When no column path is a proper prefix of another, every header row's cells
      partition the columns. */
  lemma HeaderRowsPartition(data: seq<Json>, stringify: Json -> string)
    requires NoProperPrefixes(ColumnsOf(data))
    ensures AllPartition(HeaderRowsOf(TreeOf(ColumnsOf(data))), WidthsOf(data, ColumnsOf(data), stringify))
  {
    var columns := ColumnsOf(data);
    var t := TreeOf(columns);
    var rows := HeaderRowsOf(t);
    HeaderRowsSpans(t);
    HeaderSpansPositive(t);
    if columns == [] {
      assert t == Node([]);
      assert rows == [];
    } else {
      DedupFacts(DiscoveredItems(data, ""));
      LeafCount(columns);
    }
  }

  predicate AllPartition(rows: seq<seq<Cell>>, ws: seq<nat>)
  {
    forall h :: 0 <= h < |rows| ==> Partitions(rows[h], ws)
  }

  predicate AllLabelsFit(rows: seq<seq<Cell>>, ws: seq<nat>, mode: SpanWidth)
  {
    forall h :: 0 <= h < |rows| ==> LabelsFit(rows[h], ws, mode)
  }

  /** The lines of the header block are as long as the borders when the cells
      partition the columns and every label fits its cell. */
  lemma HeaderBlockAligned(rows: seq<seq<Cell>>, ws: seq<nat>)
    requires AllPartition(rows, ws) && AllLabelsFit(rows, ws, WithSeparators)
    ensures AllOfLength(HeaderBlock(rows, ws, WithSeparators), LineLength(ws))
  {
    var block := HeaderBlock(rows, ws, WithSeparators);
    forall h | 0 <= h < |rows|
      ensures |block[h]| == LineLength(ws)
    {
      if rows[h] == [] {
        assert SumSpans(rows[h]) == 0;
        assert ws == [];
        assert Partitions(rows[h], ws);
        HeaderLineEmpty(ws);
      } else {
        HeaderLineFull(rows[h], ws);
      }
    }
  }

  lemma HeaderLineEmpty(ws: seq<nat>)
    requires ws == []
    ensures |HeaderLine([], ws, WithSeparators)| == LineLength(ws)
  {
  }

  lemma FivePartsAligned(top: string, hb: seq<string>, mid: string, bl: seq<string>, bottom: string, n: nat)
    requires |top| == n && |mid| == n && |bottom| == n
    requires AllOfLength(hb, n) && AllOfLength(bl, n)
    ensures AllOfLength([top] + hb + [mid] + bl + [bottom], n)
  {
  }

  /** The table is a box: when no column path is a proper prefix of another and
      every header label fits its cell, every line of the table, borders, header
      lines and data lines alike, has the same length. */
  lemma TableAligned(data: seq<Json>, stringify: Json -> string)
    requires data != []
    requires NoProperPrefixes(ColumnsOf(data))
    requires AllLabelsFit(HeaderRowsOf(TreeOf(ColumnsOf(data))), WidthsOf(data, ColumnsOf(data), stringify), WithSeparators)
    ensures AllOfLength(TableLines(data, stringify, Trimmed, WithSeparators), LineLength(WidthsOf(data, ColumnsOf(data), stringify)))
  {
    var columns := ColumnsOf(data);
    var ws := WidthsOf(data, columns, stringify);
    var rows := HeaderRowsOf(TreeOf(columns));
    var hb := HeaderBlock(rows, ws, WithSeparators);
    var bl := BodyLines(data, columns, ws, Trimmed, stringify);
    assert TableLines(data, stringify, Trimmed, WithSeparators) == [Top(ws)] + hb + [Middle(ws)] + bl + [Bottom(ws)];
    HeaderRowsPartition(data, stringify);
    HeaderBlockAligned(rows, ws);
    BodyAligned(data, columns, ws, stringify);
    BorderLength(ws);
    FivePartsAligned(Top(ws), hb, Middle(ws), bl, Bottom(ws), LineLength(ws));
  }

  /** As written, header line `h` is `|ws| - |rows[h]|` characters shorter than the
      borders: one for every column a spanning cell covers beyond its first. */
  lemma HeaderBlockShort(rows: seq<seq<Cell>>, ws: seq<nat>)
    requires AllPartition(rows, ws) && AllLabelsFit(rows, ws, ColumnsOnly)
    ensures forall h :: 0 <= h < |rows| ==>
              |rows[h]| <= |ws| && |HeaderBlock(rows, ws, ColumnsOnly)[h]| + (|ws| - |rows[h]|) == LineLength(ws)
  {
    var block := HeaderBlock(rows, ws, ColumnsOnly);
    forall h | 0 <= h < |rows|
      ensures |rows[h]| <= |ws| && |block[h]| + (|ws| - |rows[h]|) == LineLength(ws)
    {
      if rows[h] == [] {
        assert SumSpans(rows[h]) == 0;
        assert ws == [];
        assert |HeaderLine([], ws, ColumnsOnly)| == 3;
      } else {
        HeaderLineShort(rows[h], ws);
      }
    }
  }

  /** The table as the code draws it is no box once a header cell spans: its
      borders are full-width lines, and header line `h` falls short of them by
      `|ws| - |rows[h]|` characters. */
  lemma TableHeadersShort(data: seq<Json>, stringify: Json -> string, flush: Flush)
    requires data != []
    requires NoProperPrefixes(ColumnsOf(data))
    requires AllLabelsFit(HeaderRowsOf(TreeOf(ColumnsOf(data))), WidthsOf(data, ColumnsOf(data), stringify), ColumnsOnly)
    ensures var ws := WidthsOf(data, ColumnsOf(data), stringify);
            var rows := HeaderRowsOf(TreeOf(ColumnsOf(data)));
            var lines := TableLines(data, stringify, flush, ColumnsOnly);
            |lines| > |rows| + 1 &&
            |lines[0]| == LineLength(ws) && |lines[|rows| + 1]| == LineLength(ws) &&
            |lines[|lines| - 1]| == LineLength(ws) &&
            forall h :: 0 <= h < |rows| ==> |lines[h + 1]| + (|ws| - |rows[h]|) == LineLength(ws)
  {
    var columns := ColumnsOf(data);
    var ws := WidthsOf(data, columns, stringify);
    var rows := HeaderRowsOf(TreeOf(columns));
    TableFrame(data, stringify, flush, ColumnsOnly);
    HeaderRowsPartition(data, stringify);
    HeaderBlockShort(rows, ws);
    BorderLength(ws);
  }

  lemma FiveParts(top: string, hb: seq<string>, mid: string, bl: seq<string>, bottom: string)
    ensures var lines := [top] + hb + [mid] + bl + [bottom];
            |lines| == |hb| + |bl| + 3 && lines[0] == top && lines[|hb| + 1] == mid &&
            lines[|lines| - 1] == bottom && (forall h :: 0 <= h < |hb| ==> lines[h + 1] == hb[h]) &&
            (forall b :: 0 <= b < |bl| ==> lines[|hb| + 2 + b] == bl[b])
  {
  }

  /** The table opens with the top border, then one line per header row, the middle
      border, the records, and closes with the bottom border. */
  lemma TableFrame(data: seq<Json>, stringify: Json -> string, flush: Flush, mode: SpanWidth)
    requires data != []
    ensures var columns := ColumnsOf(data);
            var ws := WidthsOf(data, columns, stringify);
            var rows := HeaderRowsOf(TreeOf(columns));
            var lines := TableLines(data, stringify, flush, mode);
            |lines| == |rows| + |BodyLines(data, columns, ws, flush, stringify)| + 3 &&
            |rows| == MaxDepth(TreeOf(columns)) &&
            lines[0] == Top(ws) && lines[|rows| + 1] == Middle(ws) && lines[|lines| - 1] == Bottom(ws) &&
            forall h :: 0 <= h < |rows| ==> lines[h + 1] == HeaderLine(rows[h], ws, mode)
  {
    var columns := ColumnsOf(data);
    var ws := WidthsOf(data, columns, stringify);
    var rows := HeaderRowsOf(TreeOf(columns));
    var hb := HeaderBlock(rows, ws, mode);
    var bl := BodyLines(data, columns, ws, flush, stringify);
    assert TableLines(data, stringify, flush, mode) == [Top(ws)] + hb + [Middle(ws)] + bl + [Bottom(ws)];
    FiveParts(Top(ws), hb, Middle(ws), bl, Bottom(ws));
  }

  /** Every sub-row of a record takes at least one line when there are columns, so a
      record takes at least as many lines as it has sub-rows. */
  lemma {:induction false} RecordHeight(subRows: seq<seq<Json>>, columns: seq<string>, ws: seq<nat>, flush: Flush, stringify: Json -> string)
    requires columns != [] && |columns| == |ws| && Positive(ws)
    requires forall s :: 0 <= s < |subRows| ==> |subRows[s]| == |columns|
    ensures |RecordLines(subRows, columns, ws, flush, stringify)| >= |subRows|
    decreases |subRows|
  {
    if subRows != [] {
      var k := |subRows| - 1;
      RecordHeight(subRows[..k], columns, ws, flush, stringify);
      SubRowHeight(subRows[k], columns, ws, k, flush, stringify);
      var last := SubRowLines(subRows[k], columns, ws, k, flush, stringify);
      assert |last| >= 1;
      assert RecordLines(subRows, columns, ws, flush, stringify) == RecordLines(subRows[..k], columns, ws, flush, stringify) + last;
    }
  }
}
