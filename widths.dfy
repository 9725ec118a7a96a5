/** The width of each leaf column: the longest line any record's value wraps to at
    width 30, or the column's last path segment if that is longer, clamped to
    [10, 30]. */
module Widths {
  import opened Text
  import opened JsonValues
  import opened HeaderTree
  import opened WordWrap

  const MinWidth: nat := 10
  const MaxWidth: nat := 30

  /** `v` in `val.map((v) => (typeof v === "object" ? JSON.stringify(v) : v)).join(", ")`:
      null, arrays and objects are stringified, `undefined` joins as "". */
  function ElementText(v: Json, stringify: Json -> string): string
  {
    if v.Null? || v.Arr? || v.Obj? then stringify(v)
    else if v.Undefined? then ""
    else ToText(v)
  }

  /** The value handed to `wrapText` for one record: arrays joined with ", ",
      objects stringified, anything else as it is. */
  function WidthCellText(val: Json, stringify: Json -> string): (r: Json)
    ensures val.Arr? || val.Obj? ==> r.Str?
    ensures !(val.Arr? || val.Obj?) ==> r == val
  {
    match val
    case Arr(items) =>
      Str(Join(seq(|items|, i requires 0 <= i < |items| => ElementText(items[i], stringify)), ", "))
    case Obj(_) => Str(stringify(val))
    case _ => val
  }

  /** The lines of the column's value in one record, wrapped at 30 as the code
      wraps. */
  function CellLines(row: Json, col: string, stringify: Json -> string): seq<string>
  {
    WrapAsWritten(Display(WidthCellText(GetPath(row, SplitPath(col)), stringify)), MaxWidth)
  }

  /** `data.flatMap(...)`: the lines of the column over all records, in order. */
  function ColumnLines(data: seq<Json>, col: string, stringify: Json -> string): seq<string>
    decreases |data|
  {
    if data == [] then []
    else ColumnLines(data[..|data| - 1], col, stringify) + CellLines(data[|data| - 1], col, stringify)
  }

  /** `Math.max(init, ...lines.map((l) => l.length))`. */
  function MaxLen(init: nat, lines: seq<string>): (m: nat)
    ensures init <= m
    ensures forall i :: 0 <= i < |lines| ==> |lines[i]| <= m
    ensures m == init || exists i :: 0 <= i < |lines| && m == |lines[i]|
    decreases |lines|
  {
    if lines == [] then init
    else
      var m0 := MaxLen(init, lines[..|lines| - 1]);
      var last := |lines[|lines| - 1]|;
      assert forall i :: 0 <= i < |lines| - 1 ==> lines[i] == lines[..|lines| - 1][i];
      if last > m0 then last else m0
  }

  function Clamp(n: nat): nat
  {
    if n < MinWidth then MinWidth else if n > MaxWidth then MaxWidth else n
  }

  /** `columnWidths[col]`. */
  function ColumnWidth(data: seq<Json>, col: string, stringify: Json -> string): (w: nat)
    ensures MinWidth <= w <= MaxWidth
  {
    Clamp(MaxLen(|LastPart(col, '.')|, ColumnLines(data, col, stringify)))
  }

  /** `leafColumns.forEach((col) => { ... columnWidths[col] = ...; })`. */
  method ComputeColumnWidths(data: seq<Json>, columns: seq<string>, stringify: Json -> string)
    returns (widths: map<string, nat>)
    ensures widths.Keys == set c | c in columns
    ensures forall c :: c in widths ==> widths[c] == ColumnWidth(data, c, stringify)
    ensures forall c :: c in widths ==> MinWidth <= widths[c] <= MaxWidth
  {
    widths := FillWidths(columns, c => ColumnWidth(data, c, stringify));
  }

  /** The loop of `forEach`: one entry per column, the width computed by `width`. */
  method FillWidths(columns: seq<string>, width: string -> nat) returns (widths: map<string, nat>)
    ensures widths.Keys == set c | c in columns
    ensures forall c :: c in widths ==> widths[c] == width(c)
  {
    widths := map[];
    for k := 0 to |columns|
      invariant widths.Keys == set c | c in columns[..k]
      invariant forall c :: c in widths ==> widths[c] == width(c)
    {
      var col := columns[k];
      widths := widths[col := width(col)];
      assert columns[..k + 1] == columns[..k] + [col];
    }
    assert columns[..|columns|] == columns;
  }

  // ---------------------------------------------------------------- properties

  /** Every line of the column, wrapped at 30, is at most 30 long once trimmed. */
  lemma {:induction false} ColumnLinesFit(data: seq<Json>, col: string, stringify: Json -> string)
    ensures forall i :: 0 <= i < |ColumnLines(data, col, stringify)| ==>
              |Trim(ColumnLines(data, col, stringify)[i])| <= MaxWidth
    decreases |data|
  {
    if data != [] {
      ColumnLinesFit(data[..|data| - 1], col, stringify);
      var row := data[|data| - 1];
      WrapFitsTrimmed(Display(WidthCellText(GetPath(row, SplitPath(col)), stringify)), MaxWidth);
    }
  }

  /** A column is between 10 and 30 wide; it holds every line of its values that is
      at most 30 long and every line once trimmed, and its own last segment unless
      that is longer than 30. */
  lemma WidthBounds(data: seq<Json>, col: string, stringify: Json -> string)
    ensures MinWidth <= ColumnWidth(data, col, stringify) <= MaxWidth
    ensures |LastPart(col, '.')| <= MaxWidth ==> |LastPart(col, '.')| <= ColumnWidth(data, col, stringify)
    ensures forall i :: 0 <= i < |ColumnLines(data, col, stringify)| ==>
              var line := ColumnLines(data, col, stringify)[i];
              (|line| <= MaxWidth ==> |line| <= ColumnWidth(data, col, stringify)) &&
              |Trim(line)| <= ColumnWidth(data, col, stringify)
  {
    var lines := ColumnLines(data, col, stringify);
    ColumnLinesFit(data, col, stringify);
    forall i | 0 <= i < |lines|
      ensures |Trim(lines[i])| <= |lines[i]|
    {
      TrimFacts(lines[i]);
    }
  }

  /** Looking up a non-numeric key on an array yields `undefined`, and so does every
      lookup after it. */
  lemma ThroughArray(v: Json, pre: seq<string>, key: string, post: seq<string>)
    requires GetPath(v, pre).Arr? && ArrayIndex(key).None?
    ensures GetPath(v, pre + [key] + post) == Undefined
  {
    GetPathAppend(v, pre, [key] + post);
    assert ([key] + post)[1..] == post;
    GetPathUndefined(post);
    assert pre + [key] + post == pre + ([key] + post);
  }

  /** A column that no record has a value for (a path that crosses an array on a
      non-numeric key, say) is as wide as its last segment, clamped. */
  lemma {:induction false} NoValuesWidth(data: seq<Json>, col: string, stringify: Json -> string)
    requires forall i :: 0 <= i < |data| ==> GetPath(data[i], SplitPath(col)) == Undefined
    ensures ColumnWidth(data, col, stringify) == Clamp(|LastPart(col, '.')|)
    decreases |data|
  {
    EmptyLines(data, col, stringify);
  }

  lemma {:induction false} EmptyLines(data: seq<Json>, col: string, stringify: Json -> string)
    requires forall i :: 0 <= i < |data| ==> GetPath(data[i], SplitPath(col)) == Undefined
    ensures forall i :: 0 <= i < |ColumnLines(data, col, stringify)| ==> ColumnLines(data, col, stringify)[i] == ""
    decreases |data|
  {
    if data != [] {
      var init := data[..|data| - 1];
      assert forall i :: 0 <= i < |init| ==> init[i] == data[i];
      EmptyLines(init, col, stringify);
      var last := CellLines(data[|data| - 1], col, stringify);
      assert GetPath(data[|data| - 1], SplitPath(col)) == Undefined;
      assert last == WrapAsWritten("", MaxWidth);
      WrapBlank("", MaxWidth, Untrimmed);
      AllEmptyAppend(ColumnLines(init, col, stringify), last);
    }
  }

  lemma AllEmptyAppend(a: seq<string>, b: seq<string>)
    requires forall i :: 0 <= i < |a| ==> a[i] == ""
    requires b == [""]
    ensures forall i :: 0 <= i < |a + b| ==> (a + b)[i] == ""
  {
  }

  lemma TagsSplit()
    ensures SplitPath("tags.name") == ["tags", "name"]
    ensures |LastPart("tags.name", '.')| == 4
  {
    SplitPathOf(["tags", "name"], "tags.name");
  }

  lemma TagsLookup(tags: seq<Json>)
    ensures GetPath(Obj([Field("tags", Arr(tags))]), SplitPath("tags.name")) == Undefined
  {
    TagsSplit();
    var row := Obj([Field("tags", Arr(tags))]);
    assert FieldIndex(row.fields, "tags") == 0;
    NameIsNoIndex();
    GetPathPair(row, "tags", "name");
  }

  lemma NameIsNoIndex()
    ensures ArrayIndex("name").None?
  {
    assert !IsDigit("name"[0]);
  }

  /** A lookup path of two keys is two lookups. */
  lemma GetPathPair(v: Json, k1: string, k2: string)
    ensures GetPath(v, [k1, k2]) == Get(Get(v, k1), k2)
  {
    assert [k1, k2][1..] == [k2] && [k2][1..] == [];
    assert GetPath(Get(v, k1), [k2]) == GetPath(Get(Get(v, k1), k2), []);
  }

  /** `"tags.name"` over a record whose `tags` is an array of objects: the lookup of
      `name` on the array yields nothing, so the column is 10 wide. */
  lemma TagsNameExample(tags: seq<Json>, stringify: Json -> string)
    ensures ColumnWidth([Obj([Field("tags", Arr(tags))])], "tags.name", stringify) == MinWidth
  {
    var data := [Obj([Field("tags", Arr(tags))])];
    TagsLookup(tags);
    assert forall i :: 0 <= i < |data| ==> GetPath(data[i], SplitPath("tags.name")) == Undefined;
    NoValuesWidth(data, "tags.name", stringify);
    TagsSplit();
  }
}
