/** `expandDataRows`: one record becomes as many sub-rows as the longest value any of
    its columns resolves to, so that the elements of an array sit on lines of their
    own. */
module Expand {
  import opened Text
  import opened JsonValues
  import opened HeaderTree

  // ---------------------------------------------------------------- resolving a column

  /** One step of the resolving loop: an array is mapped over with `v?.[key]`,
      anything else is looked up with `val?.[key]`. */
  function Descend(val: Json, key: string): (r: Json)
    ensures val.Arr? ==> r.Arr? && |r.items| == |val.items|
  {
    if val.Arr? then Arr(seq(|val.items|, i requires 0 <= i < |val.items| => Get(val.items[i], key)))
    else Get(val, key)
  }

  /** The value the loop over `keys` ends with. */
  function Resolve(v: Json, keys: seq<string>): Json
    decreases |keys|
  {
    if keys == [] then v else Descend(Resolve(v, keys[..|keys| - 1]), keys[|keys| - 1])
  }

  /** `Array.isArray(val) ? val : [val]`. */
  function Values(val: Json): (r: seq<Json>)
    ensures val.Arr? ==> r == val.items
    ensures !val.Arr? ==> |r| == 1
  {
    if val.Arr? then val.items else [val]
  }

  /** The values a column holds in one record. */
  function Resolved(row: Json, col: string): seq<Json>
  {
    Values(Resolve(row, SplitPath(col)))
  }

  /** The resolving loop for one column. */
  method ResolveColumn(row: Json, col: string) returns (vals: seq<Json>)
    ensures vals == Resolved(row, col)
  {
    var keys := SplitPath(col);
    var val := row;
    for k := 0 to |keys|
      invariant val == Resolve(row, keys[..k])
    {
      var key := keys[k];
      assert keys[..k + 1][..k] == keys[..k];
      if val.Arr? {
        var items := val.items;
        val := Arr(seq(|items|, i requires 0 <= i < |items| => Get(items[i], key)));
      } else {
        val := Get(val, key);
      }
    }
    assert keys[..|keys|] == keys;
    vals := if val.Arr? then val.items else [val];
  }

  // ---------------------------------------------------------------- sub-rows

  /** `Math.max(...resolved.map((col) => col.length))`, taken as 0 when there are no
      columns (the maximum is then -Infinity and the loop below runs no time). */
  function MaxRows(resolved: seq<seq<Json>>): (m: nat)
    ensures forall c :: 0 <= c < |resolved| ==> |resolved[c]| <= m
    ensures resolved == [] ==> m == 0
    ensures resolved != [] ==> exists c :: 0 <= c < |resolved| && |resolved[c]| == m
    decreases |resolved|
  {
    if resolved == [] then 0
    else
      var init := resolved[..|resolved| - 1];
      var m0 := MaxRows(init);
      var last := |resolved[|resolved| - 1]|;
      assert forall c :: 0 <= c < |init| ==> resolved[c] == init[c];
      if last > m0 then last else m0
  }

  /** `col[i] !== undefined ? col[i] : i === 0 ? col[0] : ""`. */
  function CellAt(col: seq<Json>, i: nat): Json
  {
    if i < |col| && col[i] != Undefined then col[i]
    else if i == 0 then (if |col| > 0 then col[0] else Undefined)
    else Str("")
  }

  function ResolvedAll(row: Json, columns: seq<string>): (r: seq<seq<Json>>)
    ensures |r| == |columns|
  {
    seq(|columns|, c requires 0 <= c < |columns| => Resolved(row, columns[c]))
  }

  /** Sub-row `i` holds each column's `i`-th value. */
  function SubRows(resolved: seq<seq<Json>>): seq<seq<Json>>
  {
    seq(MaxRows(resolved), i requires 0 <= i < MaxRows(resolved) =>
      seq(|resolved|, c requires 0 <= c < |resolved| => CellAt(resolved[c], i)))
  }

  /** The sub-rows of one record. */
  function ExpandedRows(row: Json, columns: seq<string>): seq<seq<Json>>
  {
    SubRows(ResolvedAll(row, columns))
  }

  /** `columns.map((col) => ...)`: every column's resolved values. */
  method ResolveColumns(row: Json, columns: seq<string>) returns (resolved: seq<seq<Json>>)
    ensures resolved == ResolvedAll(row, columns)
  {
    resolved := [];
    for c := 0 to |columns|
      invariant |resolved| == c
      invariant forall j :: 0 <= j < c ==> resolved[j] == Resolved(row, columns[j])
    {
      var vals := ResolveColumn(row, columns[c]);
      resolved := resolved + [vals];
    }
  }

  /** `for (let i = 0; i < maxRows; i++) rows.push(...)`. */
  method BuildSubRows(resolved: seq<seq<Json>>) returns (rows: seq<seq<Json>>)
    ensures rows == SubRows(resolved)
  {
    var maxRows := MaxRows(resolved);
    ghost var target := SubRows(resolved);
    rows := [];
    for i := 0 to maxRows
      invariant rows == target[..i]
    {
      var cells := seq(|resolved|, c requires 0 <= c < |resolved| => CellAt(resolved[c], i));
      rows := rows + [cells];
      assert target[..i + 1] == target[..i] + [target[i]];
    }
    assert target[..maxRows] == target;
  }

  /** `expandDataRows(row, columns)`. */
  method ExpandDataRows(row: Json, columns: seq<string>) returns (rows: seq<seq<Json>>)
    ensures rows == ExpandedRows(row, columns)
  {
    var resolved := ResolveColumns(row, columns);
    rows := BuildSubRows(resolved);
  }

  // ---------------------------------------------------------------- properties

  lemma ExpandedCount(row: Json, columns: seq<string>)
    ensures |ExpandedRows(row, columns)| == MaxRows(ResolvedAll(row, columns))
    ensures forall i :: 0 <= i < |ExpandedRows(row, columns)| ==> |ExpandedRows(row, columns)[i]| == |columns|
    ensures forall i, c :: 0 <= i < |ExpandedRows(row, columns)| && 0 <= c < |columns| ==>
              ExpandedRows(row, columns)[i][c] == CellAt(ResolvedAll(row, columns)[c], i)
  {
  }

  /** A record has as many sub-rows as its longest resolved column, none when it has
      no column or every column resolves to an empty array; every sub-row has one
      cell per column. */
  lemma ExpandedShape(row: Json, columns: seq<string>)
    ensures forall i :: 0 <= i < |ExpandedRows(row, columns)| ==> |ExpandedRows(row, columns)[i]| == |columns|
    ensures forall c :: 0 <= c < |columns| ==> |Resolved(row, columns[c])| <= |ExpandedRows(row, columns)|
    ensures columns != [] ==>
              exists c :: 0 <= c < |columns| && |Resolved(row, columns[c])| == |ExpandedRows(row, columns)|
    ensures ExpandedRows(row, columns) == [] <==>
              forall c :: 0 <= c < |columns| ==> Resolved(row, columns[c]) == []
  {
    ExpandedCount(row, columns);
    var resolved := ResolvedAll(row, columns);
    var m := MaxRows(resolved);
    assert forall c :: 0 <= c < |columns| ==> resolved[c] == Resolved(row, columns[c]);
    if columns != [] {
      var c :| 0 <= c < |resolved| && |resolved[c]| == m;
      assert |Resolved(row, columns[c])| == m;
    }
  }

  /** The first sub-row shows each column's first value, whatever it is; the
      `i === 0` fallback never changes what `col[i]` alone would give. */
  lemma FirstSubRow(row: Json, columns: seq<string>)
    requires ExpandedRows(row, columns) != []
    ensures forall c :: 0 <= c < |columns| ==>
              ExpandedRows(row, columns)[0][c] ==
                (if Resolved(row, columns[c]) == [] then Undefined else Resolved(row, columns[c])[0])
  {
  }

  /** A later sub-row shows a column's value at that position when it has one that
      is not `undefined`, and the empty string otherwise. */
  lemma LaterSubRow(row: Json, columns: seq<string>, i: nat, c: nat)
    requires 0 < i < |ExpandedRows(row, columns)| && c < |columns|
    ensures var vals := Resolved(row, columns[c]);
            ExpandedRows(row, columns)[i][c] ==
              if i < |vals| && vals[i] != Undefined then vals[i] else Str("")
  {
  }

  /** Once the path reaches an array, the rest of the path is looked up in each of its
      elements, and the array's length is kept. */
  lemma {:induction false} ResolveInsideArray(v: Json, pre: seq<string>, post: seq<string>, items: seq<Json>)
    requires Resolve(v, pre) == Arr(items)
    ensures Resolve(v, pre + post) ==
              Arr(seq(|items|, i requires 0 <= i < |items| => GetPath(items[i], post)))
    decreases |post|
  {
    if post == [] {
      assert pre + post == pre;
      forall i | 0 <= i < |items| ensures GetPath(items[i], post) == items[i] { }
    } else {
      var init := post[..|post| - 1];
      var key := post[|post| - 1];
      ResolveInsideArray(v, pre, init, items);
      assert (pre + post)[..|pre + post| - 1] == pre + init;
      forall i | 0 <= i < |items|
        ensures GetPath(items[i], post) == Get(GetPath(items[i], init), key)
      {
        GetPathAppend(items[i], init, [key]);
        assert init + [key] == post;
        assert [key][1..] == [];
      }
    }
  }

  /** Along a path that meets no array before its end, resolving is the plain
      lookup used for column widths. */
  lemma {:induction false} ResolveWithoutArrays(v: Json, keys: seq<string>)
    requires forall j :: 0 <= j < |keys| ==> !GetPath(v, keys[..j]).Arr?
    ensures Resolve(v, keys) == GetPath(v, keys)
    decreases |keys|
  {
    if keys != [] {
      var init := keys[..|keys| - 1];
      var key := keys[|keys| - 1];
      forall j | 0 <= j < |init| ensures !GetPath(v, init[..j]).Arr? {
        assert init[..j] == keys[..j];
      }
      ResolveWithoutArrays(v, init);
      assert !GetPath(v, keys[..|keys| - 1]).Arr?;
      GetPathAppend(v, init, [key]);
      assert init + [key] == keys;
      assert [key][1..] == [];
    }
  }

  /** A record none of whose columns resolves to an array fills exactly one sub-row,
      holding each column's value. */
  lemma ScalarRecord(row: Json, columns: seq<string>)
    requires columns != []
    requires forall c :: 0 <= c < |columns| ==> !Resolve(row, SplitPath(columns[c])).Arr?
    ensures |ExpandedRows(row, columns)| == 1
    ensures forall c :: 0 <= c < |columns| ==> ExpandedRows(row, columns)[0][c] == Resolve(row, SplitPath(columns[c]))
  {
    ExpandedShape(row, columns);
  }

  // ---------------------------------------------------------------- example

  function TagsRecord(): Json
  {
    Obj([Field("id", Num(1)),
         Field("tags", Arr([Obj([Field("name", Str("x"))]), Obj([Field("name", Str("y"))])]))])
  }

  lemma ResolveOneKey(v: Json, k: string)
    ensures Resolve(v, [k]) == Descend(v, k)
  {
    assert [k][..0] == [];
  }

  lemma ResolveTwoKeys(v: Json, k1: string, k2: string)
    ensures Resolve(v, [k1, k2]) == Descend(Descend(v, k1), k2)
  {
    assert [k1, k2][..1] == [k1];
    ResolveOneKey(v, k1);
  }

  lemma TagsId()
    ensures Resolved(TagsRecord(), "id") == [Num(1)]
  {
    SplitPathOf(["id"], "id");
    var row := TagsRecord();
    ResolveOneKey(row, "id");
    assert FieldIndex(row.fields, "id") == 0;
  }

  lemma NameOf(s: string)
    ensures Get(Obj([Field("name", Str(s))]), "name") == Str(s)
  {
    assert FieldIndex([Field("name", Str(s))], "name") == 0;
  }

  lemma TagsNamesPath()
    ensures Resolve(TagsRecord(), ["tags", "name"]) == Arr([Str("x"), Str("y")])
  {
    var row := TagsRecord();
    var x := Obj([Field("name", Str("x"))]);
    var y := Obj([Field("name", Str("y"))]);
    ResolveTwoKeys(row, "tags", "name");
    assert Get(row, "tags") == Arr([x, y]) by {
      assert FieldIndex(row.fields, "tags") == 1 by {
        assert row.fields[1..] == [Field("tags", Arr([x, y]))];
      }
    }
    NameOf("x");
    NameOf("y");
    var d := Descend(Arr([x, y]), "name");
    assert d.items == [Str("x"), Str("y")];
  }

  lemma TagsNames()
    ensures Resolved(TagsRecord(), "tags.name") == [Str("x"), Str("y")]
  {
    SplitPathOf(["tags", "name"], "tags.name");
    TagsNamesPath();
  }

  lemma MaxRowsPair(a: seq<Json>, b: seq<Json>)
    ensures MaxRows([a, b]) == if |a| < |b| then |b| else |a|
  {
    assert [a, b][..1] == [a] && [a][..0] == [];
  }

  lemma TagsResolvedAll()
    ensures ResolvedAll(TagsRecord(), ["id", "tags.name"]) == [[Num(1)], [Str("x"), Str("y")]]
  {
    ResolvedPair(TagsRecord(), "id", "tags.name");
    TagsId();
    TagsNames();
  }

  lemma ResolvedPair(row: Json, c1: string, c2: string)
    ensures ResolvedAll(row, [c1, c2]) == [Resolved(row, c1), Resolved(row, c2)]
  {
    var r := ResolvedAll(row, [c1, c2]);
    assert r[0] == Resolved(row, c1);
    assert r[1] == Resolved(row, c2);
  }

  lemma TwoSubRows(a: Json, b: Json, c: Json)
    requires a != Undefined && b != Undefined && c != Undefined
    ensures SubRows([[a], [b, c]]) == [[a, b], [Str(""), c]]
  {
    MaxRowsPair([a], [b, c]);
    var rows := SubRows([[a], [b, c]]);
    assert |rows| == 2;
    assert rows[0] == [a, b];
    assert rows[1] == [Str(""), c];
  }

  /** `{"id": 1, "tags": [{"name": "x"}, {"name": "y"}]}` over the columns `id` and
      `tags.name` gives two sub-rows: the id and "x", then a blank and "y". */
  lemma TagsExample()
    ensures ExpandedRows(TagsRecord(), ["id", "tags.name"]) ==
              [[Num(1), Str("x")], [Str(""), Str("y")]]
  {
    TagsResolvedAll();
    TwoSubRows(Num(1), Str("x"), Str("y"));
  }

  /** `{"tags": ["x", "y"]}` over the column `tags` gives two sub-rows, one per
      element: a leaf array of primitives is spread over lines, not joined. */
  lemma PrimitiveTagsExample()
    ensures ExpandedRows(Obj([Field("tags", Arr([Str("x"), Str("y")]))]), ["tags"]) ==
              [[Str("x")], [Str("y")]]
  {
    var row := Obj([Field("tags", Arr([Str("x"), Str("y")]))]);
    SplitPathOf(["tags"], "tags");
    ResolveOneKey(row, "tags");
    assert FieldIndex(row.fields, "tags") == 0;
    assert ResolvedAll(row, ["tags"]) == [[Str("x"), Str("y")]];
    OneColumnRows([Str("x"), Str("y")]);
  }

  lemma OneColumnRows(vals: seq<Json>)
    requires forall i :: 0 <= i < |vals| ==> vals[i] != Undefined
    ensures SubRows([vals]) == seq(|vals|, i requires 0 <= i < |vals| => [vals[i]])
  {
    assert [vals][..0] == [];
    assert MaxRows([vals]) == |vals|;
    var rows := SubRows([vals]);
    forall i | 0 <= i < |vals|
      ensures rows[i] == [vals[i]]
    {
      assert CellAt(vals, i) == vals[i];
    }
  }
}
