/** Column extraction (`extractAllColumns`): every record is walked with a dotted
    path prefix, and every path at which the walk stops is added to an
    insertion-ordered set of columns. */
module Columns {
  import opened Text
  import opened JsonValues
  import opened OrderedSets

  /** The path of a field named `key` below `prefix`; an empty prefix adds no dot. */
  function ChildPath(prefix: string, key: string): string
  {
    if prefix == "" then key else prefix + "." + key
  }

  /** `obj.every(isPrimitiveArray)`: true of the empty array. */
  predicate AllPrimitiveArrays(items: seq<Json>)
  {
    forall i :: 0 <= i < |items| ==> IsPrimitiveArray(items[i])
  }

  /** The paths `recurse(v, prefix)` hands to `columns.add`, in call order, repeats included. */
  function Discovered(v: Json, prefix: string): seq<string>
    decreases v
  {
    match v
    case Arr(items) => if AllPrimitiveArrays(items) then [prefix] else DiscoveredItems(items, prefix)
    case Obj(fields) => DiscoveredFields(fields, prefix)
    case _ => [prefix]
  }

  /** The paths added while every element of `items` is walked with the same prefix. */
  function DiscoveredItems(items: seq<Json>, prefix: string): seq<string>
    decreases items
  {
    if items == [] then []
    else DiscoveredItems(items[..|items| - 1], prefix) + Discovered(items[|items| - 1], prefix)
  }

  /** The paths added while the fields of an object are walked in insertion order. */
  function DiscoveredFields(fields: seq<Field>, prefix: string): seq<string>
    decreases fields
  {
    if fields == [] then []
    else
      var f := fields[|fields| - 1];
      DiscoveredFields(fields[..|fields| - 1], prefix) + Discovered(f.value, ChildPath(prefix, f.key))
  }

  // ----- the imperative walk -----

  /** `recurse(obj, prefix)`: adds the paths at which the walk of `v` stops. */
  method Recurse(v: Json, prefix: string, columns: seq<string>) returns (result: seq<string>)
    ensures result == AddAll(columns, Discovered(v, prefix))
    decreases v
  {
    match v {
      case Arr(items) =>
        if forall i :: 0 <= i < |items| ==> IsPrimitiveArray(items[i]) {
          result := Add(columns, prefix);
          assert AddAll(columns, [prefix]) == result by { assert [prefix][..0] == []; }
        } else {
          result := columns;
          for i := 0 to |items|
            invariant result == AddAll(columns, DiscoveredItems(items[..i], prefix))
          {
            assert items[..i + 1][..i] == items[..i];
            AddAllAppend(columns, DiscoveredItems(items[..i], prefix), Discovered(items[i], prefix));
            result := Recurse(items[i], prefix, result);
          }
          assert items[..|items|] == items;
        }
      case Obj(fields) =>
        result := columns;
        for i := 0 to |fields|
          invariant result == AddAll(columns, DiscoveredFields(fields[..i], prefix))
        {
          var path := if prefix != "" then prefix + "." + fields[i].key else fields[i].key;
          assert fields[..i + 1][..i] == fields[..i];
          AddAllAppend(columns, DiscoveredFields(fields[..i], prefix), Discovered(fields[i].value, path));
          result := Recurse(fields[i].value, path, result);
        }
        assert fields[..|fields|] == fields;
      case _ =>
        result := Add(columns, prefix);
        assert AddAll(columns, [prefix]) == result by { assert [prefix][..0] == []; }
    }
  }

  /** `extractAllColumns(data)`: the distinct paths found in the records, in order of
      first discovery across all records. */
  method ExtractAllColumns(data: seq<Json>) returns (columns: seq<string>)
    ensures columns == Dedup(DiscoveredItems(data, ""))
    ensures Distinct(columns)
    ensures forall c :: c in columns <==> c in DiscoveredItems(data, "")
    ensures forall i, j :: 0 <= i < j < |columns| ==>
              FirstIndex(DiscoveredItems(data, ""), columns[i]) < FirstIndex(DiscoveredItems(data, ""), columns[j])
  {
    columns := [];
    for i := 0 to |data|
      invariant columns == AddAll([], DiscoveredItems(data[..i], ""))
    {
      assert data[..i + 1][..i] == data[..i];
      AddAllAppend([], DiscoveredItems(data[..i], ""), Discovered(data[i], ""));
      columns := Recurse(data[i], "", columns);
    }
    assert data[..|data|] == data;
    DedupFacts(DiscoveredItems(data, ""));
  }

  // ----- what the walk produces -----

  /** The four shapes of the walk: an array of arrays of primitives (the empty array
      included) registers its own prefix; any other array walks its elements with the
      same prefix; an object extends the prefix by each key, with no leading dot at
      the top level, so a key-less object registers nothing; anything else registers
      the prefix. */
  lemma DiscoveredShapes(prefix: string, key: string, items: seq<Json>)
    ensures AllPrimitiveArrays(items) ==> Discovered(Arr(items), prefix) == [prefix]
    ensures Discovered(Arr([]), prefix) == [prefix]
    ensures !AllPrimitiveArrays(items) ==> Discovered(Arr(items), prefix) == DiscoveredItems(items, prefix)
    ensures Discovered(Obj([]), prefix) == []
    ensures ChildPath("", key) == key
    ensures Discovered(Null, prefix) == [prefix] && Discovered(Str(key), prefix) == [prefix]
  {
  }

  /** A non-empty array of primitives is not an array of arrays, so each element is
      walked on its own, and each registers the same prefix: the array collapses
      into one column. */
  lemma {:induction false} PrimitiveArrayOneColumn(items: seq<Json>, prefix: string)
    requires |items| > 0 && IsPrimitiveArray(Arr(items))
    ensures Discovered(Arr(items), prefix) == Repeat(prefix, |items|)
    ensures Dedup(Discovered(Arr(items), prefix)) == [prefix]
  {
    assert !IsPrimitiveArray(items[0]);
    RepeatedItems(items, prefix);
    DedupRepeat(prefix, |items|);
  }

  lemma {:induction false} DedupRepeat(p: string, n: nat)
    requires n >= 1
    ensures Dedup(Repeat(p, n)) == [p]
  {
    var r := Repeat(p, n);
    if n > 1 {
      DedupRepeat(p, n - 1);
      assert r[..n - 1] == Repeat(p, n - 1);
      assert AddAll([], r) == Add(Dedup(Repeat(p, n - 1)), p);
    } else {
      assert r[..0] == [];
      assert AddAll([], r) == Add([], p);
    }
  }

  /** `n` copies of a path. */
  function Repeat(p: string, n: nat): (r: seq<string>)
    ensures |r| == n && forall i :: 0 <= i < n ==> r[i] == p
  {
    seq(n, _ => p)
  }

  lemma {:induction false} RepeatedItems(items: seq<Json>, prefix: string)
    requires forall i :: 0 <= i < |items| ==> IsPrimitive(items[i])
    ensures DiscoveredItems(items, prefix) == Repeat(prefix, |items|)
    decreases |items|
  {
    if items != [] {
      RepeatedItems(items[..|items| - 1], prefix);
    }
  }

  // ----- paths are made of keys only -----

  /** `ks` is a chain of keys that can be followed from `v`, where an array is
      crossed by choosing one of its elements without naming it. */
  ghost predicate IsKeyPath(v: Json, ks: seq<string>)
    decreases v
  {
    if ks == [] then true
    else match v
      case Obj(fields) =>
        exists i :: 0 <= i < |fields| && fields[i].key == ks[0] && IsKeyPath(fields[i].value, ks[1..])
      case Arr(items) =>
        exists i :: 0 <= i < |items| && IsKeyPath(items[i], ks)
      case _ => false
  }

  /** The path reached from `prefix` by descending through the keys `ks`. */
  function Extend(prefix: string, ks: seq<string>): string
    decreases |ks|
  {
    if ks == [] then prefix else Extend(ChildPath(prefix, ks[0]), ks[1..])
  }

  /** `c` is reached from `prefix` by a chain of keys of `v`. */
  ghost predicate FollowsKeys(v: Json, prefix: string, c: string)
  {
    exists ks :: IsKeyPath(v, ks) && Extend(prefix, ks) == c
  }

  /** Every column found in `v` is the prefix extended by a chain of object keys of
      `v`; array positions never enter a path. */
  lemma {:induction false} DiscoveredAreKeyPaths(v: Json, prefix: string)
    ensures forall c :: c in Discovered(v, prefix) ==> FollowsKeys(v, prefix, c)
    decreases v, 1
  {
    forall c | c in Discovered(v, prefix)
      ensures FollowsKeys(v, prefix, c)
    {
      DiscoveredIsKeyPath(v, prefix, c);
    }
  }

  lemma {:induction false} DiscoveredIsKeyPath(v: Json, prefix: string, c: string)
    requires c in Discovered(v, prefix)
    ensures FollowsKeys(v, prefix, c)
    decreases v, 0
  {
      match v {
        case Arr(items) =>
          if AllPrimitiveArrays(items) {
            assert IsKeyPath(v, []) && Extend(prefix, []) == c;
          } else {
            ItemsAreKeyPaths(items, prefix);
            assert c in DiscoveredItems(items, prefix);
            var i :| 0 <= i < |items| && FollowsKeys(items[i], prefix, c);
            var ks :| IsKeyPath(items[i], ks) && Extend(prefix, ks) == c;
            assert IsKeyPath(v, ks);
          }
        case Obj(fields) =>
          FieldsAreKeyPaths(fields, prefix);
          assert c in DiscoveredFields(fields, prefix);
          var i :| 0 <= i < |fields| && FollowsKeys(fields[i].value, ChildPath(prefix, fields[i].key), c);
          var ks :| IsKeyPath(fields[i].value, ks) && Extend(ChildPath(prefix, fields[i].key), ks) == c;
          var ks' := [fields[i].key] + ks;
          assert ks'[1..] == ks;
          assert IsKeyPath(v, ks');
          assert Extend(prefix, ks') == c;
        case _ =>
          assert IsKeyPath(v, []) && Extend(prefix, []) == c;
      }
  }

  /** `c` is reached from `prefix` by a chain of keys of some element of `items`. */
  ghost predicate SomeItemFollowsKeys(items: seq<Json>, prefix: string, c: string)
  {
    exists i :: 0 <= i < |items| && FollowsKeys(items[i], prefix, c)
  }

  /** `c` is reached by a chain of keys of some field's value, starting below that field. */
  ghost predicate SomeFieldFollowsKeys(fields: seq<Field>, prefix: string, c: string)
  {
    exists i :: 0 <= i < |fields| && FollowsKeys(fields[i].value, ChildPath(prefix, fields[i].key), c)
  }

  lemma {:induction false} ItemsAreKeyPaths(items: seq<Json>, prefix: string)
    ensures forall c :: c in DiscoveredItems(items, prefix) ==> SomeItemFollowsKeys(items, prefix, c)
    decreases items
  {
    if items != [] {
      var front := items[..|items| - 1];
      var last := items[|items| - 1];
      ItemsAreKeyPaths(front, prefix);
      DiscoveredAreKeyPaths(last, prefix);
      forall c | c in DiscoveredItems(items, prefix)
        ensures SomeItemFollowsKeys(items, prefix, c)
      {
        if c in DiscoveredItems(front, prefix) {
          var i :| 0 <= i < |front| && FollowsKeys(front[i], prefix, c);
          assert items[i] == front[i];
        } else {
          assert c in Discovered(last, prefix);
          assert FollowsKeys(items[|items| - 1], prefix, c);
        }
      }
    }
  }

  lemma {:induction false} FieldsAreKeyPaths(fields: seq<Field>, prefix: string)
    ensures forall c :: c in DiscoveredFields(fields, prefix) ==> SomeFieldFollowsKeys(fields, prefix, c)
    decreases fields
  {
    if fields != [] {
      var front := fields[..|fields| - 1];
      var last := fields[|fields| - 1];
      FieldsAreKeyPaths(front, prefix);
      DiscoveredAreKeyPaths(last.value, ChildPath(prefix, last.key));
      forall c | c in DiscoveredFields(fields, prefix)
        ensures SomeFieldFollowsKeys(fields, prefix, c)
      {
        if c in DiscoveredFields(front, prefix) {
          var i :| 0 <= i < |front| && FollowsKeys(front[i].value, ChildPath(prefix, front[i].key), c);
          assert fields[i] == front[i];
        } else {
          assert c in Discovered(last.value, ChildPath(prefix, last.key));
          assert FollowsKeys(fields[|fields| - 1].value, ChildPath(prefix, fields[|fields| - 1].key), c);
        }
      }
    }
  }

  /** `{"a": 1, "b": {"c": 2}}` has the columns "a" and "b.c". */
  lemma ExampleColumns()
    ensures Dedup(DiscoveredItems([Obj([Field("a", Num(1)), Field("b", Obj([Field("c", Num(2))]))])], "")) == ["a", "b.c"]
  {
    var inner := [Field("c", Num(2))];
    var fields := [Field("a", Num(1)), Field("b", Obj(inner))];
    var rec := Obj(fields);
    assert [rec][..0] == [] && fields[..1] == [Field("a", Num(1))] && fields[..1][..0] == [] && inner[..0] == [];
    assert ChildPath("b", "c") == "b.c" && ChildPath("", "a") == "a" && ChildPath("", "b") == "b";
    assert DiscoveredFields(inner, "b") == [] + Discovered(Num(2), "b.c") == ["b.c"];
    assert DiscoveredFields(fields[..1], "") == [] + Discovered(Num(1), "a") == ["a"];
    assert Discovered(Obj(inner), "b") == ["b.c"];
    assert DiscoveredFields(fields, "") == ["a", "b.c"];
    assert DiscoveredItems([rec], "") == ["a", "b.c"];
    assert ["a", "b.c"][..1] == ["a"] && ["a"][..0] == [];
    assert "a" != "b.c";
  }
}
