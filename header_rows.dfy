/** `buildHeaderRows`: one row of header cells per tree level. A cell spans as many
    leaf columns as the subtree under it has leaves; below a leaf that sits higher
    than the deepest one, every lower row gets an empty cell of span 1. */
module HeaderRows {
  import opened HeaderTree

  /** `{ label, span }`; `label` is a reserved word here, so the label is `text`. */
  datatype Cell = Cell(text: string, span: nat)

  /** The cells that `traverse` over the children `ch` at `level` pushes onto row `l`,
      for a table of `depth` rows. */
  function NodeCells(ch: seq<Branch>, level: nat, depth: nat, l: nat): seq<Cell>
    decreases ch, 1
  {
    if ch == [] then []
    else NodeCells(ch[..|ch| - 1], level, depth, l) + BranchCells(ch[|ch| - 1], level, depth, l)
  }

  /** One child: its own cell on its level, then either its subtree or, for a leaf,
      the padding cells on every row below. */
  function BranchCells(b: Branch, level: nat, depth: nat, l: nat): seq<Cell>
    decreases b, 0
  {
    (if l == level then [Cell(b.key, CountLeaves(b.node))] else []) +
    (if b.node.children != [] then NodeCells(b.node.children, level + 1, depth, l)
     else if level < l < depth then [Cell("", 1)]
     else [])
  }

  /** The header rows of a tree. */
  function HeaderRowsOf(t: Node): seq<seq<Cell>>
  {
    var depth := MaxDepth(t);
    seq(depth, l requires 0 <= l < depth => NodeCells(t.children, 0, depth, l))
  }

  /** `traverse(node, level)`: appends the cells of the subtree under `node` to the
      rows it reaches, and leaves the rest of every row as it was. */
  method Traverse(rows: array<seq<Cell>>, node: Node, level: nat)
    requires level + MaxDepth(node) <= rows.Length
    modifies rows
    ensures forall l :: 0 <= l < rows.Length ==>
              rows[l] == old(rows[l]) + NodeCells(node.children, level, rows.Length, l)
    decreases node, 1
  {
    var ch := node.children;
    for k := 0 to |ch|
      invariant forall l :: 0 <= l < rows.Length ==>
                  rows[l] == old(rows[l]) + NodeCells(ch[..k], level, rows.Length, l)
    {
      assert MaxDepth(ch[k].node) < MaxDepth(node);
      ghost var before := rows[..];
      PushBranch(rows, ch[k], level);
      forall l | 0 <= l < rows.Length
        ensures rows[l] == old(rows[l]) + NodeCells(ch[..k + 1], level, rows.Length, l)
      {
        var done := NodeCells(ch[..k], level, rows.Length, l);
        var next := BranchCells(ch[k], level, rows.Length, l);
        assert rows[l] == before[l] + next;
        NodeCellsStep(ch, k, level, rows.Length, l);
        AppendAssoc(old(rows[l]), done, next);
      }
    }
    assert ch[..|ch|] == ch;
  }

  /** One turn of the loop in `traverse`: push the child's own cell, then descend
      into it, or pad the rows below a leaf. */
  method PushBranch(rows: array<seq<Cell>>, b: Branch, level: nat)
    requires level + 1 + MaxDepth(b.node) <= rows.Length
    modifies rows
    ensures forall l :: 0 <= l < rows.Length ==>
              rows[l] == old(rows[l]) + BranchCells(b, level, rows.Length, l)
    decreases b.node, 2
  {
    var depth := rows.Length;
    var child := b.node;
    var span := CountLeaves(child);
    PushCell(rows, level, Cell(b.key, span));
    label pushed:
    if child.children != [] {
      Traverse(rows, child, level + 1);
      forall l | 0 <= l < depth
        ensures rows[l] == old(rows[l]) + BranchCells(b, level, depth, l)
      {
        var own := if l == level then [Cell(b.key, span)] else [];
        var below := NodeCells(child.children, level + 1, depth, l);
        assert rows[l] == old@pushed(rows[l]) + below;
        BranchSplit(b, level, depth, l);
        AppendAssoc(old(rows[l]), own, below);
      }
    } else {
      PadBelow(rows, level);
      forall l | 0 <= l < depth
        ensures rows[l] == old(rows[l]) + BranchCells(b, level, depth, l)
      {
        var own := if l == level then [Cell(b.key, span)] else [];
        var below := if level < l then [Cell("", 1)] else [];
        assert rows[l] == old@pushed(rows[l]) + below;
        BranchSplit(b, level, depth, l);
        AppendAssoc(old(rows[l]), own, below);
      }
    }
  }

  /** `rows[level].push(cell)`. */
  method PushCell(rows: array<seq<Cell>>, level: nat, cell: Cell)
    requires level < rows.Length
    modifies rows
    ensures forall l :: 0 <= l < rows.Length ==>
              rows[l] == old(rows[l]) + (if l == level then [cell] else [])
  {
    rows[level] := rows[level] + [cell];
  }

  lemma NodeCellsStep(ch: seq<Branch>, k: nat, level: nat, depth: nat, l: nat)
    requires k < |ch|
    ensures NodeCells(ch[..k + 1], level, depth, l) ==
              NodeCells(ch[..k], level, depth, l) + BranchCells(ch[k], level, depth, l)
  {
    assert ch[..k + 1][..k] == ch[..k];
  }

  lemma AppendAssoc(a: seq<Cell>, b: seq<Cell>, c: seq<Cell>)
    ensures (a + b) + c == a + (b + c)
  {
  }

  lemma BranchSplit(b: Branch, level: nat, depth: nat, l: nat)
    ensures BranchCells(b, level, depth, l) ==
              (if l == level then [Cell(b.key, CountLeaves(b.node))] else []) +
              (if b.node.children != [] then NodeCells(b.node.children, level + 1, depth, l)
               else if level < l < depth then [Cell("", 1)]
               else [])
  {
  }

  /** `for (let l = level + 1; l < maxDepth; l++) rows[l].push({ label: "", span: 1 })`. */
  method PadBelow(rows: array<seq<Cell>>, level: nat)
    requires level < rows.Length
    modifies rows
    ensures forall l :: 0 <= l < rows.Length ==>
              rows[l] == old(rows[l]) + (if level < l then [Cell("", 1)] else [])
  {
    for l := level + 1 to rows.Length
      invariant forall m :: 0 <= m < rows.Length ==>
                  rows[m] == old(rows[m]) + (if level < m < l then [Cell("", 1)] else [])
    {
      rows[l] := rows[l] + [Cell("", 1)];
    }
  }

  /** `buildHeaderRows(tree)`. */
  method BuildHeaderRows(tree: Node) returns (rows: seq<seq<Cell>>)
    ensures rows == HeaderRowsOf(tree)
    ensures |rows| == MaxDepth(tree)
    ensures forall l :: 0 <= l < |rows| ==> SumSpans(rows[l]) == CountLeaves(tree)
    ensures rows != [] ==> rows[0] == LabelCells(tree.children)
  {
    var maxDepth := MaxDepth(tree);
    var a := new seq<Cell>[maxDepth](_ => []);
    assert forall l :: 0 <= l < maxDepth ==> a[l] == [];
    Traverse(a, tree, 0);
    rows := a[..];
    forall l | 0 <= l < maxDepth
      ensures rows[l] == NodeCells(tree.children, 0, maxDepth, l)
    {
      assert a[l] == [] + NodeCells(tree.children, 0, maxDepth, l);
    }
    assert rows == HeaderRowsOf(tree);
    HeaderRowsSpans(tree);
  }

  // ---------------------------------------------------------------- properties

  function SumSpans(cells: seq<Cell>): nat
  {
    if cells == [] then 0 else SumSpans(cells[..|cells| - 1]) + cells[|cells| - 1].span
  }

  lemma {:induction false} SumSpansAppend(a: seq<Cell>, b: seq<Cell>)
    ensures SumSpans(a + b) == SumSpans(a) + SumSpans(b)
    decreases |b|
  {
    if b == [] {
      assert a + b == a;
    } else {
      assert (a + b)[..|a + b| - 1] == a + b[..|b| - 1];
      SumSpansAppend(a, b[..|b| - 1]);
    }
  }

  /** On every row from its own level down, the cells of a subtree span exactly its
      leaves, so every header row is as wide as the leaf columns. */
  lemma {:induction false} SpanSum(ch: seq<Branch>, level: nat, depth: nat, l: nat)
    requires level <= l < depth
    ensures SumSpans(NodeCells(ch, level, depth, l)) == CountLeavesF(ch)
    decreases ch, 1
  {
    if ch != [] {
      SpanSum(ch[..|ch| - 1], level, depth, l);
      SpanSumBranch(ch[|ch| - 1], level, depth, l);
      SumSpansAppend(NodeCells(ch[..|ch| - 1], level, depth, l), BranchCells(ch[|ch| - 1], level, depth, l));
    }
  }

  lemma {:induction false} SpanSumBranch(b: Branch, level: nat, depth: nat, l: nat)
    requires level <= l < depth
    ensures SumSpans(BranchCells(b, level, depth, l)) == CountLeaves(b.node)
    decreases b, 0
  {
    var cells := BranchCells(b, level, depth, l);
    var own := Cell(b.key, CountLeaves(b.node));
    if b.node.children == [] {
      assert cells == [if l == level then own else Cell("", 1)];
      assert cells[..0] == [];
    } else if l == level {
      NoCellsAbove(b.node.children, level + 1, depth, l);
      assert cells == [own];
      assert cells[..0] == [];
    } else {
      SpanSum(b.node.children, level + 1, depth, l);
      assert cells == NodeCells(b.node.children, level + 1, depth, l);
    }
  }

  /** A subtree pushes nothing onto the rows above its level. */
  lemma {:induction false} NoCellsAbove(ch: seq<Branch>, level: nat, depth: nat, l: nat)
    requires l < level
    ensures NodeCells(ch, level, depth, l) == []
    decreases ch, 1
  {
    if ch != [] {
      NoCellsAbove(ch[..|ch| - 1], level, depth, l);
      var b := ch[|ch| - 1];
      if b.node.children != [] {
        NoCellsAbove(b.node.children, level + 1, depth, l);
      }
    }
  }

  /** Every header row spans all the leaf columns, and the first row names the
      top-level keys. */
  lemma HeaderRowsSpans(t: Node)
    ensures forall l :: 0 <= l < |HeaderRowsOf(t)| ==> SumSpans(HeaderRowsOf(t)[l]) == CountLeaves(t)
    ensures HeaderRowsOf(t) != [] ==> HeaderRowsOf(t)[0] == LabelCells(t.children)
  {
    var rows := HeaderRowsOf(t);
    var depth := MaxDepth(t);
    forall l | 0 <= l < |rows|
      ensures SumSpans(rows[l]) == CountLeaves(t)
    {
      SpanSum(t.children, 0, depth, l);
    }
    if rows != [] {
      TopRow(t.children, 0, depth);
    }
  }

  /** Every header cell spans at least one column. */
  lemma {:induction false} SpansPositive(ch: seq<Branch>, level: nat, depth: nat, l: nat)
    ensures forall j :: 0 <= j < |NodeCells(ch, level, depth, l)| ==> NodeCells(ch, level, depth, l)[j].span >= 1
    decreases ch, 1
  {
    if ch != [] {
      SpansPositive(ch[..|ch| - 1], level, depth, l);
      var b := ch[|ch| - 1];
      var own: seq<Cell> := if l == level then [Cell(b.key, CountLeaves(b.node))] else [];
      var below: seq<Cell> :=
        if b.node.children != [] then NodeCells(b.node.children, level + 1, depth, l)
        else if level < l < depth then [Cell("", 1)] else [];
      if b.node.children != [] {
        SpansPositive(b.node.children, level + 1, depth, l);
      }
      assert BranchCells(b, level, depth, l) == own + below;
      assert forall j :: 0 <= j < |own + below| ==> (own + below)[j].span >= 1;
    }
  }

  lemma HeaderSpansPositive(t: Node)
    ensures forall l, j :: 0 <= l < |HeaderRowsOf(t)| && 0 <= j < |HeaderRowsOf(t)[l]| ==> HeaderRowsOf(t)[l][j].span >= 1
  {
    forall l | 0 <= l < |HeaderRowsOf(t)|
      ensures forall j :: 0 <= j < |HeaderRowsOf(t)[l]| ==> HeaderRowsOf(t)[l][j].span >= 1
    {
      SpansPositive(t.children, 0, MaxDepth(t), l);
    }
  }

  /** The cells that name the children themselves. */
  function LabelCells(ch: seq<Branch>): (r: seq<Cell>)
    ensures |r| == |ch|
    ensures forall i :: 0 <= i < |ch| ==> r[i] == Cell(ch[i].key, CountLeaves(ch[i].node))
  {
    seq(|ch|, i requires 0 <= i < |ch| => Cell(ch[i].key, CountLeaves(ch[i].node)))
  }

  /** The row of a level holds one cell per child, labelled with the child's key
      and spanning its leaves, in insertion order. */
  lemma {:induction false} TopRow(ch: seq<Branch>, level: nat, depth: nat)
    ensures NodeCells(ch, level, depth, level) == LabelCells(ch)
    decreases |ch|
  {
    if ch != [] {
      var init := ch[..|ch| - 1];
      var b := ch[|ch| - 1];
      TopRow(init, level, depth);
      if b.node.children != [] {
        NoCellsAbove(b.node.children, level + 1, depth, level);
      }
      assert LabelCells(ch) == LabelCells(init) + [Cell(b.key, CountLeaves(b.node))];
    }
  }

  /** The header tree of the columns `a, b.c`. */
  lemma ExampleTreeAB()
    ensures TreeOf(["a", "b.c"]) ==
              Node([Branch("a", Node([])), Branch("b", Node([Branch("c", Node([]))]))])
  {
    ExampleSplits();
    var leaf := Node([]);
    var t1 := Node([Branch("a", leaf)]);
    assert ["a", "b.c"][..1] == ["a"] && ["a"][..0] == [];
    assert ["a"][1..] == [] && ["b", "c"][1..] == ["c"] && ["c"][1..] == [];
    InsertFresh(leaf, ["a"]);
    assert Insert(leaf, ["a"]) == t1;
    assert TreeOf(["a"][..0]) == leaf;
    assert TreeOf(["a"]) == t1;
    InsertFresh(leaf, ["c"]);
    assert Insert(leaf, ["c"]) == Node([Branch("c", leaf)]);
    assert "a"[0] != "b"[0];
    InsertFresh(t1, ["b", "c"]);
    assert TreeOf(["a", "b.c"]) == Insert(t1, ["b", "c"]);
  }

  lemma ExampleMeasures()
    ensures MaxDepth(Node([Branch("c", Node([]))])) == 1
    ensures CountLeaves(Node([Branch("c", Node([]))])) == 1
    ensures MaxDepth(Node([Branch("a", Node([])), Branch("b", Node([Branch("c", Node([]))]))])) == 2
  {
    var leaf := Node([]);
    var bnode := Node([Branch("c", leaf)]);
    var ch := [Branch("a", leaf), Branch("b", bnode)];
    assert bnode.children[..0] == [];
    assert ch[..1] == [Branch("a", leaf)] && ch[..1][..0] == [];
    assert MaxDepthF(ch[..1]) == 0;
  }

  lemma ExampleCells()
    ensures NodeCells([Branch("a", Node([])), Branch("b", Node([Branch("c", Node([]))]))], 0, 2, 0)
              == [Cell("a", 1), Cell("b", 1)]
    ensures NodeCells([Branch("a", Node([])), Branch("b", Node([Branch("c", Node([]))]))], 0, 2, 1)
              == [Cell("", 1), Cell("c", 1)]
  {
    ExampleMeasures();
    var leaf := Node([]);
    var bnode := Node([Branch("c", leaf)]);
    var ch := [Branch("a", leaf), Branch("b", bnode)];
    TopRow(ch, 0, 2);
    TopRow(bnode.children, 1, 2);
    assert NodeCells(bnode.children, 1, 2, 1) == [Cell("c", 1)];
    assert ch[..1] == [Branch("a", leaf)] && ch[..1][..0] == [];
    assert BranchCells(Branch("a", leaf), 0, 2, 1) == [Cell("", 1)];
    assert NodeCells(ch[..1], 0, 2, 1) == [Cell("", 1)];
    assert BranchCells(Branch("b", bnode), 0, 2, 1) == [Cell("c", 1)];
  }

  /** `[{"a": 1, "b": {"c": 2}}]` has the columns "a" and "b.c", and its header is
      `a | b` over `"" | c`, every cell one column wide. */
  lemma HeaderExample()
    ensures HeaderRowsOf(TreeOf(["a", "b.c"])) ==
              [[Cell("a", 1), Cell("b", 1)], [Cell("", 1), Cell("c", 1)]]
  {
    ExampleTreeAB();
    ExampleMeasures();
    ExampleCells();
  }
}
