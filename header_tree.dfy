/** The header tree: `buildHeaderTree` folds the dotted column paths into a tree of
    nested objects, one level per path segment; `countLeaves` and `getMaxDepth`
    measure it. Children keep the order in which their keys were first inserted. */
module HeaderTree {
  import opened Text
  import opened OrderedSets

  /** A node of the header tree: its children in insertion order. A node without
      children is a leaf (the `{}` at the end of a column path). */
  datatype Node = Node(children: seq<Branch>)
  datatype Branch = Branch(key: string, node: Node)

  function Keys(ch: seq<Branch>): (ks: seq<string>)
    ensures |ks| == |ch|
    ensures forall i :: 0 <= i < |ch| ==> ks[i] == ch[i].key
  {
    seq(|ch|, i requires 0 <= i < |ch| => ch[i].key)
  }

  /** Position of the child under `key`, or `|ch|` when there is none: the lookup of
      `node[part]` (server.js:57-58), over a header node's children. */
  function KeyIndex(ch: seq<Branch>, key: string): (i: nat)
    ensures i <= |ch|
    ensures i < |ch| ==> ch[i].key == key
    ensures forall j :: 0 <= j < i ==> ch[j].key != key
  {
    if ch == [] then 0 else if ch[0].key == key then 0 else 1 + KeyIndex(ch[1..], key)
  }

  lemma KeyIndexIn(ch: seq<Branch>, key: string)
    ensures KeyIndex(ch, key) < |ch| <==> key in Keys(ch)
  {
    if key in Keys(ch) {
      var j :| 0 <= j < |ch| && Keys(ch)[j] == key;
      assert ch[j].key == key;
    }
  }

  lemma KeyIndexSnoc(ch: seq<Branch>, b: Branch, key: string)
    ensures KeyIndex(ch + [b], key) ==
              if KeyIndex(ch, key) < |ch| then KeyIndex(ch, key)
              else if b.key == key then |ch| else |ch| + 1
  {
    var i := KeyIndex(ch, key);
    var ch' := ch + [b];
    if i < |ch| {
      assert ch'[i] == ch[i];
    } else if b.key == key {
      assert ch'[|ch|] == b;
    } else {
      assert forall j :: 0 <= j < |ch'| ==> ch'[j].key != key;
    }
  }

  /** Every node of the tree has children under distinct keys, as the keys of a
      JavaScript object are. */
  ghost predicate Valid(t: Node)
    decreases t
  {
    Distinct(Keys(t.children)) &&
    forall i :: 0 <= i < |t.children| ==> Valid(t.children[i].node)
  }

  /** The column path split at its dots. */
  function SplitPath(col: string): seq<string>
  {
    Split(col, '.')
  }

  /** The walk of `buildHeaderTree` for one column: follow `parts` from the root,
      creating `{}` for every missing key. */
  function Insert(t: Node, parts: seq<string>): Node
    decreases parts
  {
    if parts == [] then t
    else
      var ch := t.children;
      var i := KeyIndex(ch, parts[0]);
      if i < |ch| then Node(ch[i := Branch(parts[0], Insert(ch[i].node, parts[1..]))])
      else Node(ch + [Branch(parts[0], Insert(Node([]), parts[1..]))])
  }

  /** The tree built from the first `|columns|` columns in order. */
  function TreeOf(columns: seq<string>): Node
    decreases |columns|
  {
    if columns == [] then Node([])
    else Insert(TreeOf(columns[..|columns| - 1]), SplitPath(columns[|columns| - 1]))
  }

  /** `buildHeaderTree(columns)`. */
  method BuildHeaderTree(columns: seq<string>) returns (tree: Node)
    ensures tree == TreeOf(columns)
    ensures Valid(tree)
    ensures forall q :: HasPath(tree, q) <==> q == [] || PrefixOfSome(q, columns)
  {
    tree := Node([]);
    for k := 0 to |columns|
      invariant tree == TreeOf(columns[..k])
    {
      assert columns[..k + 1][..k] == columns[..k];
      tree := Insert(tree, SplitPath(columns[k]));
    }
    assert columns[..|columns|] == columns;
    TreeOfValid(columns);
    forall q
      ensures HasPath(tree, q) <==> q == [] || PrefixOfSome(q, columns)
    {
      TreeOfPaths(columns, q);
    }
  }

  // ---------------------------------------------------------------- paths

  /** The tree holds a node at path `p`. */
  predicate HasPath(t: Node, p: seq<string>)
    decreases p
  {
    p == [] ||
    (var i := KeyIndex(t.children, p[0]);
     i < |t.children| && HasPath(t.children[i].node, p[1..]))
  }

  function NodeAt(t: Node, p: seq<string>): Node
    requires HasPath(t, p)
    decreases p
  {
    if p == [] then t else NodeAt(t.children[KeyIndex(t.children, p[0])].node, p[1..])
  }

  /** The node at `p` is a leaf. */
  predicate IsLeafAt(t: Node, p: seq<string>)
  {
    HasPath(t, p) && NodeAt(t, p).children == []
  }

  /** The keys of the children of the node at `p`, none when there is no node there. */
  function KeysAt(t: Node, p: seq<string>): seq<string>
  {
    if HasPath(t, p) then Keys(NodeAt(t, p).children) else []
  }

  predicate IsPrefix(p: seq<string>, q: seq<string>)
  {
    |p| <= |q| && q[..|p|] == p
  }

  predicate IsProperPrefix(p: seq<string>, q: seq<string>)
  {
    |p| < |q| && q[..|p|] == p
  }

  /** `p` is a prefix of the split path of some column. */
  predicate PrefixOfSome(q: seq<string>, columns: seq<string>)
  {
    exists j :: 0 <= j < |columns| && IsPrefix(q, SplitPath(columns[j]))
  }

  lemma PrefixCons(p: seq<string>, q: seq<string>)
    requires p != [] && q != []
    ensures IsPrefix(p, q) <==> p[0] == q[0] && IsPrefix(p[1..], q[1..])
    ensures IsProperPrefix(p, q) <==> p[0] == q[0] && IsProperPrefix(p[1..], q[1..])
  {
    if |p| <= |q| {
      assert q[..|p|] == [q[0]] + q[1..][..|p| - 1];
      assert p == [p[0]] + p[1..];
    }
  }

  lemma EmptyNodePaths(p: seq<string>)
    ensures HasPath(Node([]), p) <==> p == []
    ensures KeysAt(Node([]), p) == []
  {
  }

  lemma {:induction false} KeysAtCons(t: Node, p: seq<string>)
    requires p != []
    ensures KeysAt(t, p) ==
              var i := KeyIndex(t.children, p[0]);
              if i < |t.children| then KeysAt(t.children[i].node, p[1..]) else []
  {
  }

  /** A path can be extended by one key exactly when that key is a child of the
      node at the path. */
  lemma {:induction false} HasPathSnoc(t: Node, p: seq<string>, k: string)
    ensures HasPath(t, p + [k]) <==> HasPath(t, p) && k in KeysAt(t, p)
    decreases p
  {
    if p == [] {
      assert p + [k] == [k];
      KeyIndexIn(t.children, k);
    } else {
      assert (p + [k])[1..] == p[1..] + [k];
      var i := KeyIndex(t.children, p[0]);
      if i < |t.children| {
        HasPathSnoc(t.children[i].node, p[1..], k);
      }
    }
  }

  // ---------------------------------------------------------------- insertion

  /** After inserting a path the tree holds exactly the old paths and the prefixes
      of the inserted one. */
  lemma {:induction false} InsertPaths(t: Node, parts: seq<string>, q: seq<string>)
    ensures HasPath(Insert(t, parts), q) <==> HasPath(t, q) || IsPrefix(q, parts)
    decreases parts
  {
    if parts != [] && q != [] {
      PrefixCons(q, parts);
      var ch := t.children;
      var i := KeyIndex(ch, parts[0]);
      var ch' := Insert(t, parts).children;
      var j := KeyIndex(ch, q[0]);
      if i < |ch| {
        assert Keys(ch') == Keys(ch);
        assert KeyIndex(ch', q[0]) == j;
        if q[0] == parts[0] {
          InsertPaths(ch[i].node, parts[1..], q[1..]);
        } else if j < |ch| {
          assert ch'[j] == ch[j];
        }
      } else {
        var b := Branch(parts[0], Insert(Node([]), parts[1..]));
        assert ch' == ch + [b];
        KeyIndexSnoc(ch, b, q[0]);
        if q[0] == parts[0] {
          InsertPaths(Node([]), parts[1..], q[1..]);
          EmptyNodePaths(q[1..]);
        } else if j < |ch| {
          assert ch'[j] == ch[j];
        }
      }
    }
  }

  /** Inserting keeps the keys of every node distinct. */
  lemma {:induction false} InsertValid(t: Node, parts: seq<string>)
    requires Valid(t)
    ensures Valid(Insert(t, parts))
    decreases parts
  {
    if parts != [] {
      var ch := t.children;
      var i := KeyIndex(ch, parts[0]);
      var ch' := Insert(t, parts).children;
      if i < |ch| {
        InsertValid(ch[i].node, parts[1..]);
        assert Keys(ch') == Keys(ch);
        forall j | 0 <= j < |ch'|
          ensures Valid(ch'[j].node)
        {
          if j != i {
            assert ch'[j] == ch[j];
          }
        }
      } else {
        InsertValid(Node([]), parts[1..]);
        KeyIndexIn(ch, parts[0]);
        assert Keys(ch') == Keys(ch) + [parts[0]];
        DistinctConcat(Keys(ch), [parts[0]]);
        forall j | 0 <= j < |ch'|
          ensures Valid(ch'[j].node)
        {
          if j < |ch| {
            assert ch'[j] == ch[j];
          }
        }
      }
    }
  }

  /** Inserting a path that is already present changes nothing, and only then. */
  lemma {:induction false} InsertPresent(t: Node, parts: seq<string>)
    ensures Insert(t, parts) == t <==> HasPath(t, parts)
    decreases parts
  {
    if parts != [] {
      var ch := t.children;
      var i := KeyIndex(ch, parts[0]);
      if i < |ch| {
        InsertPresent(ch[i].node, parts[1..]);
        var b := Branch(parts[0], Insert(ch[i].node, parts[1..]));
        if Insert(t, parts) == t {
          assert ch[i := b][i] == ch[i];
        }
      } else {
        assert |Insert(t, parts).children| == |ch| + 1;
      }
    }
  }

  /** Inserting a path adds its next segment, after the existing ones, to the child
      keys of every node on the path (`Set`-like: a key already there stays where
      it is), and leaves the child keys of every other node as they were. */
  lemma {:induction false} InsertKeysAt(t: Node, parts: seq<string>, p: seq<string>)
    ensures KeysAt(Insert(t, parts), p) ==
              if IsProperPrefix(p, parts) then Add(KeysAt(t, p), parts[|p|]) else KeysAt(t, p)
    decreases parts, 1
  {
    if parts != [] {
      var ch := t.children;
      var i := KeyIndex(ch, parts[0]);
      var ch' := Insert(t, parts).children;
      if p == [] {
        KeyIndexIn(ch, parts[0]);
        if i < |ch| {
          assert Keys(ch') == Keys(ch);
        } else {
          assert Keys(ch') == Keys(ch) + [parts[0]];
        }
      } else if i < |ch| {
        InsertKeysAtOld(t, parts, p);
      } else {
        InsertKeysAtNew(t, parts, p);
      }
    }
  }

  /** `InsertKeysAt` below the root, when the first segment is already a child. */
  lemma {:induction false} InsertKeysAtOld(t: Node, parts: seq<string>, p: seq<string>)
    requires parts != [] && p != [] && KeyIndex(t.children, parts[0]) < |t.children|
    ensures KeysAt(Insert(t, parts), p) ==
              if IsProperPrefix(p, parts) then Add(KeysAt(t, p), parts[|p|]) else KeysAt(t, p)
    decreases parts, 0
  {
    var ch := t.children;
    var i := KeyIndex(ch, parts[0]);
    var ch' := Insert(t, parts).children;
    PrefixCons(p, parts);
    KeysAtCons(t, p);
    KeysAtCons(Insert(t, parts), p);
    var j := KeyIndex(ch, p[0]);
    assert Keys(ch') == Keys(ch);
    assert KeyIndex(ch', p[0]) == j;
    if p[0] == parts[0] {
      InsertKeysAt(ch[i].node, parts[1..], p[1..]);
      if IsProperPrefix(p, parts) {
        assert (parts[1..])[|p[1..]|] == parts[|p|];
      }
    } else if j < |ch| {
      assert ch'[j] == ch[j];
    }
  }

  /** `InsertKeysAt` below the root, when the first segment is a new child. */
  lemma {:induction false} InsertKeysAtNew(t: Node, parts: seq<string>, p: seq<string>)
    requires parts != [] && p != [] && KeyIndex(t.children, parts[0]) == |t.children|
    ensures KeysAt(Insert(t, parts), p) ==
              if IsProperPrefix(p, parts) then Add(KeysAt(t, p), parts[|p|]) else KeysAt(t, p)
    decreases parts, 0
  {
    var ch := t.children;
    var ch' := Insert(t, parts).children;
    PrefixCons(p, parts);
    KeysAtCons(t, p);
    KeysAtCons(Insert(t, parts), p);
    var j := KeyIndex(ch, p[0]);
    var b := Branch(parts[0], Insert(Node([]), parts[1..]));
    assert ch' == ch + [b];
    KeyIndexSnoc(ch, b, p[0]);
    if p[0] == parts[0] {
      InsertKeysAt(Node([]), parts[1..], p[1..]);
      EmptyNodePaths(p[1..]);
      if IsProperPrefix(p, parts) {
        assert (parts[1..])[|p[1..]|] == parts[|p|];
      }
    } else if j < |ch| {
      assert ch'[j] == ch[j];
    }
  }

  // ---------------------------------------------------------------- the whole tree

  /** The tree of a column list holds exactly the root and the prefixes of the split
      column paths. */
  lemma {:induction false} TreeOfPaths(columns: seq<string>, q: seq<string>)
    ensures HasPath(TreeOf(columns), q) <==> q == [] || PrefixOfSome(q, columns)
    decreases |columns|
  {
    if columns == [] {
      EmptyNodePaths(q);
    } else {
      var n := |columns| - 1;
      var init := columns[..n];
      TreeOfPaths(init, q);
      InsertPaths(TreeOf(init), SplitPath(columns[n]), q);
      if PrefixOfSome(q, init) {
        var j :| 0 <= j < |init| && IsPrefix(q, SplitPath(init[j]));
        assert columns[j] == init[j];
      }
      if PrefixOfSome(q, columns) {
        var j :| 0 <= j < |columns| && IsPrefix(q, SplitPath(columns[j]));
        if j < n {
          assert init[j] == columns[j];
        }
      }
    }
  }

  lemma {:induction false} TreeOfValid(columns: seq<string>)
    ensures Valid(TreeOf(columns))
    decreases |columns|
  {
    if columns != [] {
      var n := |columns| - 1;
      TreeOfValid(columns[..n]);
      InsertValid(TreeOf(columns[..n]), SplitPath(columns[n]));
    }
  }

  /** The segments that follow `p` in the split paths of the columns of which `p` is
      a proper prefix, in column order. */
  function NextSegments(columns: seq<string>, p: seq<string>): seq<string>
    decreases |columns|
  {
    if columns == [] then []
    else
      var init := NextSegments(columns[..|columns| - 1], p);
      var parts := SplitPath(columns[|columns| - 1]);
      if IsProperPrefix(p, parts) then init + [parts[|p|]] else init
  }

  /** Siblings are in insertion order: the child keys of the node at any path are the
      segments that follow that path in the columns, in the order of their first
      occurrence and without repetition. */
  lemma {:induction false} TreeOfKeysAt(columns: seq<string>, p: seq<string>)
    ensures KeysAt(TreeOf(columns), p) == Dedup(NextSegments(columns, p))
    decreases |columns|
  {
    if columns != [] {
      var n := |columns| - 1;
      var init := columns[..n];
      var parts := SplitPath(columns[n]);
      TreeOfKeysAt(init, p);
      InsertKeysAt(TreeOf(init), parts, p);
      if IsProperPrefix(p, parts) {
        var xs := NextSegments(init, p);
        var x := parts[|p|];
        assert (xs + [x])[..|xs|] == xs;
      }
    }
  }

  /** Re-inserting every column into the tree built from them changes nothing. */
  lemma TreeOfIdempotent(columns: seq<string>, k: nat)
    requires k < |columns|
    ensures Insert(TreeOf(columns), SplitPath(columns[k])) == TreeOf(columns)
  {
    TreeOfPaths(columns, SplitPath(columns[k]));
    InsertPresent(TreeOf(columns), SplitPath(columns[k]));
  }

  // ---------------------------------------------------------------- measures

  /** `countLeaves`: a node without children counts 1, any other the sum over its
      children. */
  function CountLeaves(t: Node): (n: nat)
    ensures n >= 1
    decreases t
  {
    if t.children == [] then 1 else CountLeavesF(t.children)
  }

  function CountLeavesF(ch: seq<Branch>): (n: nat)
    ensures ch != [] ==> n >= 1
    decreases ch
  {
    if ch == [] then 0 else CountLeavesF(ch[..|ch| - 1]) + CountLeaves(ch[|ch| - 1].node)
  }

  /** `getMaxDepth`: 0 for a node without children, else one more than its deepest
      child. */
  function MaxDepth(t: Node): (d: nat)
    ensures t.children == [] <==> d == 0
    ensures forall i :: 0 <= i < |t.children| ==> MaxDepth(t.children[i].node) < d
    decreases t, 1
  {
    if t.children == [] then 0 else 1 + MaxDepthF(t.children)
  }

  function MaxDepthF(ch: seq<Branch>): (d: nat)
    ensures forall i :: 0 <= i < |ch| ==> MaxDepth(ch[i].node) <= d
    decreases ch, 0
  {
    if ch == [] then 0
    else
      var init := MaxDepthF(ch[..|ch| - 1]);
      var last := MaxDepth(ch[|ch| - 1].node);
      assert forall i :: 0 <= i < |ch| - 1 ==> ch[..|ch| - 1][i] == ch[i];
      if last > init then last else init
  }

  /** The depth of a node with children is reached through one of them. */
  lemma {:induction false} MaxDepthAttained(ch: seq<Branch>)
    requires ch != []
    ensures exists i :: 0 <= i < |ch| && MaxDepthF(ch) == MaxDepth(ch[i].node)
    decreases |ch|
  {
    var n := |ch| - 1;
    if MaxDepth(ch[n].node) < MaxDepthF(ch) {
      if n == 0 {
        assert MaxDepthF(ch[..0]) == 0;
      } else {
        MaxDepthAttained(ch[..n]);
        var i :| 0 <= i < n && MaxDepthF(ch[..n]) == MaxDepth(ch[..n][i].node);
        assert ch[..n][i] == ch[i];
      }
    }
  }

  // ---------------------------------------------------------------- leaves

  function PrependAll(k: string, ps: seq<seq<string>>): (r: seq<seq<string>>)
    ensures |r| == |ps|
    ensures forall i :: 0 <= i < |ps| ==> r[i] == [k] + ps[i]
  {
    seq(|ps|, i requires 0 <= i < |ps| => [k] + ps[i])
  }

  lemma InPrependAll(k: string, ps: seq<seq<string>>, p: seq<string>)
    ensures p in PrependAll(k, ps) <==> p != [] && p[0] == k && p[1..] in ps
  {
    var r := PrependAll(k, ps);
    if p in r {
      var i :| 0 <= i < |r| && r[i] == p;
      assert p[1..] == ps[i];
    }
    if p != [] && p[0] == k && p[1..] in ps {
      var i :| 0 <= i < |ps| && ps[i] == p[1..];
      assert r[i] == p;
    }
  }

  /** The paths of the leaves, left to right. */
  function LeafPaths(t: Node): seq<seq<string>>
    decreases t
  {
    if t.children == [] then [[]] else LeafPathsF(t.children)
  }

  function LeafPathsF(ch: seq<Branch>): seq<seq<string>>
    decreases ch
  {
    if ch == [] then []
    else
      var b := ch[|ch| - 1];
      LeafPathsF(ch[..|ch| - 1]) + PrependAll(b.key, LeafPaths(b.node))
  }

  /** `countLeaves` counts the leaves. */
  lemma {:induction false} LeafPathsCount(t: Node)
    ensures |LeafPaths(t)| == CountLeaves(t)
    decreases t, 1
  {
    if t.children != [] {
      LeafPathsCountF(t.children);
    }
  }

  lemma {:induction false} LeafPathsCountF(ch: seq<Branch>)
    ensures |LeafPathsF(ch)| == CountLeavesF(ch)
    decreases ch, 0
  {
    if ch != [] {
      LeafPathsCountF(ch[..|ch| - 1]);
      LeafPathsCount(ch[|ch| - 1].node);
    }
  }

  /** The listed leaf paths are exactly the paths at which the tree has a leaf. */
  lemma {:induction false} LeafPathsMembership(t: Node, p: seq<string>)
    requires Valid(t)
    ensures p in LeafPaths(t) <==> IsLeafAt(t, p)
    decreases t, 1
  {
    if t.children != [] {
      LeafPathsMembershipF(t.children, p);
      if p != [] {
        var i := KeyIndex(t.children, p[0]);
        if i < |t.children| {
          LeafPathsMembership(t.children[i].node, p[1..]);
        }
      }
    }
  }

  lemma {:induction false} LeafPathsMembershipF(ch: seq<Branch>, p: seq<string>)
    requires Distinct(Keys(ch))
    ensures p in LeafPathsF(ch) <==>
              p != [] && KeyIndex(ch, p[0]) < |ch| && p[1..] in LeafPaths(ch[KeyIndex(ch, p[0])].node)
    decreases ch, 0
  {
    if ch != [] {
      var init := ch[..|ch| - 1];
      var b := ch[|ch| - 1];
      assert ch == init + [b];
      assert Keys(init) == Keys(ch)[..|ch| - 1];
      LeafPathsMembershipF(init, p);
      InPrependAll(b.key, LeafPaths(b.node), p);
      if p != [] {
        KeyIndexSnoc(init, b, p[0]);
        var i := KeyIndex(init, p[0]);
        if i < |init| {
          assert ch[i] == init[i];
          assert b.key != p[0] by {
            assert Keys(ch)[i] == p[0] && Keys(ch)[|init|] == b.key;
          }
        } else if b.key == p[0] {
          assert ch[|init|] == b;
        }
      }
    }
  }

  /** In a valid tree no leaf path is listed twice. */
  lemma {:induction false} LeafPathsDistinct(t: Node)
    requires Valid(t)
    ensures Distinct(LeafPaths(t))
    decreases t, 1
  {
    if t.children != [] {
      LeafPathsDistinctF(t.children);
    }
  }

  lemma {:induction false} LeafPathsDistinctF(ch: seq<Branch>)
    requires Distinct(Keys(ch))
    requires forall i :: 0 <= i < |ch| ==> Valid(ch[i].node)
    ensures Distinct(LeafPathsF(ch))
    ensures forall p :: p in LeafPathsF(ch) ==> p != [] && p[0] in Keys(ch)
    decreases ch, 0
  {
    if ch != [] {
      var init := ch[..|ch| - 1];
      var b := ch[|ch| - 1];
      assert Keys(init) == Keys(ch)[..|ch| - 1];
      LeafPathsDistinctF(init);
      LeafPathsDistinct(b.node);
      var ps := LeafPaths(b.node);
      var tail := PrependAll(b.key, ps);
      forall i, j | 0 <= i < j < |tail|
        ensures tail[i] != tail[j]
      {
        assert tail[i][1..] == ps[i] && tail[j][1..] == ps[j];
      }
      forall p | p in LeafPathsF(init)
        ensures p !in tail
      {
        assert p[0] in Keys(init);
        assert b.key !in Keys(init);
      }
      DistinctConcat(LeafPathsF(init), tail);
    }
  }

  // ---------------------------------------------------------------- leaves and columns

  /** Column `j` is not a proper prefix of another column, once both are split. */
  predicate Maximal(columns: seq<string>, j: nat)
    requires j < |columns|
  {
    forall k :: 0 <= k < |columns| ==> !IsProperPrefix(SplitPath(columns[j]), SplitPath(columns[k]))
  }

  predicate IsMaximalColumnPath(columns: seq<string>, p: seq<string>)
  {
    exists j :: 0 <= j < |columns| && p == SplitPath(columns[j]) && Maximal(columns, j)
  }

  predicate NoProperPrefixes(columns: seq<string>)
  {
    forall j :: 0 <= j < |columns| ==> Maximal(columns, j)
  }

  /** A path that is a proper prefix of a column path does not end at a leaf. */
  lemma NotLeafBelow(columns: seq<string>, p: seq<string>, k: nat)
    requires k < |columns| && IsProperPrefix(p, SplitPath(columns[k]))
    ensures !IsLeafAt(TreeOf(columns), p)
  {
    var t := TreeOf(columns);
    var parts := SplitPath(columns[k]);
    var next := parts[|p|];
    ExtendPrefix(p, parts);
    assert PrefixOfSome(p + [next], columns);
    TreeOfPaths(columns, p + [next]);
    HasPathSnoc(t, p, next);
    assert |KeysAt(t, p)| > 0;
    assert NodeAt(t, p).children != [];
  }

  lemma ExtendPrefix(p: seq<string>, q: seq<string>)
    requires IsProperPrefix(p, q)
    ensures IsPrefix(p + [q[|p|]], q)
  {
    assert q[..|p| + 1] == q[..|p|] + [q[|p|]];
  }

  lemma PrefixSnoc(p: seq<string>, k: string, q: seq<string>)
    ensures IsPrefix(p + [k], q) ==> IsProperPrefix(p, q)
  {
    if IsPrefix(p + [k], q) {
      assert q[..|p|] == (p + [k])[..|p|];
    }
  }

  /** A column path that is no proper prefix of another cannot be extended in the tree. */
  lemma NoExtension(columns: seq<string>, j: nat, k: string)
    requires j < |columns| && Maximal(columns, j)
    ensures !HasPath(TreeOf(columns), SplitPath(columns[j]) + [k])
  {
    var p := SplitPath(columns[j]);
    TreeOfPaths(columns, p + [k]);
    forall m | 0 <= m < |columns|
      ensures !IsPrefix(p + [k], SplitPath(columns[m]))
    {
      PrefixSnoc(p, k, SplitPath(columns[m]));
    }
  }

  /** For a non-empty column list the leaves of the tree are exactly the split column
      paths that are no proper prefix of another. */
  lemma LeavesAreMaximalColumns(columns: seq<string>, p: seq<string>)
    requires columns != []
    ensures IsLeafAt(TreeOf(columns), p) <==> IsMaximalColumnPath(columns, p)
  {
    var t := TreeOf(columns);
    TreeOfPaths(columns, p);
    if IsMaximalColumnPath(columns, p) {
      var j :| 0 <= j < |columns| && p == SplitPath(columns[j]) && Maximal(columns, j);
      assert IsPrefix(p, SplitPath(columns[j]));
      var ks := KeysAt(t, p);
      if ks != [] {
        NoExtension(columns, j, ks[0]);
        HasPathSnoc(t, p, ks[0]);
      }
    } else if HasPath(t, p) {
      if p == [] {
        NotLeafBelow(columns, p, 0);
      } else {
        var j :| 0 <= j < |columns| && IsPrefix(p, SplitPath(columns[j]));
        if |p| < |SplitPath(columns[j])| {
          NotLeafBelow(columns, p, j);
        } else {
          assert p == SplitPath(columns[j]);
          assert !Maximal(columns, j);
          var k :| 0 <= k < |columns| && IsProperPrefix(p, SplitPath(columns[k]));
          NotLeafBelow(columns, p, k);
        }
      }
    }
  }

  function SplitPaths(columns: seq<string>): (r: seq<seq<string>>)
    ensures |r| == |columns|
    ensures forall j :: 0 <= j < |columns| ==> r[j] == SplitPath(columns[j])
  {
    seq(|columns|, j requires 0 <= j < |columns| => SplitPath(columns[j]))
  }

  /** The split paths of distinct columns are distinct. */
  lemma SplitPathsDistinct(columns: seq<string>)
    requires Distinct(columns)
    ensures Distinct(SplitPaths(columns))
  {
    var paths := SplitPaths(columns);
    forall i, j | 0 <= i < j < |paths|
      ensures paths[i] != paths[j]
    {
      if paths[i] == paths[j] {
        SplitInjective(columns[i], columns[j], '.');
      }
    }
  }

  /** Every leaf path is a split column path. */
  lemma LeavesAmongPaths(columns: seq<string>)
    requires columns != []
    ensures forall p :: p in LeafPaths(TreeOf(columns)) ==> p in SplitPaths(columns)
  {
    var t := TreeOf(columns);
    TreeOfValid(columns);
    forall p | p in LeafPaths(t)
      ensures p in SplitPaths(columns)
    {
      LeafPathsMembership(t, p);
      LeavesAreMaximalColumns(columns, p);
      var j :| 0 <= j < |columns| && p == SplitPath(columns[j]) && Maximal(columns, j);
      assert p == SplitPaths(columns)[j];
    }
  }

  /** Column `j` has a leaf of its own exactly when it is maximal. */
  lemma ColumnLeaf(columns: seq<string>, j: nat)
    requires Distinct(columns) && j < |columns|
    ensures SplitPath(columns[j]) in LeafPaths(TreeOf(columns)) <==> Maximal(columns, j)
  {
    var t := TreeOf(columns);
    var p := SplitPath(columns[j]);
    var paths := SplitPaths(columns);
    TreeOfValid(columns);
    SplitPathsDistinct(columns);
    forall j' | 0 <= j' < |columns| && p == SplitPath(columns[j'])
      ensures j' == j
    {
      assert paths[j'] == paths[j];
    }
    LeavesAreMaximalColumns(columns, p);
    LeafPathsMembership(t, p);
  }

  function LeafSet(t: Node): set<seq<string>>
  {
    set p | p in LeafPaths(t)
  }

  function PathSet(columns: seq<string>): set<seq<string>>
  {
    set p | p in SplitPaths(columns)
  }

  /** Leaves are counted once each, and every leaf is a column path. */
  lemma LeafSets(columns: seq<string>)
    requires columns != [] && Distinct(columns)
    ensures |LeafSet(TreeOf(columns))| == CountLeaves(TreeOf(columns))
    ensures |PathSet(columns)| == |columns|
    ensures LeafSet(TreeOf(columns)) <= PathSet(columns)
  {
    var t := TreeOf(columns);
    TreeOfValid(columns);
    LeafPathsDistinct(t);
    LeafPathsCount(t);
    SplitPathsDistinct(columns);
    DistinctCard(LeafPaths(t));
    DistinctCard(SplitPaths(columns));
    LeavesAmongPaths(columns);
  }

  lemma AllColumnsLeaves(columns: seq<string>)
    requires columns != [] && Distinct(columns) && NoProperPrefixes(columns)
    ensures PathSet(columns) <= LeafSet(TreeOf(columns))
  {
    var paths := SplitPaths(columns);
    forall p | p in PathSet(columns)
      ensures p in LeafSet(TreeOf(columns))
    {
      var j :| 0 <= j < |paths| && p == paths[j];
      ColumnLeaf(columns, j);
    }
  }

  /** For distinct, non-empty columns the tree has at most one leaf per column, and
      exactly one per column precisely when no column path is a proper prefix of
      another. */
  lemma LeafCount(columns: seq<string>)
    requires columns != [] && Distinct(columns)
    ensures CountLeaves(TreeOf(columns)) <= |columns|
    ensures CountLeaves(TreeOf(columns)) == |columns| <==> NoProperPrefixes(columns)
  {
    var ls := LeafSet(TreeOf(columns));
    var ps := PathSet(columns);
    LeafSets(columns);
    SubsetCard(ls, ps);
    if NoProperPrefixes(columns) {
      AllColumnsLeaves(columns);
      assert ls == ps;
    } else {
      var j :| 0 <= j < |columns| && !Maximal(columns, j);
      ColumnLeaf(columns, j);
      assert SplitPaths(columns)[j] in ps;
      StrictSubsetCard(ls, ps, SplitPaths(columns)[j]);
    }
  }

  lemma SplitPathOf(parts: seq<string>, col: string)
    requires |parts| >= 1 && forall i :: 0 <= i < |parts| ==> '.' !in parts[i]
    requires Join(parts, ".") == col
    ensures SplitPath(col) == parts
  {
    SplitJoin(parts, '.');
  }

  lemma ExampleSplits()
    ensures SplitPath("a.x") == ["a", "x"]
    ensures SplitPath("b") == ["b"]
    ensures SplitPath("a.y") == ["a", "y"]
    ensures SplitPath("a") == ["a"]
    ensures SplitPath("b.c") == ["b", "c"]
  {
    SplitPathOf(["a", "x"], "a.x");
    SplitPathOf(["b"], "b");
    SplitPathOf(["a", "y"], "a.y");
    SplitPathOf(["a"], "a");
    SplitPathOf(["b", "c"], "b.c");
  }

  /** Inserting a path whose first key is new appends a branch for it. */
  lemma InsertFresh(t: Node, parts: seq<string>)
    requires parts != [] && KeyIndex(t.children, parts[0]) == |t.children|
    ensures Insert(t, parts) == Node(t.children + [Branch(parts[0], Insert(Node([]), parts[1..]))])
  {
  }

  /** Inserting a path whose first key is present descends into that branch. */
  lemma InsertExisting(t: Node, parts: seq<string>, i: nat)
    requires parts != [] && i == KeyIndex(t.children, parts[0]) && i < |t.children|
    ensures Insert(t, parts) ==
              Node(t.children[i := Branch(parts[0], Insert(t.children[i].node, parts[1..]))])
  {
  }

  lemma ExampleTreeSteps()
    ensures TreeOf(["a.x"]) == Node([Branch("a", Node([Branch("x", Node([]))]))])
    ensures TreeOf(["a.x", "b"]) ==
              Node([Branch("a", Node([Branch("x", Node([]))])), Branch("b", Node([]))])
  {
    ExampleSplits();
    var leaf := Node([]);
    var ax := Node([Branch("a", Node([Branch("x", leaf)]))]);
    assert ["a.x"][..0] == [];
    assert ["a", "x"][1..] == ["x"] && ["x"][1..] == [] && ["b"][1..] == [];
    InsertFresh(leaf, ["x"]);
    assert Insert(leaf, ["x"]) == Node([Branch("x", leaf)]);
    InsertFresh(leaf, ["a", "x"]);
    assert Insert(leaf, ["a", "x"]) == ax;
    assert TreeOf(["a.x"][..0]) == leaf;
    assert TreeOf(["a.x"]) == ax;
    assert ["a.x", "b"][..1] == ["a.x"];
    assert "a"[0] != "b"[0];
    InsertFresh(ax, ["b"]);
  }

  /** The tree of "a.x", "b", "a.y": `{a: {x: {}, y: {}}, b: {}}`. */
  lemma ExampleTree()
    ensures TreeOf(["a.x", "b", "a.y"]) ==
              Node([Branch("a", Node([Branch("x", Node([])), Branch("y", Node([]))])),
                    Branch("b", Node([]))])
  {
    ExampleSplits();
    ExampleTreeSteps();
    var leaf := Node([]);
    var x := Node([Branch("x", leaf)]);
    var t2 := Node([Branch("a", x), Branch("b", leaf)]);
    assert ["a.x", "b", "a.y"][..2] == ["a.x", "b"];
    assert ["a", "y"][1..] == ["y"] && ["y"][1..] == [];
    assert "x"[0] != "y"[0];
    InsertFresh(leaf, ["y"]);
    assert Insert(leaf, ["y"]) == Node([Branch("y", leaf)]);
    InsertFresh(x, ["y"]);
    assert Insert(x, ["y"]) == Node([Branch("x", leaf), Branch("y", leaf)]);
    assert KeyIndex(t2.children, "a") == 0;
    InsertExisting(t2, ["a", "y"], 0);
    assert TreeOf(["a.x", "b", "a.y"]) == Insert(t2, ["a", "y"]);
  }

  lemma ExampleLeaves(k: string, a: string, b: string)
    ensures LeafPaths(Node([Branch(a, Node([])), Branch(b, Node([]))])) == [[a], [b]]
    ensures PrependAll(k, [[a], [b]]) == [[k, a], [k, b]]
  {
    var leaf := Node([]);
    var e: seq<string> := [];
    assert LeafPaths(leaf) == [e];
    assert [a] + e == [a] && [b] + e == [b];
    assert PrependAll(a, [e]) == [[a]] && PrependAll(b, [e]) == [[b]];
    assert [Branch(a, leaf), Branch(b, leaf)][..1] == [Branch(a, leaf)];
    assert [Branch(a, leaf)][..0] == [];
    assert LeafPathsF([Branch(a, leaf)]) == [] + [[a]];
    assert LeafPathsF([Branch(a, leaf), Branch(b, leaf)]) == [[a]] + [[b]];
    assert [k] + [a] == [k, a] && [k] + [b] == [k, b];
  }

  /** Leaves follow tree order, not column order: with "a.x", "b", "a.y" the leaf
      for "a.y" comes before the one for "b". */
  lemma LeafOrderExample()
    ensures LeafPaths(TreeOf(["a.x", "b", "a.y"])) == [["a", "x"], ["a", "y"], ["b"]]
  {
    ExampleTree();
    ExampleLeaves("a", "x", "y");
    var leaf := Node([]);
    var a := Node([Branch("x", leaf), Branch("y", leaf)]);
    var ch := [Branch("a", a), Branch("b", leaf)];
    var e: seq<string> := [];
    assert LeafPaths(leaf) == [e];
    assert ["b"] + e == ["b"];
    assert PrependAll("b", [e]) == [["b"]];
    assert ch[..1] == [Branch("a", a)];
    assert [Branch("a", a)][..0] == [];
    assert LeafPathsF([Branch("a", a)]) == [["a", "x"], ["a", "y"]];
  }
}
