/** An insertion-ordered set held as a duplicate-free list, as JavaScript's `Set`
    keeps its elements: adding a present element changes nothing, adding a new one
    appends it. */
module OrderedSets {

  /** `set.add(x)` on an insertion-ordered set held as a list. */
  function Add<T(==)>(s: seq<T>, x: T): seq<T>
  {
    if x in s then s else s + [x]
  }

  /** Adding every element of `xs` in turn. */
  function AddAll<T(==)>(s: seq<T>, xs: seq<T>): seq<T>
  {
    if xs == [] then s else Add(AddAll(s, xs[..|xs| - 1]), xs[|xs| - 1])
  }

  predicate Distinct<T(==)>(s: seq<T>)
  {
    forall i, j :: 0 <= i < j < |s| ==> s[i] != s[j]
  }

  /** Position of the first occurrence of `x` in `s`. */
  function FirstIndex<T(==)>(s: seq<T>, x: T): (k: nat)
    requires x in s
    ensures k < |s| && s[k] == x && x !in s[..k]
  {
    if s[0] == x then 0 else 1 + FirstIndex(s[1..], x)
  }

  lemma {:induction false} AddAllAppend<T>(s: seq<T>, xs: seq<T>, ys: seq<T>)
    ensures AddAll(s, xs + ys) == AddAll(AddAll(s, xs), ys)
    decreases |ys|
  {
    if ys == [] {
      assert xs + ys == xs;
    } else {
      assert (xs + ys)[..|xs + ys| - 1] == xs + ys[..|ys| - 1];
      AddAllAppend(s, xs, ys[..|ys| - 1]);
    }
  }

  /** Adding to a set keeps it duplicate-free, keeps what it held in place, and
      holds afterwards exactly the old elements and the added ones. */
  lemma {:induction false} AddAllFacts<T>(s: seq<T>, xs: seq<T>)
    requires Distinct(s)
    ensures Distinct(AddAll(s, xs))
    ensures |s| <= |AddAll(s, xs)| && AddAll(s, xs)[..|s|] == s
    ensures forall x :: x in AddAll(s, xs) <==> x in s || x in xs
    decreases |xs|
  {
    if xs != [] {
      var xs' := xs[..|xs| - 1];
      AddAllFacts(s, xs');
      assert xs == xs' + [xs[|xs| - 1]];
    }
  }

  /** The duplicate-free list of `xs` in order of first occurrence: `Array.from(new Set(xs))`. */
  function Dedup<T(==)>(xs: seq<T>): seq<T>
  {
    AddAll([], xs)
  }

  /** `Dedup(xs)` holds each element of `xs` exactly once, and lists them in
      the order in which they first occur in `xs`. */
  lemma {:induction false} DedupFacts<T>(xs: seq<T>)
    ensures Distinct(Dedup(xs))
    ensures forall x :: x in Dedup(xs) <==> x in xs
    ensures forall i, j :: 0 <= i < j < |Dedup(xs)| ==>
              FirstIndex(xs, Dedup(xs)[i]) < FirstIndex(xs, Dedup(xs)[j])
    decreases |xs|
  {
    AddAllFacts([], xs);
    if xs != [] {
      var xs' := xs[..|xs| - 1];
      var x := xs[|xs| - 1];
      DedupFacts(xs');
      var d', d := Dedup(xs'), Dedup(xs);
      assert xs == xs' + [x];
      assert d == Add(d', x);
      // first occurrences of elements already seen are unchanged by appending x
      forall y | y in xs'
        ensures FirstIndex(xs, y) == FirstIndex(xs', y)
      {
        FirstIndexPrefix(xs', [x], y);
      }
      forall i, j | 0 <= i < j < |d|
        ensures FirstIndex(xs, d[i]) < FirstIndex(xs, d[j])
      {
        if j < |d'| {
          assert d[i] == d'[i] && d[j] == d'[j];
        } else {
          assert x !in xs' && d[j] == x;
          assert d[i] == d'[i] && d'[i] in xs';
          FirstIndexPrefix(xs', [x], x);
        }
      }
    }
  }

  lemma {:induction false} FirstIndexPrefix<T>(a: seq<T>, b: seq<T>, y: T)
    requires y in a + b
    ensures y in a ==> FirstIndex(a + b, y) == FirstIndex(a, y)
    ensures y !in a ==> FirstIndex(a + b, y) >= |a|
    decreases |a|
  {
    if a != [] {
      if a[0] != y {
        assert (a + b)[1..] == a[1..] + b;
        FirstIndexPrefix(a[1..], b, y);
      }
    } else {
      assert a + b == b;
    }
  }


  /** The set of elements of a duplicate-free list has as many elements as the list. */
  lemma {:induction false} DistinctCard<T>(s: seq<T>)
    requires Distinct(s)
    ensures |set x | x in s| == |s|
    decreases |s|
  {
    if s != [] {
      var s' := s[..|s| - 1];
      DistinctCard(s');
      assert (set x | x in s) == (set x | x in s') + {s[|s| - 1]};
      assert s[|s| - 1] !in s';
    }
  }

  lemma SubsetCard<T>(a: set<T>, b: set<T>)
    requires a <= b
    ensures |a| <= |b|
  {
    assert b == a + (b - a);
    assert a * (b - a) == {};
  }

  lemma StrictSubsetCard<T>(a: set<T>, b: set<T>, x: T)
    requires a <= b && x in b && x !in a
    ensures |a| < |b|
  {
    assert b == a + (b - a);
    assert a * (b - a) == {};
    assert x in b - a;
  }

  lemma DistinctConcat<T>(a: seq<T>, b: seq<T>)
    requires Distinct(a) && Distinct(b)
    requires forall x :: x in a ==> x !in b
    ensures Distinct(a + b)
  {
    forall i, j | 0 <= i < j < |a + b|
      ensures (a + b)[i] != (a + b)[j]
    {
      if j >= |a| && i < |a| {
        assert (a + b)[i] in a && (a + b)[j] in b;
      }
      if i >= |a| {
        assert (a + b)[i] == b[i - |a|] && (a + b)[j] == b[j - |a|];
      }
    }
  }
}
