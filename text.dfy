/** String helpers with the meaning JavaScript gives them in the table engine:
    `String.prototype.split` on a one-character separator, `Array.prototype.join`,
    `String.prototype.trim` (restricted to the space character) and `+=` building. */
module Text {

  /** The concatenation of a list of strings, built left to right as `s += piece` does. */
  function Concat(ss: seq<string>): string
  {
    if ss == [] then "" else Concat(ss[..|ss| - 1]) + ss[|ss| - 1]
  }

  lemma {:induction false} ConcatAppend(a: seq<string>, b: seq<string>)
    ensures Concat(a + b) == Concat(a) + Concat(b)
    decreases |b|
  {
    if b == [] {
      assert a + b == a;
    } else {
      var b' := b[..|b| - 1];
      assert (a + b)[..|a + b| - 1] == a + b';
      ConcatAppend(a, b');
    }
  }

  /** Building `lines` one line at a time. */
  lemma ConcatPrefixStep(lines: seq<string>, k: nat)
    requires k < |lines|
    ensures Concat(lines[..k + 1]) == Concat(lines[..k]) + lines[k]
  {
    assert lines[..k + 1][..k] == lines[..k];
  }

  lemma ConcatSingle(s: string)
    ensures Concat([s]) == s
  {
    assert [s][..0] == [];
  }

  /** `parts.join(sep)`: the parts with `sep` between neighbours; "" for no parts. */
  function Join(parts: seq<string>, sep: string): string
  {
    if |parts| == 0 then ""
    else if |parts| == 1 then parts[0]
    else parts[0] + sep + Join(parts[1..], sep)
  }

  lemma {:induction false} JoinSnoc(parts: seq<string>, x: string, sep: string)
    requires |parts| > 0
    ensures Join(parts + [x], sep) == Join(parts, sep) + sep + x
    decreases |parts|
  {
    if |parts| == 1 {
      assert (parts + [x])[1..] == [x];
    } else {
      assert (parts + [x])[1..] == parts[1..] + [x];
      JoinSnoc(parts[1..], x, sep);
    }
  }

  /** The length of a joined list: the parts plus one separator between each neighbour pair. */
  function SumLengths(parts: seq<string>): nat
  {
    if parts == [] then 0 else |parts[0]| + SumLengths(parts[1..])
  }

  lemma {:induction false} JoinLength(parts: seq<string>, sep: string)
    requires |parts| > 0
    ensures |Join(parts, sep)| == SumLengths(parts) + (|parts| - 1) * |sep|
    decreases |parts|
  {
    if |parts| > 1 {
      JoinLength(parts[1..], sep);
    }
  }

  /** `s.split(c)` for a one-character separator `c`: never empty, and no part holds `c`. */
  function Split(s: string, c: char): (parts: seq<string>)
    ensures |parts| >= 1
    ensures forall i :: 0 <= i < |parts| ==> c !in parts[i]
  {
    if |s| == 0 then [""]
    else
      var rest := Split(s[1..], c);
      if s[0] == c then [""] + rest else [[s[0]] + rest[0]] + rest[1..]
  }

  /** Joining the parts of a split with the separator gives the string back. */
  lemma {:induction false} JoinSplit(s: string, c: char)
    ensures Join(Split(s, c), [c]) == s
    decreases |s|
  {
    if |s| > 0 {
      JoinSplit(s[1..], c);
      var rest := Split(s[1..], c);
      if s[0] == c {
        assert Split(s, c) == [""] + rest;
        assert ([""] + rest)[1..] == rest;
      } else {
        var parts := Split(s, c);
        assert parts == [[s[0]] + rest[0]] + rest[1..];
        if |rest| == 1 {
          assert parts == [[s[0]] + rest[0]];
        } else {
          assert parts[1..] == rest[1..];
        }
      }
    }
  }

  /** Splitting a join of separator-free parts gives the parts back. */
  lemma {:induction false} SplitJoin(parts: seq<string>, c: char)
    requires |parts| >= 1
    requires forall i :: 0 <= i < |parts| ==> c !in parts[i]
    ensures Split(Join(parts, [c]), c) == parts
    decreases |parts|, |parts[0]|
  {
    var s := Join(parts, [c]);
    if |parts[0]| == 0 {
      if |parts| == 1 {
        assert s == "";
      } else {
        assert s == [c] + Join(parts[1..], [c]);
        assert s[1..] == Join(parts[1..], [c]);
        SplitJoin(parts[1..], c);
        assert parts == [""] + parts[1..];
      }
    } else {
      var p0 := parts[0];
      var parts' := [p0[1..]] + parts[1..];
      assert parts'[1..] == parts[1..];
      assert forall i :: 0 <= i < |parts'| ==> c !in parts'[i] by {
        forall i | 0 <= i < |parts'| ensures c !in parts'[i] {
          if i == 0 {
            assert c !in p0;
          } else {
            assert parts'[i] == parts[i];
          }
        }
      }
      SplitJoin(parts', c);
      var s' := Join(parts', [c]);
      if |parts| == 1 {
        assert s == p0 && s' == p0[1..];
      } else {
        assert s == p0 + [c] + Join(parts[1..], [c]);
        assert s' == p0[1..] + [c] + Join(parts[1..], [c]);
      }
      assert s[0] == p0[0] && s[1..] == s';
      assert p0[0] != c by { assert p0[0] in p0; }
      var rest := Split(s', c);
      assert rest == parts';
      assert Split(s, c) == [[p0[0]] + rest[0]] + rest[1..];
      assert [p0[0]] + p0[1..] == p0;
      assert parts == [p0] + parts[1..];
    }
  }

  /** Different strings split into different parts. */
  lemma SplitInjective(s: string, t: string, c: char)
    requires Split(s, c) == Split(t, c)
    ensures s == t
  {
    JoinSplit(s, c);
    JoinSplit(t, c);
  }

  /** The last part of a split (`s.split(c).pop()`). */
  function LastPart(s: string, c: char): string
  {
    var parts := Split(s, c);
    parts[|parts| - 1]
  }

  /** `" ".repeat(n)` and friends. */
  function Repeat(ch: char, n: nat): (r: string)
    ensures |r| == n
    ensures forall i :: 0 <= i < n ==> r[i] == ch
  {
    seq(n, _ => ch)
  }

  predicate IsBlank(s: string)
  {
    forall i :: 0 <= i < |s| ==> s[i] == ' '
  }

  function TrimStart(s: string): string
  {
    if |s| > 0 && s[0] == ' ' then TrimStart(s[1..]) else s
  }

  function TrimEnd(s: string): string
  {
    if |s| > 0 && s[|s| - 1] == ' ' then TrimEnd(s[..|s| - 1]) else s
  }

  /** `s.trim()` on strings whose only whitespace character is the space. */
  function Trim(s: string): string
  {
    TrimEnd(TrimStart(s))
  }

  /** The string with every space removed. */
  function RemoveSpaces(s: string): string
  {
    if s == [] then [] else (if s[0] == ' ' then [] else [s[0]]) + RemoveSpaces(s[1..])
  }

  lemma {:induction false} RemoveSpacesAppend(a: string, b: string)
    ensures RemoveSpaces(a + b) == RemoveSpaces(a) + RemoveSpaces(b)
    decreases |a|
  {
    if a == [] {
      assert a + b == b;
    } else {
      assert (a + b)[1..] == a[1..] + b;
      RemoveSpacesAppend(a[1..], b);
    }
  }

  lemma {:induction false} RemoveSpacesBlank(s: string)
    ensures RemoveSpaces(s) == "" <==> IsBlank(s)
    decreases |s|
  {
    if s != [] {
      RemoveSpacesBlank(s[1..]);
      if !IsBlank(s[1..]) {
        var i :| 0 <= i < |s[1..]| && s[1..][i] != ' ';
        assert s[i + 1] != ' ';
      }
    }
  }

  lemma {:induction false} TrimStartFacts(s: string)
    ensures |TrimStart(s)| <= |s|
    ensures RemoveSpaces(TrimStart(s)) == RemoveSpaces(s)
    ensures TrimStart(s) == "" <==> IsBlank(s)
    ensures TrimStart(s) == "" || TrimStart(s)[0] != ' '
    decreases |s|
  {
    if |s| > 0 && s[0] == ' ' {
      TrimStartFacts(s[1..]);
      assert IsBlank(s) <==> IsBlank(s[1..]);
    } else if |s| > 0 {
      assert !IsBlank(s);
    }
  }

  lemma {:induction false} TrimEndFacts(s: string)
    ensures |TrimEnd(s)| <= |s|
    ensures RemoveSpaces(TrimEnd(s)) == RemoveSpaces(s)
    ensures TrimEnd(s) == "" <==> IsBlank(s)
    decreases |s|
  {
    if |s| > 0 && s[|s| - 1] == ' ' {
      var s' := s[..|s| - 1];
      TrimEndFacts(s');
      assert s == s' + [' '];
      RemoveSpacesAppend(s', [' ']);
      assert RemoveSpaces([' ']) == [];
      assert IsBlank(s) <==> IsBlank(s');
    } else if |s| > 0 {
      assert !IsBlank(s);
    }
  }

  /** Trimming never lengthens, keeps every non-space character, and empties exactly the blank strings. */
  lemma TrimFacts(s: string)
    ensures |Trim(s)| <= |s|
    ensures RemoveSpaces(Trim(s)) == RemoveSpaces(s)
    ensures Trim(s) == "" <==> IsBlank(s)
  {
    TrimStartFacts(s);
    TrimEndFacts(TrimStart(s));
    var t := TrimStart(s);
    if t != "" {
      assert !IsBlank(t) by { assert t[0] != ' '; }
    }
  }
}
