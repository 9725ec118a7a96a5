/** `wrapText`: greedy word wrapping of a cell value into lines of at most
    `maxWidth` characters; a word longer than the width is cut into chunks. */
module WordWrap {
  import opened Text
  import opened JsonValues

  function Min(a: int, b: int): int
  {
    if a <= b then a else b
  }

  /** The pieces `word.slice(i, i + w)` for `i = 0, w, 2w, ...` while `i < |word|`. */
  function Chunks(word: string, w: nat): seq<string>
    requires w > 0
    decreases |word|
  {
    if word == [] then []
    else if |word| <= w then [word]
    else [word[..w]] + Chunks(word[w..], w)
  }

  /** The chunks of a word put back together give the word. */
  lemma {:induction false} ChunksConcat(word: string, w: nat)
    requires w > 0
    ensures Concat(Chunks(word, w)) == word
    decreases |word|
  {
    if word == [] {
    } else if |word| <= w {
      ConcatSingle(word);
    } else {
      ChunksConcat(word[w..], w);
      ConcatAppend([word[..w]], Chunks(word[w..], w));
      ConcatSingle(word[..w]);
      assert word == word[..w] + word[w..];
    }
  }

  /** A word is cut into `ceil(|word| / w)` chunks: `k` chunks with
      `(k - 1) * w < |word| <= k * w`. */
  lemma {:induction false} ChunksCount(word: string, w: nat)
    requires w > 0
    ensures var k := |Chunks(word, w)|; (k - 1) * w < |word| <= k * w
    decreases |word|
  {
    if |word| > w {
      ChunksCount(word[w..], w);
      var k' := |Chunks(word[w..], w)|;
      assert |Chunks(word, w)| == k' + 1;
      assert (k' + 1) * w == k' * w + w;
      assert (k' + 1 - 1) * w == k' * w;
      assert (k' - 1) * w == k' * w - w;
    }
  }

  /** No chunk is empty or longer than the width, and all but the last are exactly
      as long as the width. */
  lemma {:induction false} ChunksLengths(word: string, w: nat)
    requires w > 0
    ensures forall i :: 0 <= i < |Chunks(word, w)| ==> 1 <= |Chunks(word, w)[i]| <= w
    ensures forall i :: 0 <= i < |Chunks(word, w)| - 1 ==> |Chunks(word, w)[i]| == w
    decreases |word|
  {
    if |word| > w {
      var r := Chunks(word, w);
      var rest := Chunks(word[w..], w);
      ChunksLengths(word[w..], w);
      assert r == [word[..w]] + rest;
      assert forall i :: 1 <= i < |r| ==> r[i] == rest[i - 1];
    }
  }

  /** One turn of the chunking loop: the piece at `i`, then the chunks after it. */
  lemma ChunksStep(word: string, i: nat, w: nat)
    requires w > 0 && i < |word|
    ensures Chunks(word[i..], w) ==
              [word[i..Min(i + w, |word|)]] + Chunks(word[Min(i + w, |word|)..], w)
  {
    var rest := word[i..];
    if |rest| > w {
      assert rest[..w] == word[i..i + w];
      assert rest[w..] == word[i + w..];
    } else {
      assert rest == word[i..|word|];
      assert word[|word|..] == [];
    }
  }

  /** What happens to the pending line before a word is cut into chunks. The code
      pushes it as it is (`Untrimmed`), with the space that every appended word
      brings; every other place that pushes a line trims it first (`Trimmed`). */
  datatype Flush = Untrimmed | Trimmed

  /** The loop state: the lines pushed so far and `currentLine`. */
  datatype WrapState = WrapState(lines: seq<string>, current: string)

  /** One turn of the loop over the words. */
  function Step(st: WrapState, word: string, w: nat, flush: Flush): WrapState
    requires w > 0
  {
    if |word| > w then
      var pending := if st.current == "" then [] else if flush == Trimmed then [Trim(st.current)] else [st.current];
      WrapState(st.lines + pending + Chunks(word, w), "")
    else if |Trim(st.current + " " + word)| > w then
      WrapState(st.lines + [Trim(st.current)], word)
    else
      WrapState(st.lines, st.current + " " + word)
  }

  /** The loop over the first `|words|` words. */
  function Fold(words: seq<string>, w: nat, flush: Flush): WrapState
    requires w > 0
    decreases |words|
  {
    if words == [] then WrapState([], "")
    else Step(Fold(words[..|words| - 1], w, flush), words[|words| - 1], w, flush)
  }

  /** The lines of `s`: the loop, the last pending line if it is not blank, and
      `[""]` when nothing was pushed. */
  function WrapWith(s: string, w: nat, flush: Flush): seq<string>
    requires w > 0
  {
    var st := Fold(Split(s, ' '), w, flush);
    var lines := if Trim(st.current) != "" then st.lines + [Trim(st.current)] else st.lines;
    if lines == [] then [""] else lines
  }

  /** `wrapText` as the code is written. */
  function WrapAsWritten(s: string, w: nat): seq<string>
    requires w > 0
  {
    WrapWith(s, w, Untrimmed)
  }

  /** The corrected `wrapText`: the pending line is trimmed before a long word, as
      every other flush trims it. */
  function Wrap(s: string, w: nat): seq<string>
    requires w > 0
  {
    WrapWith(s, w, Trimmed)
  }

  /** `wrapText(text, maxWidth)`: the pending line is pushed as it is before a word
      longer than the width. Its lines are those of the corrected wrap, except that
      such a flushed line keeps the spaces the corrected wrap trims off. */
  method WrapText(text: Json, maxWidth: nat) returns (lines: seq<string>)
    requires maxWidth > 0
    ensures lines == WrapAsWritten(Display(text), maxWidth)
    ensures |lines| >= 1
    ensures forall i :: 0 <= i < |lines| ==> |Trim(lines[i])| <= maxWidth
    ensures TrimsTo(lines, Wrap(Display(text), maxWidth))
    ensures lines == [""] <==> IsBlank(Display(text))
  {
    var str := Display(text);
    var words := Split(str, ' ');
    lines := [];
    var currentLine := "";
    for k := 0 to |words|
      invariant WrapState(lines, currentLine) == Fold(words[..k], maxWidth, Untrimmed)
    {
      assert words[..k + 1][..k] == words[..k];
      var word := words[k];
      ghost var st := WrapState(lines, currentLine);
      if |word| > maxWidth {
        if currentLine != "" {
          lines := lines + [currentLine];
          currentLine := "";
        }
        ghost var base := lines;
        var i := 0;
        while i < |word|
          invariant 0 <= i
          invariant lines + Chunks(word[Min(i, |word|)..], maxWidth) == base + Chunks(word, maxWidth)
          decreases |word| - i
        {
          var piece := word[i..Min(i + maxWidth, |word|)];
          ChunksStep(word, i, maxWidth);
          assert lines + [piece] + Chunks(word[Min(i + maxWidth, |word|)..], maxWidth)
              == lines + Chunks(word[i..], maxWidth);
          lines := lines + [piece];
          i := i + maxWidth;
        }
        assert word[Min(i, |word|)..] == [];
        assert lines == base + Chunks(word, maxWidth);
        assert base == st.lines + (if st.current == "" then [] else [st.current]);
        assert WrapState(lines, currentLine) == Step(st, word, maxWidth, Untrimmed);
      } else if |Trim(currentLine + " " + word)| > maxWidth {
        lines := lines + [Trim(currentLine)];
        currentLine := word;
      } else {
        currentLine := currentLine + " " + word;
      }
    }
    assert words[..|words|] == words;
    if Trim(currentLine) != "" {
      lines := lines + [Trim(currentLine)];
    }
    if lines == [] {
      lines := [""];
    }
    WrapModes(str, maxWidth);
    WrapFitsTrimmed(str, maxWidth);
    WrapBlank(str, maxWidth, Untrimmed);
  }

  // ---------------------------------------------------------------- properties

  /** Line widths the loop keeps: every pushed line is at most `w` long, and so is the
      pending line once trimmed. */
  ghost predicate Fits(st: WrapState, w: nat)
  {
    (forall i :: 0 <= i < |st.lines| ==> |st.lines[i]| <= w) && |Trim(st.current)| <= w
  }

  lemma {:induction false} FoldFits(words: seq<string>, w: nat)
    requires w > 0
    ensures Fits(Fold(words, w, Trimmed), w)
    decreases |words|
  {
    if words != [] {
      var st := Fold(words[..|words| - 1], w, Trimmed);
      var word := words[|words| - 1];
      FoldFits(words[..|words| - 1], w);
      TrimFacts(st.current);
      TrimFacts(word);
      if |word| > w {
        ChunksLengths(word, w);
        TrimFacts("");
      }
    }
  }

  /** Every line fits the width. */
  lemma WrapWidth(s: string, w: nat)
    requires w > 0
    ensures forall i :: 0 <= i < |Wrap(s, w)| ==> |Wrap(s, w)[i]| <= w
  {
    FoldFits(Split(s, ' '), w);
  }

  /** Every line of the code as written fits the width once trimmed. */
  lemma {:induction false} FoldFitsTrimmed(words: seq<string>, w: nat)
    requires w > 0
    ensures forall i :: 0 <= i < |Fold(words, w, Untrimmed).lines| ==>
              |Trim(Fold(words, w, Untrimmed).lines[i])| <= w
    ensures |Trim(Fold(words, w, Untrimmed).current)| <= w
    decreases |words|
  {
    if words != [] {
      var st := Fold(words[..|words| - 1], w, Untrimmed);
      var word := words[|words| - 1];
      var st' := Fold(words, w, Untrimmed);
      FoldFitsTrimmed(words[..|words| - 1], w);
      TrimFacts(st.current);
      TrimFacts(Trim(st.current));
      TrimFacts(word);
      TrimFacts("");
      if |word| > w {
        var chunks := Chunks(word, w);
        ChunksLengths(word, w);
        forall i | 0 <= i < |chunks|
          ensures |Trim(chunks[i])| <= w
        {
          TrimFacts(chunks[i]);
        }
      }
      forall i | 0 <= i < |st'.lines|
        ensures |Trim(st'.lines[i])| <= w
      {
        if i < |st.lines| {
          assert st'.lines[i] == st.lines[i];
        }
      }
    }
  }

  /** Line by line, `a` is `c` or a line that trims to the line of `c`. */
  predicate TrimsTo(a: seq<string>, c: seq<string>)
  {
    |a| == |c| && forall i :: 0 <= i < |a| ==> a[i] == c[i] || Trim(a[i]) == c[i]
  }

  lemma TrimsToAppend(a: seq<string>, c: seq<string>, x: seq<string>, y: seq<string>)
    requires TrimsTo(a, c) && TrimsTo(x, y)
    ensures TrimsTo(a + x, c + y)
  {
    forall i | 0 <= i < |a + x|
      ensures (a + x)[i] == (c + y)[i] || Trim((a + x)[i]) == (c + y)[i]
    {
      if i >= |a| {
        assert (a + x)[i] == x[i - |a|] && (c + y)[i] == y[i - |a|];
      }
    }
  }

  /** One turn of the loop takes the same branch under both flushes. */
  lemma StepModes(a: WrapState, c: WrapState, word: string, w: nat)
    requires w > 0 && a.current == c.current && TrimsTo(a.lines, c.lines)
    ensures Step(a, word, w, Untrimmed).current == Step(c, word, w, Trimmed).current
    ensures TrimsTo(Step(a, word, w, Untrimmed).lines, Step(c, word, w, Trimmed).lines)
  {
    if |word| > w {
      var pa := if a.current == "" then [] else [a.current];
      var pc := if c.current == "" then [] else [Trim(c.current)];
      assert TrimsTo(pa, pc);
      TrimsToAppend(a.lines, c.lines, pa, pc);
      TrimsToAppend(a.lines + pa, c.lines + pc, Chunks(word, w), Chunks(word, w));
    } else if |Trim(a.current + " " + word)| > w {
      TrimsToAppend(a.lines, c.lines, [Trim(a.current)], [Trim(c.current)]);
    }
  }

  /** The two flushes keep the same pending line, and every line the code as written
      pushes is the corrected line or a line that trims to it. */
  lemma {:induction false} FoldModes(words: seq<string>, w: nat)
    requires w > 0
    ensures Fold(words, w, Untrimmed).current == Fold(words, w, Trimmed).current
    ensures TrimsTo(Fold(words, w, Untrimmed).lines, Fold(words, w, Trimmed).lines)
    decreases |words|
  {
    if words != [] {
      var init := words[..|words| - 1];
      FoldModes(init, w);
      StepModes(Fold(init, w, Untrimmed), Fold(init, w, Trimmed), words[|words| - 1], w);
    }
  }

  /** The wrap as written has as many lines as the corrected one, and each of its
      lines is the corrected line or trims to it. */
  lemma WrapModes(s: string, w: nat)
    requires w > 0
    ensures TrimsTo(WrapAsWritten(s, w), Wrap(s, w))
  {
    var words := Split(s, ' ');
    FoldModes(words, w);
    var a := Fold(words, w, Untrimmed);
    var c := Fold(words, w, Trimmed);
    var tail := if Trim(a.current) != "" then [Trim(a.current)] else [];
    TrimsToAppend(a.lines, c.lines, tail, tail);
  }

  /** Every line of the wrap as written fits the width once trimmed. */
  lemma WrapFitsTrimmed(s: string, w: nat)
    requires w > 0
    ensures forall i :: 0 <= i < |WrapAsWritten(s, w)| ==> |Trim(WrapAsWritten(s, w)[i])| <= w
  {
    var st := Fold(Split(s, ' '), w, Untrimmed);
    FoldFitsTrimmed(Split(s, ' '), w);
    TrimFacts(Trim(st.current));
    TrimFacts("");
    var lines := if Trim(st.current) != "" then st.lines + [Trim(st.current)] else st.lines;
    forall i | 0 <= i < |lines|
      ensures |Trim(lines[i])| <= w
    {
      if i < |st.lines| {
        assert lines[i] == st.lines[i];
      }
    }
  }

  /** Only a line that the corrected wrap trims can be wider than the width, and it
      is wider by at most the spaces trimmed off it. */
  lemma WrapOverrun(s: string, w: nat)
    requires w > 0
    ensures |WrapAsWritten(s, w)| == |Wrap(s, w)|
    ensures forall i :: 0 <= i < |WrapAsWritten(s, w)| && |WrapAsWritten(s, w)[i]| > w ==>
              Trim(WrapAsWritten(s, w)[i]) == Wrap(s, w)[i] &&
              |WrapAsWritten(s, w)[i]| - w <= |WrapAsWritten(s, w)[i]| - |Trim(WrapAsWritten(s, w)[i])|
  {
    WrapModes(s, w);
    WrapWidth(s, w);
  }

  /** `(|parts| joined by " ")` and the parts side by side differ only in spaces. */
  lemma {:induction false} JoinSpaces(parts: seq<string>)
    requires |parts| > 0
    ensures RemoveSpaces(Join(parts, " ")) == RemoveSpaces(Concat(parts))
    decreases |parts|
  {
    if |parts| == 1 {
      ConcatSingle(parts[0]);
    } else {
      var init := parts[..|parts| - 1];
      var x := parts[|parts| - 1];
      assert parts == init + [x];
      JoinSpaces(init);
      JoinSnoc(init, x, " ");
      RemoveSpacesAppend(Join(init, " ") + " ", x);
      RemoveSpacesAppend(Join(init, " "), " ");
      RemoveSpacesAppend(Concat(init), x);
      assert RemoveSpaces(" ") == "";
    }
  }

  /** The characters other than spaces held by a loop state, in order. */
  function Chars(st: WrapState): string
  {
    RemoveSpaces(Concat(st.lines) + st.current)
  }

  lemma ConcatSnoc(lines: seq<string>, x: string)
    ensures Concat(lines + [x]) == Concat(lines) + x
  {
    assert (lines + [x])[..|lines|] == lines;
  }

  lemma CharsSplit(st: WrapState)
    ensures Chars(st) == RemoveSpaces(Concat(st.lines)) + RemoveSpaces(st.current)
  {
    RemoveSpacesAppend(Concat(st.lines), st.current);
  }

  /** One turn of the loop adds the characters of the word and no others. */
  lemma StepKeepsText(st: WrapState, word: string, w: nat, flush: Flush)
    requires w > 0
    ensures Chars(Step(st, word, w, flush)) == Chars(st) + RemoveSpaces(word)
  {
    CharsSplit(st);
    if |word| > w {
      var st' := Step(st, word, w, flush);
      CharsSplit(st');
      LongWordKeepsText(st, word, w, flush);
      assert st'.current == "";
    } else if |Trim(st.current + " " + word)| > w {
      PushKeepsText(st, word);
    } else {
      JoinKeepsText(st, word);
    }
  }

  /** The pending line is pushed, trimmed, and the word starts the next one. */
  lemma PushKeepsText(st: WrapState, word: string)
    ensures Chars(WrapState(st.lines + [Trim(st.current)], word)) ==
              RemoveSpaces(Concat(st.lines)) + RemoveSpaces(st.current) + RemoveSpaces(word)
  {
    CharsSplit(WrapState(st.lines + [Trim(st.current)], word));
    TrimFacts(st.current);
    ConcatSnoc(st.lines, Trim(st.current));
    RemoveSpacesAppend(Concat(st.lines), Trim(st.current));
  }

  /** The word joins the pending line after a space. */
  lemma JoinKeepsText(st: WrapState, word: string)
    ensures Chars(WrapState(st.lines, st.current + " " + word)) ==
              RemoveSpaces(Concat(st.lines)) + RemoveSpaces(st.current) + RemoveSpaces(word)
  {
    CharsSplit(WrapState(st.lines, st.current + " " + word));
    RemoveSpacesAppend(st.current + " ", word);
    RemoveSpacesAppend(st.current, " ");
    assert RemoveSpaces(" ") == "";
  }

  lemma LongWordKeepsText(st: WrapState, word: string, w: nat, flush: Flush)
    requires w > 0 && |word| > w
    ensures RemoveSpaces(Concat(Step(st, word, w, flush).lines))
            == RemoveSpaces(Concat(st.lines)) + RemoveSpaces(st.current) + RemoveSpaces(word)
    ensures Step(st, word, w, flush).current == ""
  {
    var pending := if st.current == "" then [] else if flush == Trimmed then [Trim(st.current)] else [st.current];
    var chunks := Chunks(word, w);
    ChunksConcat(word, w);
    ConcatAppend(st.lines + pending, chunks);
    ConcatAppend(st.lines, pending);
    RemoveSpacesAppend(Concat(st.lines) + Concat(pending), word);
    RemoveSpacesAppend(Concat(st.lines), Concat(pending));
    TrimFacts(st.current);
    if pending != [] {
      ConcatSingle(pending[0]);
    }
    assert RemoveSpaces(Concat(pending)) == RemoveSpaces(st.current);
  }

  /** The loop loses no character but spaces: the pushed lines and the pending line
      hold the characters of the words read so far. */
  lemma {:induction false} FoldKeepsText(words: seq<string>, w: nat, flush: Flush)
    requires w > 0
    ensures Chars(Fold(words, w, flush)) == RemoveSpaces(Concat(words))
    decreases |words|
  {
    if words != [] {
      var init := words[..|words| - 1];
      var word := words[|words| - 1];
      FoldKeepsText(init, w, flush);
      StepKeepsText(Fold(init, w, flush), word, w, flush);
      assert words == init + [word];
      ConcatSnoc(init, word);
      RemoveSpacesAppend(Concat(init), word);
    }
  }

  /** Wrapping removes and moves spaces only: the lines hold the characters of the
      text, in order. */
  lemma WrapKeepsText(s: string, w: nat, flush: Flush)
    requires w > 0
    ensures RemoveSpaces(Concat(WrapWith(s, w, flush))) == RemoveSpaces(s)
  {
    var words := Split(s, ' ');
    var st := Fold(words, w, flush);
    FoldKeepsText(words, w, flush);
    CharsSplit(st);
    JoinSplit(s, ' ');
    JoinSpaces(words);
    TrimFacts(st.current);
    RemoveSpacesAppend(Concat(st.lines), st.current);
    RemoveSpacesBlank(st.current);
    if Trim(st.current) != "" {
      ConcatSnoc(st.lines, Trim(st.current));
      RemoveSpacesAppend(Concat(st.lines), Trim(st.current));
    }
    if WrapWith(s, w, flush) == [""] {
      ConcatSingle("");
    }
  }

  /** A blank string splits into empty words only. */
  lemma {:induction false} BlankWords(s: string)
    requires IsBlank(s)
    ensures forall i :: 0 <= i < |Split(s, ' ')| ==> Split(s, ' ')[i] == ""
    decreases |s|
  {
    if |s| > 0 {
      assert s[0] == ' ';
      BlankWords(s[1..]);
    }
  }

  /** Over empty words the loop pushes nothing and the pending line stays blank. */
  lemma {:induction false} FoldEmptyWords(words: seq<string>, w: nat, flush: Flush)
    requires w > 0
    requires forall i :: 0 <= i < |words| ==> words[i] == ""
    ensures Fold(words, w, flush).lines == [] && IsBlank(Fold(words, w, flush).current)
    decreases |words|
  {
    if words != [] {
      var st := Fold(words[..|words| - 1], w, flush);
      FoldEmptyWords(words[..|words| - 1], w, flush);
      var c := st.current + " " + "";
      assert IsBlank(c);
      TrimFacts(c);
    }
  }

  /** The result is the single empty line exactly when the text is blank: `[""]`
      for every falsy value and for "", " ", "  ", .... */
  lemma WrapBlank(s: string, w: nat, flush: Flush)
    requires w > 0
    ensures WrapWith(s, w, flush) == [""] <==> IsBlank(s)
  {
    WrapKeepsText(s, w, flush);
    ConcatSingle("");
    RemoveSpacesBlank(s);
    if IsBlank(s) {
      BlankWords(s);
      FoldEmptyWords(Split(s, ' '), w, flush);
      TrimFacts(Fold(Split(s, ' '), w, flush).current);
    }
  }

  /** A single word longer than the width comes out as its chunks: 40 characters at
      width 30 give a line of 30 and a line of 10. */
  lemma LongWord(word: string, w: nat)
    requires w > 0 && |word| > w && ' ' !in word
    ensures Wrap(word, w) == Chunks(word, w)
  {
    SplitJoin([word], ' ');
    assert Split(word, ' ') == [word];
    assert [word][..0] == [];
    TrimFacts("");
    ChunksLengths(word, w);
    assert Fold([word], w, Trimmed) == Step(Fold([], w, Trimmed), word, w, Trimmed);
    var st := Fold([word], w, Trimmed);
    assert st == WrapState([] + [] + Chunks(word, w), "");
    assert [] + [] + Chunks(word, w) == Chunks(word, w);
  }

  lemma FortyAtThirty(word: string)
    requires |word| == 40 && ' ' !in word
    ensures |Wrap(word, 30)| == 2 && |Wrap(word, 30)[0]| == 30 && |Wrap(word, 30)[1]| == 10
  {
    LongWord(word, 30);
    assert word[30..][..0] == [];
  }

  lemma ExampleWords()
    ensures Split("abc defgh", ' ') == ["abc", "defgh"]
  {
    SplitJoin(["abc", "defgh"], ' ');
    assert Join(["abc", "defgh"], " ") == "abc defgh";
  }

  lemma ExampleFirstWord(flush: Flush)
    ensures Fold(["abc"], 3, flush) == WrapState([], " abc")
  {
    assert ["abc"][..0] == [];
    assert "" + " " + "abc" == " abc";
    assert Trim(" abc") == "abc" by {
      assert " abc"[1..] == "abc";
      assert "abc"[..2] == "ab";
    }
  }

  lemma ExampleChunks()
    ensures Chunks("defgh", 3) == ["def", "gh"]
  {
    assert "defgh"[3..] == "gh" && "defgh"[..3] == "def";
  }

  lemma ExampleFolds()
    ensures Fold(["abc", "defgh"], 3, Untrimmed) == WrapState([" abc", "def", "gh"], "")
    ensures Fold(["abc", "defgh"], 3, Trimmed) == WrapState(["abc", "def", "gh"], "")
  {
    ExampleFirstWord(Untrimmed);
    ExampleFirstWord(Trimmed);
    ExampleChunks();
    assert ["abc", "defgh"][..1] == ["abc"];
    assert Trim(" abc") == "abc" by {
      assert " abc"[1..] == "abc";
      assert "abc"[..2] == "ab";
    }
  }

  /** The code as written can push a line one character wider than the width: at
      width 3, "abc defgh" gives " abc", "def", "gh"; trimmed, it gives "abc". */
  lemma OverlongLine()
    ensures WrapAsWritten("abc defgh", 3) == [" abc", "def", "gh"]
    ensures |WrapAsWritten("abc defgh", 3)[0]| == 4
    ensures Wrap("abc defgh", 3) == ["abc", "def", "gh"]
  {
    ExampleWords();
    ExampleFolds();
    TrimFacts("");
  }

  /** The words that `n + 1` spaces in a row leave between two words. */
  function EmptyWords(n: nat): seq<string>
  {
    seq(n, _ => "")
  }

  lemma {:induction false} TrimEndPadded(n: nat)
    ensures TrimEnd("a" + Repeat(' ', n)) == "a"
    decreases n
  {
    var s := "a" + Repeat(' ', n);
    if n > 0 {
      assert s[..|s| - 1] == "a" + Repeat(' ', n - 1);
      TrimEndPadded(n - 1);
    } else {
      assert s == "a";
    }
  }

  lemma TrimPadded(n: nat)
    ensures Trim(" a" + Repeat(' ', n)) == "a"
  {
    var s := " a" + Repeat(' ', n);
    assert s[1..] == "a" + Repeat(' ', n);
    assert TrimStart(s[1..]) == s[1..];
    TrimEndPadded(n);
  }

  /** Every empty word appends a space to the pending line " a", which still trims to
      a single character, so it is never pushed. */
  lemma {:induction false} SpacesPileUp(n: nat, flush: Flush)
    ensures Fold(["a"] + EmptyWords(n), 3, flush) == WrapState([], " a" + Repeat(' ', n))
    decreases n
  {
    var words := ["a"] + EmptyWords(n);
    if n == 0 {
      assert words == ["a"] && words[..0] == [];
      assert "" + " " + "a" == " a" + Repeat(' ', 0);
      TrimPadded(0);
    } else {
      assert words[..|words| - 1] == ["a"] + EmptyWords(n - 1);
      SpacesPileUp(n - 1, flush);
      assert " a" + Repeat(' ', n - 1) + " " + "" == " a" + Repeat(' ', n);
      TrimPadded(n);
    }
  }

  /** The overrun of the code as written has no bound: at width 3 the words "a",
      `n` empty words and "bcde" give a first line of `n + 2` characters, where the
      corrected wrap gives "a". */
  lemma OverrunUnbounded(n: nat)
    ensures Fold(["a"] + EmptyWords(n) + ["bcde"], 3, Untrimmed) ==
              WrapState([" a" + Repeat(' ', n), "bcd", "e"], "")
    ensures |Fold(["a"] + EmptyWords(n) + ["bcde"], 3, Untrimmed).lines[0]| == n + 2
    ensures Fold(["a"] + EmptyWords(n) + ["bcde"], 3, Trimmed) == WrapState(["a", "bcd", "e"], "")
  {
    var words := ["a"] + EmptyWords(n) + ["bcde"];
    assert words[..|words| - 1] == ["a"] + EmptyWords(n);
    SpacesPileUp(n, Untrimmed);
    SpacesPileUp(n, Trimmed);
    TrimPadded(n);
    assert Chunks("bcde", 3) == ["bcd", "e"] by {
      assert "bcde"[..3] == "bcd" && "bcde"[3..] == "e";
    }
  }

  /** Four spaces in a row leave three empty words. */
  lemma ExampleSpaceWords()
    ensures Split("a    bcde", ' ') == ["a", "", "", "", "bcde"]
  {
    var words := ["a", "", "", "", "bcde"];
    SplitJoin(words, ' ');
    assert Join(["bcde"], " ") == "bcde";
    assert Join(["", "bcde"], " ") == " bcde";
    assert Join(["", "", "bcde"], " ") == "  bcde";
    assert Join(["", "", "", "bcde"], " ") == "   bcde";
    assert Join(words, " ") == "a    bcde";
  }

  /** A loop that ends with lines pushed and nothing pending gives those lines. */
  lemma WrapOfFold(s: string, w: nat, flush: Flush, lines: seq<string>)
    requires w > 0 && lines != []
    requires Fold(Split(s, ' '), w, flush) == WrapState(lines, "")
    ensures WrapWith(s, w, flush) == lines
  {
    TrimFacts("");
  }

  /** The words of "a    bcde" folded at width 3, in both flush modes. */
  lemma OverrunFolds()
    ensures Fold(["a", "", "", "", "bcde"], 3, Untrimmed) == WrapState([" a   ", "bcd", "e"], "")
    ensures Fold(["a", "", "", "", "bcde"], 3, Trimmed) == WrapState(["a", "bcd", "e"], "")
  {
    assert ["a"] + EmptyWords(3) + ["bcde"] == ["a", "", "", "", "bcde"];
    OverrunUnbounded(3);
    assert " a" + Repeat(' ', 3) == " a   ";
  }

  /** `wrapText("a    bcde", 3)`: the first line is " a   ", five characters at
      width 3. */
  lemma OverrunExample()
    ensures WrapAsWritten("a    bcde", 3) == [" a   ", "bcd", "e"]
    ensures Wrap("a    bcde", 3) == ["a", "bcd", "e"]
  {
    ExampleSpaceWords();
    OverrunFolds();
    WrapOfFold("a    bcde", 3, Untrimmed, [" a   ", "bcd", "e"]);
    WrapOfFold("a    bcde", 3, Trimmed, ["a", "bcd", "e"]);
  }
}
