// The word wrapper of the detail pane (`wrap_text`, src/ui/detail_view.rs).

module DetailViewUi {
  import opened Text

  /** A line made of the words `g`, one space apart. */
  function Unwords(g: seq<string>): string {
    Join(g, " ")
  }

  /** The lines of a grouping of words. */
  function Render(gs: seq<seq<string>>): (ls: seq<string>)
    ensures |ls| == |gs|
    ensures forall i :: 0 <= i < |gs| ==> ls[i] == Unwords(gs[i])
  {
    if gs == [] then [] else Render(gs[..|gs| - 1]) + [Unwords(gs[|gs| - 1])]
  }

  function Flatten(gs: seq<seq<string>>): seq<string> {
    if gs == [] then [] else Flatten(gs[..|gs| - 1]) + gs[|gs| - 1]
  }

  /** The greedy grouping of `ws` into lines of at most `width` bytes, word
      by word: a word joins the current (last) line when the line, a space
      and the word fit, and opens a new line otherwise. */
  function Wrap(ws: seq<string>, width: nat): seq<seq<string>> {
    if ws == [] then [] else Push(Wrap(ws[..|ws| - 1], width), ws[|ws| - 1], width)
  }

  /** One greedy step: word `x` after the lines `gs`. */
  function Push(gs: seq<seq<string>>, x: string, width: nat): seq<seq<string>> {
    if gs == [] then [[x]]
    else if ByteLen(Unwords(gs[|gs| - 1])) + 1 + ByteLen(x) <= width then gs[..|gs| - 1] + [gs[|gs| - 1] + [x]]
    else gs + [[x]]
  }

  /** The lines after one step, as the loop body of `wrap_text` builds
      them: the word extends the current line or is pushed as a new one. */
  lemma RenderPush(gs: seq<seq<string>>, x: string, width: nat, lines: seq<string>, current: string)
    requires gs != [] && gs[|gs| - 1] != [] && lines + [current] == Render(gs)
    ensures ByteLen(current) + 1 + ByteLen(x) <= width ==> Render(Push(gs, x, width)) == lines + [current + " " + x]
    ensures ByteLen(current) + 1 + ByteLen(x) > width ==> Render(Push(gs, x, width)) == lines + [current] + [x]
  {
    var front, g := gs[..|gs| - 1], gs[|gs| - 1];
    assert current == Render(gs)[|gs| - 1] == Unwords(g);
    assert lines == Render(gs)[..|gs| - 1];
    assert Render(front) == lines by {
      assert gs == front + [g];
    }
    if ByteLen(current) + 1 + ByteLen(x) <= width {
      var r := front + [g + [x]];
      assert r[..|r| - 1] == front;
      JoinAppend(g, x, " ");
    } else {
      var r := gs + [[x]];
      assert r[..|r| - 1] == gs;
      assert Unwords([x]) == x;
    }
  }

  /** `wrap_text`: no wrapping at width 0; otherwise the greedy lines of the
      text's words, or the text itself when it has no words. */
  method WrapText(text: string, maxWidth: nat) returns (lines: seq<string>)
    ensures maxWidth == 0 ==> lines == [text]
    ensures maxWidth > 0 && Words(text) == [] ==> lines == [text]
    ensures maxWidth > 0 && Words(text) != [] ==> lines == Render(Wrap(Words(text), maxWidth))
  {
    if maxWidth == 0 {
      return [text];
    }
    lines := [];
    var current := "";
    var words := Words(text);
    WordsAreWords(text);
    for k := 0 to |words|
      invariant current == [] <==> k == 0
      invariant k == 0 ==> lines == []
      invariant k > 0 ==> lines + [current] == Render(Wrap(words[..k], maxWidth))
    {
      var word := words[k];
      ghost var gs := Wrap(words[..k], maxWidth);
      assert Wrap(words[..k + 1], maxWidth) == Push(gs, word, maxWidth) by {
        assert words[..k + 1][..k] == words[..k];
      }
      if current == [] {
        current := word;
        assert Render([[word]]) == [word];
      } else {
        WrapKeepsWords(words[..k], maxWidth);
        RenderPush(gs, word, maxWidth, lines, current);
        if ByteLen(current) + 1 + ByteLen(word) <= maxWidth {
          current := current + " " + word;
        } else {
          lines := lines + [current];
          current := word;
        }
      }
    }
    if current != [] {
      lines := lines + [current];
    }
    if lines == [] {
      lines := lines + [text];
    }
    assert words[..|words|] == words;
  }

  // ---------------------------------------------------------------------
  // Properties of the greedy grouping
  // ---------------------------------------------------------------------

  /** No line is empty. */
  ghost predicate NoEmptyLine(gs: seq<seq<string>>) {
    forall i :: 0 <= i < |gs| ==> gs[i] != []
  }

  lemma PushKeeps(gs: seq<seq<string>>, x: string, width: nat)
    requires NoEmptyLine(gs)
    ensures NoEmptyLine(Push(gs, x, width))
    ensures Flatten(Push(gs, x, width)) == Flatten(gs) + [x]
  {
    var r := Push(gs, x, width);
    if gs == [] {
      assert Flatten(r) == Flatten([]) + [x];
    } else {
      var front, g := gs[..|gs| - 1], gs[|gs| - 1];
      assert gs == front + [g];
      assert Flatten(gs) == Flatten(front) + g;
      if ByteLen(Unwords(g)) + 1 + ByteLen(x) <= width {
        assert r[..|r| - 1] == front;
        assert Flatten(r) == Flatten(front) + (g + [x]);
      } else {
        assert r[..|r| - 1] == gs;
      }
    }
  }

  /** Every line holds at least one word, and the lines hold exactly the
      words, in order. */
  lemma {:induction false} WrapKeepsWords(ws: seq<string>, width: nat)
    ensures NoEmptyLine(Wrap(ws, width))
    ensures Flatten(Wrap(ws, width)) == ws
    ensures ws != [] <==> Wrap(ws, width) != []
  {
    if ws != [] {
      var init, x := ws[..|ws| - 1], ws[|ws| - 1];
      WrapKeepsWords(init, width);
      PushKeeps(Wrap(init, width), x, width);
      assert ws == init + [x];
    }
  }

  /** The byte length of a line of words. */
  lemma UnwordsAppend(g: seq<string>, x: string)
    requires g != []
    ensures ByteLen(Unwords(g + [x])) == ByteLen(Unwords(g)) + 1 + ByteLen(x)
  {
    JoinAppend(g, x, " ");
    ByteLenAppend(Unwords(g) + " ", x);
    ByteLenAppend(Unwords(g), " ");
  }

  /** A line of two or more words fits the width. */
  lemma {:induction false} WrapFits(ws: seq<string>, width: nat)
    ensures forall i :: 0 <= i < |Wrap(ws, width)| && |Wrap(ws, width)[i]| >= 2 ==> ByteLen(Unwords(Wrap(ws, width)[i])) <= width
  {
    if ws != [] {
      var init, x := ws[..|ws| - 1], ws[|ws| - 1];
      var gs := Wrap(init, width);
      WrapFits(init, width);
      WrapKeepsWords(init, width);
      if gs != [] {
        var g := gs[|gs| - 1];
        if ByteLen(Unwords(g)) + 1 + ByteLen(x) <= width {
          UnwordsAppend(g, x);
        }
      }
    }
  }

  /** Greedy: a line ends only because its next line's first word would not
      fit after it. */
  ghost predicate Greedy(gs: seq<seq<string>>, width: nat) {
    forall i :: 1 <= i < |gs| ==> gs[i] != [] && ByteLen(Unwords(gs[i - 1])) + 1 + ByteLen(gs[i][0]) > width
  }

  lemma PushGreedy(gs: seq<seq<string>>, x: string, width: nat)
    requires NoEmptyLine(gs) && Greedy(gs, width)
    ensures Greedy(Push(gs, x, width), width)
  {
    var r := Push(gs, x, width);
    if gs != [] {
      var g := gs[|gs| - 1];
      if ByteLen(Unwords(g)) + 1 + ByteLen(x) <= width {
        forall i | 1 <= i < |r| ensures r[i] != [] && ByteLen(Unwords(r[i - 1])) + 1 + ByteLen(r[i][0]) > width {
          assert r[i - 1] == gs[i - 1];
          if i < |gs| - 1 {
            assert r[i] == gs[i];
          } else {
            assert r[i] == g + [x] && (g + [x])[0] == g[0];
          }
        }
      } else {
        forall i | 1 <= i < |r| ensures r[i] != [] && ByteLen(Unwords(r[i - 1])) + 1 + ByteLen(r[i][0]) > width {
          assert r[i - 1] == gs[i - 1];
          if i < |gs| {
            assert r[i] == gs[i];
          }
        }
      }
    }
  }

  lemma {:induction false} WrapGreedy(ws: seq<string>, width: nat)
    ensures Greedy(Wrap(ws, width), width)
  {
    if ws != [] {
      var init := ws[..|ws| - 1];
      WrapGreedy(init, width);
      WrapKeepsWords(init, width);
      PushGreedy(Wrap(init, width), ws[|ws| - 1], width);
    }
  }

  /** A word is no longer than any line holding it. */
  lemma {:induction false} WordWithinLine(g: seq<string>, k: nat)
    requires k < |g|
    ensures ByteLen(g[k]) <= ByteLen(Unwords(g))
    decreases |g|
  {
    if |g| > 1 {
      var init, x := g[..|g| - 1], g[|g| - 1];
      assert g == init + [x];
      UnwordsAppend(init, x);
      if k < |g| - 1 {
        assert g[k] == init[k];
        WordWithinLine(init, k);
      }
    }
  }

  /** A word wider than the width gets a line to itself. */
  lemma LongWordAlone(ws: seq<string>, width: nat, i: nat, k: nat)
    requires i < |Wrap(ws, width)| && k < |Wrap(ws, width)[i]|
    requires ByteLen(Wrap(ws, width)[i][k]) > width
    ensures Wrap(ws, width)[i] == [Wrap(ws, width)[i][k]]
  {
    var g := Wrap(ws, width)[i];
    WrapFits(ws, width);
    WordWithinLine(g, k);
    assert |g| == 1;
  }

  lemma {:induction false} JoinConcat(p: seq<string>, q: seq<string>, sep: string)
    requires p != [] && q != []
    ensures Join(p + q, sep) == Join(p, sep) + sep + Join(q, sep)
    decreases |q|
  {
    var init, x := q[..|q| - 1], q[|q| - 1];
    assert p + q == (p + init) + [x];
    if init == [] {
      assert q == [x];
      JoinAppend(p, x, sep);
    } else {
      assert q == init + [x];
      JoinConcat(p, init, sep);
      JoinAppend(p + init, x, sep);
      JoinAppend(init, x, sep);
    }
  }

  /** Joining the lines with single spaces gives the words joined with
      single spaces. */
  lemma {:induction false} RenderJoin(gs: seq<seq<string>>)
    requires NoEmptyLine(gs)
    ensures Join(Render(gs), " ") == Join(Flatten(gs), " ")
  {
    if |gs| > 1 {
      var front, g := gs[..|gs| - 1], gs[|gs| - 1];
      RenderJoin(front);
      assert Render(gs) == Render(front) + [Unwords(g)];
      JoinAppend(Render(front), Unwords(g), " ");
      assert Flatten(front) != [] by {
        assert front[0] != [];
        FlattenHasFirst(front);
      }
      JoinConcat(Flatten(front), g, " ");
    } else if |gs| == 1 {
      assert gs[..0] == [];
      assert Render(gs) == [Unwords(gs[0])];
      assert Join(Render(gs), " ") == Unwords(gs[0]);
      assert Flatten(gs) == gs[0] by {
        assert Flatten(gs) == Flatten(gs[..0]) + gs[0];
      }
    }
  }

  lemma {:induction false} FlattenHasFirst(gs: seq<seq<string>>)
    requires gs != [] && gs[0] != []
    ensures Flatten(gs) != []
  {
    if |gs| > 1 {
      FlattenHasFirst(gs[..|gs| - 1]);
    }
  }

  /** What `wrap_text` promises for a positive width and a text with words:
      the lines rejoined are the words rejoined, and a line holding a space
      (two or more words) fits the width. */
  lemma WrapTextSpec(text: string, width: nat)
    requires width > 0 && Words(text) != []
    ensures var lines := Render(Wrap(Words(text), width));
      && lines != []
      && Join(lines, " ") == Join(Words(text), " ")
      && (forall i :: 0 <= i < |lines| && ' ' in lines[i] ==> ByteLen(lines[i]) <= width)
  {
    var ws := Words(text);
    var gs := Wrap(ws, width);
    WrapKeepsWords(ws, width);
    RenderJoin(gs);
    WrapFits(ws, width);
    WordsAreWords(text);
    var lines := Render(gs);
    forall i | 0 <= i < |lines| && ' ' in lines[i] ensures ByteLen(lines[i]) <= width {
      if |gs[i]| < 2 {
        assert gs[i] == [gs[i][0]] && lines[i] == gs[i][0];
        OneWordNoSpace(ws, width, i);
      }
    }
  }

  /** A one-word line is just that word, which holds no space. */
  lemma OneWordNoSpace(ws: seq<string>, width: nat, i: nat)
    requires forall k :: 0 <= k < |ws| ==> NoWhite(ws[k])
    requires i < |Wrap(ws, width)| && |Wrap(ws, width)[i]| == 1
    ensures ' ' !in Wrap(ws, width)[i][0]
  {
    WrapKeepsWords(ws, width);
    var w := Wrap(ws, width)[i][0];
    FlattenMember(Wrap(ws, width), i, 0);
    var k :| 0 <= k < |ws| && ws[k] == w;
    assert NoWhite(w);
    assert IsWhite(' ');
  }

  /** Every word of every group is one of the flattened words. */
  lemma {:induction false} FlattenMember(gs: seq<seq<string>>, i: nat, j: nat)
    requires i < |gs| && j < |gs[i]|
    ensures gs[i][j] in Flatten(gs)
  {
    var front, g := gs[..|gs| - 1], gs[|gs| - 1];
    assert Flatten(gs) == Flatten(front) + g;
    if i < |gs| - 1 {
      assert gs[i] == front[i];
      FlattenMember(front, i, j);
    } else {
      assert g[j] in g;
    }
  }
}
