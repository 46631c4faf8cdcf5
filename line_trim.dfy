/** The trim the page's code means to apply (frag.js:26 and frag.js:29): strip
    the whitespace at both ends of every line and drop the lines left blank,
    keeping one line break between the lines that remain. */
module LineTrim {
  import opened Whitespace
  import MultilineTrim

  /** The lines of `s`, split at every '\n'; the empty string is one empty line. */
  function Lines(s: string): (ls: seq<string>)
    ensures |ls| >= 1
    ensures forall i :: 0 <= i < |ls| ==> '\n' !in ls[i]
    decreases |s|
  {
    if s == [] then [[]]
    else
      var rest := Lines(s[1..]);
      if s[0] == '\n' then [[]] + rest else [[s[0]] + rest[0]] + rest[1..]
  }

  /** Lines joined with one '\n' between neighbours. */
  function Unlines(ls: seq<string>): string
    requires |ls| >= 1
    decreases |ls|
  {
    if |ls| == 1 then ls[0] else ls[0] + "\n" + Unlines(ls[1..])
  }

  /** Splitting and joining again gives back the text. */
  lemma {:induction false} UnlinesLines(s: string)
    ensures Unlines(Lines(s)) == s
    decreases |s|
  {
    if s != [] {
      var rest := Lines(s[1..]);
      UnlinesLines(s[1..]);
      if s[0] == '\n' {
        assert Lines(s)[1..] == rest;
      } else if |rest| == 1 {
        assert Lines(s) == [[s[0]] + rest[0]];
      } else {
        assert Lines(s)[1..] == rest[1..];
        assert Unlines(rest) == rest[0] + "\n" + Unlines(rest[1..]);
      }
    }
  }

  /** A piece without a line break in front of a break starts a new line. */
  lemma {:induction false} LinesOfBrokenPiece(a: string, r: string)
    requires '\n' !in a
    ensures Lines(a + "\n" + r) == [a] + Lines(r)
    decreases |a|
  {
    if a == [] {
      assert a + "\n" + r == ['\n'] + r;
      assert (['\n'] + r)[1..] == r;
    } else {
      assert (a + "\n" + r)[1..] == a[1..] + "\n" + r;
      LinesOfBrokenPiece(a[1..], r);
      assert [a[0]] + a[1..] == a;
    }
  }

  /** A piece without a line break is one line. */
  lemma {:induction false} LinesOfPiece(a: string)
    requires '\n' !in a
    ensures Lines(a) == [a]
    decreases |a|
  {
    if a != [] {
      LinesOfPiece(a[1..]);
      assert [a[0]] + a[1..] == a;
    }
  }

  /** Joining lines that hold no '\n' and splitting again gives back the lines. */
  lemma {:induction false} LinesUnlines(ls: seq<string>)
    requires |ls| >= 1
    requires forall i :: 0 <= i < |ls| ==> '\n' !in ls[i]
    ensures Lines(Unlines(ls)) == ls
    decreases |ls|
  {
    if |ls| == 1 {
      LinesOfPiece(ls[0]);
    } else {
      LinesUnlines(ls[1..]);
      LinesOfBrokenPiece(ls[0], Unlines(ls[1..]));
    }
  }

  /** One line with the whitespace at both of its ends removed. */
  function Strip(l: string): string {
    var a := RunEnd(l, 0);
    l[a..RunStart(l, a, |l|)]
  }

  /** Stripping deletes whitespace only, leaves no whitespace at either end,
      keeps a line a line, and empties exactly a blank line. */
  lemma StripSpec(l: string)
    ensures Trimmed(Strip(l))
    ensures WhitespaceDeleted(l, Strip(l))
    ensures Strip(l) == [] <==> AllWhitespace(l)
    ensures '\n' !in l ==> '\n' !in Strip(l)
  {
    var a := RunEnd(l, 0);
    var b := RunStart(l, a, |l|);
    var r := l[a..b];
    SliceDeletesWhitespace(l, a, b);
    if r != [] {
      assert r[0] == l[a] && r[|r| - 1] == l[b - 1];
    }
    if '\n' in r {
      var i :| 0 <= i < |r| && r[i] == '\n';
      assert l[a + i] == '\n';
    }
  }

  /** Already stripped text is left as it is. */
  lemma StripTrimmed(l: string)
    requires Trimmed(l)
    ensures Strip(l) == l
  {
    if l != [] {
      assert RunEnd(l, 0) == 0;
      assert RunStart(l, 0, |l|) == |l|;
    }
  }

  /** Every line stripped, the blank ones left out. */
  function Kept(ls: seq<string>): seq<string>
    decreases |ls|
  {
    if ls == [] then []
    else (if Strip(ls[0]) == [] then [] else [Strip(ls[0])]) + Kept(ls[1..])
  }

  /** The kept lines are non-empty and stripped, and hold no line break when
      the given lines hold none. */
  lemma {:induction false} KeptSpec(ls: seq<string>)
    ensures forall i :: 0 <= i < |Kept(ls)| ==> Kept(ls)[i] != [] && Trimmed(Kept(ls)[i])
    ensures (forall i :: 0 <= i < |ls| ==> '\n' !in ls[i]) ==> forall i :: 0 <= i < |Kept(ls)| ==> '\n' !in Kept(ls)[i]
    decreases |ls|
  {
    if ls != [] {
      var h := Strip(ls[0]);
      StripSpec(ls[0]);
      var rest := Kept(ls[1..]);
      KeptSpec(ls[1..]);
      var head := if h == [] then [] else [h];
      assert Kept(ls) == head + rest;
      var noBreaks := forall i :: 0 <= i < |ls| ==> '\n' !in ls[i];
      if noBreaks {
        assert forall i :: 0 <= i < |ls[1..]| ==> '\n' !in ls[1..][i] by {
          forall i | 0 <= i < |ls[1..]| ensures '\n' !in ls[1..][i] {
            assert ls[1..][i] == ls[i + 1];
          }
        }
      }
      forall i | 0 <= i < |head + rest|
        ensures (head + rest)[i] != [] && Trimmed((head + rest)[i])
        ensures noBreaks ==> '\n' !in (head + rest)[i]
      {
        if i < |head| {
          assert (head + rest)[i] == h;
        } else {
          assert (head + rest)[i] == rest[i - |head|];
        }
      }
    }
  }

  lemma KeptCons(h: string, t: seq<string>)
    ensures Kept([h] + t) == (if Strip(h) == [] then [] else [Strip(h)]) + Kept(t)
  {
    assert ([h] + t)[1..] == t;
  }

  /** The intended trim: the stripped non-blank lines, joined by line breaks. */
  function TrimLines(s: string): string {
    var kept := Kept(Lines(s));
    if kept == [] then [] else Unlines(kept)
  }

  /** The lines of the result are exactly the input's non-blank lines, each
      stripped, in their order; the result is empty exactly when the input
      holds no visible character. */
  lemma TrimLinesKeepsLines(s: string)
    ensures TrimLines(s) == [] <==> AllWhitespace(s)
    ensures TrimLines(s) != [] ==> Lines(TrimLines(s)) == Kept(Lines(s))
  {
    var kept := Kept(Lines(s));
    var t := TrimLines(s);
    KeptSpec(Lines(s));
    if kept != [] {
      LinesUnlines(kept);
      UnlinesNonEmpty(kept);
    }
    TrimLinesDeletesWhitespace(s);
    WhitespaceDeletedAll(s);
    if AllWhitespace(s) && t != [] {
      TrimLinesTrimmed(s);
      WhitespaceDeletedKeepsVisible(s, t);
      AllWhitespaceInvisible(s);
      assert false;
    }
  }

  /** Joining non-empty lines gives a non-empty text that starts with the
      first line's first character and ends with the last line's last one. */
  lemma {:induction false} UnlinesNonEmpty(ls: seq<string>)
    requires |ls| >= 1 && forall i :: 0 <= i < |ls| ==> ls[i] != []
    ensures Unlines(ls) != []
    ensures Unlines(ls)[0] == ls[0][0]
    ensures Unlines(ls)[|Unlines(ls)| - 1] == ls[|ls| - 1][|ls[|ls| - 1]| - 1]
    decreases |ls|
  {
    if |ls| > 1 {
      UnlinesNonEmpty(ls[1..]);
    }
  }

  /** The trimmed text is the input with whitespace characters deleted. */
  lemma TrimLinesDeletesWhitespace(s: string)
    ensures WhitespaceDeleted(s, TrimLines(s))
  {
    UnlinesLines(s);
    KeptDeletesWhitespace(Lines(s));
  }

  /** Joined lines with whitespace deleted give the joined non-blank stripped lines. */
  lemma {:induction false} KeptDeletesWhitespace(ls: seq<string>)
    requires |ls| >= 1
    ensures var kept := Kept(ls); WhitespaceDeleted(Unlines(ls), if kept == [] then [] else Unlines(kept))
    decreases |ls|
  {
    var head, tail := ls[0], ls[1..];
    var h := Strip(head);
    assert ls == [head] + tail;
    KeptCons(head, tail);
    StripSpec(head);
    var kt := Kept(tail);
    if |ls| == 1 {
      assert Kept(ls) == (if h == [] then [] else [h]);
    } else {
      var u := Unlines(tail);
      var rest := if kt == [] then [] else Unlines(kt);
      KeptDeletesWhitespace(tail);
      assert Unlines(ls) == head + "\n" + u;
      JoinAssoc(head, u);
      if h == [] {
        assert Kept(ls) == kt;
        BlankLineDeleted(head, u, rest);
      } else if kt == [] {
        assert Kept(ls) == [h];
        LastLineDeleted(Unlines(ls), Unlines(Kept(ls)), head, h, u);
      } else {
        assert Kept(ls) == [h] + kt;
        assert ([h] + kt)[1..] == kt;
        assert Unlines(Kept(ls)) == h + "\n" + rest;
        JoinAssoc(h, rest);
        InnerLineDeleted(Unlines(ls), Unlines(Kept(ls)), head, h, u, rest);
      }
    }
  }

  /** A blank line and the break after it vanish. */
  lemma BlankLineDeleted(head: string, u: string, rest: string)
    requires WhitespaceDeleted(head, []) && WhitespaceDeleted(u, rest)
    ensures WhitespaceDeleted(head + ("\n" + u), rest)
  {
    assert ("\n" + u)[1..] == u;
    WhitespaceDeletedAppend(head, [], "\n" + u, rest);
    assert [] + rest == rest;
  }

  /** The last visible line loses the break after it. */
  lemma LastLineDeleted(whole: string, result: string, head: string, h: string, u: string)
    requires whole == head + ("\n" + u) && result == h
    requires WhitespaceDeleted(head, h) && WhitespaceDeleted(u, [])
    ensures WhitespaceDeleted(whole, result)
  {
    assert ("\n" + u)[1..] == u;
    WhitespaceDeletedAppend(head, h, "\n" + u, []);
    assert h + [] == h;
  }

  /** A break between two visible lines stays. */
  lemma InnerLineDeleted(whole: string, result: string, head: string, h: string, u: string, rest: string)
    requires whole == head + ("\n" + u) && result == h + ("\n" + rest)
    requires WhitespaceDeleted(head, h) && WhitespaceDeleted(u, rest)
    ensures WhitespaceDeleted(whole, result)
  {
    assert ("\n" + u)[1..] == u;
    assert ("\n" + rest)[1..] == rest;
    WhitespaceDeletedAppend(head, h, "\n" + u, "\n" + rest);
  }

  lemma JoinAssoc(a: string, b: string)
    ensures a + "\n" + b == a + ("\n" + b)
  {
  }

  /** The trimmed text neither starts nor ends with whitespace. */
  lemma TrimLinesTrimmed(s: string)
    ensures Trimmed(TrimLines(s))
  {
    var kept := Kept(Lines(s));
    KeptSpec(Lines(s));
    if kept != [] {
      var t := Unlines(kept);
      var last := kept[|kept| - 1];
      UnlinesNonEmpty(kept);
      assert Trimmed(kept[0]) && Trimmed(last);
      assert t[0] == kept[0][0] && t[|t| - 1] == last[|last| - 1];
      assert TrimLines(s) == t;
    }
  }

  /** Trimming an already trimmed text changes nothing. */
  lemma TrimLinesIdempotent(s: string)
    ensures TrimLines(TrimLines(s)) == TrimLines(s)
  {
    var kept := Kept(Lines(s));
    KeptSpec(Lines(s));
    if kept != [] {
      TrimLinesKeepsLines(s);
      KeptOfKept(kept);
    }
  }

  /** A single stripped line is its own trim. */
  lemma TrimSingleLine(l: string)
    requires l != [] && '\n' !in l && Trimmed(l)
    ensures TrimLines(l) == l
    ensures Kept(Lines(l)) == [l]
  {
    LinesOfPiece(l);
    StripTrimmed(l);
    KeptCons(l, []);
  }

  /** An empty first line leaves no trace in the trim. */
  lemma TrimLinesLeadingBreak(r: string)
    ensures TrimLines("\n" + r) == TrimLines(r)
  {
    var ls := Lines(r);
    LinesOfBrokenPiece("", r);
    assert "" + "\n" + r == "\n" + r;
    assert Lines("\n" + r) == [""] + ls;
    assert Strip("") == "";
    KeptCons("", ls);
    assert Kept([""] + ls) == Kept(ls);
  }

  /** Lines that are already stripped and non-blank are all kept as they are. */
  lemma {:induction false} KeptOfKept(ls: seq<string>)
    requires forall i :: 0 <= i < |ls| ==> ls[i] != [] && Trimmed(ls[i])
    ensures Kept(ls) == ls
    decreases |ls|
  {
    if ls != [] {
      var h, t := ls[0], ls[1..];
      assert ls == [h] + t;
      StripTrimmed(h);
      assert forall i :: 0 <= i < |t| ==> t[i] != [] && Trimmed(t[i]) by {
        forall i | 0 <= i < |t| ensures t[i] != [] && Trimmed(t[i]) {
          assert t[i] == ls[i + 1];
        }
      }
      KeptOfKept(t);
      KeptCons(h, t);
    }
  }

  lemma LinesOfTwo(a: string, b: string)
    requires '\n' !in a && '\n' !in b
    ensures Lines(a + "\n" + b) == [a, b]
  {
    LinesOfPiece(b);
    LinesOfBrokenPiece(a, b);
  }

  lemma UnlinesOfTwo(a: string, b: string)
    ensures Unlines([a, b]) == a + "\n" + b
  {
    assert [a, b][1..] == [b];
  }

  lemma StripExamples()
    ensures Strip("a ") == "a" && Strip(" b") == "b"
    ensures Strip("a") == "a" && Strip("b") == "b" && Strip("") == ""
  {
    assert "a "[0] == 'a' && "a "[1] == ' ';
    assert RunStart("a ", 0, 1) == 1;
    assert RunEnd("a ", 0) == 0 && RunStart("a ", 0, 2) == 1;
    assert " b"[0] == ' ' && " b"[1] == 'b';
    assert RunEnd(" b", 1) == 1;
    assert RunEnd(" b", 0) == 1 && RunStart(" b", 1, 2) == 2;
    StripTrimmed("a");
    StripTrimmed("b");
  }

  /** An inner line loses the whitespace at its ends. */
  lemma TrimLinesStripsLines()
    ensures TrimLines("a \n b") == "a\nb"
  {
    LinesOfTwo("a ", " b");
    assert "a \n b" == "a " + "\n" + " b";
    StripExamples();
    KeptCons(" b", []);
    KeptCons("a ", [" b"]);
    assert Kept(["a ", " b"]) == ["a", "b"];
    UnlinesOfTwo("a", "b");
  }

  /** An empty line between two lines of text is dropped without joining them. */
  lemma TrimLinesDropsEmptyLine()
    ensures TrimLines("a\n\nb") == "a\nb"
  {
    LinesOfTwo("", "b");
    LinesOfBrokenPiece("a", "\nb");
    assert "\nb" == "" + "\n" + "b";
    assert "a\n\nb" == "a" + "\n" + "\nb";
    StripExamples();
    KeptCons("b", []);
    KeptCons("", ["b"]);
    KeptCons("a", ["", "b"]);
    assert Kept(["a", "", "b"]) == ["a", "b"];
    UnlinesOfTwo("a", "b");
  }

  /** The regular expression as written and the intended trim part ways on a
      single empty line between two lines of text. */
  lemma TrimDiffersFromRegex()
    ensures MultilineTrim.RegexTrim("a\n\nb") != TrimLines("a\n\nb")
    ensures |Lines(MultilineTrim.RegexTrim("a\n\nb"))| < |Lines(TrimLines("a\n\nb"))|
  {
    MultilineTrim.RegexTrimJoinsLines();
    TrimLinesDropsEmptyLine();
    LinesOfPiece("ab");
    LinesOfTwo("a", "b");
  }
}
