/** The trim applied to both halves of the text box (frag.js:26 and frag.js:29):
    `str.replace(/^\s+|\s+$/gm, '')`, as the ECMAScript regular-expression
    engine evaluates it. The `m` flag makes `^` hold at the start of the input
    and after every line break, and `$` at the end of the input and before every
    line break; both look at the ORIGINAL string, not at what earlier
    replacements produced. The `g` flag restarts the search where the previous
    match ended, or one character further on when no match starts here. */
module MultilineTrim {
  import opened Wrappers
  import opened Whitespace

  /** `^` under the `m` flag. */
  predicate AtLineStart(s: string, k: nat)
    requires k <= |s|
  {
    k == 0 || s[k - 1] == '\n'
  }

  /** `$` under the `m` flag. */
  predicate AtLineEnd(s: string, k: nat)
    requires k <= |s|
  {
    k == |s| || s[k] == '\n'
  }

  /** Backtracking of `\s+$`: the largest end in `lo..hi` at which `$` holds. */
  function LastLineEnd(s: string, lo: nat, hi: nat): (r: Option<nat>)
    requires hi <= |s|
    ensures r.Some? ==> lo <= r.value <= hi && AtLineEnd(s, r.value)
    ensures r.Some? ==> forall k :: r.value < k <= hi ==> !AtLineEnd(s, k)
    ensures r.None? ==> forall k :: lo <= k <= hi ==> !AtLineEnd(s, k)
    decreases hi
  {
    if hi < lo then None
    else if AtLineEnd(s, hi) then Some(hi)
    else if hi == lo then None
    else LastLineEnd(s, lo, hi - 1)
  }

  /** The end of the match of `^\s+|\s+$` that starts at `i`, if there is one:
      the first alternative takes the whole whitespace run at a line start, the
      second the longest whitespace that ends at a line end. */
  function MatchAt(s: string, i: nat): (r: Option<nat>)
    requires i < |s|
    ensures r.Some? ==> i < r.value <= |s|
    ensures r.Some? ==> forall k :: i <= k < r.value ==> IsWhitespace(s[k])
    ensures r.None? ==> AtLineStart(s, i) ==> !IsWhitespace(s[i])
  {
    if !IsWhitespace(s[i]) then None
    else if AtLineStart(s, i) then Some(RunEnd(s, i))
    else LastLineEnd(s, i + 1, RunEnd(s, i))
  }

  /** Global replacement with '' of every match found from position `i` on. */
  function ReplaceFrom(s: string, i: nat): string
    requires i <= |s|
    decreases |s| - i
  {
    if i == |s| then []
    else match MatchAt(s, i)
      case Some(k) => ReplaceFrom(s, k)
      case None => [s[i]] + ReplaceFrom(s, i + 1)
  }

  /** `s.replace(/^\s+|\s+$/gm, '')` */
  function RegexTrim(s: string): string {
    ReplaceFrom(s, 0)
  }

  /** A match removes only whitespace, so the replacement does too. */
  lemma {:induction false} ReplaceFromDeletesWhitespace(s: string, i: nat)
    requires i <= |s|
    ensures WhitespaceDeleted(s[i..], ReplaceFrom(s, i))
    decreases |s| - i
  {
    if i < |s| {
      match MatchAt(s, i)
      case Some(k) =>
        ReplaceFromDeletesWhitespace(s, k);
        assert AllWhitespace(s[i..k]) by {
          forall j | 0 <= j < |s[i..k]| ensures IsWhitespace(s[i..k][j]) {
            assert s[i..k][j] == s[i + j];
          }
        }
        assert s[i..] == s[i..k] + s[k..];
        WhitespaceDeletedPrefix(s[i..k], s[k..], ReplaceFrom(s, k));
      case None =>
        ReplaceFromDeletesWhitespace(s, i + 1);
        assert s[i..][1..] == s[i + 1..];
    }
  }

  /** When nothing is left after `i`, only whitespace followed it. */
  lemma ReplaceFromEmpty(s: string, i: nat)
    requires i <= |s| && ReplaceFrom(s, i) == []
    ensures forall k :: i <= k < |s| ==> IsWhitespace(s[k])
  {
    ReplaceFromDeletesWhitespace(s, i);
    WhitespaceDeletedAll(s[i..]);
    forall k | i <= k < |s| ensures IsWhitespace(s[k]) {
      assert s[k] == s[i..][k - i];
    }
  }

  /** What the replacement keeps never ends in whitespace: a whitespace
      character followed by nothing but whitespace is matched by `\s+$`. */
  lemma {:induction false} ReplaceFromEndsVisible(s: string, i: nat)
    requires i <= |s|
    ensures ReplaceFrom(s, i) == [] || !IsWhitespace(ReplaceFrom(s, i)[|ReplaceFrom(s, i)| - 1])
    decreases |s| - i
  {
    if i < |s| {
      match MatchAt(s, i)
      case Some(k) =>
        ReplaceFromEndsVisible(s, k);
      case None =>
        var tail := ReplaceFrom(s, i + 1);
        ReplaceFromEndsVisible(s, i + 1);
        if tail == [] && IsWhitespace(s[i]) {
          ReplaceFromEmpty(s, i + 1);
          assert false;
        }
    }
  }

  /** The result of the trim neither starts nor ends with whitespace, and it is
      its input with only whitespace characters deleted. */
  lemma RegexTrimTrimmed(s: string)
    ensures Trimmed(RegexTrim(s))
    ensures WhitespaceDeleted(s, RegexTrim(s))
  {
    ReplaceFromDeletesWhitespace(s, 0);
    ReplaceFromEndsVisible(s, 0);
    if s != [] {
      var j := if IsWhitespace(s[0]) then RunEnd(s, 0) else 0;
      assert RegexTrim(s) == ReplaceFrom(s, j);
      if j < |s| {
        assert !IsWhitespace(s[j]);
        assert ReplaceFrom(s, j) == [s[j]] + ReplaceFrom(s, j + 1);
      }
    }
  }

  /** Whitespace at the ends of an inner line goes, the line break stays. */
  lemma RegexTrimStripsLines()
    ensures RegexTrim("a \n b") == "a\nb"
  {
    var s := "a \n b";
    assert MatchAt(s, 0) == None;
    assert MatchAt(s, 1) == Some(2);
    assert MatchAt(s, 2) == None;
    assert MatchAt(s, 3) == Some(4);
    assert MatchAt(s, 4) == None;
  }

  /** An empty line between two lines of text removes BOTH line breaks: the
      first is taken by `\s+$` (a line end follows it), the second by `^\s+`
      (it starts a line), so the two lines are joined into one. */
  lemma RegexTrimJoinsLines()
    ensures RegexTrim("a\n\nb") == "ab"
  {
    var s := "a\n\nb";
    assert MatchAt(s, 0) == None;
    assert RunEnd(s, 1) == 3;
    assert MatchAt(s, 1) == Some(2);
    assert MatchAt(s, 2) == Some(3);
    assert MatchAt(s, 3) == None;
  }

  /** Line breaks are '\n' alone here. With the "\r\n" breaks of old
      Internet Explorer the '\r' is taken as plain whitespace, so on
      "a\r\n\r\nb" the model keeps one '\n', where an engine that also
      anchors `^` after '\r' removes it and yields "ab". */
  lemma RegexTrimCrLf()
    ensures RegexTrim("a\r\n\r\nb") == "a\nb"
  {
    var s := "a\r\n\r\nb";
    assert MatchAt(s, 0) == None;
    assert RunEnd(s, 1) == 5;
    assert MatchAt(s, 1) == Some(4);
    assert MatchAt(s, 4) == None;
    assert MatchAt(s, 5) == None;
  }
}
