/** The optional value used wherever the page's code may find nothing. */
module Wrappers {
  datatype Option<+T> = None | Some(value: T)
}

/** Characters as the trimming regular expression sees them, and what it means
    for one string to be another with only whitespace taken out. */
module Whitespace {

  /** Members of the regular-expression class `\s` that a text box can hold.
      Only '\n' separates lines. */
  predicate IsWhitespace(c: char) {
    c == ' ' || c == '\t' || c == '\n' || c == '\r' || c == '\U{B}' || c == '\U{C}' || c == '\U{A0}'
  }

  predicate AllWhitespace(s: string) {
    forall i :: 0 <= i < |s| ==> IsWhitespace(s[i])
  }

  /** Neither the first nor the last character is whitespace. */
  predicate Trimmed(t: string) {
    t == [] || (!IsWhitespace(t[0]) && !IsWhitespace(t[|t| - 1]))
  }

  /** End of the longest run of whitespace that starts at `i`: where a greedy `\s*` stops. */
  function RunEnd(s: string, i: nat): (j: nat)
    requires i <= |s|
    ensures i <= j <= |s|
    ensures forall k :: i <= k < j ==> IsWhitespace(s[k])
    ensures j == |s| || !IsWhitespace(s[j])
    decreases |s| - i
  {
    if i < |s| && IsWhitespace(s[i]) then RunEnd(s, i + 1) else i
  }

  /** Start of the longest run of whitespace that ends at `j` and begins no
      earlier than `lo`. */
  function RunStart(s: string, lo: nat, j: nat): (k: nat)
    requires lo <= j <= |s|
    ensures lo <= k <= j
    ensures forall m :: k <= m < j ==> IsWhitespace(s[m])
    ensures k == lo || !IsWhitespace(s[k - 1])
    decreases j
  {
    if lo < j && IsWhitespace(s[j - 1]) then RunStart(s, lo, j - 1) else j
  }

  /** `t` is `s` with some whitespace characters deleted and nothing else changed. */
  predicate WhitespaceDeleted(s: string, t: string)
    decreases |s|
  {
    if s == [] then t == []
    else
      (t != [] && t[0] == s[0] && WhitespaceDeleted(s[1..], t[1..]))
      || (IsWhitespace(s[0]) && WhitespaceDeleted(s[1..], t))
  }

  /** The characters of `s` that are not whitespace, in order. */
  function Visible(s: string): string
    decreases |s|
  {
    if s == [] then []
    else (if IsWhitespace(s[0]) then [] else [s[0]]) + Visible(s[1..])
  }

  lemma {:induction false} WhitespaceDeletedRefl(s: string)
    ensures WhitespaceDeleted(s, s)
    decreases |s|
  {
    if s != [] {
      WhitespaceDeletedRefl(s[1..]);
    }
  }

  /** Deleting everything is allowed exactly when everything is whitespace. */
  lemma {:induction false} WhitespaceDeletedAll(s: string)
    ensures WhitespaceDeleted(s, []) <==> AllWhitespace(s)
    decreases |s|
  {
    if s != [] {
      WhitespaceDeletedAll(s[1..]);
      if AllWhitespace(s) {
        assert AllWhitespace(s[1..]) by {
          forall i | 0 <= i < |s[1..]| ensures IsWhitespace(s[1..][i]) {
            assert s[1..][i] == s[i + 1];
          }
        }
      }
      if WhitespaceDeleted(s, []) {
        forall i | 0 <= i < |s| ensures IsWhitespace(s[i]) {
          if i > 0 { assert s[i] == s[1..][i - 1]; }
        }
      }
    }
  }

  /** Deletions in two pieces make a deletion in their concatenation. */
  lemma {:induction false} WhitespaceDeletedAppend(a: string, b: string, c: string, d: string)
    requires WhitespaceDeleted(a, b) && WhitespaceDeleted(c, d)
    ensures WhitespaceDeleted(a + c, b + d)
    decreases |a|
  {
    if a != [] {
      assert (a + c)[1..] == a[1..] + c;
      if b != [] && b[0] == a[0] && WhitespaceDeleted(a[1..], b[1..]) {
        WhitespaceDeletedAppend(a[1..], b[1..], c, d);
        assert (b + d)[1..] == b[1..] + d;
      } else {
        WhitespaceDeletedAppend(a[1..], b, c, d);
      }
    } else {
      assert a + c == c && b + d == d;
    }
  }

  /** A whitespace prefix may be deleted in front of any deletion. */
  lemma {:induction false} WhitespaceDeletedPrefix(w: string, s: string, t: string)
    requires AllWhitespace(w) && WhitespaceDeleted(s, t)
    ensures WhitespaceDeleted(w + s, t)
  {
    WhitespaceDeletedAll(w);
    WhitespaceDeletedAppend(w, [], s, t);
    assert [] + t == t;
  }

  /** A whitespace suffix may be deleted after any deletion. */
  lemma {:induction false} WhitespaceDeletedSuffix(s: string, t: string, w: string)
    requires WhitespaceDeleted(s, t) && AllWhitespace(w)
    ensures WhitespaceDeleted(s + w, t)
  {
    WhitespaceDeletedAll(w);
    WhitespaceDeletedAppend(s, t, w, []);
    assert t + [] == t;
  }

  /** Cutting whitespace off both ends deletes only whitespace. */
  lemma SliceDeletesWhitespace(s: string, a: nat, b: nat)
    requires a <= b <= |s|
    requires forall m :: 0 <= m < a ==> IsWhitespace(s[m])
    requires forall m :: b <= m < |s| ==> IsWhitespace(s[m])
    ensures WhitespaceDeleted(s, s[a..b])
  {
    var r := s[a..b];
    assert AllWhitespace(s[..a]) by {
      forall m | 0 <= m < a ensures IsWhitespace(s[..a][m]) {
        assert s[..a][m] == s[m];
      }
    }
    assert AllWhitespace(s[b..]) by {
      forall m | 0 <= m < |s| - b ensures IsWhitespace(s[b..][m]) {
        assert s[b..][m] == s[b + m];
      }
    }
    assert s == s[..a] + (r + s[b..]);
    WhitespaceDeletedRefl(r);
    WhitespaceDeletedSuffix(r, r, s[b..]);
    WhitespaceDeletedPrefix(s[..a], r + s[b..], r);
  }

  lemma {:induction false} VisibleAppend(a: string, b: string)
    ensures Visible(a + b) == Visible(a) + Visible(b)
    decreases |a|
  {
    if a != [] {
      assert (a + b)[1..] == a[1..] + b;
      VisibleAppend(a[1..], b);
    } else {
      assert a + b == b;
    }
  }

  /** Whitespace alone shows nothing. */
  lemma {:induction false} AllWhitespaceInvisible(s: string)
    requires AllWhitespace(s)
    ensures Visible(s) == []
    decreases |s|
  {
    if s != [] {
      assert AllWhitespace(s[1..]) by {
        forall i | 0 <= i < |s| - 1 ensures IsWhitespace(s[1..][i]) {
          assert s[1..][i] == s[i + 1];
        }
      }
      AllWhitespaceInvisible(s[1..]);
    }
  }

  /** Deleting only whitespace loses and invents no visible character. */
  lemma {:induction false} WhitespaceDeletedKeepsVisible(s: string, t: string)
    requires WhitespaceDeleted(s, t)
    ensures Visible(t) == Visible(s)
    decreases |s|
  {
    if s != [] {
      if t != [] && t[0] == s[0] && WhitespaceDeleted(s[1..], t[1..]) {
        WhitespaceDeletedKeepsVisible(s[1..], t[1..]);
      } else {
        WhitespaceDeletedKeepsVisible(s[1..], t);
      }
    }
  }
}
