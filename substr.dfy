/** `String.prototype.substr`, which box_cut_paste uses to cut the text box at
    the caret (frag.js:25 and frag.js:28), as section B.2.2.1 of ECMA-262
    defines it: a negative start counts from the end, and both the start and
    the length are clamped into the string. */
module JsString {
  import opened Wrappers

  function Clamp(x: int, lo: int, hi: int): (r: int)
    requires lo <= hi
    ensures lo <= r <= hi
    ensures lo <= x <= hi ==> r == x
  {
    if x < lo then lo else if x > hi then hi else x
  }

  /** `s.substr(start)` when `length` is None, `s.substr(start, length)` otherwise. */
  function Substr(s: string, start: int, length: Option<int>): string {
    var size := |s|;
    var from := if start < 0 then Clamp(size + start, 0, size) else Clamp(start, 0, size);
    var count := match length
      case None => size
      case Some(n) => Clamp(n, 0, size);
    var to := if from + count < size then from + count else size;
    s[from..to]
  }

  /** For a caret at or after the start, `substr(0, pos)` and `substr(pos)` are
      the text before and the text after the caret clamped into the string, so
      together they are the whole string. */
  lemma SubstrSplit(s: string, pos: int)
    requires 0 <= pos
    ensures Substr(s, 0, Some(pos)) == s[..Clamp(pos, 0, |s|)]
    ensures Substr(s, pos, None) == s[Clamp(pos, 0, |s|)..]
    ensures Substr(s, 0, Some(pos)) + Substr(s, pos, None) == s
  {
    var c := Clamp(pos, 0, |s|);
    assert s[..c] + s[c..] == s;
  }

  /** A negative offset gives an empty head and keeps only the last `-pos`
      characters in the tail: the two no longer cover the string. */
  lemma SubstrNegative(s: string, pos: int)
    requires pos < 0
    ensures Substr(s, 0, Some(pos)) == []
    ensures Substr(s, pos, None) == s[Clamp(|s| + pos, 0, |s|)..]
  {
  }
}
