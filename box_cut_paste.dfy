/** box_cut_paste (frag.js:1-56): on Enter in the text box, the text before the
    caret goes, trimmed, into the first empty input of the data rows, and the
    text from the caret on, trimmed, stays in the box with the caret put back
    at the start. */
module BoxCutPaste {
  import opened Wrappers
  import opened Whitespace
  import opened LineTrim
  import opened JsString
  import MultilineTrim

  /** `e.which` of the Enter key. */
  const EnterKey: int := 13

  /** The caret-reporting capability the host offers: the text box's
      `selectionStart`, the old `document.selection`, or neither. */
  datatype CaretApi = SelectionStart | DocumentSelection | NoCaretApi

  /** The caret offset read at the moment of the key press (frag.js:10-22).
      With `document.selection` it is the length of the selection's range
      stretched back to the start of the box, less the selection's own length. */
  function CaretOffset(api: CaretApi, value: string, selStart: nat, selEnd: nat): int
    requires selStart <= selEnd <= |value|
  {
    match api
    case SelectionStart => selStart
    case DocumentSelection => |value[..selEnd]| - |value[selStart..selEnd]|
    case NoCaretApi => 0
  }

  /** Both capabilities report where the selection starts; without either the
      offset is 0. */
  lemma CaretOffsetSpec(api: CaretApi, value: string, selStart: nat, selEnd: nat)
    requires selStart <= selEnd <= |value|
    ensures api != NoCaretApi ==> CaretOffset(api, value, selStart, selEnd) == selStart
    ensures api == NoCaretApi ==> CaretOffset(api, value, selStart, selEnd) == 0
  {
  }

  /** The line sent to a slot: the text before the caret, trimmed (frag.js:25-26). */
  function LineBefore(box: string, pos: int): string {
    TrimLines(Substr(box, 0, Some(pos)))
  }

  /** The text left in the box: the text from the caret on, trimmed (frag.js:28-29). */
  function RestAfter(box: string, pos: int): string {
    TrimLines(Substr(box, pos, None))
  }

  /** The index of the first slot that holds the empty string, if any. */
  function FirstEmpty(slots: seq<string>): (r: Option<nat>)
    ensures r.Some? ==> r.value < |slots| && slots[r.value] == ""
    ensures r.Some? ==> forall j :: 0 <= j < r.value ==> slots[j] != ""
    ensures r.None? ==> forall j :: 0 <= j < |slots| ==> slots[j] != ""
    decreases |slots|
  {
    if slots == [] then None
    else if slots[0] == "" then Some(0)
    else match FirstEmpty(slots[1..])
      case Some(k) => Some(k + 1)
      case None => None
  }

  /** The slots once `ln` went into the first empty one (frag.js:32-42). */
  function Filled(slots: seq<string>, ln: string): seq<string> {
    match FirstEmpty(slots)
    case Some(k) => slots[k := ln]
    case None => slots
  }

  /** The line goes to the empty slot with the smallest index, and every other
      slot, later empty ones included, keeps its value. */
  lemma FilledFirstEmpty(slots: seq<string>, ln: string, k: nat)
    requires k < |slots| && slots[k] == ""
    requires forall j :: 0 <= j < k ==> slots[j] != ""
    ensures Filled(slots, ln) == slots[k := ln]
  {
    match FirstEmpty(slots)
    case Some(f) =>
      assert !(f < k) && !(k < f);
    case None =>
  }

  /** With no empty slot every slot keeps its value and the line is dropped. */
  lemma FilledNoEmpty(slots: seq<string>, ln: string)
    requires forall j :: 0 <= j < |slots| ==> slots[j] != ""
    ensures Filled(slots, ln) == slots
  {
  }

  /** At most one slot changes, it was empty, and it now holds the line. */
  lemma FilledChangesOneSlot(slots: seq<string>, ln: string)
    ensures |Filled(slots, ln)| == |slots|
    ensures forall i, j :: 0 <= i < j < |slots| && Filled(slots, ln)[i] != slots[i] ==> Filled(slots, ln)[j] == slots[j]
    ensures forall i :: 0 <= i < |slots| && Filled(slots, ln)[i] != slots[i] ==> slots[i] == "" && Filled(slots, ln)[i] == ln
  {
  }

  /** Into a row of empty slots the line always goes to the first one. */
  lemma FilledEmptyRow(slots: seq<string>, ln: string)
    requires |slots| > 0 && forall j :: 0 <= j < |slots| ==> slots[j] == ""
    ensures Filled(slots, ln) == [ln] + slots[1..]
  {
    FilledFirstEmpty(slots, ln, 0);
  }

  /** A non-empty line leaves its slot filled, so the next dispatch goes to a
      later slot; an empty line leaves every slot as it was. */
  lemma FilledProgress(slots: seq<string>, ln: string)
    ensures ln != "" && FirstEmpty(slots).Some? ==>
      match FirstEmpty(Filled(slots, ln))
      case Some(k) => k > FirstEmpty(slots).value
      case None => true
    ensures ln == "" ==> Filled(slots, ln) == slots
  {
  }

  /** For a caret at or after the start, the dispatched line and the text left
      in the box together hold every visible character of the box, in order:
      the cut and the trim only delete whitespace. */
  lemma DispatchKeepsText(box: string, pos: int)
    requires 0 <= pos
    ensures WhitespaceDeleted(box, LineBefore(box, pos) + RestAfter(box, pos))
    ensures Visible(LineBefore(box, pos)) + Visible(RestAfter(box, pos)) == Visible(box)
  {
    var head, tail := Substr(box, 0, Some(pos)), Substr(box, pos, None);
    SubstrSplit(box, pos);
    TrimLinesDeletesWhitespace(head);
    TrimLinesDeletesWhitespace(tail);
    WhitespaceDeletedAppend(head, LineBefore(box, pos), tail, RestAfter(box, pos));
    WhitespaceDeletedKeepsVisible(box, LineBefore(box, pos) + RestAfter(box, pos));
    VisibleAppend(LineBefore(box, pos), RestAfter(box, pos));
  }

  /** Both halves are trimmed: neither starts nor ends with whitespace. */
  lemma DispatchTrimmed(box: string, pos: int)
    ensures Trimmed(LineBefore(box, pos)) && Trimmed(RestAfter(box, pos))
  {
    TrimLinesTrimmed(Substr(box, 0, Some(pos)));
    TrimLinesTrimmed(Substr(box, pos, None));
  }

  /** With the caret at the start, as when the host reports no caret, the line
      is empty and the whole box, trimmed, stays in the box. */
  lemma DispatchAtStart(box: string)
    ensures LineBefore(box, 0) == ""
    ensures RestAfter(box, 0) == TrimLines(box)
  {
    SubstrSplit(box, 0);
    assert box[..0] == [];
    assert TrimLines([]) == [] by {
      TrimLinesKeepsLines([]);
    }
  }

  /** With the caret at or past the end, the whole box is the line and the box
      is left empty. */
  lemma DispatchAtEnd(box: string, pos: int)
    requires |box| <= pos
    ensures LineBefore(box, pos) == TrimLines(box)
    ensures RestAfter(box, pos) == ""
  {
    SubstrSplit(box, pos);
    assert box[..|box|] == box;
    assert TrimLines([]) == [] by {
      TrimLinesKeepsLines([]);
    }
  }

  /** "abc\ndef" with the caret after "abc": the line is "abc" and "def" stays. */
  lemma DispatchExample()
    ensures LineBefore("abc\ndef", 3) == "abc"
    ensures RestAfter("abc\ndef", 3) == "def"
  {
    var box := "abc\ndef";
    SubstrSplit(box, 3);
    assert box[..3] == "abc" && box[3..] == "\n" + "def";
    TrimSingleLine("abc");
    TrimSingleLine("def");
    TrimLinesLeadingBreak("def");
  }

  /** The line as the code as written computes it, with the regular
      expression of frag.js:26. */
  function LineAsWritten(box: string, pos: int): string {
    MultilineTrim.RegexTrim(Substr(box, 0, Some(pos)))
  }

  /** The rest as the code as written computes it (frag.js:28-29). */
  function RestAsWritten(box: string, pos: int): string {
    MultilineTrim.RegexTrim(Substr(box, pos, None))
  }

  /** The code as written also deletes only whitespace: the line followed by
      the rest is the box with whitespace taken out, visible text in order. */
  lemma DispatchAsWrittenKeepsText(box: string, pos: int)
    requires 0 <= pos
    ensures WhitespaceDeleted(box, LineAsWritten(box, pos) + RestAsWritten(box, pos))
    ensures Visible(LineAsWritten(box, pos)) + Visible(RestAsWritten(box, pos)) == Visible(box)
  {
    var head, tail := Substr(box, 0, Some(pos)), Substr(box, pos, None);
    SubstrSplit(box, pos);
    MultilineTrim.RegexTrimTrimmed(head);
    MultilineTrim.RegexTrimTrimmed(tail);
    WhitespaceDeletedAppend(head, LineAsWritten(box, pos), tail, RestAsWritten(box, pos));
    WhitespaceDeletedKeepsVisible(box, LineAsWritten(box, pos) + RestAsWritten(box, pos));
    VisibleAppend(LineAsWritten(box, pos), RestAsWritten(box, pos));
  }

  /** Both halves the code as written computes are trimmed. */
  lemma DispatchAsWrittenTrimmed(box: string, pos: int)
    ensures Trimmed(LineAsWritten(box, pos)) && Trimmed(RestAsWritten(box, pos))
  {
    MultilineTrim.RegexTrimTrimmed(Substr(box, 0, Some(pos)));
    MultilineTrim.RegexTrimTrimmed(Substr(box, pos, None));
  }

  /** As written, a caret at 0 gives an empty line and the whole box,
      trimmed by the regular expression, as the rest. */
  lemma DispatchAsWrittenAtStart(box: string)
    ensures LineAsWritten(box, 0) == ""
    ensures RestAsWritten(box, 0) == MultilineTrim.RegexTrim(box)
  {
    SubstrSplit(box, 0);
    assert box[..0] == [];
  }

  /** With the caret at the end of "a\n\nb" the written line joins the two
      text lines, while the corrected one keeps them apart. */
  lemma DispatchAsWrittenDiffers()
    ensures LineAsWritten("a\n\nb", 4) == "ab"
    ensures LineBefore("a\n\nb", 4) == "a\nb"
  {
    DispatchAtEnd("a\n\nb", 4);
    SubstrSplit("a\n\nb", 4);
    assert "a\n\nb"[..4] == "a\n\nb";
    MultilineTrim.RegexTrimJoinsLines();
    TrimLinesDropsEmptyLine();
  }

  /** The caret-placing capability the host offers: the text box's
      `createTextRange` (old Internet Explorer, tried first), its
      `setSelectionRange`, or neither. */
  datatype ResetApi = TextRange | SetSelectionRange | NoResetApi

  /** The selection after the reset step, and whether that step threw. */
  datatype ResetOutcome = Placed(start: nat, end: nat) | Threw(start: nat, end: nat)

  /** The reset step as written (frag.js:47-55), from the selection `start`,
      `end` that assigning the value left. A text range has no `moveat`
      method, so the call on frag.js:50 throws before `select` and the
      selection stays where it was; `setSelectionRange(0, 0)` puts the caret
      at the start; without either capability nothing moves. */
  function ResetAsWritten(api: ResetApi, start: nat, end: nat): ResetOutcome {
    match api
    case TextRange => Threw(start, end)
    case SetSelectionRange => Placed(0, 0)
    case NoResetApi => Placed(start, end)
  }

  /** The reset step as intended: a range created over the whole box and
      moved by 0 characters collapses to its start, so both capabilities put
      the caret at the start. */
  function ResetIntended(api: ResetApi, start: nat, end: nat): ResetOutcome {
    match api
    case NoResetApi => Placed(start, end)
    case _ => Placed(0, 0)
  }

  /** The two agree on every host but one with `createTextRange`, where the
      code as written throws and leaves the caret off the start whenever it
      was not there already. */
  lemma ResetAsWrittenThrows(api: ResetApi, start: nat, end: nat)
    ensures api != TextRange ==> ResetAsWritten(api, start, end) == ResetIntended(api, start, end)
    ensures api == TextRange ==> ResetAsWritten(api, start, end).Threw?
    ensures api == TextRange && end > 0 ==> ResetAsWritten(api, start, end).end != ResetIntended(api, start, end).end
  {
  }

  /** A box whose value "abc" was just assigned holds the caret at 3: on a
      `createTextRange` host the code as written throws with the caret still
      there, while the intended reset puts it at 0. */
  lemma ResetTextRangeExample()
    ensures ResetAsWritten(TextRange, 3, 3) == Threw(3, 3)
    ensures ResetIntended(TextRange, 3, 3) == Placed(0, 0)
  {
  }

  /** The text box and the inputs of the data rows, as box_cut_paste sees them. */
  class PasteBox {
    /** The text box's value. */
    var value: string
    /** The text box's selection; the caret when the two are equal. */
    var selectionStart: nat
    var selectionEnd: nat
    /** The values of the `.datarow :text.sinput` inputs, in document order. */
    const slots: array<string>

    ghost predicate Valid()
      reads this
    {
      selectionStart <= selectionEnd <= |value|
    }

    constructor (text: string, inputs: array<string>)
      ensures Valid()
      ensures value == text && selectionStart == 0 && selectionEnd == 0 && slots == inputs
    {
      value := text;
      selectionStart, selectionEnd := 0, 0;
      slots := inputs;
    }

    /** The caret offset the host reports at the key press (frag.js:10-22). */
    method ReadCaret(api: CaretApi) returns (pos: int)
      requires Valid()
      ensures pos == CaretOffset(api, value, selectionStart, selectionEnd)
      ensures api != NoCaretApi ==> pos == selectionStart
      ensures api == NoCaretApi ==> pos == 0
    {
      pos := 0;
      match api {
        case SelectionStart =>
          pos := selectionStart;
        case DocumentSelection =>
          var slen := |value[selectionStart..selectionEnd]|;
          var stretched := value[..selectionEnd];
          pos := |stretched| - slen;
        case NoCaretApi =>
      }
    }

    /** Walks the slots in order and puts `ln` into the first empty one, if
        any (frag.js:32-42). */
    method FillFirstEmpty(ln: string)
      modifies slots
      ensures slots[..] == Filled(old(slots[..]), ln)
    {
      var i := 0;
      while i < slots.Length
        invariant 0 <= i <= slots.Length
        invariant forall j :: 0 <= j < i ==> slots[j] != ""
        invariant slots[..] == old(slots[..])
      {
        if slots[i] == "" {
          FilledFirstEmpty(slots[..], ln, i);
          slots[i] := ln;
          return;
        }
        i := i + 1;
      }
      FilledNoEmpty(slots[..], ln);
    }

    /** `b.value = v` (frag.js:45): as the HTML Standard's value setter for
        text controls does, a value that differs from the old one puts the
        caret at its end; the same value leaves the selection alone. */
    method SetValue(v: string)
      requires Valid()
      modifies this
      ensures Valid() && value == v
      ensures v != old(value) ==> selectionStart == |v| && selectionEnd == |v|
      ensures v == old(value) ==> selectionStart == old(selectionStart) && selectionEnd == old(selectionEnd)
    {
      if v != value {
        selectionStart, selectionEnd := |v|, |v|;
      }
      value := v;
    }

    /** The reset step with the intended `move` in place of `moveat`
        (frag.js:47-55). */
    method ResetCaret(api: ResetApi)
      requires Valid()
      modifies this
      ensures Valid() && value == old(value)
      ensures Placed(selectionStart, selectionEnd) == ResetIntended(api, old(selectionStart), old(selectionEnd))
      ensures api != NoResetApi ==> selectionStart == 0 && selectionEnd == 0
    {
      match api {
        case TextRange =>
          selectionStart, selectionEnd := 0, 0;
        case SetSelectionRange =>
          selectionStart, selectionEnd := 0, 0;
        case NoResetApi =>
      }
    }

    /** Updating the box and positioning the caret (frag.js:44-55). */
    method Replace(v: string, reset: ResetApi)
      requires Valid()
      modifies this
      ensures Valid() && value == v
      ensures reset != NoResetApi ==> selectionStart == 0 && selectionEnd == 0
      ensures reset == NoResetApi ==>
        if v != old(value) then selectionStart == selectionEnd == |v|
        else selectionStart == old(selectionStart) && selectionEnd == old(selectionEnd)
    {
      SetValue(v);
      ResetCaret(reset);
    }

    /** What Enter does (frag.js:8-55): the trimmed text before the caret
        goes into the first empty slot, the trimmed rest stays in the box,
        and the caret goes to the start when the host can place it. */
    method Dispatch(api: CaretApi, reset: ResetApi)
      requires Valid()
      modifies this, slots
      ensures Valid()
      ensures var pos := CaretOffset(api, old(value), old(selectionStart), old(selectionEnd));
        value == RestAfter(old(value), pos) &&
        slots[..] == Filled(old(slots[..]), LineBefore(old(value), pos))
      ensures reset != NoResetApi ==> selectionStart == 0 && selectionEnd == 0
      ensures reset == NoResetApi ==>
        if value != old(value) then selectionStart == selectionEnd == |value|
        else selectionStart == old(selectionStart) && selectionEnd == old(selectionEnd)
    {
      var box := value;
      var pos := ReadCaret(api);
      var ln := LineBefore(box, pos);
      var rest := RestAfter(box, pos);
      FillFirstEmpty(ln);
      Replace(rest, reset);
    }

    /** The key handler (frag.js:1-56). Any key but Enter changes nothing;
        Enter dispatches. */
    method HandleKey(which: int, api: CaretApi, reset: ResetApi)
      requires Valid()
      modifies this, slots
      ensures Valid()
      ensures which != EnterKey ==>
        value == old(value) && selectionStart == old(selectionStart) &&
        selectionEnd == old(selectionEnd) && slots[..] == old(slots[..])
      ensures which == EnterKey ==>
        var pos := CaretOffset(api, old(value), old(selectionStart), old(selectionEnd));
        value == RestAfter(old(value), pos) &&
        slots[..] == Filled(old(slots[..]), LineBefore(old(value), pos))
      ensures which == EnterKey && reset != NoResetApi ==> selectionStart == 0 && selectionEnd == 0
      ensures which == EnterKey && reset == NoResetApi ==>
        if value != old(value) then selectionStart == selectionEnd == |value|
        else selectionStart == old(selectionStart) && selectionEnd == old(selectionEnd)
    {
      if which != EnterKey {
        return;
      }
      Dispatch(api, reset);
    }
  }
}
