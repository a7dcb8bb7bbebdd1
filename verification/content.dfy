/**
 * The content script that runs in every frame (content.js): the engine that
 * writes generated text back into the page, and the listener that answers
 * the service worker's messages.
 *
 * The page is abstracted to the state these two read and write: the focused
 * element when it is a form control, the document text the selection ranges
 * over, the first rich-text container the page offers, the cursor style of
 * the body, and the alerts and `input` events the script raises.
 */
module Content {
  import opened Wrappers
  import opened JsText
  import opened Protocol

  const ResultPrefix := "Gemini Result:\n\n"
  const InjectionErrorPrefix := "Injection error: "

  /** The new value of a text control and the caret offset just after the
      inserted text. */
  datatype Splice = Splice(value: string, caret: nat)

  /** The string arithmetic of the form-control strategy.  In continue mode
      `" " + text` goes in after `end`; otherwise `text` replaces
      `[start, end)`.  Offsets are clamped as `slice` clamps them; within the
      value the original survives as prefix and suffix around the insertion
      and the caret lands right after the inserted text. */
  function SpliceText(original: string, text: string, start: nat, end: nat, mode: Option<string>): (r: Splice)
    ensures mode == Some(ContinueId) ==> r.caret == end + 1 + |text|
    ensures mode != Some(ContinueId) ==> r.caret == start + |text|
    ensures mode == Some(ContinueId) && end <= |original| ==>
      && |r.value| == |original| + 1 + |text|
      && r.value[..r.caret] == original[..end] + " " + text
      && r.value[r.caret..] == original[end..]
    ensures mode != Some(ContinueId) && start <= end <= |original| ==>
      && |r.value| == |original| - (end - start) + |text|
      && r.value[..r.caret] == original[..start] + text
      && r.value[r.caret..] == original[end..]
  {
    if mode == Some(ContinueId) then
      Splice(Slice(original, 0, end) + " " + text + Slice(original, end, |original|), end + 1 + |text|)
    else
      Splice(Slice(original, 0, start) + text + Slice(original, end, |original|), start + |text|)
  }

  datatype Tag = Input | TextArea | OtherTag

  /** The focused element: its tag, its `value` and its selection offsets,
      `None` where the element reports `null`. */
  datatype Control = Control(tag: Tag, value: Option<string>, selectionStart: Option<nat>, selectionEnd: Option<nat>)

  /** `selectionStart ?? 0` */
  function StartOf(c: Control): nat {
    c.selectionStart.GetOr(0)
  }

  /** `selectionEnd ?? start` */
  function EndOf(c: Control): nat {
    c.selectionEnd.GetOr(StartOf(c))
  }

  /** The control after the form-control strategy: the spliced value, and the
      caret placed after the inserted text (clamped to the value, as
      `setSelectionRange` does) when the control reports a selection at all;
      otherwise `setSelectionRange` throws, which is ignored. */
  function Edited(c: Control, text: string, mode: Option<string>): (e: Control)
    ensures e.tag == c.tag && e.value.Some?
    ensures c.selectionStart.Some? ==>
      e.selectionStart.Some? && e.selectionEnd == e.selectionStart && e.selectionStart.value <= |e.value.value|
    ensures c.selectionStart.None? ==> e.selectionStart == c.selectionStart && e.selectionEnd == c.selectionEnd
  {
    var sp := SpliceText(c.value.GetOr(""), text, StartOf(c), EndOf(c), mode);
    var caret := Min(sp.caret, |sp.value|);
    if c.selectionStart.Some? then
      c.(value := Some(sp.value), selectionStart := Some(caret), selectionEnd := Some(caret))
    else
      c.(value := Some(sp.value))
  }

  /** A consistent control: offsets, when reported, are ordered and lie
      within the value, as browsers keep them. */
  predicate WellFormed(c: Control) {
    && (c.selectionEnd.Some? ==> StartOf(c) <= EndOf(c) <= |c.value.GetOr("")|)
    && (c.selectionEnd.None? ==> StartOf(c) <= |c.value.GetOr("")|)
  }

  /** On a consistent control the strategy keeps the text around the
      selection, puts the inserted text (after a space in continue mode)
      immediately before the caret, and leaves the control consistent. */
  lemma EditedControl(c: Control, text: string, mode: Option<string>)
    requires WellFormed(c) && c.selectionStart.Some?
    ensures var v := c.value.GetOr(""); var e := Edited(c, text, mode);
      && WellFormed(e)
      && e.selectionStart == e.selectionEnd
      && (mode == Some(ContinueId) ==>
            e.value == Some(v[..EndOf(c)] + " " + text + v[EndOf(c)..])
            && e.selectionStart == Some(EndOf(c) + 1 + |text|))
      && (mode != Some(ContinueId) ==>
            e.value == Some(v[..StartOf(c)] + text + v[EndOf(c)..])
            && e.selectionStart == Some(StartOf(c) + |text|))
  {
  }

  /** A control that reports no selection offsets gets the text at its very
      start, since the start defaults to 0, and its
      offsets stay unreported. */
  lemma EditedWithoutOffsets(c: Control, text: string, mode: Option<string>)
    requires c.selectionStart.None? && c.selectionEnd.None?
    ensures var v := c.value.GetOr(""); var e := Edited(c, text, mode);
      && e.selectionStart.None? && e.selectionEnd.None?
      && (mode == Some(ContinueId) ==> e.value == Some(" " + text + v))
      && (mode != Some(ContinueId) ==> e.value == Some(text + v))
  {
    var v := c.value.GetOr("");
    assert StartOf(c) == 0 && EndOf(c) == 0;
    assert Slice(v, 0, 0) == [];
    assert Slice(v, 0, |v|) == v[0..|v|] == v;
    var sp := SpliceText(v, text, 0, 0, mode);
    if mode == Some(ContinueId) {
      assert sp.value == [] + " " + text + v == " " + text + v;
    } else {
      assert sp.value == [] + text + v == text + v;
    }
  }

  /** A DOM range over the document text, as offsets `[start, end)`. */
  datatype Range = Range(start: nat, end: nat)

  /** `window.getSelection()`: `null`, or a selection holding `rangeCount`
      ranges of which the first (`getRangeAt(0)`) is `first`. */
  datatype Selection = NoSelection | Selection(rangeCount: nat, first: Range)

  /** The first element matching the rich-editor selector, its text content,
      and where focusing it places a collapsed selection (`None` when no
      range is obtainable afterwards). */
  datatype Editable = Editable(text: string, caretOnFocus: Option<nat>)

  datatype PageEvent = Alerted(message: string) | InputChanged

  /** The outcome of a call that may throw: a returned value or the thrown
      error's message. */
  datatype Completion = Returned(value: bool) | Threw(message: string)

  /** The strategies of the injection engine, in priority order. */
  datatype Strategy = EditControl | InsertAtSelection | EditContainer | ShowResult

  class Page {
    var activeElement: Option<Control>
    var docText: string
    var selection: Selection
    var editable: Option<Editable>
    var cursor: string
    var events: seq<PageEvent>

    ghost predicate Valid()
      reads this
    {
      && (selection.Selection? && selection.rangeCount > 0 ==>
            selection.first.start <= selection.first.end <= |docText|)
      && (editable.Some? && editable.value.caretOnFocus.Some? ==>
            editable.value.caretOnFocus.value <= |editable.value.text|)
    }

    predicate FocusIsTextControl()
      reads this
    {
      activeElement.Some? && (activeElement.value.tag == TextArea || activeElement.value.tag == Input)
    }

    /** A selection exists and holds at least one range. */
    predicate HasRange()
      reads this
    {
      selection.Selection? && selection.rangeCount > 0
    }

    /** The strategy `replaceSelectedText` takes on this page: the first
        that applies. */
    function Chosen(): (s: Strategy)
      reads this
      ensures s == EditControl <==> FocusIsTextControl()
      ensures s == InsertAtSelection <==> !FocusIsTextControl() && HasRange()
      ensures s == EditContainer <==> !FocusIsTextControl() && !HasRange() && editable.Some?
      ensures s == ShowResult <==> !FocusIsTextControl() && !HasRange() && editable.None?
    {
      if FocusIsTextControl() then EditControl
      else if HasRange() then InsertAtSelection
      else if editable.Some? then EditContainer
      else ShowResult
    }

    /** `insertTextAtCursor`: with no selection or no range, returns false and
        changes nothing.  Otherwise it deletes the first range's contents,
        inserts `text` there and collapses the selection to a single range
        just after it.  `fault` is the error the DOM raises on insertion, if
        any; the contents are then already deleted. */
    method InsertTextAtCursor(text: string, fault: Option<string>) returns (r: Completion)
      requires Valid()
      modifies this
      ensures Valid()
      ensures !old(HasRange()) <==> r == Returned(false)
      ensures !old(HasRange()) ==> unchanged(this)
      ensures old(HasRange()) && fault.Some? ==>
        var g := old(selection.first);
        && r == Threw(fault.value)
        && docText == old(docText[..g.start] + docText[g.end..])
        && selection == Selection(old(selection.rangeCount), Range(g.start, g.start))
      ensures old(HasRange()) && fault.None? ==>
        var g := old(selection.first);
        && r == Returned(true)
        && docText == old(docText[..g.start]) + text + old(docText[g.end..])
        && selection == Selection(1, Range(g.start + |text|, g.start + |text|))
      ensures activeElement == old(activeElement) && editable == old(editable)
      ensures cursor == old(cursor) && events == old(events)
    {
      if !(selection.Selection? && selection.rangeCount > 0) {
        return Returned(false);
      }
      var range := selection.first;
      // range.deleteContents()
      docText := docText[..range.start] + docText[range.end..];
      range := Range(range.start, range.start);
      selection := selection.(first := range);
      if fault.Some? {
        return Threw(fault.value);
      }
      // range.insertNode(document.createTextNode(text))
      docText := docText[..range.start] + text + docText[range.start..];
      // range.setStartAfter / setEndAfter; removeAllRanges; addRange
      var after := range.start + |text|;
      selection := Selection(1, Range(after, after));
      return Returned(true);
    }

    /** What `replaceSelectedText(text, mode)` does to the page, relating
        the state before it (`old`) to the state after it; `ok` is what it
        returns and `fault` the error the page raises on the write, if any. */
    twostate predicate Injected(text: string, mode: Option<string>, fault: Option<string>, ok: bool)
      requires old(Valid())
      reads this
    {
      && (ok <==> old(Chosen()) != ShowResult && fault.None?)
      && cursor == old(cursor)
      && (old(Chosen()) == EditControl ==>
          && docText == old(docText) && selection == old(selection) && editable == old(editable)
          && (fault.None? ==>
                && activeElement == Some(Edited(old(activeElement.value), text, mode))
                && events == old(events) + [InputChanged])
          && (fault.Some? ==>
                && activeElement == old(activeElement)
                && events == old(events) + [Alerted(InjectionErrorPrefix + fault.value)]))
      && (old(Chosen()) == InsertAtSelection ==>
          var g := old(selection.first);
          && activeElement == old(activeElement) && editable == old(editable)
          && (fault.None? ==>
                && docText == old(docText[..g.start]) + text + old(docText[g.end..])
                && selection == Selection(1, Range(g.start + |text|, g.start + |text|))
                && events == old(events))
          && (fault.Some? ==>
                && docText == old(docText[..g.start] + docText[g.end..])
                && selection == Selection(old(selection.rangeCount), Range(g.start, g.start))
                && events == old(events) + [Alerted(InjectionErrorPrefix + fault.value)]))
      && (old(Chosen()) == EditContainer ==>
          var e := old(editable.value);
          && activeElement == old(activeElement) && docText == old(docText) && selection == old(selection)
          && (fault.None? ==>
                && events == old(events)
                && editable == Some(e.(text :=
                     if e.caretOnFocus.Some?
                     then e.text[..e.caretOnFocus.value] + text + e.text[e.caretOnFocus.value..]
                     else e.text + text)))
          && (fault.Some? ==>
                && editable == old(editable)
                && events == old(events) + [Alerted(InjectionErrorPrefix + fault.value)]))
      && (old(Chosen()) == ShowResult ==>
          && activeElement == old(activeElement) && docText == old(docText)
          && selection == old(selection) && editable == old(editable)
          && events == old(events) + [Alerted(ResultPrefix + text)])
    }

    /** `replaceSelectedText`: writes `text` with the first strategy that
        applies and reports whether the page was changed.  `fault` is the
        error the DOM raises on the strategy's write, if any: it is caught,
        alerted, and reported as failure.  The fallback only alerts the text
        and reports failure. */
    method ReplaceSelectedText(text: string, mode: Option<string>, fault: Option<string>) returns (ok: bool)
      requires Valid()
      modifies this
      ensures Valid()
      ensures Injected(text, mode, fault, ok)
    {
      // Inputs and textareas
      if FocusIsTextControl() {
        var c := activeElement.value;
        var start := c.selectionStart.GetOr(0);
        var end := c.selectionEnd.GetOr(start);
        var original := c.value.GetOr("");
        var spliced := SpliceText(original, text, start, end, mode);
        if fault.Some? {
          events := events + [Alerted(InjectionErrorPrefix + fault.value)];
          return false;
        }
        activeElement := Some(c.(value := Some(spliced.value)));
        events := events + [InputChanged];
        if c.selectionStart.Some? {
          var pos := Min(spliced.caret, |spliced.value|);
          activeElement := Some(activeElement.value.(selectionStart := Some(pos), selectionEnd := Some(pos)));
        }
        return true;
      }
      // A selection with a range anywhere in the document
      var inserted := InsertTextAtCursor(text, fault);
      if inserted.Threw? {
        events := events + [Alerted(InjectionErrorPrefix + inserted.message)];
        return false;
      }
      if inserted.value {
        return true;
      }
      // A rich-text container found by its markers
      if editable.Some? {
        var e := editable.value;
        if fault.Some? {
          events := events + [Alerted(InjectionErrorPrefix + fault.value)];
          return false;
        }
        if e.caretOnFocus.Some? {
          var p := e.caretOnFocus.value;
          editable := Some(e.(text := e.text[..p] + text + e.text[p..]));
        } else {
          editable := Some(e.(text := e.text + text));
        }
        return true;
      }
      // Fallback: show the result to the user
      events := events + [Alerted(ResultPrefix + text)];
      return false;
    }

    /** The message listener.  A missing message or a falsy action is
        invalid; `inject`, `alert` and `setCursor` are served; any other
        action is unknown.  `fault` is the error the page raises while the
        action writes to it, if any. */
    method HandleMessage(msg: Option<Envelope>, fault: Option<string>) returns (resp: Response)
      requires Valid()
      modifies this
      ensures Valid()
      ensures msg.None? || !Truthy(msg.value.action) ==>
        resp == Response(false, Some("invalid message")) && unchanged(this)
      ensures msg.Some? && msg.value.action == Some("inject") ==>
        && resp.error.None?
        && Injected(msg.value.text.GetOr("undefined"), msg.value.mode, fault, resp.success)
      ensures msg.Some? && msg.value.action == Some("alert") ==>
        && resp == Response(true, None)
        && events == old(events) + [Alerted(msg.value.message.GetOr("undefined"))]
        && activeElement == old(activeElement) && docText == old(docText)
        && selection == old(selection) && editable == old(editable) && cursor == old(cursor)
      ensures msg.Some? && msg.value.action == Some("setCursor") ==>
        && activeElement == old(activeElement) && docText == old(docText)
        && selection == old(selection) && editable == old(editable) && events == old(events)
        && (fault.None? ==>
              && resp == Response(true, None)
              && cursor == (if Truthy(msg.value.cursor) then msg.value.cursor.value else "default"))
        && (fault.Some? ==> resp == Response(false, fault) && cursor == old(cursor))
      ensures msg.Some? && Truthy(msg.value.action) &&
              msg.value.action.value !in {"inject", "alert", "setCursor"} ==>
        resp == Response(false, Some("unknown action")) && unchanged(this)
    {
      if msg.None? || !Truthy(msg.value.action) {
        return Response(false, Some("invalid message"));
      }
      var m := msg.value;
      if m.action == Some("inject") {
        var ok := ReplaceSelectedText(m.text.GetOr("undefined"), m.mode, fault);
        return Response(ok, None);
      }
      if m.action == Some("alert") {
        events := events + [Alerted(m.message.GetOr("undefined"))];
        return Response(true, None);
      }
      if m.action == Some("setCursor") {
        if fault.Some? {
          return Response(false, fault);
        }
        cursor := if Truthy(m.cursor) then m.cursor.value else "default";
        return Response(true, None);
      }
      return Response(false, Some("unknown action"));
    }
  }
}
