/**
 * The service worker (background.js): it builds the context menu, turns a
 * menu click into a prompt, calls the generation API once and sends the
 * result, or an alert, to the frame the click came from.
 *
 * The API call and the delivery of a message are inputs: the outcome of the
 * HTTP exchange is an `ApiResult`, and whether delivering `inject` to the
 * originating frame succeeded is a boolean.  The handler's effect is the
 * ordered list of messages it sends.
 */
module Background {
  import opened Wrappers
  import opened JsText
  import opened Settings
  import opened Protocol

  const SeparatorId := "sep1"
  const ContinueTitle := "\U{1F680} Continue writing..."

  const ContinuePrefix := "Continue the following text naturally. Return ONLY the new text: \""
  const RewriteInfix := " Return ONLY the rewritten text: \""
  const MissingKeyAlert := "\U{26A0}\U{FE0F} Please set your API Key in the Gemini Extension Panel first."
  const EmptyResponse := "Empty response from Gemini API"
  const ApiErrorPrefix := "Gemini API error: "
  const AlertErrorPrefix := "Gemini Error: "

  /** One `chrome.contextMenus.create` call. */
  datatype MenuItem = MenuItem(id: string, title: Option<string>, separator: bool)

  /** `refreshMenus`: the continue entry, the separator, then one entry per
      preset (the stored list, or the built-in one when none is stored), in
      list order. */
  method RefreshMenus(customPresets: Option<seq<Preset>>) returns (items: seq<MenuItem>)
    ensures var presets := PresetsOf(customPresets);
      && |items| == |presets| + 2
      && items[0] == MenuItem(ContinueId, Some(ContinueTitle), false)
      && items[1] == MenuItem(SeparatorId, None, true)
      && forall i :: 0 <= i < |presets| ==>
           items[i + 2] == MenuItem(presets[i].id, Some(presets[i].title), false)
  {
    items := [MenuItem(ContinueId, Some(ContinueTitle), false)];
    items := items + [MenuItem(SeparatorId, None, true)];
    var presets := PresetsOf(customPresets);
    for i := 0 to |presets|
      invariant |items| == i + 2
      invariant items[0] == MenuItem(ContinueId, Some(ContinueTitle), false)
      invariant items[1] == MenuItem(SeparatorId, None, true)
      invariant forall k :: 0 <= k < i ==>
                  items[k + 2] == MenuItem(presets[k].id, Some(presets[k].title), false)
    {
      items := items + [MenuItem(presets[i].id, Some(presets[i].title), false)];
    }
  }

  /** The prompt for a menu item: the continue template for the reserved id,
      checked first; otherwise the first preset with that id, its prompt
      followed by the rewrite instruction; otherwise no prompt.  Either
      prompt ends with the selection, verbatim, inside quotes. */
  function ResolvePrompt(menuItemId: string, selection: string, presets: seq<Preset>): (r: Option<string>)
    ensures r.None? <==> menuItemId != ContinueId && forall j :: 0 <= j < |presets| ==> presets[j].id != menuItemId
    ensures r.Some? ==> |r.value| > |selection| && r.value[|r.value| - |selection| - 1..] == selection + "\""
  {
    if menuItemId == ContinueId then
      Some(ContinuePrefix + selection + "\"")
    else
      match FindPreset(presets, menuItemId)
      case Some(k) => Some(presets[k].prompt + RewriteInfix + selection + "\"")
      case None => None
  }

  /** The reserved id yields the continue prompt whatever the preset list
      holds, even when a preset claims the same id. */
  lemma ContinueTakesPrecedence(selection: string, presets: seq<Preset>)
    ensures ResolvePrompt(ContinueId, selection, presets)
         == Some("Continue the following text naturally. Return ONLY the new text: \"" + selection + "\"")
  {
  }

  /** A preset whose id is not reserved and not shadowed by an earlier preset
      yields its own prompt with the rewrite instruction. */
  lemma PresetPrompt(selection: string, presets: seq<Preset>, k: nat)
    requires k < |presets| && presets[k].id != ContinueId
    requires forall j :: 0 <= j < k ==> presets[j].id != presets[k].id
    ensures ResolvePrompt(presets[k].id, selection, presets)
         == Some(presets[k].prompt + " Return ONLY the rewritten text: \"" + selection + "\"")
  {
  }

  /** The parsed body of a successful response, as far as extraction looks at
      it: the string at `candidates[0].content.parts[0].text` and the one at
      `response.output`, each `None` when absent. */
  datatype ReplyShape = ReplyShape(candidateText: Option<string>, responseOutput: Option<string>)

  /** The outcome of `callGemini`: a parsed body, a non-success status with
      the body text, or an error thrown by `fetch` or by JSON parsing. */
  datatype ApiResult = Replied(data: ReplyShape) | HttpError(status: nat, body: string) | Thrown(message: string)

  /** The text extraction: the candidate text if present, else the legacy
      output if present, else the empty string, trimmed.  A present but blank
      candidate does not fall through to the output. */
  function ExtractText(data: ReplyShape): (r: string)
    ensures r == [] <==>
      if data.candidateText.Some? then IsBlank(data.candidateText.value)
      else data.responseOutput.None? || IsBlank(data.responseOutput.value)
    ensures r != [] ==> !IsSpace(r[0]) && !IsSpace(r[|r| - 1])
    ensures data.candidateText.Some? ==> r == Trim(data.candidateText.value)
    ensures data.candidateText.None? ==> r == Trim(data.responseOutput.GetOr(""))
  {
    Trim(data.candidateText.GetOr(data.responseOutput.GetOr("")))
  }

  /** A candidate text, once present, decides the result alone. */
  lemma CandidateShadowsOutput(candidate: string, output1: Option<string>, output2: Option<string>)
    ensures ExtractText(ReplyShape(Some(candidate), output1)) == ExtractText(ReplyShape(Some(candidate), output2))
  {
  }

  datatype Generated = Generated(text: string) | Failed(message: string)

  /** The `try` block of the click handler up to the injection: a usable text,
      or the message of the error that reaches the `catch`. */
  function Generate(api: ApiResult): (g: Generated)
    ensures g.Generated? <==>
              (api.Replied? && !(
                 if api.data.candidateText.Some? then IsBlank(api.data.candidateText.value)
                 else api.data.responseOutput.None? || IsBlank(api.data.responseOutput.value)))
    ensures g.Generated? ==> g.text == ExtractText(api.data)
    ensures g.Generated? ==> g.text != [] && !IsSpace(g.text[0]) && !IsSpace(g.text[|g.text| - 1])
    ensures api.Replied? && g.Failed? ==> g.message == "Empty response from Gemini API"
    ensures api.HttpError? ==> g == Failed("Gemini API error: " + Decimal(api.status) + " " + api.body)
    ensures api.Thrown? ==> g == Failed(api.message)
  {
    match api
    case Replied(data) =>
      var text := ExtractText(data);
      if text == [] then Failed(EmptyResponse) else Generated(text)
    case HttpError(status, body) => Failed(ApiErrorPrefix + Decimal(status) + " " + body)
    case Thrown(message) => Failed(message)
  }

  /** The status code of a failed call can be read back from the alert. */
  lemma StatusInAlert(status: nat, body: string)
    ensures var m := Generate(HttpError(status, body)).message;
      var d := Decimal(status);
      && |m| >= |ApiErrorPrefix| + |d|
      && DecimalValue(m[|ApiErrorPrefix|..|ApiErrorPrefix| + |d|]) == status
  {
    var m := Generate(HttpError(status, body)).message;
    assert m[|ApiErrorPrefix|..|ApiErrorPrefix| + |Decimal(status)|] == Decimal(status);
    DecimalRoundTrip(status);
  }

  /** What the click carries: the menu item, the selection and the frame. */
  datatype ClickInfo = ClickInfo(menuItemId: string, selectionText: Option<string>, frameId: Option<int>)

  /** Where a message goes: one frame of the tab, or the tab with no frame id. */
  datatype Target = Frame(frameId: int) | WholeTab

  datatype Send = Send(tabId: int, target: Target, message: Envelope)

  /** The request `callGemini` is given. */
  datatype ApiCall = ApiCall(model: string, apiKey: string, prompt: string)

  /** The handler goes past its guards: a truthy tab id and a selection that
      is not blank. */
  predicate Proceeds(info: ClickInfo, tabId: Option<int>)
    ensures Proceeds(info, tabId) <==>
      tabId.Some? && tabId.value != 0 && info.selectionText.Some? && !IsBlank(info.selectionText.value)
  {
    tabId.Some? && tabId.value != 0 && Trim(info.selectionText.GetOr("")) != []
  }

  /** `info.frameId` when defined, else the top frame 0. */
  function FrameOf(info: ClickInfo): int {
    info.frameId.GetOr(0)
  }

  /** Every busy cursor sent is later reset to the default on the same target. */
  predicate CursorAlwaysReset(sends: seq<Send>) {
    forall i :: 0 <= i < |sends| && sends[i].message == CursorMessage("wait") ==>
      exists j :: i < j < |sends| && sends[j] == sends[i].(message := CursorMessage("default"))
  }

  /** A send sequence of the handler's shape, a busy cursor, one message
      that is not a cursor change, the reset, and messages that are not
      cursor changes, resets every busy cursor it sets. */
  lemma CursorResetAfterWait(sends: seq<Send>)
    requires |sends| >= 3
    requires sends[0].message == CursorMessage("wait")
    requires sends[2] == sends[0].(message := CursorMessage("default"))
    requires forall k :: 0 <= k < |sends| && k != 0 && k != 2 ==> sends[k].message.action != Some("setCursor")
    ensures CursorAlwaysReset(sends)
  {
  }

  /** The context-menu click handler.  It returns the API call it makes, if
      any, and every message it sends, in the order it issues them: the
      resend to the tab without a frame id is issued from the delivery
      callback, after the `finally` block has reset the cursor.  A failure of
      that resend is only logged. */
  method HandleClick(info: ClickInfo, tabId: Option<int>, stored: Stored, api: ApiResult, deliveredToFrame: bool)
    returns (call: Option<ApiCall>, sends: seq<Send>)
    ensures !Proceeds(info, tabId) ==> call.None? && sends == []
    ensures Proceeds(info, tabId) && !HasApiKey(stored) ==>
      call.None? && sends == [Send(tabId.value, Frame(FrameOf(info)), AlertMessage(MissingKeyAlert))]
    ensures call.Some? <==>
      Proceeds(info, tabId) && HasApiKey(stored) &&
      ResolvePrompt(info.menuItemId, info.selectionText.GetOr(""), PresetsOf(stored.customPresets)).Some?
    ensures call.None? && !(Proceeds(info, tabId) && !HasApiKey(stored)) ==> sends == []
    ensures call.Some? ==>
      && call.value.model == ModelOf(stored)
      && call.value.apiKey == stored.geminiApiKey.value
      && Some(call.value.prompt) ==
           ResolvePrompt(info.menuItemId, info.selectionText.GetOr(""), PresetsOf(stored.customPresets))
    ensures call.Some? ==>
      var tab, frame := tabId.value, Frame(FrameOf(info));
      var wait, reset := Send(tab, frame, CursorMessage("wait")), Send(tab, frame, CursorMessage("default"));
      match Generate(api)
      case Generated(text) =>
        sends == [wait, Send(tab, frame, InjectMessage(text, info.menuItemId)), reset]
                 + (if deliveredToFrame then [] else [Send(tab, WholeTab, InjectMessage(text, info.menuItemId))])
      case Failed(message) =>
        sends == [wait, Send(tab, frame, AlertMessage("Gemini Error: " + message)), reset]
    ensures CursorAlwaysReset(sends)
  {
    call, sends := None, [];
    if tabId.None? || tabId.value == 0 {
      return;
    }
    var tab := tabId.value;
    var selectionText := info.selectionText.GetOr("");
    if Trim(selectionText) == [] {
      return;
    }
    if !HasApiKey(stored) {
      var frameId := FrameOf(info);
      sends := sends + [Send(tab, Frame(frameId), AlertMessage(MissingKeyAlert))];
      return;
    }
    var model := ModelOf(stored);
    var presets := PresetsOf(stored.customPresets);
    var prompt := ResolvePrompt(info.menuItemId, selectionText, presets);
    if prompt.None? {
      return;
    }
    var frame := Frame(FrameOf(info));
    sends := sends + [Send(tab, frame, CursorMessage("wait"))];
    // The delivery callback runs after the handler has finished.
    var later: seq<Send> := [];
    // try
    call := Some(ApiCall(model, stored.geminiApiKey.value, prompt.value));
    var outcome := Generate(api);
    if outcome.Generated? {
      sends := sends + [Send(tab, frame, InjectMessage(outcome.text, info.menuItemId))];
      if !deliveredToFrame {
        later := [Send(tab, WholeTab, InjectMessage(outcome.text, info.menuItemId))];
      }
    } else {
      // catch
      sends := sends + [Send(tab, frame, AlertMessage(AlertErrorPrefix + outcome.message))];
    }
    // finally
    sends := sends + [Send(tab, frame, CursorMessage("default"))];
    sends := sends + later;
    CursorResetAfterWait(sends);
  }
}
