/**
 * The side panel (sidepanel.js): the settings form that stores the API key,
 * the model and the preset list, and the chat that sends a prompt to the
 * generation API and renders the reply with light formatting.
 *
 * Storage is the `stored` record; the DOM is reduced to the values of the
 * form fields, the rendered preset rows and the chat messages.  The HTTP
 * exchange is an input: a `ChatResult`.
 */
module SidePanel {
  import opened Wrappers
  import opened JsText
  import opened Settings

  // ---------------------------------------------------------------------
  // Preset list operations

  /** `presets.filter(p => p.id !== id)` */
  function Removed(presets: seq<Preset>, id: string): (r: seq<Preset>)
    ensures |r| <= |presets|
    ensures forall p :: p in r <==> p in presets && p.id != id
  {
    if presets == [] then []
    else if presets[0].id == id then Removed(presets[1..], id)
    else [presets[0]] + Removed(presets[1..], id)
  }

  /** Filtering a concatenation filters each part, keeping their order. */
  lemma {:induction false} RemovedAppend(a: seq<Preset>, b: seq<Preset>, id: string)
    ensures Removed(a + b, id) == Removed(a, id) + Removed(b, id)
  {
    if a != [] {
      assert (a + b)[0] == a[0];
      assert (a + b)[1..] == a[1..] + b;
      RemovedAppend(a[1..], b, id);
    } else {
      assert a + b == b;
    }
  }

  /** Deleting an id no preset carries gives the list back unchanged. */
  lemma {:induction false} RemovedAbsent(presets: seq<Preset>, id: string)
    requires forall j :: 0 <= j < |presets| ==> presets[j].id != id
    ensures Removed(presets, id) == presets
  {
    if presets != [] {
      RemovedAbsent(presets[1..], id);
    }
  }

  /** Deleting twice is deleting once. */
  lemma RemovedIdempotent(presets: seq<Preset>, id: string)
    ensures Removed(Removed(presets, id), id) == Removed(presets, id)
  {
  }

  /** Deleting a preset just added under an id the list did not use restores
      the list. */
  lemma {:induction false} AddThenDelete(base: seq<Preset>, p: Preset)
    requires forall j :: 0 <= j < |base| ==> base[j].id != p.id
    ensures Removed(base + [p], p.id) == base
  {
    RemovedAppend(base, [p], p.id);
    RemovedAbsent(base, p.id);
  }

  // ---------------------------------------------------------------------
  // Reply formatting: `replace(/\*\*(.*?)\*\*/g, '<b>$1</b>')`, then
  // `replace(/\n/g, '<br>')`

  /** `**` at offset `k` of `s`. */
  predicate StarsAt(s: string, k: nat) {
    k + 2 <= |s| && s[k] == '*' && s[k + 1] == '*'
  }

  /** No line terminator in `s[j..k]`: the regex `.` matches all of it. */
  predicate SameLine(s: string, j: nat, k: nat)
    requires k <= |s|
  {
    forall t :: j <= t < k ==> !IsLineTerminator(s[t])
  }

  /** Where the lazy group that starts at `j` closes: the first `**` at or
      after `j` that the group can reach without crossing a line terminator. */
  function CloseFrom(s: string, j: nat): (r: Option<nat>)
    decreases |s| - j
    ensures r.Some? ==> && j <= r.value && StarsAt(s, r.value) && SameLine(s, j, r.value)
                        && forall k :: j <= k < r.value ==> !StarsAt(s, k)
    ensures r.None? ==> forall k :: j <= k && StarsAt(s, k) ==> !SameLine(s, j, k)
  {
    if j + 2 > |s| then None
    else if StarsAt(s, j) then Some(j)
    else if IsLineTerminator(s[j]) then None
    else CloseFrom(s, j + 1)
  }

  /** The global bold replacement: at each offset, a `**` whose group closes
      on the same line becomes `<b>group</b>` and scanning resumes after the
      closing `**`; otherwise the character is kept. */
  function BoldToHtml(s: string): (r: string)
    decreases |s|
  {
    if s == [] then []
    else if StarsAt(s, 0) && CloseFrom(s, 2).Some? then
      var k := CloseFrom(s, 2).value;
      "<b>" + s[2..k] + "</b>" + BoldToHtml(s[k + 2..])
    else
      [s[0]] + BoldToHtml(s[1..])
  }

  /** Text without a star passes through the bold replacement unchanged. */
  lemma {:induction false} BoldPlainPrefix(x: string, t: string)
    requires '*' !in x
    ensures BoldToHtml(x + t) == x + BoldToHtml(t)
  {
    if x != [] {
      assert (x + t)[0] == x[0];
      assert x[0] != '*' by { assert x[0] in x; }
      assert '*' !in x[1..] by {
        forall i | 0 <= i < |x| - 1 ensures x[1..][i] != '*' { assert x[1..][i] == x[i + 1]; assert x[i + 1] in x; }
      }
      assert !StarsAt(x + t, 0);
      assert (x + t)[1..] == x[1..] + t;
      BoldPlainPrefix(x[1..], t);
    } else {
      assert x + t == t;
    }
  }

  /** A star-free group on one line is emboldened, non-greedily: the first
      closing `**` ends it and the rest is formatted on its own. */
  lemma BoldPair(x: string, rest: string)
    requires '*' !in x
    requires forall i :: 0 <= i < |x| ==> !IsLineTerminator(x[i])
    ensures BoldToHtml("**" + x + "**" + rest) == "<b>" + x + "</b>" + BoldToHtml(rest)
  {
    var s := "**" + x + "**" + rest;
    var c := CloseFrom(s, 2);
    forall k | 2 <= k < 2 + |x| ensures !StarsAt(s, k) {
      assert s[k] == x[k - 2];
    }
    assert StarsAt(s, 2 + |x|);
    assert SameLine(s, 2, 2 + |x|) by {
      forall t | 2 <= t < 2 + |x| ensures !IsLineTerminator(s[t]) {
        assert s[t] == x[t - 2];
      }
    }
    assert c == Some(2 + |x|);
    assert s[2..2 + |x|] == x;
    assert s[2 + |x| + 2..] == rest;
  }

  /** A group that would have to cross the line terminator at offset `i`
      of `x` never closes. */
  lemma NoCloseAcrossLines(x: string, i: nat)
    requires '*' !in x
    requires i < |x| && IsLineTerminator(x[i])
    ensures CloseFrom("**" + x + "**", 2).None?
  {
    var s := "**" + x + "**";
    forall k | 2 <= k < 2 + |x| ensures !StarsAt(s, k) {
      assert s[k] == x[k - 2];
      assert x[k - 2] in x;
    }
    assert s[2 + i] == x[i];
    assert !SameLine(s, 2, 2 + |x|);
  }

  /** Where no group opens at the front, the first character is kept. */
  lemma BoldKeepsFirst(s: string)
    requires s != [] && !(StarsAt(s, 0) && CloseFrom(s, 2).Some?)
    ensures BoldToHtml(s) == [s[0]] + BoldToHtml(s[1..])
  {
  }

  /** A pair of `**` with a line break at offset `i` between them is left
      as it is. */
  lemma BoldNotAcrossLines(x: string, i: nat)
    requires '*' !in x
    requires i < |x| && IsLineTerminator(x[i])
    ensures BoldToHtml("**" + x + "**") == "**" + x + "**"
  {
    var s := "**" + x + "**";
    NoCloseAcrossLines(x, i);
    BoldKeepsFirst(s);
    assert s[1..] == "*" + x + "**";
    BoldLoneStar(x);
  }

  /** A lone star, star-free text and a closing pair open no group. */
  lemma BoldLoneStar(x: string)
    requires '*' !in x && x != []
    ensures BoldToHtml("*" + x + "**") == "*" + x + "**"
  {
    var s := "*" + x + "**";
    assert x[0] != '*' by { assert x[0] in x; }
    assert s[1] == x[0];
    BoldKeepsFirst(s);
    assert s[1..] == x + "**";
    BoldPlainPrefix(x, "**");
    BoldStarsAlone();
  }

  /** A closing pair with nothing after it is kept as it is. */
  lemma BoldStarsAlone()
    ensures BoldToHtml("**") == "**"
  {
    assert "**"[1..] == "*";
    BoldKeepsFirst("**");
    BoldKeepsFirst("*");
  }

  /** `replace(/\n/g, '<br>')` */
  function NewlinesToBr(s: string): (r: string)
    ensures forall i :: 0 <= i < |r| ==> r[i] != '\n'
  {
    if s == [] then []
    else (if s[0] == '\n' then "<br>" else [s[0]]) + NewlinesToBr(s[1..])
  }

  /** The newline replacement works piece by piece. */
  lemma {:induction false} NewlinesToBrAppend(a: string, b: string)
    ensures NewlinesToBr(a + b) == NewlinesToBr(a) + NewlinesToBr(b)
  {
    if a != [] {
      assert (a + b)[0] == a[0];
      assert (a + b)[1..] == a[1..] + b;
      NewlinesToBrAppend(a[1..], b);
    } else {
      assert a + b == b;
    }
  }

  /** A newline between two pieces becomes `<br>`, and each piece is
      formatted on its own. */
  lemma {:induction false} NewlineBecomesBr(a: string, b: string)
    ensures NewlinesToBr(a + "\n" + b) == NewlinesToBr(a) + "<br>" + NewlinesToBr(b)
  {
    assert a + "\n" + b == a + ("\n" + b);
    NewlinesToBrAppend(a, "\n" + b);
    assert ("\n" + b)[0] == '\n';
    assert ("\n" + b)[1..] == b;
    assert NewlinesToBr("\n" + b) == "<br>" + NewlinesToBr(b);
  }

  /** Text without a newline is left as it is. */
  lemma {:induction false} NewlinesToBrPlain(s: string)
    requires '\n' !in s
    ensures NewlinesToBr(s) == s
  {
    if s != [] {
      assert '\n' !in s[1..] by {
        forall i | 0 <= i < |s| - 1 ensures s[1..][i] != '\n' { assert s[1..][i] == s[i + 1]; }
      }
      NewlinesToBrPlain(s[1..]);
    }
  }

  function CountNewlines(s: string): nat {
    if s == [] then 0 else (if s[0] == '\n' then 1 else 0) + CountNewlines(s[1..])
  }

  /** Each newline grows by the three extra characters of `<br>`. */
  lemma {:induction false} NewlinesToBrLength(s: string)
    ensures |NewlinesToBr(s)| == |s| + 3 * CountNewlines(s)
  {
    if s != [] {
      NewlinesToBrLength(s[1..]);
    }
  }

  /** The reply formatting: bold first, then line breaks.  The result holds
      no newline. */
  function FormatReply(s: string): (r: string)
    ensures forall i :: 0 <= i < |r| ==> r[i] != '\n'
  {
    NewlinesToBr(BoldToHtml(s))
  }

  /** A bold group in a reply becomes `<b>…</b>` and the rest is formatted
      on its own. */
  lemma FormatBoldPair(x: string, rest: string)
    requires '*' !in x
    requires forall i :: 0 <= i < |x| ==> !IsLineTerminator(x[i])
    ensures FormatReply("**" + x + "**" + rest) == "<b>" + x + "</b>" + FormatReply(rest)
  {
    BoldPair(x, rest);
    NewlinesToBrAppend("<b>" + x + "</b>", BoldToHtml(rest));
    assert '\n' !in "<b>" + x + "</b>" by {
      forall i | 0 <= i < |x| ensures x[i] != '\n' { assert !IsLineTerminator(x[i]); }
    }
    NewlinesToBrPlain("<b>" + x + "</b>");
  }

  // ---------------------------------------------------------------------
  // The panel

  datatype Role = User | Ai

  /** A chat bubble's content, set through `innerHTML` or `innerText`. */
  datatype Body = Html(html: string) | PlainText(text: string)

  datatype ChatMessage = ChatMessage(role: Role, body: Body)

  /** The request the chat sends: model, key and prompt. */
  datatype ChatRequest = ChatRequest(model: string, apiKey: string, prompt: string)

  /** The outcome of the chat's request: the text at
      `candidates[0].content.parts[0].text`, or the message of the error that
      reaches the `catch` (a network or parse error, the API's own
      `error.message`, or a reply without that path). */
  datatype ChatResult = Answer(text: string) | Failure(message: string)

  /** One rendered preset row: its title and the id its delete button removes. */
  datatype PresetRow = PresetRow(title: string, id: string)

  const MissingKeyError := "Error: Please set API Key in settings."
  const Thinking := "Thinking..."

  function RowsOf(presets: seq<Preset>): (rows: seq<PresetRow>)
    ensures |rows| == |presets|
    ensures forall i :: 0 <= i < |presets| ==> rows[i] == PresetRow(presets[i].title, presets[i].id)
  {
    seq(|presets|, i requires 0 <= i < |presets| => PresetRow(presets[i].title, presets[i].id))
  }

  class Panel {
    var stored: Stored
    var apiKeyField: string
    var modelField: string
    var titleField: string
    var promptField: string
    var chatInput: string
    var presetRows: seq<PresetRow>
    var chat: seq<ChatMessage>
    var requests: seq<ChatRequest>

    /** `loadSettings`: fills the key and model fields from truthy stored
        values (leaving them as they were otherwise) and renders one row per
        preset, stored or built-in. */
    method LoadSettings()
      modifies this
      ensures apiKeyField == if HasApiKey(stored) then stored.geminiApiKey.value else old(apiKeyField)
      ensures modelField == if Truthy(stored.selectedModel) then stored.selectedModel.value else old(modelField)
      ensures presetRows == RowsOf(PresetsOf(stored.customPresets))
      ensures stored == old(stored) && titleField == old(titleField) && promptField == old(promptField)
      ensures chatInput == old(chatInput) && chat == old(chat) && requests == old(requests)
    {
      if HasApiKey(stored) {
        apiKeyField := stored.geminiApiKey.value;
      }
      if Truthy(stored.selectedModel) {
        modelField := stored.selectedModel.value;
      }
      var presets := PresetsOf(stored.customPresets);
      var rows := [];
      for i := 0 to |presets|
        invariant rows == RowsOf(presets[..i])
      {
        assert presets[..i + 1] == presets[..i] + [presets[i]];
        rows := rows + [PresetRow(presets[i].title, presets[i].id)];
      }
      assert presets[..|presets|] == presets;
      presetRows := rows;
    }

    /** Saving the key stores the trimmed field. */
    method SaveApiKey()
      modifies this
      ensures stored == old(stored).(geminiApiKey := Some(Trim(apiKeyField)))
      ensures apiKeyField == old(apiKeyField) && modelField == old(modelField)
      ensures titleField == old(titleField) && promptField == old(promptField) && chatInput == old(chatInput)
      ensures presetRows == old(presetRows) && chat == old(chat) && requests == old(requests)
    {
      stored := stored.(geminiApiKey := Some(Trim(apiKeyField)));
    }

    /** Saving the model stores the selector's value as it is. */
    method SaveModel()
      modifies this
      ensures stored == old(stored).(selectedModel := Some(modelField))
      ensures apiKeyField == old(apiKeyField) && modelField == old(modelField)
      ensures titleField == old(titleField) && promptField == old(promptField) && chatInput == old(chatInput)
      ensures presetRows == old(presetRows) && chat == old(chat) && requests == old(requests)
    {
      stored := stored.(selectedModel := Some(modelField));
    }

    /** Adding a preset: with a blank title or prompt nothing happens.
        Otherwise `{id, title, prompt}` with the trimmed title and prompt is
        appended to the stored list (the built-in list when none is stored),
        the form is cleared and the settings are rendered again.  `newId` is
        the `p_<timestamp>` id the source makes. */
    method AddPreset(newId: string)
      modifies this
      ensures Trim(old(titleField)) == [] || Trim(old(promptField)) == [] ==> unchanged(this)
      ensures Trim(old(titleField)) != [] && Trim(old(promptField)) != [] ==>
        && stored == old(stored).(customPresets := Some(PresetsOf(old(stored.customPresets))
                                    + [Preset(newId, Trim(old(titleField)), Trim(old(promptField)))]))
        && titleField == "" && promptField == ""
        && presetRows == RowsOf(PresetsOf(stored.customPresets))
        && presetRows[|presetRows| - 1] == PresetRow(Trim(old(titleField)), newId)
        && apiKeyField == (if HasApiKey(stored) then stored.geminiApiKey.value else old(apiKeyField))
        && modelField == (if Truthy(stored.selectedModel) then stored.selectedModel.value else old(modelField))
        && chatInput == old(chatInput) && chat == old(chat) && requests == old(requests)
    {
      var title := Trim(titleField);
      var prompt := Trim(promptField);
      if title == [] || prompt == [] {
        return;
      }
      var current := PresetsOf(stored.customPresets);
      var updated := current + [Preset(newId, title, prompt)];
      stored := stored.(customPresets := Some(updated));
      titleField, promptField := "", "";
      LoadSettings();
    }

    /** `deletePreset`: stores the list (stored or built-in) without every
        preset carrying `id`, and renders the settings again. */
    method DeletePreset(id: string)
      modifies this
      ensures stored == old(stored).(customPresets := Some(Removed(PresetsOf(old(stored.customPresets)), id)))
      ensures presetRows == RowsOf(PresetsOf(stored.customPresets))
      ensures forall row :: row in presetRows ==> row.id != id
      ensures apiKeyField == if HasApiKey(stored) then stored.geminiApiKey.value else old(apiKeyField)
      ensures modelField == if Truthy(stored.selectedModel) then stored.selectedModel.value else old(modelField)
      ensures titleField == old(titleField) && promptField == old(promptField)
      ensures chatInput == old(chatInput) && chat == old(chat) && requests == old(requests)
    {
      var current := PresetsOf(stored.customPresets);
      var updated := Removed(current, id);
      stored := stored.(customPresets := Some(updated));
      LoadSettings();
    }

    /** `sendMessage`: a blank prompt does nothing.  Otherwise the trimmed
        prompt is shown as the user's message, the input is cleared and a
        "Thinking..." reply is shown; without an API key that reply becomes
        the settings error and no request is sent; with one, the request
        goes out with the stored model (or the default) and the reply
        becomes the formatted answer or `Error: <message>`. */
    method SendMessage(result: ChatResult)
      modifies this
      ensures Trim(old(chatInput)) == [] ==> unchanged(this)
      ensures Trim(old(chatInput)) != [] ==>
        var text := Trim(old(chatInput));
        && chatInput == ""
        && stored == old(stored) && presetRows == old(presetRows)
        && apiKeyField == old(apiKeyField) && modelField == old(modelField)
        && titleField == old(titleField) && promptField == old(promptField)
        && (!HasApiKey(stored) ==>
              && requests == old(requests)
              && chat == old(chat) + [ChatMessage(User, Html(text)), ChatMessage(Ai, PlainText(MissingKeyError))])
        && (HasApiKey(stored) ==>
              && requests == old(requests) + [ChatRequest(ModelOf(stored), stored.geminiApiKey.value, text)]
              && chat == old(chat) + [ChatMessage(User, Html(text)),
                                     match result
                                     case Answer(a) => ChatMessage(Ai, Html(FormatReply(a)))
                                     case Failure(m) => ChatMessage(Ai, PlainText("Error: " + m))])
    {
      var text := Trim(chatInput);
      if text == [] {
        return;
      }
      chat := chat + [ChatMessage(User, Html(text))];
      chatInput := "";
      chat := chat + [ChatMessage(Ai, Html(Thinking))];
      var loading := |chat| - 1;
      if !HasApiKey(stored) {
        chat := chat[loading := ChatMessage(Ai, PlainText(MissingKeyError))];
        return;
      }
      var model := ModelOf(stored);
      requests := requests + [ChatRequest(model, stored.geminiApiKey.value, text)];
      match result {
        case Answer(a) =>
          chat := chat[loading := ChatMessage(Ai, Html(FormatReply(a)))];
        case Failure(m) =>
          chat := chat[loading := ChatMessage(Ai, PlainText("Error: " + m))];
      }
    }
  }
}
