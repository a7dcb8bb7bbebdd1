# Gemini text-rewrite extension: a verified model of its core

This is a model of the browser extension's core logic. The user selects text on a page and picks an entry from the context menu. The service worker (`background.js`) turns that choice into a prompt. It calls the generation API once and sends the resulting text, or an alert, to the frame the click came from. The content script in that frame (`content.js`) writes the text back into the page. It tries four strategies in a fixed priority order: a focused input or textarea, then the document selection, then a rich-text container, and as a fallback an alert showing the text. The side panel (`sidepanel.js`) manages the preset list and the stored key and model. It also runs a small chat whose replies get bold and line-break formatting.

Modules, one per source file, plus shared pieces:

- `Wrappers` (wrappers.dfy): `Option`, used for every `undefined`/`null` the source handles.
- `JsText` (jstext.dfy): the JavaScript string built-ins the source relies on. These are `trim` (with ECMAScript's exact white-space and line-terminator set), `slice` with clamping, and decimal rendering of a status code.
- `Settings` (settings.dfy): the stored record (`geminiApiKey`, `selectedModel`, `customPresets`), the three built-in presets, the default model `gemini-2.5-flash`, and the first-match preset lookup.
- `Protocol` (protocol.dfy): the message envelope `{action, text, mode, message, cursor}` and the `{success, error}` response.
- `Content` (content.dfy): the splice arithmetic as a pure function. A `Page` class holds the page state that the injection strategies and the message listener update in place.
- `Background` (background.dfy): prompt resolution, text extraction, the menu-building loop and the click handler. The handler is a method that returns the API call it makes and the ordered list of messages it sends.
- `SidePanel` (sidepanel.dfy): the pure list operations and the reply formatting. A `Panel` class holds the stored record and the form and chat state that the panel's handlers update.

Inputs stand in for the outside world:

- The outcome of the HTTP exchange is an `ApiResult` in the worker and a `ChatResult` in the panel.
- Whether delivering `inject` to the originating frame succeeded is a boolean.
- An error the DOM raises while a strategy writes to the page is a `fault` argument.
- The timestamp-based id of a new preset is a parameter.

The model follows the code as written, including these easily misread behaviours:

- When a form control reports no selection offsets, the start defaults to 0 and the end defaults to the start (content.js:32-33). The text is therefore inserted at the beginning of the value.
- The fallback resend of `inject` goes to the tab without a frame id (background.js:136); no frame is named in it.
- The resend is issued from the delivery callback, so it comes after the `finally` block's cursor reset. The model's send list keeps that order.
- A present but blank candidate text does not fall back to `response.output`, because `??` only skips missing values (background.js:117-118).
- A stored empty preset list is used as it is, because arrays are truthy (background.js:95, sidepanel.js:46, 87).
- Tab id 0 is rejected like a missing tab (background.js:79).
- Nothing makes preset ids unique, or keeps them apart from `continue_text`. The model proves what happens under each kind of clash instead of assuming there are none.

## Model

| member | source | states |
|---|---|---|
| `JsText.Leading` | background.js:82 | the number of leading characters `trim` drops: all white space, followed by a non-space or the end |
| `JsText.Trailing` | background.js:120 | the number of trailing characters `trim` drops: all white space, preceded by a non-space or the start |
| `JsText.Trim` | sidepanel.js:41-43 | `trim` yields a contiguous slice of its input with no white space at either end, dropping only white space; it is empty exactly when the input is blank |
| `JsText.TrimIdempotent` | sidepanel.js:94 | trimming an already trimmed string changes nothing |
| `JsText.Slice` | content.js:38-39 | `slice` with in-range offsets is the plain subsequence; crossed or out-of-range offsets give the empty string or the tail |
| `JsText.Decimal` | background.js:70 | the status code is rendered as a non-empty run of digits without a leading zero |
| `JsText.DecimalRoundTrip` | background.js:70 | reading the rendered digits back gives the status code |
| `Settings.PresetsOf` | background.js:95 | with no stored list the three built-in presets `p1`, `p2`, `p3` are used; a stored list, even an empty one, is used as it is |
| `Settings.ModelOf` | background.js:94 | a stored, non-empty model name is used as it is; a missing or empty one gives `gemini-2.5-flash`; the result is never empty |
| `Settings.HasApiKey` | background.js:86 | the key counts as set exactly when it is stored and is not the empty string (`!geminiApiKey` is false) |
| `Settings.FindPreset` | background.js:101 | `find` returns the first preset with the id, and nothing exactly when no preset has it |
| `Content.SpliceText` | content.js:36-44 | rewrite mode gives `orig[..start] + text + orig[end..]` of length `|orig|-(end-start)+|text|`; continue mode gives `orig[..end] + " " + text + orig[end..]` of length `|orig|+1+|text|`; the caret is `start+|text|` or `end+1+|text|`, at most the new length, with the inserted text right before it and the original suffix right after it |
| `Content.Edited` | content.js:41-45 | the control keeps its tag and gets a value; when it reports offsets they collapse to one caret within the new value; when it reports none they stay unreported |
| `Content.EditedControl` | content.js:31-46 | on a control with consistent, reported offsets, the new value keeps the text around the selection and the caret sits just after the inserted text |
| `Content.EditedWithoutOffsets` | content.js:32-45 | a control that reports no offsets gets `text + value` (or `" " + text + value` in continue mode): the text goes in at the start, and the offsets stay unreported |
| `Content.Page.Chosen` | content.js:31-72 | the strategy is the form control exactly when a text control has focus; the selection exactly when none has focus and a range exists; the container when neither applies and a container exists; the alert otherwise |
| `Content.Page.InsertTextAtCursor` | content.js:5-24 | returns false, changing nothing, exactly when there is no selection or no range; otherwise it replaces the first range's contents with the text and collapses the selection to one range right after it; an error on insertion leaves the contents deleted |
| `Content.Page.ReplaceSelectedText` | content.js:26-79 | the form control wins, then the selection, then the rich-text container, then the alert; the result is true exactly when a writing strategy applied and raised no error; a raised error is alerted as `Injection error: …` and nothing else is written; the fallback alerts `Gemini Result:` with the text; every field a strategy does not write, including the selection after a failed insertion, is stated |
| `Content.Page.HandleMessage` | content.js:82-119 | a missing message or falsy action gives `invalid message`; `inject` changes the page exactly as the injection engine does and answers whether it wrote; `alert` alerts and succeeds; `setCursor` sets the cursor, or `default` when none is given, and reports a page error; any other action gives `unknown action` and changes nothing |
| `Background.RefreshMenus` | background.js:19-46 | the menu holds `continue_text`, then `sep1`, then one entry per stored preset (or built-in preset), in list order, with its title |
| `Background.ResolvePrompt` | background.js:97-107 | there is no prompt exactly when the id is not `continue_text` and no preset has it; every prompt ends with the selection, verbatim, followed by a closing quote |
| `Background.ContinueTakesPrecedence` | background.js:98-99 | for every preset list, `continue_text` yields exactly `'Continue the following text naturally. Return ONLY the new text: "' + S + '"'`, even when a preset has that id |
| `Background.PresetPrompt` | background.js:101-104 | the first preset with a given id yields `prompt + ' Return ONLY the rewritten text: "' + S + '"'` |
| `Background.ExtractText` | background.js:116-120 | the result is the trimmed candidate text when one is present, else the trimmed `response.output`, else the empty string; it is empty exactly when the candidate text is present and blank, or absent with the output absent or blank; otherwise it has no white space at either end |
| `Background.CandidateShadowsOutput` | background.js:117-118 | once a candidate text is present, the legacy output has no influence |
| `Background.Generate` | background.js:113-124 | a text results exactly when a reply yields a non-empty extracted text, and it is that extracted text; an unusable reply fails with `Empty response from Gemini API`; an HTTP error fails with `Gemini API error: <status> <body>`; a thrown error keeps its message |
| `Background.Proceeds` | background.js:79-82 | the handler goes on exactly when the tab id is present and non-zero and the selection is present and not all white space |
| `Background.StatusInAlert` | background.js:68-71 | the HTTP status can be read back from the error message |
| `Background.CursorResetAfterWait` | background.js:145-148 | a send list of the handler's shape resets every busy cursor it sets, on the same frame |
| `Background.HandleClick` | background.js:77-149 | a missing or zero tab id, or a blank selection, sends nothing; a missing key sends exactly one alert to the frame, with no API call; an unknown id sends nothing; otherwise the stored or default model is called once, and the sends are: the `wait` cursor, then `inject` on success or the alert `Gemini Error: …` on failure, then the `default` cursor, then one resend without a frame id when delivery failed; every `wait` is followed by a `default` on the same frame |
| `SidePanel.Removed` | sidepanel.js:88 | the filtered list keeps exactly the presets whose id differs, and is no longer than the input |
| `SidePanel.RemovedAppend` | sidepanel.js:88 | deleting from a concatenation deletes from each part, so the surviving presets keep their order |
| `SidePanel.RemovedAbsent` | sidepanel.js:88 | deleting an id no preset carries leaves the list unchanged |
| `SidePanel.RemovedIdempotent` | sidepanel.js:88 | deleting the same id twice is the same as deleting it once |
| `SidePanel.AddThenDelete` | sidepanel.js:47-88 | deleting a preset just appended under an unused id restores the list |
| `SidePanel.BoldKeepsFirst` | sidepanel.js:121 | where no bold group opens at the front (no `**`, or one whose group never closes on its line), the first character is kept and the scan goes on from the next one |
| `SidePanel.BoldToHtml` | sidepanel.js:121 | the global, non-greedy replacement of `**…**` by `<b>…</b>`; it has no contract of its own, and its behaviour is stated by `CloseFrom`, `BoldKeepsFirst`, `BoldPlainPrefix`, `BoldPair` and `BoldNotAcrossLines` |
| `SidePanel.CloseFrom` | sidepanel.js:121 | the lazy group closes at the first `**` it can reach without crossing a line terminator, or nowhere when none is reachable |
| `SidePanel.BoldPlainPrefix` | sidepanel.js:121 | star-free text passes through the bold replacement unchanged |
| `SidePanel.BoldPair` | sidepanel.js:121 | `**x**` with a star-free, single-line `x` becomes `<b>x</b>`, and the rest is formatted on its own (non-greedy, global) |
| `SidePanel.NoCloseAcrossLines` | sidepanel.js:121 | a group that would have to cross a line terminator never closes |
| `SidePanel.BoldNotAcrossLines` | sidepanel.js:121 | a `**` pair with a line break between them is left as it is |
| `SidePanel.NewlinesToBr` | sidepanel.js:122 | the result contains no newline |
| `SidePanel.NewlineBecomesBr` | sidepanel.js:122 | a newline between two pieces becomes `<br>`, and each piece is formatted on its own |
| `SidePanel.NewlinesToBrAppend` | sidepanel.js:122 | the newline replacement works piece by piece over a concatenation |
| `SidePanel.NewlinesToBrPlain` | sidepanel.js:122 | text without a newline is unchanged |
| `SidePanel.NewlinesToBrLength` | sidepanel.js:122 | each newline adds exactly three characters |
| `SidePanel.FormatReply` | sidepanel.js:121-122 | the formatted reply contains no newline |
| `SidePanel.FormatBoldPair` | sidepanel.js:121-122 | a bold group becomes `<b>…</b>` in the final formatting, and the rest is formatted on its own |
| `SidePanel.Panel.LoadSettings` | sidepanel.js:67-83 | the key and model fields are filled only from truthy stored values; the rows are those of the stored or built-in presets |
| `SidePanel.Panel.SaveApiKey` | sidepanel.js:30-32 | the trimmed key field is stored; every form field, the rows and the chat are unchanged |
| `SidePanel.Panel.SaveModel` | sidepanel.js:35-37 | the selected model is stored as it is; every form field, the rows and the chat are unchanged |
| `SidePanel.Panel.AddPreset` | sidepanel.js:40-54 | a blank title or prompt changes nothing; otherwise exactly one preset with the trimmed title and prompt is appended after the stored (or built-in) presets, the form is cleared; the reload re-renders the rows, the last being the new preset's, and refills the key and model fields from truthy stored values |
| `SidePanel.Panel.DeletePreset` | sidepanel.js:85-91 | the stored (or built-in) list is replaced by its filtering by id; the reload re-renders the rows, none of which carries the id, and refills the key and model fields from truthy stored values |
| `SidePanel.Panel.SendMessage` | sidepanel.js:93-129 | a blank prompt does nothing; otherwise the trimmed prompt is shown and the input is cleared, while the stored record, the settings fields and the rows stay unchanged; without a key the reply is the settings error and no request is sent; with one, exactly one request goes out with the stored or default model, and the reply is the formatted answer or `Error: <message>` |

## Left out

- HTTP and JSON: `callGemini` (background.js:56-74) and the panel's `fetch` (sidepanel.js:110-116) are not modelled, including the URL, `encodeURIComponent` and the request body. Their outcome is an input: `ApiResult` records a parsed reply's two text paths, an HTTP status with its body, or a thrown message. `ChatResult` folds every error that reaches the panel's `catch` into one message. That covers network errors, parse errors, the API's `error.message`, and a reply without the candidate path.
- Chrome APIs: storage is a record, read and written atomically. The asynchronous callbacks, and the race between the panel's writes and the worker's reads, are not modelled. Delivery of `inject` to a frame is a boolean input. Failures of the other sends are ignored, as in the source. A context-menu `create` that fails on a duplicate id is not modelled. The content script's `{success, error}` answer is not fed back to the worker.
- Logging (`console.*`) has no observable effect and is left out.
- DOM details: listeners of the dispatched `input` event, the effect of `focus()` beyond where it places the caret, and the selector matching of the rich-text container are outside the model. The container is an input. Rendering of `innerHTML`, scrolling, and HTML escaping of titles are also outside it.
- Content.Page.ReplaceSelectedText: a DOM error is modelled as raised by the write itself, so nothing of that strategy is written. The exception is the selection strategy, where the contents are already deleted when insertion fails. After an insertion into the rich-text container, the selection is not tracked.
- Content.Page.InsertTextAtCursor: only the first range of a selection is modelled. After a failed insertion, the other ranges are not tracked.
- Content.Page.HandleMessage: a message whose `text` is missing is injected as the string `undefined`, which is what the source's string coercions produce. The source's `TypeError` after writing in the form-control branch is not modelled.
- Content.Page.HandleMessage: the outer `catch` (content.js:112-115) is left out. No modelled action raises past the inner handlers.
- Content.Edited: `setSelectionRange` is modelled as failing exactly when the control reports no selection offsets. Other failures of it are not modelled. The new value is the string the source assigns (content.js:41). The browser's value sanitization is not modelled: line breaks stripped from single-line inputs, and number and email inputs rewritten or trimmed. Where it applies, the caret the source computes may land past the inserted text.
- Strings are sequences of Unicode scalar values, not UTF-16 code units. Offsets and lengths therefore differ from the browser's for characters outside the Basic Multilingual Plane, such as the emoji in the built-in titles.
- `toString()` on a non-string value at an extraction path is not modelled: both paths hold strings. Menu item ids are strings, never numbers.
- New preset ids come from `Date.now()` and are a parameter here. The source does not guarantee they are unique, and the model does not claim it.
