/**
 * The settings record the extension keeps in `chrome.storage.local`
 * (keys `geminiApiKey`, `selectedModel`, `customPresets`), the built-in
 * presets and model, and the lookup of a preset by id.  Both the service
 * worker (background.js) and the side panel (sidepanel.js) read it.
 */
module Settings {
  import opened Wrappers
  import opened JsText

  /** A rewrite preset: a menu entry whose prompt is prefixed to the selection. */
  datatype Preset = Preset(id: string, title: string, prompt: string)

  /** The stored record; `None` is a key absent from storage. */
  datatype Stored = Stored(
    geminiApiKey: Option<string>,
    selectedModel: Option<string>,
    customPresets: Option<seq<Preset>>)

  /** The three presets used while none are stored (background.js:4-8,
      sidepanel.js:14-18 hold the same list). */
  function DefaultPresets(): seq<Preset> {
    [ Preset("p1", "\U{1F454} Professional", "Rewrite this to be professional and clear."),
      Preset("p2", "\U{2702}\U{FE0F} Shorten", "Concise and punchy. Remove fluff."),
      Preset("p3", "\U{1F914} Explain", "Explain this concept simply.") ]
  }

  const DefaultModel := "gemini-2.5-flash"

  /** `customPresets || defaultPresets`: a stored list is used even when it is
      empty, because an array is never falsy. */
  function PresetsOf(stored: Option<seq<Preset>>): (r: seq<Preset>)
    ensures stored.None? ==> |r| == 3 && r[0].id == "p1" && r[1].id == "p2" && r[2].id == "p3"
    ensures stored.Some? ==> r == stored.value
  {
    stored.GetOr(DefaultPresets())
  }

  /** `selectedModel || 'gemini-2.5-flash'`: an empty name also falls back. */
  function ModelOf(s: Stored): (r: string)
    ensures r != ""
    ensures s.selectedModel.Some? && s.selectedModel.value != "" ==> r == s.selectedModel.value
    ensures s.selectedModel.None? || s.selectedModel == Some("") ==> r == DefaultModel
    ensures r != DefaultModel ==> s.selectedModel == Some(r)
  {
    if Truthy(s.selectedModel) then s.selectedModel.value else DefaultModel
  }

  /** `!geminiApiKey` is false: the key is stored and non-empty. */
  predicate HasApiKey(s: Stored) {
    Truthy(s.geminiApiKey)
  }

  /** `presets.find(p => p.id === id)`, as the index of the match: the first
      preset whose id equals `id`, or nothing when no preset has it. */
  function FindPreset(presets: seq<Preset>, id: string): (r: Option<nat>)
    ensures r.Some? ==> r.value < |presets| && presets[r.value].id == id
    ensures r.Some? ==> forall j :: 0 <= j < r.value ==> presets[j].id != id
    ensures r.None? <==> forall j :: 0 <= j < |presets| ==> presets[j].id != id
  {
    if presets == [] then None
    else if presets[0].id == id then Some(0)
    else match FindPreset(presets[1..], id)
      case None => None
      case Some(k) => Some(k + 1)
  }
}
