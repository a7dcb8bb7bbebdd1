/**
 * The messages the service worker sends to the content script of one frame,
 * and the response the content script returns.  An envelope is the plain
 * object the source passes around; a field it does not set is `None`.
 */
module Protocol {
  import opened Wrappers

  /** The menu id of the continue entry; it also travels as the `mode` of
      `inject`, where it selects appending after the selection. */
  const ContinueId := "continue_text"

  datatype Envelope = Envelope(
    action: Option<string>,
    text: Option<string>,
    mode: Option<string>,
    message: Option<string>,
    cursor: Option<string>)

  /** `{ success, error? }` as passed to `sendResponse`. */
  datatype Response = Response(success: bool, error: Option<string>)

  /** `{ action: 'alert', message }` */
  function AlertMessage(message: string): Envelope {
    Envelope(Some("alert"), None, None, Some(message), None)
  }

  /** `{ action: 'setCursor', cursor }` */
  function CursorMessage(cursor: string): Envelope {
    Envelope(Some("setCursor"), None, None, None, Some(cursor))
  }

  /** `{ action: 'inject', text, mode }` */
  function InjectMessage(text: string, mode: string): Envelope {
    Envelope(Some("inject"), Some(text), Some(mode), None, None)
  }
}
