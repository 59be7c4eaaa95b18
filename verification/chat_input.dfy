/** The message box under the conversation: keyboard shortcut and send button. */
module ChatInput {
  import Strings

  datatype KeyEvent = KeyEvent(key: string, shiftKey: bool)

  /** Whether the key press is kept from inserting its character, and whether it sends. */
  datatype KeyOutcome = KeyOutcome(preventDefault: bool, send: bool)

  /** Enter alone sends instead of starting a new line; Shift+Enter and all other keys type as usual. */
  function HandleKeyDown(e: KeyEvent): (o: KeyOutcome)
    ensures o.send <==> e.key == "Enter" && !e.shiftKey
    ensures o.preventDefault == o.send
  {
    if e.key == "Enter" && !e.shiftKey then KeyOutcome(true, true) else KeyOutcome(false, false)
  }

  /** The send button is enabled when the text has a non-blank character. */
  function SendEnabled(value: string): (b: bool)
    ensures b <==> !Strings.AllWhitespace(value)
    ensures b <==> exists i :: 0 <= i < |value| && !Strings.IsWhitespace(value[i])
  {
    Strings.Trim(value) != ""
  }
}
