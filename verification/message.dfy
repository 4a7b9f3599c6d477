/** ANSI-decorated messages (docsearch.rb:8-35), as the literal strings they build. */
module Message {

  const Esc: string := "\U{1B}"

  const Red: string := "31;1m"
  const Blue: string := "34;1m"
  const Yellow: string := "33;1m"

  /** `Message.custom`: `state` in `color`, a colour reset, a space, then `message`. */
  function Custom(state: string, message: string, color: string): (r: string)
    ensures |r| == |color| + |state| + |message| + 7
    ensures Esc + "[" + color + state <= r
    ensures r[|r| - |message| - 5..|r| - |message|] == Esc + "[0m "
    ensures r[|r| - |message|..] == message
  {
    Esc + "[" + color + state + Esc + "[0m " + message
  }

  /** `Message.info`. */
  function Info(message: string): string
  {
    Custom("[*]", message, Blue)
  }

  /** `Message.matched`: `message` in `color`, then a colour reset. */
  function Matched(message: string, color: string): string
  {
    Esc + "[" + color + message + Esc + "[0m"
  }
}
