/** The terminal events the event loop of src/main.rs inspects: the part of
    crossterm's `Event`, `KeyEvent`, `KeyEventKind` and `KeyCode` it matches on. */
module Events {

  /** The phase of one key interaction. */
  datatype KeyEventKind = Press | Repeat | Release

  /** A printable character, one of the four editing keys, or any other key
      (arrows, function keys, ...), which the loop never distinguishes. */
  datatype KeyCode = Char(c: char) | Enter | Backspace | Esc | Tab | OtherKey

  datatype KeyEvent = KeyEvent(kind: KeyEventKind, code: KeyCode)

  /** What `event::read` yields: a key event, or anything else (mouse, resize,
      focus, paste), which the loop skips. */
  datatype Event = Keyboard(key: KeyEvent) | NonKey

  /** A key event of kind `Press` with the given code. */
  function Pressed(code: KeyCode): Event {
    Keyboard(KeyEvent(Press, code))
  }

  /** One `Press` event per character of `cs`, in order. */
  function Typed(cs: string): seq<Event> {
    if cs == [] then [] else [Pressed(Char(cs[0]))] + Typed(cs[1..])
  }

  /** `n` presses of Backspace. */
  function Backspaces(n: nat): seq<Event> {
    if n == 0 then [] else [Pressed(Backspace)] + Backspaces(n - 1)
  }
}
