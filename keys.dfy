/** The part of crossterm's `KeyEvent` that the key handlers look at. */
module Keys {
  datatype KeyEventKind = Press | Repeat | Release

  datatype Modifier = Shift | Control | Alt | Super | Hyper | Meta

  datatype KeyCode = Char(c: char) | Enter | Esc | Left | Right | Up | Down | Backspace | Tab | Other

  datatype KeyEvent = KeyEvent(code: KeyCode, modifiers: set<Modifier>, kind: KeyEventKind)

  /** `KeyModifiers::contains(CONTROL)`: Control held, whatever else is held too. */
  predicate HasControl(key: KeyEvent) {
    Control in key.modifiers
  }
}
