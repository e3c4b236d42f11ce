/** Input values passed to handlers (MouseHandlers.kt, Modifiers.kt). */
module Input {
  /** The two mouse buttons the manager reports. */
  datatype MouseButton = Left | Right

  /** Keyboard modifiers (`Modifiers`). */
  datatype Modifier = Shift | Control | Alt | Meta
}
