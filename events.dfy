/**
 * The host events the render loop of src/main.rs reacts to, abstracted from
 * Piston's event type. A Piston event is of exactly one kind, so at most one of
 * press_args, release_args, mouse_cursor_args, update_args and render_args
 * yields a value for it; the sum type below captures that.
 */
module Events {

  /** Keyboard keys: only Space has an effect in the loop. */
  datatype Key = Space | OtherKey(code: nat)

  /** Piston's mouse buttons. */
  datatype MouseButton = Unknown | Left | Right | Middle | X1 | X2 | Button6 | Button7 | Button8

  /** A pressed or released button is either a key or a mouse button. */
  datatype Button = Keyboard(key: Key) | Mouse(mouse: MouseButton)

  /**
   * One event. `Cursor` carries the reported cursor coordinates, `Update` the
   * elapsed time `dt`, and `Render` the window size in pixels read by `e.size()` together
   * with the value the FPS counter returns on that render (an opaque input).
   */
  datatype Event =
    | Press(button: Button)
    | Release(button: Button)
    | Cursor(x: real, y: real)
    | Update(dt: real)
    | Render(width: nat, height: nat, fps: nat)
    | Other
}
