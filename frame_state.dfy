/**
 * The state the render loop keeps between events, as values: the `UiData`
 * record and the `ShadertoyShaderParams` uniform record, and one step of the
 * loop as a function of the state and the event.
 */
module FrameState {
  import opened Events

  datatype Vec2 = Vec2(x: real, y: real)
  datatype Vec3 = Vec3(x: real, y: real, z: real)
  datatype Vec4 = Vec4(x: real, y: real, z: real, w: real)

  /** `UiData`: frames per second, the play flag, the left-button flag, the cursor. */
  datatype UiState = UiState(fps: nat, play: bool, mouseButtonHeld: bool, mousePosition: Vec2)

  /** `ShadertoyShaderParams`: iGlobalTime, iResolution and iMouse. */
  datatype ShaderUniforms = ShaderUniforms(globalTime: real, resolution: Vec3, mouseState: Vec4)

  datatype Frame = Frame(ui: UiState, params: ShaderUniforms)

  /** The state before the first event. */
  function Initial(): (f: Frame)
    ensures f.ui.play && !f.ui.mouseButtonHeld && f.ui.fps == 0 && f.ui.mousePosition == Vec2(0.0, 0.0)
    ensures f.params.globalTime == 0.0
    ensures f.params.resolution == Vec3(0.0, 0.0, 0.0)
    ensures f.params.mouseState == Vec4(0.0, 0.0, 0.0, 0.0)
  {
    Frame(UiState(0, true, false, Vec2(0.0, 0.0)),
          ShaderUniforms(0.0, Vec3(0.0, 0.0, 0.0), Vec4(0.0, 0.0, 0.0, 0.0)))
  }

  /** iMouse.xy shows the cursor whenever the left button is held. */
  predicate Synced(f: Frame) {
    f.ui.mouseButtonHeld ==>
      f.params.mouseState.x == f.ui.mousePosition.x && f.params.mouseState.y == f.ui.mousePosition.y
  }

  /** Phase 1: a Space press flips `play`; a left press sets the button flag. */
  function Pressed(ui: UiState, e: Event): (r: UiState)
    ensures r.play == (ui.play != (e == Press(Keyboard(Space))))
    ensures r.mouseButtonHeld == (ui.mouseButtonHeld || e == Press(Mouse(Left)))
    ensures r.fps == ui.fps && r.mousePosition == ui.mousePosition
  {
    if e.Press? then
      match e.button
      case Keyboard(key) => if key == Space then ui.(play := !ui.play) else ui
      case Mouse(b) => if b == Left then ui.(mouseButtonHeld := true) else ui
    else ui
  }

  /** Phase 2: a left release clears the button flag; key releases do nothing. */
  function Released(ui: UiState, e: Event): (r: UiState)
    ensures r.mouseButtonHeld == (ui.mouseButtonHeld && e != Release(Mouse(Left)))
    ensures r.fps == ui.fps && r.play == ui.play && r.mousePosition == ui.mousePosition
  {
    if e.Release? then
      match e.button
      case Keyboard(_) => ui
      case Mouse(b) => if b == Left then ui.(mouseButtonHeld := false) else ui
    else ui
  }

  /** Phase 3: a cursor event records the reported position, whatever the button state. */
  function CursorMoved(ui: UiState, e: Event): (r: UiState)
    ensures e.Cursor? ==> r.mousePosition == Vec2(e.x, e.y)
    ensures !e.Cursor? ==> r == ui
    ensures r.fps == ui.fps && r.play == ui.play && r.mouseButtonHeld == ui.mouseButtonHeld
  {
    if e.Cursor? then ui.(mousePosition := Vec2(e.x, e.y)) else ui
  }

  /** Phase 4, on every event: while the left button is held, iMouse.xy follows the cursor. */
  function MouseCopied(p: ShaderUniforms, ui: UiState): (r: ShaderUniforms)
    ensures ui.mouseButtonHeld ==>
      r.mouseState.x == ui.mousePosition.x && r.mouseState.y == ui.mousePosition.y
    ensures !ui.mouseButtonHeld ==> r == p
    ensures r.mouseState.z == p.mouseState.z && r.mouseState.w == p.mouseState.w
    ensures r.globalTime == p.globalTime && r.resolution == p.resolution
  {
    if ui.mouseButtonHeld then
      p.(mouseState := p.mouseState.(x := ui.mousePosition.x, y := ui.mousePosition.y))
    else p
  }

  /** Phase 5: an update event advances iGlobalTime by `dt` while playing. */
  function TimeAdvanced(p: ShaderUniforms, ui: UiState, e: Event): (r: ShaderUniforms)
    ensures e.Update? && ui.play ==> r.globalTime == p.globalTime + e.dt
    ensures !(e.Update? && ui.play) ==> r == p
    ensures r.resolution == p.resolution && r.mouseState == p.mouseState
  {
    if e.Update? && ui.play then p.(globalTime := p.globalTime + e.dt) else p
  }

  /** Phase 6a: a render event writes the window size into iResolution.xy. */
  function Resized(p: ShaderUniforms, e: Event): (r: ShaderUniforms)
    ensures e.Render? ==> r.resolution.x == e.width as real && r.resolution.y == e.height as real
    ensures !e.Render? ==> r == p
    ensures r.resolution.z == p.resolution.z
    ensures r.globalTime == p.globalTime && r.mouseState == p.mouseState
  {
    if e.Render? then p.(resolution := p.resolution.(x := e.width as real, y := e.height as real)) else p
  }

  /** Phase 6b: after drawing, a render event stores the FPS counter's tick. */
  function FpsTicked(ui: UiState, e: Event): (r: UiState)
    ensures e.Render? ==> r.fps == e.fps
    ensures !e.Render? ==> r == ui
    ensures r.play == ui.play && r.mouseButtonHeld == ui.mouseButtonHeld && r.mousePosition == ui.mousePosition
  {
    if e.Render? then ui.(fps := e.fps) else ui
  }

  /**
   * One iteration of `for e in events`, its phases in the order of the source.
   * Each field changes only under the kind of event that owns it, and afterwards
   * iMouse shows the cursor if the button is held.
   */
  function Step(f: Frame, e: Event): (r: Frame)
    ensures Synced(r)
    ensures r.ui.play != f.ui.play ==> e == Press(Keyboard(Space))
    ensures r.ui.mouseButtonHeld != f.ui.mouseButtonHeld ==> e == Press(Mouse(Left)) || e == Release(Mouse(Left))
    ensures r.ui.mousePosition != f.ui.mousePosition ==> e.Cursor?
    ensures r.params.globalTime != f.params.globalTime ==> e.Update?
    ensures r.params.resolution != f.params.resolution || r.ui.fps != f.ui.fps ==> e.Render?
  {
    var ui := CursorMoved(Released(Pressed(f.ui, e), e), e);
    var p := Resized(TimeAdvanced(MouseCopied(f.params, ui), ui, e), e);
    Frame(FpsTicked(ui, e), p)
  }

  /**
   * The loop: `Step` folded over the events in arrival order. No event ever
   * writes iResolution.z or iMouse.zw.
   */
  function Run(f: Frame, es: seq<Event>): (r: Frame)
    ensures r.params.resolution.z == f.params.resolution.z
    ensures r.params.mouseState.z == f.params.mouseState.z && r.params.mouseState.w == f.params.mouseState.w
    ensures es == [] ==> r == f
    decreases |es|
  {
    if es == [] then f else Step(Run(f, es[..|es| - 1]), es[|es| - 1])
  }
}
