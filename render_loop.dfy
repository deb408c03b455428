/**
 * The render loop as the source runs it: `ui_data` and `params` are records
 * whose fields each event updates in place, and `for e in events` hands every
 * event to one dispatch body. The pure `FrameState.Step` is its specification.
 */
module RenderLoop {
  import opened Events
  import opened FrameState
  import FrameProperties

  /** The `UiData` record. */
  class UiData {
    var fps: nat
    var play: bool
    var mouseButtonHeld: bool
    var mousePosition: Vec2

    /** The record's value. */
    function Snapshot(): UiState
      reads this
    {
      UiState(fps, play, mouseButtonHeld, mousePosition)
    }

    /** Playing, button up, cursor at the origin, no frames counted yet. */
    constructor ()
      ensures Snapshot() == Initial().ui
    {
      fps := 0;
      play := true;
      mouseButtonHeld := false;
      mousePosition := Vec2(0.0, 0.0);
    }
  }

  /** The `ShadertoyShaderParams` uniform record; iResolution and iMouse are fixed-size arrays. */
  class ShaderParams {
    var globalTime: real
    const resolution: array<real>
    const mouseState: array<real>

    /** The arrays have the widths of vec3 and vec4 and are distinct. */
    predicate Valid() {
      resolution.Length == 3 && mouseState.Length == 4 && resolution != mouseState
    }

    /** The record's value. */
    function Snapshot(): ShaderUniforms
      reads this, resolution, mouseState
      requires Valid()
    {
      ShaderUniforms(globalTime,
                     Vec3(resolution[0], resolution[1], resolution[2]),
                     Vec4(mouseState[0], mouseState[1], mouseState[2], mouseState[3]))
    }

    /** Time, resolution and mouse all zero. */
    constructor ()
      ensures Valid() && fresh(resolution) && fresh(mouseState)
      ensures Snapshot() == Initial().params
    {
      globalTime := 0.0;
      resolution := new real[] [0.0, 0.0, 0.0];
      mouseState := new real[] [0.0, 0.0, 0.0, 0.0];
    }
  }

  /** Both records together. */
  function FrameOf(ui: UiData, params: ShaderParams): Frame
    reads ui, params, params.resolution, params.mouseState
    requires params.Valid()
  {
    Frame(ui.Snapshot(), params.Snapshot())
  }

  /** The body of `for e in events`: press, release, cursor, mouse copy, time, render. */
  method HandleEvent(ui: UiData, params: ShaderParams, e: Event)
    requires params.Valid()
    modifies ui, params, params.resolution, params.mouseState
    ensures FrameOf(ui, params) == Step(old(FrameOf(ui, params)), e)
  {
    if e.Press? {
      match e.button
      case Keyboard(key) =>
        if key == Space {
          ui.play := !ui.play;
        }
      case Mouse(b) =>
        if b == Left {
          ui.mouseButtonHeld := true;
        }
    }
    if e.Release? {
      match e.button
      case Keyboard(_) =>
      case Mouse(b) =>
        if b == Left {
          ui.mouseButtonHeld := false;
        }
    }
    if e.Cursor? {
      ui.mousePosition := Vec2(e.x, e.y);
    }
    if ui.mouseButtonHeld {
      params.mouseState[0] := ui.mousePosition.x;
      params.mouseState[1] := ui.mousePosition.y;
    }
    if e.Update? {
      if ui.play {
        params.globalTime := params.globalTime + e.dt;
      }
    }
    if e.Render? {
      params.resolution[0] := e.width as real;
      params.resolution[1] := e.height as real;
      ui.fps := e.fps;
    }
  }

  /** `for e in events`: every event is handled, in arrival order. */
  method ProcessEvents(ui: UiData, params: ShaderParams, events: seq<Event>)
    requires params.Valid()
    modifies ui, params, params.resolution, params.mouseState
    ensures FrameOf(ui, params) == Run(old(FrameOf(ui, params)), events)
  {
    ghost var start := FrameOf(ui, params);
    for i := 0 to |events|
      invariant FrameOf(ui, params) == Run(start, events[..i])
    {
      HandleEvent(ui, params, events[i]);
      assert events[..i + 1][..i] == events[..i];
    }
    assert events[..|events|] == events;
  }

  /** The records as `main` creates them, then the loop over all events. */
  method RunSandbox(events: seq<Event>) returns (ui: UiData, params: ShaderParams)
    ensures fresh(ui) && fresh(params) && params.Valid()
    ensures FrameOf(ui, params) == Run(Initial(), events)
    ensures FrameProperties.Reachable(FrameOf(ui, params))
  {
    ui := new UiData();
    params := new ShaderParams();
    ProcessEvents(ui, params, events);
    FrameProperties.RunReachable(events);
  }
}
