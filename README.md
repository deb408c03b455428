# shader_sandbox: the render-loop state machine and the fragment wrapper

shader_sandbox opens a window, links a user fragment shader, and draws it on a
full-screen quad every frame. Its only logic is in `src/main.rs`:

- the per-event body of `for e in events`. It keeps two records, `UiData`
  (`fps`, `play`, `mouse_button_held`, `mouse_position`) and the uniform record
  `ShadertoyShaderParams` (`iGlobalTime`, `iResolution`, `iMouse`). Each event
  updates them in this fixed order: press handling, release handling, cursor
  update, the "sticky" copy of the cursor into `iMouse` while the left button
  is held, time accumulation while playing, and the resolution/FPS refresh on
  render;
- the textual wrapping of the user's fragment source between three uniform
  declarations and a `main` that calls `mainImage`.

Files:

- `events.dfy` (module `Events`): the host events — key and mouse presses and
  releases, cursor moves, update ticks with `dt`, and render ticks. A render
  tick carries the window size and the FPS counter's value.
- `frame_state.dfy` (module `FrameState`): the two records as values. `Step`
  is one iteration of the loop, written as its six phases in source order.
  `Run` folds `Step` over an event sequence.
- `frame_properties.dfy` (module `FrameProperties`): what each kind of event
  does to each field, and what the whole loop computes. The loop's results
  are stated against independent definitions over the event sequence: the
  number of Space presses, the last left-button edge, the last cursor event,
  the last render, and the sum of the update deltas.
- `render_loop.dfy` (module `RenderLoop`): the records as classes whose fields
  are updated in place. `iResolution` and `iMouse` are fixed-size arrays.
  `HandleEvent` mirrors the dispatch body and is proved to implement `Step`.
  `ProcessEvents` is the `for` loop and is proved to implement `Run`.
- `shader_source.dfy` (module `ShaderSource`): the `format!` wrapping, its
  inverse, and what the wrapped text contains.
- `hud.dfy` (module `Hud`): the whole seconds the timer label shows
  (`global_time as i32`).
- `wrappers.dfy` (module `Wrappers`): `Option`.

Times and positions are `real`; window sizes are whole pixels (`nat`), as
`e.size()` reports them. The `f64`→`f32` and `u32`→`f32` casts are treated as
the identity.

Three behaviours of the code worth knowing:

- The code wraps the fragment source unconditionally. The `--shadertoy` flag
  is parsed but never read, so there is no verbatim mode.
- The cursor is copied into `iMouse` after every event, not only on render.
- Update ticks add to `iGlobalTime` directly. Nothing clamps a negative `dt`,
  so the monotonicity lemmas assume non-negative deltas.

A subtlety the proofs expose: the cursor copy runs on every event. So a key
press "changes nothing" only in a state where `iMouse.xy` already equals the
cursor while the button is held (`Synced`). Every state reachable from the
initial one is synced (`RunReachable`).

## Model

| member | source | states |
|---|---|---|
| FrameState.Initial | src/main.rs:127-145 | before the first event: playing, button up, cursor (0, 0), fps 0, time 0, all-zero `iResolution` and `iMouse` |
| FrameState.Pressed | src/main.rs:159-174 | `play` flips exactly on a Space press, the button flag is set exactly on a left press, fps and cursor are untouched |
| FrameState.Released | src/main.rs:175-186 | the button flag is cleared exactly on a left release; key releases and other fields are untouched |
| FrameState.CursorMoved | src/main.rs:187-189 | a cursor event records its position whatever the button state; any other event leaves the record as it was |
| FrameState.MouseCopied | src/main.rs:190-193 | with the button held `iMouse.xy` equals the cursor; with it up the uniforms are unchanged; `iMouse.zw`, time and resolution are never touched |
| FrameState.TimeAdvanced | src/main.rs:195-199 | an update while playing adds exactly `dt` to the time; otherwise the uniforms are unchanged; resolution and mouse are never touched |
| FrameState.Resized | src/main.rs:200-203 | a render sets `iResolution.xy` to the window size; `iResolution.z`, time and mouse are never touched; other events change nothing |
| FrameState.FpsTicked | src/main.rs:214 | a render stores the counter's value in `fps`; play, button and cursor are untouched; other events change nothing |
| FrameState.Step | src/main.rs:158-229 | after one event `iMouse` is synced with the cursor; `play` changes only on Space, the button flag only on a left edge, the cursor only on a cursor event, the time only on an update, resolution and fps only on a render |
| FrameState.Run | src/main.rs:158-230 | folding the events in order never changes `iResolution.z` or `iMouse.zw`; no events leave the state as it was |
| RenderLoop.UiData.constructor | src/main.rs:140-145 | `UiData` starts with `fps` 0, playing, button up, cursor at (0, 0) |
| RenderLoop.ShaderParams.constructor | src/main.rs:127-132 | the uniforms start with time 0 and all-zero `iResolution` and `iMouse`, held in fresh arrays of widths 3 and 4 |
| RenderLoop.HandleEvent | src/main.rs:158-229 | the in-place update of both records by one event is exactly one `Step` (press, release, cursor, sticky copy, time, render) |
| RenderLoop.ProcessEvents | src/main.rs:158-230 | handling the events one by one, in arrival order, leaves the records equal to `Run` over the whole sequence |
| RenderLoop.RunSandbox | src/main.rs:127-230 | starting from the initial records, the loop reaches `Run(Initial(), events)`, a state in which `iResolution.z` and `iMouse.zw` are 0 and `iMouse` is synced |
| FrameProperties.InitialState | src/main.rs:127-145 | the initial state is synced and has `iResolution.z` = `iMouse.z` = `iMouse.w` = 0 |
| FrameProperties.StepSticky | src/main.rs:190-193 | after any event, a held button means `iMouse.xy` equals the cursor; with the button up, `iMouse` is unchanged; `iMouse.zw` never change |
| FrameProperties.StepSpacePress | src/main.rs:159-166 | a Space press flips `play` and changes nothing else |
| FrameProperties.StepSpaceTwice | src/main.rs:163 | two Space presses restore the state |
| FrameProperties.StepIgnoredKeys | src/main.rs:159-178 | a press of any key other than Space, and a release of any key, change nothing |
| FrameProperties.StepLeftPress | src/main.rs:167-193 | a left press sets the button flag and at once copies the already-known cursor into `iMouse.xy` |
| FrameProperties.StepLeftRelease | src/main.rs:179-193 | a left release clears the button flag and leaves `iMouse` as it was |
| FrameProperties.StepOtherMouseButton | src/main.rs:167-184 | pressing or releasing any mouse button other than Left changes nothing |
| FrameProperties.StepCursor | src/main.rs:187-193 | a cursor event records the position whatever the button state; `iMouse` follows only while the button is held |
| FrameProperties.StepUpdate | src/main.rs:195-199 | an update adds exactly `dt` to the time while playing and changes nothing while paused |
| FrameProperties.StepRender | src/main.rs:200-214 | a render sets `iResolution.xy` to the window size and `fps` to the counter's value; `iResolution.z`, play, button, cursor and time are untouched |
| FrameProperties.StepOther | src/main.rs:158-229 | an event of no handled kind changes nothing |
| FrameProperties.StepTime | src/main.rs:195-199 | only update events move the time; a non-negative `dt` never moves it back |
| FrameProperties.RunConcat | src/main.rs:158 | handling two batches one after the other equals handling their concatenation |
| FrameProperties.RunPlay | src/main.rs:163 | after any events, `play` is the initial flag flipped once per Space press |
| FrameProperties.RunMouseButton | src/main.rs:169-181 | the button flag is set iff the last left-button press or release was a press, or keeps its initial value if there was none |
| FrameProperties.RunCursor | src/main.rs:187-189 | the cursor is the position of the last cursor event, or the initial one if there was none |
| FrameProperties.RunRender | src/main.rs:200-214 | `iResolution.xy` and `fps` come from the last render event, or keep their initial values if there was none |
| FrameProperties.RunMouseState | src/main.rs:190-193 | after at least one event, or from a synced start, `iMouse.xy` equals the cursor while the button is held |
| FrameProperties.RunSticky | src/main.rs:190-193 | with the button up and no left press, `iMouse` keeps its last value however the cursor moves |
| FrameProperties.RunReachable | src/main.rs:127-203 | every state reached from the initial one has `iResolution.z` = `iMouse.z` = `iMouse.w` = 0 and is synced |
| FrameProperties.RunTimePlaying | src/main.rs:195-199 | while playing with no Space press, the time grows by exactly the sum of the update deltas |
| FrameProperties.RunTimePaused | src/main.rs:195-199 | while paused with no Space press, the time does not move |
| FrameProperties.RunTimeMonotone | src/main.rs:195-199 | when no delta is negative, the time never decreases, whatever `play` does |
| FrameProperties.PauseResume | src/main.rs:163-199 | after pause, any events, and resume, the time counts only the deltas of the playing stretches and resumes from where it stopped |
| FrameProperties.StickyScenario | src/main.rs:187-203 | press at (10, 20), render, release, move to (50, 60), render: `iMouse` still reads (10, 20, 0, 0) |
| FrameProperties.CountSpacePresses | src/main.rs:163 | the count of Space presses is at most the number of events, and is zero iff no event is a Space press |
| ShaderSource.WrapFragment | src/main.rs:94-103 | the wrapped source is the declarations, then the user's text unmodified, then the `main` shim, in that order and nothing else |
| ShaderSource.Unwrap | src/main.rs:94-103 | any text it accepts is exactly the wrapping of the body it returns |
| ShaderSource.UnwrapWrap | src/main.rs:94-103 | stripping the wrapper from a wrapped shader gives back exactly the user's text |
| ShaderSource.WrapUnwrap | src/main.rs:94-103 | any text that unwraps to a body is the wrapping of that body |
| ShaderSource.WrapInjective | src/main.rs:94-103 | different shader texts wrap to different sources |
| ShaderSource.BodyOccurs | src/main.rs:94-103 | the user's text occurs unmodified in the wrapped source |
| ShaderSource.WrapIgnoresFlag | src/main.rs:70-103 | the wrapped source is the same whether or not `--shadertoy` was given |
| ShaderSource.WrappedDeclaresUniforms | src/main.rs:95-97 | the wrapped source declares `iGlobalTime`, `iResolution` and `iMouse` with their types |
| ShaderSource.WrappedDefinesMain | src/main.rs:101-103 | the wrapped source contains `void main() {` and the call `mainImage(gl_FragColor, gl_FragCoord.xy);` |
| Hud.TimerSeconds | src/main.rs:222 | the timer label shows the time truncated toward zero, saturating at the bounds of a 32-bit integer |
| Hud.TimerSecondsMonotone | src/main.rs:222 | the label never counts down while non-negative time advances |

## Left out

- Command-line parsing with `clap`, window creation through SDL2 and Piston, and `exit_on_esc` (src/main.rs:67-81): setup code in foreign libraries. Escape closing the window is outside the model, and so is the end of the event stream.
- Reading the vertex shader, the fragment shader and the font (src/main.rs:85-92, 149-152): file I/O. The fragment text is a parameter of `WrapFragment`, and a missing file is not modelled.
- Linking the program, building the quad mesh, the draw state, and the clear and draw calls of `draw_3d` (src/main.rs:105-126, 204-213): opaque GPU calls with no state the loop reads back.
- `FPSCounter::tick` (src/main.rs:147, 214): a third-party timer. The value it returns on each render is an input carried by the render event.
- The conrod labels (src/main.rs:153, 215-228): widget layout and drawing are left out. Only the number the timer label shows is modelled (`Hud.TimerSeconds`). The label text for `fps` is its decimal form and is not modelled.
- Hud.TimerSeconds: follows Rust's current saturating `as i32`. Rust versions before 1.45 left out-of-range float-to-int casts undefined.
- `f32`/`f64` rounding and the `as f32` casts: times, positions and sizes are exact reals.
- The commented-out Mandelbrot parameters (src/main.rs:41-44, 134-138): dead code.
- WrappedDefinesMain: shows that the wrapper's `main` is present, not that it is the only one. Occurrences are not counted, and a user shader that defines its own `main` is passed through unchanged, as the code does.
