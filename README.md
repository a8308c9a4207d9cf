# ButterflySoulEngine web adapter: a verified model

This project models the core of the WebAssembly render/input adapter of
ButterflySoulEngine in Dafny. It covers two sequential components.

**The frame renderer** (`WebContext::render` and its inner `draw`,
`src/lib.rs`). Drawing is observed as the trace of calls issued to the
canvas's 2D context (`CanvasTrace.CanvasContext`, one method per web API call,
each appending one `Op`). `render` sets a viewport-mode transform for the world
list, replays that list, sets a unit-mode transform for the UI list and replays
that list. `draw` replays each command as a bracket: `Save`,
`Translate(centre)`, `Rotate(angle)`, the paint calls, `Restore`. A colour is
painted with `FillStyle` and `FillRect`. A bitmap is painted with `DrawImage`,
after a lookup in the canvas's registry. A failed lookup (`unwrap` on `None`)
is modelled as a `MissingBitmap` status. The trace emitted up to that point
stays on the context. `Render.DrawSpec` and `Render.RenderSpec` state what each
pass emits. The imperative `Render.Draw` loop and `WebContext.Render` are proved
to emit exactly that.

**The input state and its normaliser.** `Glue.ControlGlue` is the glue
script's `control` object (`src/glue.js`). Its fields are the held keys (a
JavaScript `Map`, modelled as an insertion-ordered association list), the
two-slot click array, the pointer and the element size. Each event listener
becomes a method: keydown/keyup, mousedown/contextmenu, mousemove, resize,
`mount_control` and the read-and-clear `control()`. `Normaliser.Normalise` is
the Rust-side `control`. It turns the deserialised key map into one `KeyEvent`
per entry and copies the clicks and the pointer unchanged.
`WebContextModel.WebContext` holds the two optional bindings (`canvas`,
`control`). `Mount` sets both. `Render` and `Control` report absence while their
binding is unset.

Things the model makes explicit:
- The world scale is `H / viewport.size.y`. The transform maps the viewport's
  position to the surface centre and its top and bottom edges to the top and
  bottom pixel rows. The quotient `W / viewport.size.x` that the source
  computes (`_sw`) is never used. So neither the surface width nor the viewport
  width affects the scale.
- The unit-mode (UI) transform is `(H, 0, 0, -H, W/2, H/2)`. One logical unit
  is the full surface height, so the visible span is `y ∈ [-1/2, 1/2]`. The
  comment at `src/lib.rs:98-101` says `±1`; the code's scale `ch` gives `±1/2`.
  The model follows the code: `(0, 1/2)` lands on the top row.
  `getRelPos` measures the pointer in half-heights, so a pointer position
  shown through the UI transform lands twice as far from the centre
  (`UiTransformOfPointer`). Nothing in the code reconciles the two spaces, so
  the model only states the relation.
- A missing bitmap stops `draw` inside the failing command's bracket, after
  `Save, Translate, Rotate`. One save is then left unrestored on the context,
  and the UI pass is not run if the world pass stopped.
- `set_canvas` creates the registry empty (`src/canvas.rs:14`), and nothing
  here fills it. So after `mount`, any `Bitmap` command stops its pass.
- The source iterates the key map through a Rust `HashMap`, so the order of the
  events is not fixed. The model takes that order as a parameter (`order`,
  each key exactly once) and states the normaliser's properties per entry and
  as a round trip to the dictionary, not in terms of insertion order, because
  `HashMap` iteration order is unspecified.
- A zero viewport height is not checked by the source. The model requires a
  non-zero height instead. The source does not reject it as a hard failure.

## Model

| member | source | states |
|---|---|---|
| Render.WorldTransform | src/lib.rs:83-90 | uniform scale with no shear and Y flipped; the scale times the viewport height is the surface height; the viewport position maps to the surface centre |
| Render.ViewportEdgesFillHeight | src/lib.rs:77-89 | the viewport's top edge maps to pixel row 0 and its bottom edge to row H |
| Render.WorldTransformIgnoresWidths | src/lib.rs:84-89 | the world transform does not depend on the viewport width; its scale does not depend on the surface width |
| Render.UiTransform | src/lib.rs:103-112 | scale H, no shear, Y flipped, logical origin at the surface centre, independent of the frame |
| Render.UiTransformVisibleSpan | src/lib.rs:98-112 | under the UI transform, logical y = 1/2 is the top row and y = -1/2 the bottom row |
| Render.LocalBounds | src/lib.rs:145-146 | the paint rectangle has the command's width and height and is centred on the local origin |
| Render.DrawSpec | src/lib.rs:130-163 | what draw emits: every bracket, or the brackets before the first missing bitmap and that command's opening; a reported id is a bitmap of the list absent from the registry |
| Render.RenderSpec | src/lib.rs:82-124 | the world transform, the world pass and, if it finished, the UI transform and UI pass; the first call is always the world transform, and a reported id is absent from the registry |
| Render.FirstMissing | src/lib.rs:147-157 | the index returned is a bitmap command missing from the registry, and no earlier command is; with no index, no command is missing |
| Render.BracketsAppend | src/lib.rs:133-162 | replaying two lists concatenated emits the first list's brackets, then the second's |
| Render.BracketsAt | src/lib.rs:133-162 | bracket i comes after the brackets of commands before i and before those of commands after i |
| Render.BracketsBalanced | src/lib.rs:134-161 | a list's brackets pair every save with a later restore and never restore below depth zero |
| Render.DrawCompletes | src/lib.rs:133-162 | draw finishes exactly when no command paints a missing bitmap, and then emits every bracket in order |
| Render.DrawStopsAt | src/lib.rs:152-153 | at the first missing bitmap, draw emits the earlier brackets plus save/translate/rotate of the failing command, and reports that id |
| Render.DrawStopIsPrefix | src/lib.rs:133-162 | a stopped pass emits a strict prefix of the full list's trace, with nothing from later commands |
| Render.DrawNesting | src/lib.rs:134-161 | a finished pass leaves depth 0 and a stopped pass depth 1; the depth never goes negative |
| Render.RenderCompleted | src/lib.rs:82-124 | a frame with no missing bitmap traces world SetTransform, world brackets, UI SetTransform, UI brackets, and is balanced |
| Render.WorldStopSkipsUi | src/lib.rs:88-123 | a missing bitmap in the world list ends the frame: only the world SetTransform is ever set |
| Render.EmptyRegistryStopsAtBitmaps | src/canvas.rs:13-15 | with the empty registry a new canvas gets, a pass finishes iff every command is a colour |
| Render.DrawOne | src/lib.rs:134-161 | one loop iteration emits the command's bracket, or only its opening calls when its bitmap is missing |
| Render.Draw | src/lib.rs:130-163 | the loop's calls are exactly DrawSpec's trace, and it reports DrawSpec's status |
| AssocList.Set | src/glue.js:27-37 | Map.set: the key is present afterwards, and the keys already there keep their order at the front |
| AssocList.Delete | src/glue.js:28-29 | Map.delete: the dictionary loses the key, and every other key keeps its value |
| AssocList.SetSpec | src/glue.js:27-37 | keydown's Map.set keeps keys distinct, sets the key's value and no other, and appends the key only when new |
| AssocList.SetOverwrites | src/glue.js:28-36 | setting a present key keeps the same keys in the same order, so a repeat overwrites rather than duplicates |
| AssocList.DeleteSpec | src/glue.js:28-29 | keyup's Map.delete removes the key from the dictionary, keeps every other key, and keeps keys distinct |
| Glue.RelPos | src/glue.js:19-25 | the pixel offset is the element centre plus the relative position in half-heights, with Y flipped |
| Glue.RelPosLandmarks | src/glue.js:19-25 | the element centre maps to (0, 0) and the top-left corner to (-w/h, 1) |
| Glue.ControlGlue.Get | src/glue.js:11-17 | get(): the current click slots and pointer, and a duplicate-free key list that reads back as the key map |
| Glue.ControlGlue.constructor | src/glue.js:3-9 | no clicks, pointer at the origin, no keys |
| Glue.ControlGlue.KeyCallback | src/glue.js:27-38 | press sets the key's modifiers, release deletes the key; the dictionary changes only at that key; clicks, pointer and size unchanged |
| Glue.ControlGlue.ClickCallback | src/glue.js:40-43 | mousedown writes only slot 0 and contextmenu only slot 1, with the relative position; nothing else changes |
| Glue.ControlGlue.MousemoveCallback | src/glue.js:45-47 | only the pointer changes, to the relative position |
| Glue.ControlGlue.Resize | src/glue.js:55-60 | the measuring size becomes the element's layout size, and the element's pixel width and height are set to its layout width and height |
| Glue.ControlGlue.MountControl | src/glue.js:64-97 | resizes to the new element (measuring size and pixel size) and resets to no clicks, pointer (0, 0) and no keys |
| Glue.ControlGlue.Control | src/glue.js:98-102 | returns the state before the call, then clears both click slots; keys and pointer unchanged |
| Glue.ReadControlTwice | src/glue.js:98-102 | a second read with no event in between sees empty clicks and the same keys and pointer |
| WebContextModel.Deserialize | src/lib.rs:171 | from_value on the glue's snapshot: slots and pointer pass through; a duplicate-free key list becomes a dictionary with exactly its keys, each with its value, and as many entries |
| Normaliser.Normalise | src/lib.rs:172-189 | events follow the iteration order; each event carries its entry's code and five flags; every key has exactly one event; clicks and pointer copied unchanged |
| Normaliser.NormaliseRoundTrip | src/lib.rs:172-183 | the events read back as a dictionary equal the key map, for any iteration order, so there are as many events as entries |
| Normaliser.NormaliseExample | src/lib.rs:167-190 | one held KeyA with no modifiers, slots [none, (5,5)] and pointer (10,10) come through as one all-false KeyA event and the same slots and pointer |
| WebContextModel.WebContext.constructor | src/lib.rs:37-47 | both bindings start unset |
| WebContextModel.WebContext.SetCanvas | src/lib.rs:53-61 | an available 2D context binds the canvas with an empty registry and, as WebCanvas::reset, sets the element's pixel size to its layout size; an error or an absent context leaves the binding and the element unchanged |
| WebContextModel.WebContext.SetControl | src/lib.rs:63-67 | input becomes bound and the glue is reset on the element, which sets the element's pixel size to its layout size |
| WebContextModel.WebContext.Mount | src/lib.rs:48-52 | input is bound and the glue reset in every case; the canvas is bound as SetCanvas says, so success leaves both bindings set; the element's pixel size equals its layout size, which is the glue's measuring size |
| WebContextModel.WebContext.Render | src/lib.rs:71-166 | unbound: reports absence and modifies nothing; bound: the context receives exactly RenderSpec's trace and the outcome follows its status |
| WebContextModel.WebContext.Control | src/lib.rs:167-190 | unbound: None and the glue untouched; bound: the normalised pre-call state, whose events read back as the glue's key map, with the clicks cleared and keys, pointer and measuring size unchanged |
| WebContextModel.UiTransformOfPointer | src/lib.rs:103-112 | a pointer from getRelPos on an element whose measuring size is the canvas size (as Mount leaves it), shown through the UI transform, lands twice as far from the centre as the pixel it was measured at |

## Left out

- Real drawing: the web_sys context calls are replaced by a trace of calls. Pixel output (overlap, rotated footprints, image scaling) is not modelled.
- Floating point: f32/f64 arithmetic, the `u32 as f32` size conversion and rounding are modelled over `real`.
- Render.WorldTransform: requires `viewport.size.y != 0`. The source has no such check: in f32 it would produce an infinite or NaN transform, not an error.
- Glue.RelPos: requires the element height to be non-zero (so do `ClickCallback` and `MousemoveCallback`). In JavaScript a zero height yields Infinity/NaN rather than an error.
- The unused quotient `_sw` (`src/lib.rs:85`) is not computed, since nothing reads it.
- The `.unwrap()` calls on `set_transform`, `translate`, `rotate` and `draw_image`: the model assumes these calls succeed. Only the bitmap lookup can fail.
- A panic ends the WebAssembly program. The model instead returns `Panicked`/`NoContext` outcomes, with the partial trace left on the context.
- `DrawImage` records the bitmap's id, not the image object. `ImageBitmap` is an opaque record. Filling the registry is not part of the source shown.
- `set_image_smoothing_enabled(false)` in `WebCanvas::reset`: it affects only how bitmaps are scaled into pixels, which the trace does not model. A later host change to the element's layout size without a `resize` call is not modelled.
- Deserialisation (`serde_wasm_bindgen::from_value(...).unwrap()`): modelled as turning the key list into a dictionary. A deserialisation failure is not modelled.
- `get()` returns the live `Map` object. The model takes a value snapshot, which is what the immediate deserialisation sees.
- Hash-map iteration order: `Normaliser.Normalise` and `WebContext.Control` take the order as an input that lists each key exactly once.
- Glue plumbing is not modelled: the one-time install guard, adding and removing event listeners on the old and new element, `ResizeObserver`, `tabIndex`/`focus` and `preventDefault`. The glue object's constructor stands for the first install.
- `Function::new_no_args(include_str!(...))` in `WebContext::new` (running the glue script) and the engine crate's internals (`Vector`, `ViewBox`, `RenderFrame`, `Control`) are not modelled. Vector division is taken to be component-wise.
