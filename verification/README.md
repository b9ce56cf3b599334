# Ae2D engine core, modelled in Dafny

Ae2D is a small Rust game engine with two layers: a 2D engine on SDL (`ae2d`) and a 3D/GL engine (`ae3d`).
This project models the logic that sits between SDL, OpenGL, Lua and the file parsers:

- **Frame animation** (`frame_animation.dfy`, module `FrameAnimation`).
  - `Animation` covers the per-animation playback of elapsed time, frame index and repeat counter, including the frozen terminal state.
  - `Animator` covers atlas slicing into row-major cells, switching animations, restart, and the empty-state guards of `getCurrentFrame`.
  - Elapsed time `dt` is a parameter instead of the window's clock, and time is `real`.
- **Inline markup** (`markup.dfy`, module `Markup`). This is the 2D `Text::setString` byte scanner. It turns `^( * / _ - )` style directives and line breaks into styled runs (`TextPart`). `Parse` returns `None` for exactly the inputs on which the scanner panics.
- **Bitmap fonts** (`font.dfy`, module `BitmapFont`).
  - `Font::load` works over an already-parsed XML tree: name, line height, the page texture found through the texture cache, and the glyph table keyed by code unit.
  - `Font::getGlyph` looks a glyph up in that table.
  - Rust's integer `str::parse` is modelled in full. Float parsing is the parameter `parseFloat`.
- **UI scene** (`scene.dfy`, module `Scene`).
  - The `Object` tree parsed from XML and the 3-slot draw order.
  - `Object::draw` as a trace of visits (`Exec`, `Init`, `Update`, `Model`, `DrawImage`, `DrawText`), and the global script executor `scriptExecutor`.
  - The transform setter and getter bindings, the `reloadModel` flag, and the input predicates scripts call.
  - `UI` is a class whose methods draw the tree in place and are proved equal to the functional trace.
- **Texture cache** (`texture_cache.dfy`, module `TextureCache`). `Assets::getTexture` is a find-or-insert over a list of `(path, id)` pairs. The GPU loader is the function parameter `loader`.
- **Sprites** (`sprite2d.dfy`, `sprite3d.dfy`): exactly one of the absolute and relative origins is set, plus the transform setters and getters, `scaleToSize`, the texture and animator loads, and the 2D draw call.
- **Windows** (`window2d.dfy`, `window3d.dfy`, with `input.dfy`).
  - One frame's SDL events are folded into `running`, the last key record and the last mouse record.
  - `KeyAction` equality is modelled.
  - The 3D window's colour palette: `loadColors` and `getColor`.
- **Shared values** (`basics.dfy`, `json.dfy`, `xml.dfy`, `sdl.dfy`): `Option`, 2D vectors, bytes, already-parsed JSON and XML values, and SDL rectangles.

Classes model the structs whose fields the source updates in place. These are `Animation`, `Animator`, `Text`, `Cache`, `UI`, both `Sprite`s and both `Window`s. Their methods are proved against specification functions: `Step`, `GridCells`, `Parse`, `Request`, `LoadAll`, `DrawNode`, `LastKey`/`LastMouse`, `PaletteOf` and `FirstColor`. Lemmas state the engine's promises about those functions.

## Model

| member | source | states |
|---|---|---|
| FrameAnimation.Step | src/ae3d/graphics/FrameAnimation.rs:58-77 | One update keeps the frame index inside a non-empty timeline. A frozen animation (`repeat != 0`, `repeated >= repeat`) is unchanged, and its timeline may be empty, since the update returns before reading it. An animation that is not frozen needs a non-empty timeline. At most one frame is advanced. The repeat counter grows by at most one, only for a counted animation, and only while it stands on the last frame. A counted animation never moves back. An endless one never counts. |
| FrameAnimation.StepInside | src/ae3d/graphics/FrameAnimation.rs:62-67 | Inside the timeline, an update either keeps the frame and accumulates `dt`, or moves one frame on and subtracts exactly the duration of the frame it leaves. |
| FrameAnimation.StepWraps | src/ae3d/graphics/FrameAnimation.rs:68-70 | Stepping past the last frame of an endless animation (repeat 0) wraps to frame 0 with time 0. |
| FrameAnimation.StepClamps | src/ae3d/graphics/FrameAnimation.rs:72-76 | Stepping past the last frame of a counted animation counts one repetition, stays on the last frame and keeps the leftover time. |
| FrameAnimation.FrozenWithoutFrames | src/ae3d/graphics/FrameAnimation.rs:58-60 | An animation read with `"repeat": -1` and no frames is frozen, and an update leaves it as it is. |
| FrameAnimation.StepExample | src/ae3d/graphics/FrameAnimation.rs:62-67 | Two half-second frames with 0.6 s elapsed in one call: frame 1 with 0.1 s left, not a multi-frame catch-up. |
| FrameAnimation.Run | src/ae3d/graphics/FrameAnimation.rs:58-77 | Any number of updates keeps the frame index inside a non-empty timeline. |
| FrameAnimation.RunFrozen | src/ae3d/graphics/FrameAnimation.rs:60 | Once frozen, no number of updates changes time, frame or counter. |
| FrameAnimation.RunMonotone | src/ae3d/graphics/FrameAnimation.rs:72-76 | A counted animation's frame index and repeat counter never decrease over any number of updates. |
| FrameAnimation.RunRepeatedBounded | src/ae3d/graphics/FrameAnimation.rs:60-75 | With a positive repeat count, the counter never passes that count. |
| FrameAnimation.RunEndless | src/ae3d/graphics/FrameAnimation.rs:68-70 | An endless animation never changes its repeat counter. |
| FrameAnimation.RunFreezesOnLastFrame | src/ae3d/graphics/FrameAnimation.rs:68-76 | A counted animation can reach its terminal state only on its last frame. |
| FrameAnimation.FrameOf | src/ae3d/graphics/FrameAnimation.rs:44-49 | A frame entry without `frame` has id 0, and one without `duration` lasts 0. |
| FrameAnimation.FramesOf | src/ae3d/graphics/FrameAnimation.rs:42-51 | A `frames` array yields one frame per member, in order. |
| FrameAnimation.TimelineOf | src/ae3d/graphics/FrameAnimation.rs:36-53 | The timeline is empty exactly when every `frames` entry is an empty array, which includes having no `frames` entry. |
| FrameAnimation.ReadFrame | src/ae3d/graphics/FrameAnimation.rs:44-49 | The entry loop gives the last `frame` and `duration` values. A missing or ill-typed value reads as 0. |
| FrameAnimation.ReadFrames | src/ae3d/graphics/FrameAnimation.rs:42-51 | The member loop pushes the frames of an array in order. |
| FrameAnimation.Animation.constructor | src/ae3d/graphics/FrameAnimation.rs:19-30 | A new animation has an empty name, repeat 0, no frames, and time, frame and counter at zero. |
| FrameAnimation.Animation.Parse | src/ae3d/graphics/FrameAnimation.rs:32-56 | The name is the last `name` string (else empty) and the repeat count the last `repeat` integer (else 0). The timeline is every frame of every `frames` entry, in order. Playback starts at zero. |
| FrameAnimation.Animation.Update | src/ae3d/graphics/FrameAnimation.rs:58-77 | On a non-empty timeline, or on a frozen animation with any timeline, the in-place update leaves exactly the playback state `Step` gives. Name, repeat count and timeline are unchanged. |
| FrameAnimation.Animation.Rewind | src/ae3d/graphics/FrameAnimation.rs:222-223 | Time and frame go back to zero and the repeat counter is kept. |
| FrameAnimation.CeilDiv | src/ae3d/graphics/FrameAnimation.rs:181-195 | The number of steps of width `d` that cover an extent `n`: the least `r` with `n <= r*d`. |
| FrameAnimation.RowCount | src/ae3d/graphics/FrameAnimation.rs:183-192 | One row yields ceil(remaining width / cell width) cells. |
| FrameAnimation.GridCount | src/ae3d/graphics/FrameAnimation.rs:181-195 | The rows from offset `y` yield ceil(width / cell width) · ceil(remaining height / cell height) cells. |
| FrameAnimation.SliceCount | src/ae3d/graphics/FrameAnimation.rs:176-196 | Slicing an atlas yields exactly ceil(width/cell width) · ceil(height/cell height) cells. |
| FrameAnimation.GridCellsInside | src/ae3d/graphics/FrameAnimation.rs:181-195 | Every cell has the configured cell size and its corner lies inside the atlas. |
| FrameAnimation.RowCellsInside | src/ae3d/graphics/FrameAnimation.rs:183-192 | Every cell of a row has the cell size, lies on that row and starts inside the atlas width. |
| FrameAnimation.SwitchTarget | src/ae3d/graphics/FrameAnimation.rs:207-215 | The index chosen is the first animation with the requested name that is not current. `None` means no such animation exists. |
| FrameAnimation.Animator.constructor | src/ae3d/graphics/FrameAnimation.rs:94-105 | A new animator has no texture, zero sizes, no animations and no cells. |
| FrameAnimation.Animator.CalculateFrames | src/ae3d/graphics/FrameAnimation.rs:176-196 | The old cell list is replaced by the atlas cells, row by row and left to right within a row. Termination requires positive cell sizes wherever a loop runs. |
| FrameAnimation.SliceLoopNeverExits | src/ae3d/graphics/FrameAnimation.rs:181-195 | As written, a slicing loop whose step (the frame's `x` or `y`) is 0 or negative never exits over a positive extent. Its offset stays at or below 0, so the guard holds after any number of passes. |
| FrameAnimation.Animator.SliceRow | src/ae3d/graphics/FrameAnimation.rs:183-192 | The inner loop appends exactly the cells of one row. |
| FrameAnimation.Animator.Update | src/ae3d/graphics/FrameAnimation.rs:171-174 | Only the current animation steps, as `Step` says. Its timeline may be empty when it is frozen. |
| FrameAnimation.Animator.CurrentFrame | src/ae3d/graphics/FrameAnimation.rs:198-203 | Gives the empty rectangle when there are no cells or no animations. Otherwise it gives exactly the atlas cell indexed by the id of the current animation's current frame, which is what `Animation::getCurrentFrame` (line 79) returns. |
| FrameAnimation.Animator.Restart | src/ae3d/graphics/FrameAnimation.rs:218-225 | Every animation is rewound to frame 0 at time 0. Repeat counters, names, timelines and repeat counts are kept. |
| FrameAnimation.Animator.SetCurrentAnimation | src/ae3d/graphics/FrameAnimation.rs:205-216 | Switches to the first animation other than the current one that carries the name, and rewinds all animations. A name that no other animation carries changes nothing, even when the current animation carries it. |
| Markup.Split | src/ae2d/Text.rs:87 | `split(" ")` gives at least one piece, and no piece holds a space. |
| Markup.JoinSplit | src/ae2d/Text.rs:87 | Splitting a directive body loses nothing: joining the pieces with spaces gives it back. |
| Markup.ApplyTokensFlags | src/ae2d/Text.rs:88-94 | A directive only adds flags. Bold, italic, underline and strikethrough are set exactly when `*`, `/`, `_` or `-` occurs as a token. Other tokens are ignored. |
| Markup.Close | src/ae2d/Text.rs:78-85 | The directive body ends at the first `)`. `None` means there is no `)`. |
| Markup.Parse | src/ae2d/Text.rs:55-107 | A parse that does not panic had an ASCII input and stores at least one run, because the pending run is always pushed at the end. |
| Markup.ApplyTokensOr | src/ae2d/Text.rs:88-94 | A directive ORs its flags into the run's style, so flags set earlier survive it. |
| Markup.ScanAcc | src/ae2d/Text.rs:69-106 | Runs already pushed pass through the scan untouched, and the scan pushes at least one more. Whether it panics does not depend on them. |
| Markup.ScanOr | src/ae2d/Text.rs:69-106 | Flags already on the pending run reach exactly that run. Every later run starts from NORMAL again, because a flush makes a fresh `TextPart`. Panics are unaffected. |
| Markup.CloseShift | src/ae2d/Text.rs:78-85 | A prefix before the scan position does not change which `)` closes a directive; the index only shifts by the prefix length. |
| Markup.ScanShift | src/ae2d/Text.rs:61-106 | What the scanner does from a position depends only on the input from there on. |
| Markup.DirectiveShift | src/ae2d/Text.rs:69-94 | The same for a position where a directive opens: its tokens and where it closes depend only on the input from there on. |
| Markup.LeadingDirective | src/ae2d/Text.rs:64-94 | Input that starts with `^(b)` panics exactly when the rest does. Otherwise it gives the same runs as the rest alone, except that the first run also carries the directive's flags. |
| Markup.ScanTexts | src/ae2d/Text.rs:55-107 | From any scanner state, the run texts concatenate to the pushed text, the pending text and the rest of the visible input. |
| Markup.ParseTexts | src/ae2d/Text.rs:55-107 | The run texts concatenate to the input with directives, line breaks and stray `^` removed. |
| Markup.ScanShape | src/ae2d/Text.rs:69-106 | Runs already pushed are never changed and at least one run follows them. No run text holds a line break or `^`. Only the last run can be empty. |
| Markup.ParseShape | src/ae2d/Text.rs:55-107 | The result is never empty. No run text holds `\n` or `^`. Only the final run can be empty, because a directive flushes only a non-empty run. |
| Markup.ScanPlain | src/ae2d/Text.rs:96-106 | Without `^`, the rest of the input extends the pending run: its text loses the line breaks, and it is marked `newline` exactly when one was seen. |
| Markup.ParsePlain | src/ae2d/Text.rs:100-106 | An ASCII input without `^` and `\n` is one NORMAL run holding the input, with `newline` false. |
| Markup.EdgeExamples | src/ae2d/Text.rs:58-106 | `""` gives one empty NORMAL run. A trailing `^` and an unclosed `^(` panic. |
| Markup.StrayCaretExample | src/ae2d/Text.rs:64-67 | A `^` not followed by `(` is dropped and the next character is read normally. |
| Markup.StackedExample | src/ae2d/Text.rs:69-94 | Back-to-back directives accumulate their flags on the run that follows. |
| Markup.FlushExample | src/ae2d/Text.rs:69-94 | A directive flushes the non-empty pending run and styles the next. Unknown tokens are ignored. |
| Markup.Text.constructor | src/ae2d/Text.rs:30-37 | A new text has no runs. |
| Markup.Text.SetString | src/ae2d/Text.rs:55-107 | Previous runs are discarded and the stored runs are exactly `Parse(s)`. It requires an input on which the scanner does not panic. |
| Markup.ReadDirective | src/ae2d/Text.rs:75-85 | Collects the directive body up to the first `)` and stops there. |
| Markup.Restyle | src/ae2d/Text.rs:87-94 | The token loop sets the same style as `ApplyTokens`. |
| BitmapFont.ParseUnsigned | src/ae3d/graphics/Text.rs:55-59 | Unsigned `parse` succeeds only within the type's maximum. |
| BitmapFont.ParseI32 | src/ae3d/graphics/Text.rs:108-116 | `parse::<i32>` succeeds only within the 32-bit range. |
| BitmapFont.ParseUnsignedDecimal | src/ae3d/graphics/Text.rs:83-87 | Every decimal number up to the maximum reads back as itself. |
| BitmapFont.ParseI32Decimal | src/ae3d/graphics/Text.rs:108-116 | Every 32-bit number, written in decimal with `-` when negative, reads back as itself. |
| BitmapFont.ParseRejects | src/ae3d/graphics/Text.rs:55-59 | An empty string, a lone sign, a negative or an out-of-range number fails, which is where `unwrap` panics. `+255` reads as 255. |
| BitmapFont.LastNamed | src/ae3d/graphics/Text.rs:43-68 | The element whose assignment survives is the last top-level element with that name. `None` means there is no such element. |
| BitmapFont.GlyphOf | src/ae3d/graphics/Text.rs:81-124 | A glyph's advance fits a `u8` and its offsets fit an `i32`, as their `parse` types demand. |
| BitmapFont.InsertGlyphsKeys | src/ae3d/graphics/Text.rs:79-125 | The glyph table has a key exactly when some `char` element carries that id. |
| BitmapFont.InsertGlyphsLastWins | src/ae3d/graphics/Text.rs:81-124 | The glyph stored under an id is that of the last `char` element with that id. |
| BitmapFont.InsertGlyphsAppend | src/ae3d/graphics/Text.rs:79-125 | Two `chars` elements insert as their concatenation does. |
| BitmapFont.InsertChars | src/ae3d/graphics/Text.rs:81-124 | The `char` loop inserts every glyph by id, in order. |
| BitmapFont.PageDir | src/ae3d/graphics/Text.rs:71-72 | The page directory is a prefix of the font path that ends in `/`, with no `/` after it in the path. |
| BitmapFont.PageDirectory | src/ae3d/graphics/Text.rs:71-72 | The popping loop stops at the path's directory. It requires a `/` in the path, without which it panics. |
| BitmapFont.PagePath | src/ae3d/graphics/Text.rs:69-78 | The page path is the font's directory followed by the first page's `file`, which is empty when that attribute is missing. |
| BitmapFont.Apply | src/ae3d/graphics/Text.rs:45-125 | One element keeps every cache entry and adds at most one. Only `pages` touches the cache and the page, only `chars` the glyph table, and nothing sets `base`. |
| BitmapFont.LoadAll | src/ae3d/graphics/Text.rs:45-125 | The element loop only grows the cache, by at most one entry per element, and never sets `base`. |
| BitmapFont.LoadAllHeader | src/ae3d/graphics/Text.rs:46-59 | The name comes from the last `info` and the height from the last `common`. `base` stays 0. |
| BitmapFont.LoadAllGlyphs | src/ae3d/graphics/Text.rs:79-125 | The glyph table is every `char` of every `chars` element inserted in document order. |
| BitmapFont.LoadAllPages | src/ae3d/graphics/Text.rs:69-78 | Every `pages` element requests its texture path from the cache in order. The page is the last id returned, else 0. |
| BitmapFont.Load | src/ae3d/graphics/Text.rs:32-131 | An unreadable or malformed file gives `Font::new()` and leaves the cache unchanged. Otherwise font and cache are those of the element loop, and the cache keeps one entry per path. |
| BitmapFont.LoadElement | src/ae3d/graphics/Text.rs:45-125 | One pass of the element loop acts as `Apply`. |
| BitmapFont.Key | src/ae3d/graphics/Text.rs:135 | `c as u16` is below 0x10000 and equals the code point inside the Basic Multilingual Plane. |
| BitmapFont.GetGlyph | src/ae3d/graphics/Text.rs:133-136 | Returns a stored glyph. Its key must be present, because a missing glyph panics. |
| BitmapFont.GetGlyphTruncates | src/ae3d/graphics/Text.rs:135 | A character 0x10000 above another shares its glyph. |
| BitmapFont.LoadedGlyph | src/ae3d/graphics/Text.rs:79-136 | On a loaded font, `getGlyph(c)` is the glyph of the last `char` element whose id is `c`'s key. |
| TextureCache.Find | src/ae3d/Assets.rs:125-128 | Misses exactly when no entry has the path. A hit returns the id of an entry with that path. |
| TextureCache.Request | src/ae3d/Assets.rs:121-132 | A request keeps every entry and adds at most one, after which the path is cached with the id returned. The cache is unchanged exactly when the path was already cached. |
| TextureCache.FindAppend | src/ae3d/Assets.rs:129-130 | Appending an entry answers only for its own path, and only if that path was not cached before. |
| TextureCache.FindPrefix | src/ae3d/Assets.rs:125-130 | A path found in the cache keeps its id however the cache grows afterwards. |
| TextureCache.FindFirst | src/ae3d/Assets.rs:125-128 | The first entry with a path answers for it. |
| TextureCache.RequestExtends | src/ae3d/Assets.rs:121-132 | A request keeps every entry in place and adds at most one, and paths stay distinct. The path is then cached under the id returned. |
| TextureCache.RequestCaches | src/ae3d/Assets.rs:121-132 | After a request the old cache is a prefix of the new one, and the path is cached under the id returned. |
| TextureCache.RequestAgain | src/ae3d/Assets.rs:121-132 | Requesting the same path again returns the same id and leaves the cache unchanged, whatever the loader would return now. |
| TextureCache.FailedLoadIsCached | src/ae3d/Assets.rs:129-131 | A failed load caches id 0, so that path is never retried. |
| TextureCache.RequestAllKeeps | src/ae3d/Assets.rs:121-132 | Over any series of requests, paths stay distinct and earlier entries are never altered, removed or reordered. At most one entry is added per request, and every requested path is cached under the id it was given. |
| TextureCache.RequestAllGrows | src/ae3d/Assets.rs:121-132 | Over a series of requests, the cache only grows, by at most one entry per request, with distinct paths. |
| TextureCache.RequestAllFinds | src/ae3d/Assets.rs:121-132 | After a series of requests, every requested path is found under the id it was given. |
| TextureCache.Cache.constructor | src/ae3d/Assets.rs:119 | The cache starts empty. |
| TextureCache.Cache.Lookup | src/ae3d/Assets.rs:125-128 | The scan that opens `getTexture` finds the cached id of a path, if any. `GetTexture` returns it on a hit. |
| TextureCache.Cache.GetTexture | src/ae3d/Assets.rs:121-132 | A hit returns the cached id without calling the loader. A miss calls the loader once, appends exactly one entry and returns its id. The cache keeps at most one entry per path, and the loader is called once per entry. |
| Scene.DrawNode | src/ae3d/graphics/UI.rs:595-643 | On a drawable tree (every `i` slot has an image with an `anim` file), drawing keeps the tree's size, the node's number of children, and drawability. |
| Scene.Slots | src/ae3d/graphics/UI.rs:613-642 | On a drawable node, drawing the slots keeps the tree's size, the node's number of children, and drawability. |
| Scene.Slot | src/ae3d/graphics/UI.rs:613-622 | On a drawable node, one slot keeps the tree's size, the node's number of children, drawability and the node's order. |
| Scene.DrawChildren | src/ae3d/graphics/UI.rs:617-620 | Drawing drawable children keeps their number, sizes and drawability. |
| Scene.DrawNodeFacts | src/ae3d/graphics/UI.rs:595-643 | After a draw the node is initialised with a fresh model and nothing else of its own changed. The trace opens with the executor set to the node and its script run. Every script runs right after the executor is set to its node, and the trace stays in the node's subtree. The executor ends at the node exactly when no child is drawn, and otherwise inside the first child's subtree. |
| Scene.SlotsFacts | src/ae3d/graphics/UI.rs:613-642 | The slots change only the node's children. Their trace stays in the subtree and touches the node itself only to draw image or text. It moves the executor, into the children, exactly when a child slot exists and there are children. |
| Scene.SlotFacts | src/ae3d/graphics/UI.rs:613-622 | An `i` or `t` slot draws only content. A `c` slot with children starts at the last child and leaves the executor in a child's subtree. Any other character does nothing. |
| Scene.DrawChildrenFacts | src/ae3d/graphics/UI.rs:617-620 | Children are drawn from last to first, each trace strictly below the parent. The executor ends in the first child's subtree. |
| Scene.DrawNodeExecs | src/ae3d/graphics/UI.rs:595-643 | Drawing a node keeps the shape of its subtree, so every path that names a node before the draw names one after it, and no other path does. Every node the trace sets the executor to is `path + q` with `q` a node of the subtree. |
| Scene.SlotsExecs | src/ae3d/graphics/UI.rs:613-642 | The slots keep the node's shape and set the executor only to nodes of its subtree. |
| Scene.SlotExecs | src/ae3d/graphics/UI.rs:613-622 | One slot keeps the node's shape and sets the executor only to nodes of its subtree. |
| Scene.DrawChildrenExecs | src/ae3d/graphics/UI.rs:617-620 | Drawing children keeps each child's shape and sets the executor only to nodes below the parent. |
| Scene.LastExecIsExec | src/ae3d/graphics/UI.rs:597 | Where the executor ends is where some step of the trace set it. |
| Scene.DrawNodeExecutor | src/ae3d/graphics/UI.rs:595-643 | After a node is drawn, the executor is set and names a node of the drawn subtree, which keeps the shape it had. |
| Scene.AtShape | src/ae3d/graphics/UI.rs:138-202 | Trees of one shape have the same paths, in both directions, and the nodes at a path have one shape again. |
| Scene.PutShape | src/ae3d/graphics/UI.rs:138-202 | Replacing a node by one of the same shape keeps the shape of the whole tree. |
| Scene.DrawNodeOwnEvents | src/ae3d/graphics/UI.rs:597-610 | A node's own `Init` runs exactly on its first draw and `Update` on every later one. Its model is recomputed exactly when its own flag is set. |
| Scene.InitOnce | src/ae3d/graphics/UI.rs:598-610 | A second draw with no setter in between runs `Update`, never `Init`, and recomputes nothing. |
| Scene.SlotsBackwards | src/ae3d/graphics/UI.rs:613-642 | Slots run in index order 2, 1, 0. With order "itx", the unknown third slot draws nothing, then the text is drawn, then the image. |
| Scene.OrderOf | src/ae3d/graphics/UI.rs:559-564 | For each slot k below 3, the slot is the k-th character of `order` when `order` has one. Otherwise it is the k-th character of "itc", which is also the order used when `order` is absent. |
| Scene.OrderExamples | src/ae3d/graphics/UI.rs:559-564 | An empty order gives the default "itc". "tic" swaps image and text. Defaults apply per missing character, so "c" draws the children both first and last, and "ti" gives t, i, c. |
| Scene.LastNamedChild | src/ae3d/graphics/UI.rs:566-590 | The `image` or `text` whose content survives is the last such child element. |
| Scene.ParseObject | src/ae3d/graphics/UI.rs:457-593 | A non-`object` element gives `Object::new`. Any parsed node is uninitialised with a stale model. |
| Scene.ParseChildren | src/ae3d/graphics/UI.rs:566-590 | At most one child node per child element. |
| Scene.ParsedIsFresh | src/ae3d/graphics/UI.rs:457-593 | No node of a freshly parsed tree is initialised and every model is stale. |
| Scene.ParseNode | src/ae3d/graphics/UI.rs:566-590 | The parse loop, recursing into `object` children, builds exactly `ParseObject`. |
| Scene.GetAngleAsWrittenMismatch | src/ae3d/graphics/UI.rs:228-233 | As written, `getAngleFN` reports more results than it pushes. |
| Scene.UpdateModel | src/ae3d/graphics/UI.rs:647-657 | `updateModel` clears the dirty flag. |
| Scene.SetPosition | src/ae3d/graphics/UI.rs:138-147 | Marks the model stale and changes only the position, which `getPosition` reads back as set. |
| Scene.SetScale | src/ae3d/graphics/UI.rs:148-157 | Marks the model stale and changes only the scale, which `getScale` reads back as set. |
| Scene.SetOrigin | src/ae3d/graphics/UI.rs:158-167 | Marks the model stale and changes only the origin, which `getOrigin` reads back as set. |
| Scene.SetAngle | src/ae3d/graphics/UI.rs:168-175 | Marks the model stale and changes only the angle, which the corrected `getAngle` reads back as set. |
| Scene.Translate | src/ae3d/graphics/UI.rs:176-185 | Marks the model stale and changes only the position, which reads back as the old one plus the offset. |
| Scene.Rotate | src/ae3d/graphics/UI.rs:186-193 | Marks the model stale and changes only the angle, which reads back as the old one plus the increment. |
| Scene.Scale | src/ae3d/graphics/UI.rs:194-203 | Marks the model stale and changes only the scale, which reads back multiplied component-wise by the factors. |
| Scene.GetPosition | src/ae3d/graphics/UI.rs:204-211 | Reports exactly as many results as it pushes. |
| Scene.GetScale | src/ae3d/graphics/UI.rs:212-219 | Reports exactly as many results as it pushes. |
| Scene.GetOrigin | src/ae3d/graphics/UI.rs:220-227 | Reports exactly as many results as it pushes. |
| Scene.GetAngle | src/ae3d/graphics/UI.rs:228-233 | The corrected `getAngleFN` reports exactly the one result it pushes. |
| Scene.SetterRefreshesModel | src/ae3d/graphics/UI.rs:610 | A setter's change is recomputed at that node's next draw. A node whose model is up to date is not recomputed. |
| Scene.ButtonName | src/ae3d/graphics/UI.rs:309-317 | Every button's name maps back to that button; the empty name of `Unknown` maps to `Unknown`. |
| Scene.ButtonNamesRoundTrip | src/ae3d/graphics/UI.rs:309-317 | A name reaches a button only if it is that button's own name. Anything else is `Unknown`. |
| Scene.MousePressed | src/ae3d/graphics/UI.rs:301-321 | When SDL does not report the unknown button as held, a name is pressed exactly when some held button carries that name. |
| Scene.MouseJustPressed | src/ae3d/graphics/UI.rs:323-345 | False without a mouse record. For a record of a known button, true exactly when the name is that button's. |
| Scene.KeyPressed | src/ae3d/graphics/UI.rs:347-361 | True exactly when the scancode SDL gives for the name is held. The name must be known, because `from_name(..).unwrap()` panics otherwise. |
| Scene.KeyJustPressed | src/ae3d/graphics/UI.rs:363-383 | True exactly when the frame's key record is for the named key and is a press, repeated or not. A release never counts. |
| Scene.KeyJustPressedOverFrame | src/ae3d/graphics/UI.rs:363-383 | `keyJustPressed` holds exactly when the frame's last key event is a key-down of the named key, repeated or not. |
| Scene.MouseJustPressedOverFrame | src/ae3d/graphics/UI.rs:323-345 | `mouseJustPressed` holds exactly when the frame's last button event, press or release, is for the named button. |
| Scene.Apply | src/ae3d/graphics/UI.rs:138-202 | Every setter marks the model stale and leaves children, init flag and order alone. |
| Scene.DrawableAt | src/ae3d/graphics/UI.rs:53-84 | Every node of a drawable tree is drawable, so the executor's node can be drawn. |
| Scene.DrawablePut | src/ae3d/graphics/UI.rs:53-84 | Replacing a node of a drawable tree by a drawable node keeps the tree drawable. |
| Scene.UI.constructor | src/ae3d/graphics/UI.rs:675-689 | The root is `Object::new` and the executor is null and not live. |
| Scene.UI.Load | src/ae3d/graphics/UI.rs:711-719 | A missing file leaves the UI as it was. Otherwise the root is the parsed tree, which has never been drawn. The executor is not reset and, since it points into the dropped tree, is no longer live. |
| Scene.UI.Draw | src/ae3d/graphics/UI.rs:730-736 | On a drawable root, drawing in place gives the tree and trace of `DrawNode` and keeps the tree drawable. The executor ends set and live: at the root exactly when it draws no child, and otherwise in the first child's subtree. The tree keeps its shape, and the executor names a node of the drawn tree. |
| Scene.UI.DrawObject | src/ae3d/graphics/UI.rs:595-643 | On a drawable node, the in-place draw equals `DrawNode`, and the executor is left at the last node pointed to. |
| Scene.UI.DrawSlot | src/ae3d/graphics/UI.rs:613-622 | On a drawable node, one slot drawn in place equals `Slot`. The executor moves only if the slot drew children. |
| Scene.UI.DrawChildrenLoop | src/ae3d/graphics/UI.rs:617-620 | On drawable children, the reverse child loop equals `DrawChildren`, and the executor moves only when there are children. |
| Scene.UI.Bind | src/ae3d/graphics/UI.rs:138-202 | Requires a live executor, one set by a draw since the last load. A setter called by a script acts on the executor's node and nowhere else in the tree. It keeps a drawable tree drawable, keeps the tree's shape, and the executor still names a node, so further setters can follow. |
| Input.Discriminant | src/ae3d/Window.rs:6-12 | The four actions have the discriminants 0 to 3. |
| Input.ActionEq | src/ae3d/Window.rs:14-20 | Comparing discriminants is exactly equality of actions. |
| Input.KeyRecord | src/ae3d/Window.rs:222-239 | A key-down gives `Pressed` or `PressedRepeat` and a key-up `Released` or `ReleasedRepeat`, by the repeat flag. The record keeps the scancode. |
| Input.MouseRecord | src/ae3d/Window.rs:240-257 | A button record keeps button and position. A release records 0 clicks. |
| Input.LastKey | src/ae3d/Window.rs:217-239 | After a frame there is no key record exactly when it had no key event. Otherwise the record is that of the frame's last key event. |
| Input.LastMouse | src/ae3d/Window.rs:240-257 | After a frame there is no mouse record exactly when it had no button event. Otherwise the record is that of the frame's last button event. |
| Input.LastKeyAppend | src/ae3d/Window.rs:217-239 | Over two batches of events, the later batch's key record wins when it has one. |
| Input.LastMouseAppend | src/ae3d/Window.rs:240-257 | Over two batches of events, the later batch's mouse record wins when it has one. |
| Input.FoldStep | src/ae3d/Window.rs:217-275 | One more event updates the records and the quit flag as the event loop does. |
| Window2d.ActionNe | src/ae2d/Window.rs:12-22 | `ne` is the negation of `eq` and exactly inequality of actions. |
| Window2d.Window.constructor | src/ae2d/Window.rs:60-79 | A new window is running, with no subsystems, no records and zero times. |
| Window2d.Window.Create | src/ae2d/Window.rs:92-108 | `create` starts the clock at the counter's value. |
| Window2d.Window.Update | src/ae2d/Window.rs:110-163 | Both records are cleared and then hold the frame's last key and button events. `running` is cleared exactly by a Quit and never set back. Delta time is the counter difference over the frequency. |
| Window2d.Window.Close | src/ae2d/Window.rs:215 | `close` stops the window. |
| Window3d.SetChannel | src/ae3d/Window.rs:197-202 | A channel entry sets exactly that channel to its byte and leaves the other three. Any other key changes nothing. |
| Window3d.ValueOf | src/ae3d/Window.rs:192-203 | A colour with no channel entries stays opaque black. |
| Window3d.ValueChannels | src/ae3d/Window.rs:192-203 | Each channel of a colour comes from the last entry naming it. Colours default to opaque black. |
| Window3d.ColorOf | src/ae3d/Window.rs:190-204 | A palette entry is named by its key, and its channels are as in `ValueChannels`. |
| Window3d.PaletteOf | src/ae3d/Window.rs:190-205 | A palette file gives one colour per entry, in file order. |
| Window3d.ReadColor | src/ae3d/Window.rs:192-203 | The channel loop builds `ColorOf`. |
| Window3d.FirstColor | src/ae3d/Window.rs:323-330 | Gives transparent black when no entry has the name, else the value of the first entry with it. |
| Window3d.FirstColorAppend | src/ae3d/Window.rs:323-330 | Colours appended later never shadow a name already present. A name not present is looked up in the appended colours. |
| Window3d.Window.constructor | src/ae3d/Window.rs:67-90 | A new window is running, with no records, zero times, a black clear colour and an empty palette. |
| Window3d.Window.Update | src/ae3d/Window.rs:208-276 | Both records are cleared and then hold the frame's last key and button events. `running` is cleared exactly by a Quit. Delta time is the counter difference over the frequency. Window events change nothing modelled. |
| Window3d.Window.Close | src/ae3d/Window.rs:353 | `close` stops the window. |
| Window3d.Window.LoadColors | src/ae3d/Window.rs:183-206 | A missing file leaves the palette unchanged. Otherwise the file's colours are appended in file order. |
| Window3d.Window.GetColor | src/ae3d/Window.rs:323-330 | Returns the first entry with the name, else transparent black, without modifying the palette. |
| Window3d.LoadKeepsKnownColors | src/ae3d/Window.rs:183-206 | Loading a palette never changes what an already-known name resolves to. |
| Sdl.RectNew | src/ae2d/Sprite.rs:44 | `Rect::new` keeps the position and turns a zero width or height into 1, so every rectangle is non-empty. |
| Sdl.SizePositive | src/ae3d/graphics/Sprite.rs:136-140 | Every rectangle's size is positive, so `scaleToSize` can divide by it. |
| Sprite2d.Trunc | src/ae2d/Sprite.rs:67-68 | `f64 as i32` truncates toward zero on both sides. |
| Sprite2d.TruncExamples | src/ae2d/Sprite.rs:67-73 | 2.7 becomes 2, -2.7 becomes -2, and ±0.5 become 0. |
| Sprite2d.Sprite.constructor | src/ae2d/Sprite.rs:22-36 | A new sprite has no texture, scale 1, absolute origin 0 and no relative origin, and is not animated. |
| Sprite2d.Sprite.LoadTexture | src/ae2d/Sprite.rs:37-46 | A failed load drops the texture and changes nothing else. A successful one shows the whole texture and leaves animation mode. Transform and origins are kept. |
| Sprite2d.Sprite.Draw | src/ae2d/Sprite.rs:48-78 | Draws nothing when animated or without a texture. Otherwise it copies the texture rectangle to the truncated position minus the truncated origin, rotated about the origin. An axis with negative scale is mirrored. The canvas scale is non-negative, and with the mirroring applied it gives back the scale exactly. |
| Sprite2d.Sprite.GetTextureSize | src/ae2d/Sprite.rs:80-88 | Returns the size recorded at load, which the sprite's invariant ties to the loaded texture's width and height. A texture must be loaded, because `unwrap` panics otherwise. |
| Sprite2d.Sprite.ScaleToSize | src/ae2d/Sprite.rs:90-97 | The new scale stretches the texture rectangle to exactly the requested size. |
| Sprite2d.Sprite.SetAbsoluteOrigin | src/ae2d/Sprite.rs:107 | Sets the absolute origin and clears the relative one. `getOrigin` and draw then use it as given. |
| Sprite2d.Sprite.SetRelativeOrigin | src/ae2d/Sprite.rs:108 | Sets the relative origin and clears the absolute one. `getOrigin` returns it unscaled, and only draw scales it by the rectangle. |
| Sprite2d.Sprite.SetTextureRect | src/ae2d/Sprite.rs:99-100 | The getter reads back the rectangle set, and no other field changes. |
| Sprite2d.Sprite.SetPosition | src/ae2d/Sprite.rs:101-102 | The getter reads back the position set, and no other field changes. |
| Sprite2d.Sprite.SetScale | src/ae2d/Sprite.rs:103-104 | The getter reads back the scale set, and no other field changes. |
| Sprite2d.Sprite.SetRotation | src/ae2d/Sprite.rs:105-106 | The getter reads back the angle set, and no other field changes. |
| Sprite3d.Sprite.constructor | src/ae3d/graphics/Sprite.rs:21-36 | A new sprite has no texture, scale 1, absolute origin 0, no relative origin and a fresh animator, and is not animated. |
| Sprite3d.Sprite.LoadTexture | src/ae3d/graphics/Sprite.rs:37-47 | A failed load drops the texture and changes nothing else. A successful one shows the whole texture, leaves animation mode and resets the animator. |
| Sprite3d.Sprite.LoadAnimator | src/ae3d/graphics/Sprite.rs:49-55 | Resets the texture rectangle, drops the texture, loads the animator and enters animation mode. |
| Sprite3d.Sprite.GetTextureSize | src/ae3d/graphics/Sprite.rs:107-115 | Returns the size recorded at load, which the sprite's invariant ties to the loaded texture's width and height. A texture must be loaded. |
| Sprite3d.Sprite.Bounds | src/ae3d/graphics/Sprite.rs:119-134 | The bounds are the current animation frame's size when animated, else the texture rectangle's, and both are positive. |
| Sprite3d.Sprite.ScaleToSize | src/ae3d/graphics/Sprite.rs:117-141 | The new scale stretches the bounds to exactly the requested size. |
| Sprite3d.Sprite.SetAbsoluteOrigin | src/ae3d/graphics/Sprite.rs:179 | Sets the absolute origin and clears the relative one. `getOrigin` then returns it. |
| Sprite3d.Sprite.SetRelativeOrigin | src/ae3d/graphics/Sprite.rs:180 | Sets the relative origin and clears the absolute one. `getOrigin` then returns the bounds times it. |
| Sprite3d.RelativeOriginExample | src/ae3d/graphics/Sprite.rs:143-166 | The centre fraction of a 4×2 rectangle is the point (2, 1). |
| Sprite3d.Sprite.MoveBy | src/ae3d/graphics/Sprite.rs:168 | Adds to the position only. |
| Sprite3d.Sprite.Rotate | src/ae3d/graphics/Sprite.rs:169 | Adds to the rotation only. |
| Sprite3d.Sprite.Scale | src/ae3d/graphics/Sprite.rs:170 | Adds to the scale only; it does not multiply. |
| Sprite3d.Sprite.SetTextureRect | src/ae3d/graphics/Sprite.rs:171-172 | The getter reads back the rectangle set, and no other field changes. |
| Sprite3d.Sprite.SetPosition | src/ae3d/graphics/Sprite.rs:173-174 | The getter reads back the position set, and no other field changes. |
| Sprite3d.Sprite.SetScale | src/ae3d/graphics/Sprite.rs:175-176 | The getter reads back the scale set, and no other field changes. |
| Sprite3d.Sprite.SetRotation | src/ae3d/graphics/Sprite.rs:177-178 | The getter reads back the angle set, and no other field changes. |
| Json.LastValue | src/ae3d/graphics/FrameAnimation.rs:36-53 | An entry loop that assigns on a key match leaves the value of the last entry with that key. It finds one exactly when such an entry exists. |
| Json.LastValueStep | src/ae3d/graphics/FrameAnimation.rs:45-49 | One more entry wins exactly when it carries the key. |
| Json.AsIntIn | src/ae3d/graphics/FrameAnimation.rs:39 | The integer conversions accept only an integral number inside the type's range, and return it unchanged. |
| Json.AsU8 | src/ae3d/graphics/FrameAnimation.rs:47 | `as_u8` succeeds exactly on an integral number from 0 to 255. |
| Xml.AttFound | src/ae3d/graphics/Text.rs:48-51 | An attribute is found exactly when the element carries it, and the value found is one it carries. |

## Left out

- SDL, OpenGL and the GPU are not modelled: windows, canvases, texture creators, GL contexts, shaders, `bindTexture`, `Window::init/clear/display/getSize/setSize`, and `loadTexture` behind the cache. Texture ids are naturals, and the loader is the parameter `loader`. In the sprites a loaded texture is the value its query reports.
- The Lua scripts are not modelled. Running `Init` and `Update` is an opaque trace event, and the setter and getter bindings take their numbers as parameters instead of reading the Lua stack. `Scene.UI.Bind` applies a setter between draws. A setter called while a script runs, in the middle of a draw, is not modelled.
- Matrix arithmetic is not modelled: `updateModel`'s matrix, `updateView`, `Image::getBounds` and `imageBoundsFN`/`textBoundsFN`. Only the dirty flag and when it is cleared are modelled. Colour conversion to GL floats is not modelled either.
- FrameAnimation.Animator.CalculateFrames: cells are kept in pixels. The division by the atlas size into texture coordinates is not modelled.
- BitmapFont.Load: glyph rectangles are kept in pixels. The division by `scaleW`/`scaleH` is not modelled.
- File reading, the `json` crate and the `spex` XML reader are not modelled. `Animation::parse`, `Font::load`, `Object::parse`, `UI::load` and `loadColors` start from already-parsed values. A failed read is `None` or a `FontSource` case.
- `Animator::load`, which reads the animator description file, is not modelled. In the 3D sprite the animator is the opaque `AnimatorState`, and the size of its current frame is the parameter `frameOf`. The 3D sprite's `draw`, which updates and draws through that animator, is left out with it.
- Text rendering is not modelled: the 2D `Text::loadFont` and `draw`, and the 3D `Text` behind UI nodes. A node keeps the XML element its image or text came from.
- Scene.ParseObject: keeps the last `text` element. The source applies each `text` element's font, size and string to one text object in turn, and the model does not follow that.
- BitmapFont.GlyphOf: floating-point attributes go through the parameter `parseFloat`, which stands for `str::parse::<f32>`.
- Json.AsF32: numbers are reals, and rounding to `f32`/`f64` is not modelled anywhere. This applies to times, scales, positions and glyph rectangles.
- Sprite2d.Trunc: does not model the saturation of `f64 as i32` at the 32-bit bounds. Positions are assumed to be in range.
- Sdl.RectNew: does not model the crate's clamp of sizes above `i32::MAX`.
- Window2d.Window.Update: requires a positive performance-counter frequency, which SDL guarantees. The same holds for `Window3d.Window.Update`.
- The window singletons (`getInstance`) are single class instances. `isKeyPressed`/`isMousePressed` are the sets of held keys and buttons passed to `Scene.KeyPressed`/`Scene.MousePressed`. `Scancode::from_name` is the parameter `fromName`.
- Keyboard modifiers and scancodes are opaque numbers, and the mouse position is the event's integer pixels.
- Scene.Slot: an `i` slot stands for `Image::draw`, which also steps the image's animator, once per `i` in the order. The animator's state is not modelled. `Drawable` captures only a missing image element or `anim` attribute; the panics of an unreadable animator file, one with no animations, an empty timeline in an animation that is not frozen, or a frame id out of range are not captured.
- FrameAnimation.Animator.CurrentFrame: the empty-state result is the zero rectangle `NoCell`. Any normalisation of a zero size by the crate's `FRect::new` is not modelled.
- FrameAnimation.Animator.CalculateFrames: the `i32` overflow of `x += frame.x` and `y += frame.y` near `i32::MAX` is not modelled. Offsets are unbounded integers.

## Where the code and the usual expectation differ

The model follows the code in each case:

- `Animation::update` advances at most one frame per call. There is no catch-up loop for a `dt` longer than a frame.
- A counted animation does not cycle `repeat` times. Past its last frame it stays on that frame, and each call counts one more repetition until the count is reached.
- `Font::getGlyph` has no default glyph. A missing glyph panics, so presence is a precondition.
- The markup scanner has no `^()` style reset and no `clr=` colour directive. Unknown tokens are ignored.

## Findings

| source | as written | input that shows it | evidently intended | confidence | as-written member | corrected member |
|---|---|---|---|---|---|---|
| src/ae3d/graphics/UI.rs:228-233 | `getAngleFN` pushes one number but returns 2, so Lua takes a second result from a stack slot the function never pushed | any node: a script calling `getAngle()` receives two values | push the angle and return 1, like the other getters that return what they push | not executed | Scene.GetAngleAsWrittenMismatch | Scene.GetAngle |
| src/ae3d/graphics/FrameAnimation.rs:183-192 | the row loop `while x < self.size.x` steps by `self.frame.x`, which stays 0 when the animator file gives no usable `frame.x` (`unwrap_or(0)` at line 136), so the loop never ends | an animator file whose `frame` object has no `x`, read after a `size` with a positive `x` and a positive `y` | refuse to slice, or skip slicing, when a cell dimension is not positive | not executed | FrameAnimation.SliceLoopNeverExits | FrameAnimation.Animator.CalculateFrames |
