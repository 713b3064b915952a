# toon, modelled in Dafny

toon is a Rust library for building terminal user interfaces out of
composable *elements*. An element draws itself onto an `Output`, reports
the size it would like, and turns user input (keys and mice) into
events. Elements are combined by *containers*: rows and columns laid out
by the static, stretch and flow layouts, and stacks. They are wrapped by
*filters*: border, float, tile, scroll and size. The `Terminal` keeps the
previous frame in a `Buffer`, which is a grid of cells that knows about
double-width characters. After each frame it sends the backend only the
difference between the two frames. The `Dummy` backend records every
operation and replays it onto its own buffer.

This project models that core as pure functions over immutable
datatypes, and proves the following about it:

- the buffer's line invariant (a double cell is always followed by a
  continuation cell) is kept by every resize and by every write once the
  double-width write is corrected. The double-width write as written in
  `src/buffer.rs` can break the invariant (see "## Findings"), so the
  grid, buffer and dummy are built on the corrected write;
- replaying the terminal's diff on a dummy that shows the old frame
  yields the new frame, again with the corrected double-width write.
  With the write as written, a wide character moving one column left
  makes the replay panic (`WideOrphan`);
- each container layout places the elements one after another; the
  stretch layout and the biased flow layouts fill the space they are
  given, while the unbiased flows stay within it and may leave a
  remainder;
- each filter's mouse mapping agrees with where it draws the element;
- properties of the smaller value types: vectors, styles, input patterns
  and the dev tools' state.

Conventions:

- `u16` is the subset type `U16`. The source's plain `+` and `-` are
  modelled as a release build's wrap-around (`WrapAdd`, `WrapSub`,
  `Wrap16`). Saturating operations are modelled as saturating
  (`SatAdd`, `SatSub`).
- A panic is the `Panic` case of `Result`.
- The Unicode width table is a parameter, `WidthFn`, from a character to
  `None` (a control character) or a width of 0, 1 or 2.
- Elements inside containers and filters are abstracted to what the
  container or filter asks of them: their size ranges, their ideal
  sizes, or the calls they make when drawn.

Modules follow the source files:

| module | file |
|---|---|
| `Common` | integer helpers |
| `Vectors` | `src/vec2.rs` |
| `Styles` | `src/style.rs` |
| `Inputs` | `src/input.rs` |
| `Outputs` | `src/output.rs` and `Output::write` / `Output::clear` in `src/lib.rs` |
| `Buffer` | `src/buffer.rs` |
| `Dummy` | `src/backend/dummy.rs` |
| `Terminal` | `Terminal::diff` in `src/terminal.rs` |
| `LineSync`, `RoundTrip` | the round trip of a diff replayed on a dummy |
| `CursorTracking` | a worked example of the terminal's stale cursor register |
| `WideOrphan` | a worked example of the double-width write reaching a replayed diff |
| `DiffGridScenario` | the frames and expected operations of `test_diff_grid` in `src/terminal.rs` |
| `Axes`, `Containers` | `container_1d/mod.rs` and `containers/mod.rs` |
| `StaticLayout`, `StretchLayout`, `Flow`, `OldFlow` | the layouts |
| `StackContainer` | `containers/stack.rs` |
| `Alignments`, `FloatFilter`, `TileFilter`, `ScrollFilter`, `BorderFilter`, `SizeFilter` | the filters |
| `Spans` | `src/elements/span.rs` |
| `DevTools` | `src/elements/dev.rs` |

The source has two generations of the container API:

- `containers/container_1d/*`: layouts over ideal sizes.
- `containers/*.rs`: layouts over `(min, max)` size ranges.

Both are modelled. `Flow` models `containers/container_1d/flow.rs`, and
`OldFlow` models `containers/flow.rs`.

## Model

| member | source | states |
|---|---|---|
| Common.SatAdd | src/elements/containers/mod.rs:465-469 | a saturating `u16` sum is the exact sum when it fits and `u16::MAX` otherwise |
| Common.SatSub | src/elements/filter/float.rs:40-41 | a saturating difference is the exact difference, or 0 when it would be negative |
| Common.WrapAdd | src/elements/containers/container_1d/mod.rs:174-181 | a plain `u16` addition in a release build: the exact sum, or the sum less 2^16 when it overflows |
| Common.WrapSub | src/terminal.rs:207-213 | a plain `u16` subtraction in a release build: the exact difference, or 2^16 more when it underflows |
| Common.SatSumIsCappedSum | src/elements/containers/mod.rs:465-469 | folding with `saturating_add` gives the true total capped at `u16::MAX` |
| Common.WrapSumIsSumModulo | src/elements/containers/container_1d/mod.rs:142-156 | folding with a wrapping `+` gives the true total modulo 2^16 |
| Common.MaxOf | src/elements/containers/mod.rs:471-475 | the maximum of a list bounds every element and is one of them; 0 for an empty list |
| Vectors.Swap | src/vec2.rs:21-26 | swapping exchanges the two components |
| Vectors.Swapped | src/vec2.rs:29-31 | `swapped` returns the swapped vector |
| Vectors.SwapInvolution | src/vec2.rs:21-31 | swapping twice gives back the vector |
| Vectors.Map | src/vec2.rs:34-39 | `map` applies the function to each component |
| Vectors.Zip | src/vec2.rs:54-60 | `zip` pairs the components axis by axis |
| Vectors.BothSome | src/vec2.rs:77-82 | `both_some` is `Some` exactly when both components are, holding their values |
| Vectors.VMin | src/vec2.rs:100-106 | the component-wise minimum is below both inputs and equals one of them on each axis |
| Vectors.VMax | src/vec2.rs:107-113 | the component-wise maximum is above both inputs and equals one of them on each axis |
| Vectors.MinMax | src/vec2.rs:116-128 | `min_max` is the pair (component-wise minimum, component-wise maximum) |
| Vectors.AddSubInverse | src/vec2.rs:130-200 | component-wise subtraction undoes addition and addition undoes subtraction; addition commutes |
| Vectors.TupleRoundTrip | src/vec2.rs:213-223 | converting to a tuple and back, in either order, is the identity |
| Vectors.WrapAddVec | src/output.rs:112-121 | adding `u16` vectors gives the exact sum on each axis that does not overflow |
| Styles.DefaultColor | src/style.rs:92-96 | the default color is the terminal's default |
| Styles.NewAttributes | src/style.rs:164-173 | new attributes have normal intensity and no italic, underline, blinking or crossing-out |
| Styles.AnsiRgb | src/style.rs:76-79 | an RGB triple maps into the colour cube 16..231 at 16 + 36r + 6g + b, and panics exactly when a component exceeds 5 |
| Styles.AnsiRgbInjective | src/style.rs:76-79 | distinct triples give distinct cube colours, so the triple can be read back |
| Styles.AnsiGrayscale | src/style.rs:86-89 | a shade maps into 232..255 and is recovered by subtracting 232; it panics exactly when the shade is 24 or more |
| Styles.Opposite | src/style.rs:123-129 | each channel of the opposite colour is 255 minus the original's |
| Styles.OppositeInvolution | src/style.rs:123-129 | taking the opposite twice gives back the colour |
| Styles.WithBold | src/style.rs:177 | `bold` sets the intensity to bold and changes nothing else |
| Styles.WithDim | src/style.rs:179 | `dim` sets the intensity to dim and changes nothing else |
| Styles.WithItalic | src/style.rs:181 | `italic` turns italic on and changes nothing else |
| Styles.WithUnderlined | src/style.rs:183 | `underlined` turns underlining on and changes nothing else |
| Styles.WithBlinking | src/style.rs:185 | `blinking` turns blinking on and changes nothing else |
| Styles.WithCrossedOut | src/style.rs:187 | `crossed_out` turns crossing-out on and changes nothing else |
| Styles.BuildersIdempotent | src/style.rs:149-188 | applying any of the six attribute builders (bold, dim, italic, underlined, blinking, crossed out) twice is the same as applying it once |
| Inputs.ToAsciiLower | src/input.rs:67-77 | ASCII upper-case letters move down by 32 and everything else is unchanged; the result is never upper-case |
| Inputs.AreNoneIffNoModifiers | src/input.rs:173-178 | `are_none` holds exactly for the modifiers with neither shift, control nor alt |
| Inputs.KeyPressFromChar | src/input.rs:67-77 | a character becomes its lower-case key, with shift exactly when it was an upper-case letter, and never control or alt |
| Inputs.KeyPressCaseFolding | src/input.rs:67-77 | an upper-case letter gives the same key as its lower-case form, but with shift |
| Inputs.AnyOfMatchesSome | src/input.rs:242-256 | a tuple of patterns matches an input exactly when one of its members does |
| Inputs.AnyMatchesSome | src/input.rs:242-256 | a list of patterns matches exactly when one pattern in it matches |
| Inputs.KeyPatternExact | src/input.rs:224-228 | a key pattern matches exactly that key pressed with no modifiers |
| Inputs.MouseKindPatternAnywhere | src/input.rs:230-234 | a mouse-kind pattern matches a mouse of that kind at any position and size, exactly when no modifier is held |
| Inputs.MouseButtonIsPress | src/input.rs:236-240 | a mouse-button pattern matches exactly what the press of that button matches |
| Inputs.CharPatternIsKeyPress | src/input.rs:36-40 | a character pattern matches exactly what the key press made from that character matches |
| Outputs.Printable | src/lib.rs:105-117 | `write` skips control characters: every character it keeps has a width, and it keeps no more than it was given |
| Outputs.Write | src/lib.rs:98-131 | every call `write` makes is a character write on the starting row, in the given style |
| Outputs.WritePlacesEachPrintable | src/lib.rs:105-117 | `write` writes each printable character in turn, at the start column plus the widths of those before it, modulo 2^16 |
| Outputs.ClearColumn | src/lib.rs:134-143 | one column of a clear writes a space in the clear style at each row from `y` down |
| Outputs.ClearCoversEveryCellOnce | src/lib.rs:134-143 | `clear` writes width × height spaces, all inside the output and in the clear style, and every cell gets one |
| Outputs.ClearFromCovers | src/lib.rs:134-143 | the columns from `x` on are cleared: one space per cell, every cell covered |
| Outputs.AreaCursor | src/output.rs:112-121 | an area passes the cursor on, shifted by its top-left corner, exactly when the cursor is inside the area; otherwise it hides it |
| Outputs.AreaCall | src/output.rs:97-121 | an area drops writes outside its size and shifts the others by its top-left corner; titles pass through and cursors are clipped |
| Outputs.AreaWritesStayInside | src/output.rs:102-106 | every write an area lets through lands inside the area on the parent output |
| Outputs.FocusedCall | src/output.rs:132-149 | an unfocused output drops exactly the title and cursor calls and passes everything else on unchanged |
| Outputs.FocusedCallsFilter | src/output.rs:132-149 | a focused output passes every call on, and an unfocused one passes exactly the writes, in order |
| Buffer.Demote | src/buffer.rs:211-221 | a cut-off double cell becomes a single space that keeps its style |
| Buffer.ContinuationAt | src/buffer.rs:382-418 | in a valid line a cell is a continuation exactly when the cell before it is double, and a double cell is never last |
| Buffer.Resize | src/buffer.rs:203-222 | a resized line has the new length; it keeps the old cells and pads with blanks, except that a double cell cut at the new end becomes a space |
| Buffer.NewLine | src/buffer.rs:175-181 | a new line is `len` blank cells |
| Buffer.ResizePreservesValid | src/buffer.rs:203-222 | resizing keeps the double/continuation invariant |
| Buffer.NewLineValid | src/buffer.rs:175-181 | a new line satisfies the invariant |
| Buffer.WriteZeroWidth | src/buffer.rs:237-241 | a zero-width character is appended to the cell it is written to when that holds a character; continuations and out-of-range columns are left alone |
| Buffer.WriteNarrow | src/buffer.rs:242-278 | a narrow character replaces its cell and touches only that cell's neighbours. Over a double cell, the continuation becomes a space. Over a continuation, the double cell before it becomes a space. A continuation with no double cell before it panics |
| Buffer.PlaceWide | src/buffer.rs:282-308 | placing a wide character sets the cell and a continuation after it. A continuation it lands on demotes the double cell before it. A continuation with no character before it panics |
| Buffer.WriteWideAsWritten | src/buffer.rs:282-320 | as written, when the cell after a wide character was double, the continuation just placed there becomes a space, and the old double cell's continuation is left behind |
| Buffer.WriteWide | src/buffer.rs:282-320 | a wide character fills its cell and the next. A double cell it overlaps from the left becomes a space. Nothing beyond one cell either side changes. It is ignored at the last column |
| Buffer.LineWriteChar | src/buffer.rs:229-325 | writing to a line ignores other rows and NUL, and otherwise goes by the character's width |
| Buffer.LineWriteCharAsWritten | src/buffer.rs:229-325 | the as-written line write, which differs only for wide characters |
| Buffer.AsWrittenAgreesOffBugPath | src/buffer.rs:309-320 | the as-written and corrected writes agree unless a wide character lands just before a double cell |
| Buffer.LineWriteCharPreservesValid | src/buffer.rs:229-325 | the corrected write never panics on a valid line and keeps it valid |
| Buffer.LineWriteCharAsWrittenPreservesValid | src/buffer.rs:229-325 | off the bug path the as-written write also never panics and keeps the line valid |
| Buffer.ZeroWidthPreservesValid | src/buffer.rs:237-241 | a zero-width write keeps the invariant |
| Buffer.NarrowPreservesValid | src/buffer.rs:242-278 | a narrow write on a valid line does not panic and keeps the invariant |
| Buffer.WidePreservesValid | src/buffer.rs:282-320 | a corrected wide write on a valid line does not panic and keeps the invariant |
| Buffer.AsWrittenBreaksInvariant | src/buffer.rs:309-320 | a concrete line on which the as-written wide write leaves a continuation after a narrow cell, which breaks the invariant |
| Buffer.ScenarioResize | src/buffer.rs:430-436 | the first step of the line test: a line resized to 5 is five blanks |
| Buffer.ScenarioWideAt0 | src/buffer.rs:438-441 | a wide character at column 0 fills columns 0 and 1 |
| Buffer.ScenarioWideOverWide | src/buffer.rs:443-446 | a wide character over the second half of another replaces it, shifted one column right |
| Buffer.ScenarioWideAtEdge | src/buffer.rs:448-451 | a wide character at the last column is ignored |
| Buffer.ScenarioNarrowOverWide | src/buffer.rs:453-456 | a narrow character over the continuation of a double cell turns that cell into a space |
| Buffer.ScenarioWideNextToNarrow | src/buffer.rs:458-461 | a wide character next to a narrow one leaves the narrow one alone |
| Buffer.ScenarioShrink | src/buffer.rs:463-466 | shrinking a line through a double cell turns it into a space |
| Buffer.ScenarioContents | src/buffer.rs:420-466 | the contents the line test expects at each step |
| Buffer.GridSize | src/buffer.rs:124-127 | a grid's size is its width by its number of lines |
| Buffer.GridResizeWidth | src/buffer.rs:98-107 | resizing the width resizes every line and keeps the number of lines |
| Buffer.GridResizeHeight | src/buffer.rs:109-116 | resizing the height keeps the first lines and adds blank lines of the grid's width |
| Buffer.GridResizePreservesValid | src/buffer.rs:98-116 | both resizes keep every line valid and of the grid's width |
| Buffer.NewGridValid | src/buffer.rs:70-77 | a new grid is valid, has the requested size and is blank everywhere |
| Buffer.GridWriteChar | src/buffer.rs:128-133 | a grid write (through the corrected line write) goes to row `pos.y` as a write at row 0 of that line; other rows are unchanged; rows past the end are ignored |
| Buffer.GridWriteCharPreservesValid | src/buffer.rs:128-133 | with the corrected wide write, grid writes never panic on a valid grid and keep it valid |
| Buffer.ApplyCall | src/buffer.rs:30-43 | a buffer stores titles and cursors it is given and forwards writes to its grid |
| Buffer.ApplyCallsPreservesValid | src/buffer.rs:30-43 | with the corrected wide write, any sequence of output calls on a valid buffer succeeds and leaves a valid grid of the same size |
| Buffer.WritesKeepTitleAndCursor | src/buffer.rs:34-36 | writes change only the grid, never the title or cursor |
| Buffer.BufferWrite | src/lib.rs:98-131 | writing text into a buffer keeps its title, cursor and size |
| Dummy.NewDummy | src/backend/dummy.rs:52-63 | a new dummy has no operations or events, no title, a blank grid of the given size, no cursor, the drawing position at the origin and the default style |
| Dummy.WriteText | src/backend/dummy.rs:209-222 | writing text draws it at the drawing position in the current style, then moves the position right by the text's width, capped at the grid's width. A shown cursor follows the position |
| Dummy.Apply | src/backend/dummy.rs:128-229 | every operation is logged, in order, and fails exactly when interpreting it fails |
| Dummy.ReplayLogsInOrder | src/backend/dummy.rs:128-229 | a successful replay logs exactly the replayed operations after the earlier ones |
| Dummy.ReplayAppend | src/backend/dummy.rs:128-229 | replaying two runs of operations is replaying the first and then the second |
| Dummy.StyleSettersChangeOneField | src/backend/dummy.rs:171-205 | each style setter changes exactly its own field of the current style |
| Dummy.SetCursorPosMoves | src/backend/dummy.rs:160-167 | setting the cursor position moves the drawing position and any shown cursor, and leaves the grid alone |
| Dummy.CursorVisibility | src/backend/dummy.rs:136-159 | hiding removes the cursor. Showing always succeeds. Setting shape or blinking succeeds exactly when a cursor is shown, and changes only that field |
| Dummy.InterpretKeepsCursorFollowing | src/backend/dummy.rs:128-229 | a shown cursor always sits at the drawing position, whatever the operation |
| Dummy.ReadEvent | src/backend/dummy.rs:241-254 | reading is pending exactly when no event is queued; otherwise the first event is returned and removed; a resize also resizes the grid's width and asks for a height taken from the new width |
| Dummy.ReadEventCorrected | src/backend/dummy.rs:241-254 | the same, with the height request taken from the new height |
| Dummy.ReadEventsAgree | src/backend/dummy.rs:246-249 | the two agree exactly when there is no event, the event is an input, or the new size is square |
| Dummy.ReadEventHeightFromWidth | src/backend/dummy.rs:249-252 | resizing a 5×3 dummy asks for height 5 as written, and 3 corrected |
| Terminal.Setter | src/terminal.rs:180-197 | a style attribute is sent exactly when it differs |
| Terminal.StyleOpsMembers | src/terminal.rs:180-197 | the style operations are the setters of exactly the attributes that differ between the register and the cell, with the cell's values |
| Terminal.StyleOpsSetters | src/terminal.rs:180-197 | each differing attribute is sent once |
| Terminal.StyleOpsOnlySetters | src/terminal.rs:180-197 | only style setters are sent, and nothing is sent when the styles agree |
| Terminal.StyleAfterAppend | src/terminal.rs:180-197 | the style reached after two runs of setters is the style reached after the first, then the second |
| Terminal.StyleOpsReachStyle | src/terminal.rs:180-197 | applying the style operations to the register gives exactly the cell's style |
| Terminal.ReplayStyleOps | src/backend/dummy.rs:171-205 | a dummy replaying style setters only logs them and changes its style to the one they reach |
| Terminal.CursorAfter | src/terminal.rs:207-213 | after a write, the tracked position moves right by the cell's width, capped at the last column, on the same row |
| Terminal.CellOpsEmits | src/terminal.rs:165-213 | an unchanged cell and a continuation emit nothing. A changed cell emits its style changes, a move only if the tracked position differs, and one write of its contents |
| Terminal.CellPos | src/terminal.rs:169 | cell coordinates within `u16` are used as they are |
| Terminal.CursorOps | src/terminal.rs:222-246 | the cursor part of a diff only shows, hides, shapes, sets blinking or moves the cursor |
| Terminal.CursorOpsSendDifferences | src/terminal.rs:222-246 | the cursor is hidden exactly when it went away and shown exactly when it appeared. Shape and blinking are sent when they changed. Nothing is sent when the cursor is unchanged and the tracker is on it |
| Terminal.DiffCorrectsOnlyTracker | src/terminal.rs:147-249 | the diff with the tracked position brought up to date sends the same operations as the diff as written; only the tracked position differs, and it follows a shown cursor |
| Terminal.DiffParts | src/terminal.rs:147-249 | a diff is the title change, then the cell operations, then a background reset, then the cursor operations |
| Terminal.TitleOnlyFirst | src/terminal.rs:150-152 | a title operation can only come first |
| Terminal.DiffTitle | src/terminal.rs:150-152 | the diff sets the title exactly when it changed, and as its first operation |
| Terminal.RowOpsKinds | src/terminal.rs:165-213 | the row part of a diff only sets styles, moves and writes |
| Terminal.GridOpsKinds | src/terminal.rs:155-215 | the grid part of a diff only sets styles, moves and writes |
| Terminal.EqualRowsEmitNothing | src/terminal.rs:165-177 | diffing a row against itself emits nothing and leaves the tracker alone |
| Terminal.EqualGridsEmitNothing | src/terminal.rs:155-215 | diffing a grid against itself emits nothing |
| Terminal.DiffOfEqualBuffers | src/terminal.rs:147-249 | diffing a frame against itself emits only the background reset |
| Terminal.DiffResetsBackground | src/terminal.rs:217-220 | the background is reset to the default after the cells, so the tracker's background ends as the default |
| Terminal.ClampCursor | src/terminal.rs:135-136 | after a resize the tracked cursor is clamped to the last row and column |
| Terminal.ClampCursorInside | src/terminal.rs:135-136 | a clamped cursor lies inside a non-empty screen, is unchanged if it was already inside, and clamping again changes nothing |
| LineSync.RowInvStart | src/terminal.rs:165-177 | before a row is diffed, the displayed row is the old row |
| LineSync.RowInvEnd | src/terminal.rs:165-213 | once every cell is done, the displayed row is the new row |
| LineSync.ContinuationsAgree | src/buffer.rs:382-418 | at a pending cell the display has a continuation exactly where the new row does |
| LineSync.SkipCell | src/terminal.rs:165-177 | a cell the diff skips already shows its new contents |
| LineSync.WriteNarrowCell | src/buffer.rs:242-278 | writing a changed narrow cell makes the displayed cell equal to the new one and keeps the rest of the row in step |
| LineSync.WriteWideCell | src/buffer.rs:282-320 | writing a changed wide cell makes it and its continuation equal to the new ones and keeps the rest in step |
| RoundTrip.ReplayWriteGlyph | src/backend/dummy.rs:209-222 | a dummy writing one glyph at its drawing position changes that grid row as a line write does and moves by the glyph's width |
| RoundTrip.ReplaySetup | src/terminal.rs:180-201 | the style and move operations before a write bring the dummy to the cell's style and position |
| RoundTrip.ReplayCell | src/terminal.rs:165-213 | with the corrected wide write, replaying one cell's operations brings the displayed row one cell further in step with the new row, and keeps the dummy's position in step with the tracker |
| RoundTrip.ReplayRow | src/terminal.rs:163-214 | with the corrected wide write, replaying a row's operations makes the displayed row equal the new row |
| RoundTrip.ReplayGrid | src/terminal.rs:155-215 | with the corrected wide write, replaying the grid operations makes the displayed grid equal the new grid |
| RoundTrip.ReplayCursorOps | src/terminal.rs:222-246 | replaying the cursor operations shows the new cursor, or none |
| RoundTrip.DiffRoundTrip | src/terminal.rs:147-249 | with the corrected wide write, replaying a diff on a dummy that shows the old frame gives the new grid, title and cursor, logs exactly the diff, and leaves the dummy's style and position in step with the tracker |
| CursorTracking.FrameOne | src/terminal.rs:222-246 | the first frame of the example sends the same operations as written and corrected, but only the corrected register records the cursor's move |
| CursorTracking.ReplayFrameOne | src/backend/dummy.rs:136-167 | the dummy then shows the cursor at column 1 and draws there |
| CursorTracking.FrameTwo | src/terminal.rs:199-205 | the second frame, as written, writes `a` without moving; corrected, it moves to column 0 first |
| CursorTracking.ReplayFrameTwoAsWritten | src/backend/dummy.rs:209-222 | as written, the `a` lands at column 1 |
| CursorTracking.ReplayFrameTwoCorrected | src/backend/dummy.rs:160-222 | corrected, the `a` lands at column 0 |
| CursorTracking.StaleTrackerMisplacesWrite | src/terminal.rs:241-243 | over two frames the as-written diff leaves the screen showing ` a` where the frame says `a `; the corrected diff shows the frame |
| Terminal.SameCellsEmitNothing | src/terminal.rs:165-177 | a run of cells equal in both frames adds no operations to a row's diff and leaves the tracker where it was |
| Terminal.SameRowsEmitNothing | src/terminal.rs:155-164 | a run of rows equal in both frames adds no operations to the grid's diff |
| DiffGridScenario.CutRowOps | src/terminal.rs:448-453 | in row 2 of `test_diff_grid`, the one changed cell sends the four setters of its style, a move to column 15 and the write of `a` |
| DiffGridScenario.FooRowOps | src/terminal.rs:454-458 | in row 5 of `test_diff_grid`, `foo` sends one foreground change, one move to column 1 and three writes, the second and third without a move |
| DiffGridScenario.FaceRowOps | src/terminal.rs:459-469 | in row 6 of `test_diff_grid`, the face moving one column right sends a space in the default style at column 3, then the face in the new style with no move |
| DiffGridScenario.DiffGridOps | src/terminal.rs:372-472 | the diff of the two frames of `test_diff_grid` is exactly the list of operations the test expects, the same with and without the cursor-tracking fix |
| WideOrphan.OrphanRowOps | src/terminal.rs:163-214 | the diff of a row whose wide face moves from column 1 to column 0 writes the face and then `c`, with no move in between |
| WideOrphan.OrphanReplayPanics | src/buffer.rs:309-320 | replaying that diff with the line write as written leaves an orphaned continuation at column 2 and the write of `c` panics; with the corrected write the two writes give the new row |
| Axes.AxisVec | src/elements/containers/container_1d/mod.rs:275-282 | building a vector from (main, cross) and splitting it again gives back (main, cross) |
| Axes.SplitJoin | src/elements/containers/container_1d/mod.rs:275-301 | splitting a vector into (main, cross) and building it again gives back the vector |
| Axes.AxesAreSwapped | src/elements/containers/container_1d/mod.rs:275-301 | the Y axis is the X axis on the swapped vector |
| Containers.Mins | src/elements/containers/mod.rs:465-475 | the minima of a list of ranges, in order |
| Containers.Maxes | src/elements/containers/mod.rs:465-475 | the maxima of a list of ranges, in order |
| Containers.CombineMainAxes | src/elements/containers/mod.rs:465-469 | on the main axis the minima add up, wrapping, and the maxima add up, saturating |
| Containers.CombineCrossAxes | src/elements/containers/mod.rs:471-475 | on the cross axis the container needs the largest minimum and allows the largest maximum |
| Containers.Row | src/elements/containers/container_1d/mod.rs:228-247 | a row lays out along X, does not broadcast keys and focuses nothing |
| Containers.Column | src/elements/containers/container_1d/mod.rs:249-262 | a column lays out along Y, does not broadcast keys and focuses nothing |
| Containers.BroadcastKeys | src/elements/containers/container_1d/mod.rs:80-90 | `broadcast_keys` turns broadcasting on and keeps the rest |
| Containers.Focus | src/elements/containers/container_1d/mod.rs:91-102 | `focus` focuses the given element and keeps the rest |
| Containers.BuildersIndependent | src/elements/containers/container_1d/mod.rs:80-102 | the builders commute, broadcasting is idempotent, and the last focus wins |
| Containers.FocusedIn | src/elements/containers/container_1d/mod.rs:186-195 | the focused element counts only when it exists |
| Containers.Title | src/elements/containers/container_1d/mod.rs:134-141 | the title is the focused element's, or empty when no existing element is focused |
| Containers.TitleOnlyFromFocused | src/elements/containers/mod.rs:323-330 | the title depends only on the focused element's title |
| Containers.LocalMain | src/elements/containers/mod.rs:373-395 | an element covers a main-axis position exactly when the position falls inside it, and the local position is measured from its start |
| Containers.HitTestFirstCover | src/elements/containers/mod.rs:373-395 | a mouse goes to the first element covering it, in local coordinates with that element's size; nothing when none covers it |
| Containers.HandleKeys | src/elements/containers/container_1d/mod.rs:184-195 | keys go to every element when broadcasting, otherwise only to the focused element |
| Containers.IdealSize | src/elements/containers/container_1d/mod.rs:172-183 | the ideal size sums the main axes, wrapping, and takes the largest cross axis |
| Containers.IdealWidth | src/elements/containers/container_1d/mod.rs:142-156 | a row's ideal width is the wrapping sum of its elements', and a column's is the largest |
| Containers.IdealHeight | src/elements/containers/container_1d/mod.rs:157-171 | a column's ideal height is the wrapping sum, and a row's is the largest |
| StaticLayout.StaticLayoutPlaces | src/elements/containers/container_1d/static.rs:47-67 | the static layout places elements one after another at their own sizes, clipped to the main axis, and stops at the first one that starts outside it |
| StaticLayout.OldStaticMainAxisSize | src/elements/containers/static.rs:31-46 | the old static layout's size is exactly the wrapping sum of the minima |
| StaticLayout.OldStaticLayout | src/elements/containers/static.rs:64-93 | the old static layout is the static layout over the minima |
| StaticLayout.ScenarioStatic | src/elements/containers/container_1d/static.rs:69-85 | the layout the static test expects |
| StretchLayout.WrapDec | src/elements/containers/stretch.rs:37-41 | decrementing a `usize` below zero wraps to `usize::MAX` |
| StretchLayout.StretchMainAxisSize | src/elements/containers/stretch.rs:50-70 | the stretch layout needs the wrapping sum of the other elements and can grow to `u16::MAX` |
| StretchLayout.StretchFills | src/elements/containers/stretch.rs:110-169 | with room to spare, the elements before the stretched one sit at the start, those after it at the end, and the stretched one takes the space between |
| StretchLayout.StretchOutOfRange | src/elements/containers/stretch.rs:26-48 | stretching an element that does not exist gives the static layout |
| StretchLayout.ScenarioOutOfRange | src/elements/containers/stretch.rs:178-193 | the layout the out-of-range test expects |
| StretchLayout.ScenarioGrow | src/elements/containers/stretch.rs:194-212 | the layout the grow test expects |
| StretchLayout.ScenarioShrink | src/elements/containers/stretch.rs:213-230 | the layout the shrink test expects |
| Flow.CalculateLayout | src/elements/containers/container_1d/flow.rs:66-88 | the growth each element gets and the number of elements that get one more, from the space left over |
| Flow.GrowthIsMore | src/elements/containers/container_1d/flow.rs:124-135 | which elements get the extra cell: the first ones when biased to the start, the last ones when biased to the end, none without a bias |
| Flow.MoreCountValue | src/elements/containers/container_1d/flow.rs:124-135 | how many of the first k elements get the extra cell |
| Flow.FlowFromElements | src/elements/containers/container_1d/flow.rs:112-148 | each element is placed at its size plus its growth |
| Flow.FlowFromContiguous | src/elements/containers/container_1d/flow.rs:112-148 | each element starts where the previous one ended |
| Flow.BiasedFlowFills | src/elements/containers/container_1d/flow.rs:66-148 | a biased flow layout whose elements fit fills the main axis exactly |
| Flow.UnbiasedFlowLeavesRemainder | src/elements/containers/container_1d/flow.rs:66-148 | an unbiased flow layout leaves exactly the remainder of the division unused, and that remainder is less than the number of elements |
| Flow.ScenarioTooLarge | src/elements/containers/container_1d/flow.rs:167-190 | the layout the too-large test expects |
| Flow.ScenarioBiases | src/elements/containers/container_1d/flow.rs:191-252 | the layouts the bias test expects |
| Flow.ScenarioCutRow | src/elements/containers/container_1d/flow.rs:191-252 | the cut-off row the bias test expects |
| OldFlow.BiasedOrder | src/elements/containers/flow.rs:89-110 | biased to the start, elements are visited in order; biased to the end, in reverse |
| OldFlow.RoundFrom | src/elements/containers/flow.rs:132-158 | one round of handing out growth either finds the element where the space runs out, or uses some of it up |
| OldFlow.BiasedSearch | src/elements/containers/flow.rs:132-158 | the biased search ends at an element that can grow by the final growth, or gets stuck when nothing can grow |
| OldFlow.UnbiasedSearch | src/elements/containers/flow.rs:160-193 | the unbiased search returns a growth below `u16::MAX - 1`, at least one less than where it started, or panics |
| OldFlow.CalculateLayout | src/elements/containers/flow.rs:111-198 | with no room to spare, every element gets its minimum. A biased layout never fails. An unbiased one has nobody growing by one more |
| OldFlow.GrowthIsLess | src/elements/containers/flow.rs:40-88 | which elements get one less than the growth: those after the dividing element in the bias order |
| OldFlow.SizeCorrected | src/elements/containers/flow.rs:40-88 | each element's size stays within its range |
| OldFlow.FitsMeans | src/elements/containers/flow.rs:160-193 | a growth fits exactly when the shares it gives the elements add up to no more than the space left over |
| OldFlow.FitsDownward | src/elements/containers/flow.rs:160-193 | a smaller growth fits when a larger one does |
| OldFlow.UnbiasedGrowthIsLargest | src/elements/containers/flow.rs:160-193 | the unbiased growth is the largest that fits, and the search panics exactly when the largest growth it tries still fits |
| OldFlow.LayoutSizesInRange | src/elements/containers/flow.rs:40-88 | the corrected layout places every element at a size within its range, each right after the previous one |
| OldFlow.BiasedOverflow | src/elements/containers/flow.rs:40-88 | a single element of size 1 in 5 cells, biased: as written it gets size 0; corrected it gets 1 |
| OldFlow.DividedHandsOutExtra | src/elements/containers/flow.rs:132-158 | when the biased search divides, the shares it hands out add up to exactly the space left over |
| OldFlow.StuckOutgrowsRanges | src/elements/containers/flow.rs:132-158 | the biased search gets stuck only when all the elements together cannot use the space left over |
| OldFlow.BiasedFlowFills | src/elements/containers/flow.rs:40-198 | a biased layout whose elements can use the space fills the main axis exactly |
| OldFlow.BiasedFlowTakesMaxima | src/elements/containers/flow.rs:40-198 | when the elements cannot use all the space, a biased layout gives each element its maximum |
| OldFlow.UnbiasedFlowWithin | src/elements/containers/flow.rs:40-198 | an unbiased layout that succeeds uses no more than the main axis |
| StackContainer.NewStack | src/elements/containers/stack.rs:77-85 | a new stack does not broadcast inputs |
| StackContainer.BroadcastInputs | src/elements/containers/stack.rs:16-25 | `broadcast_inputs` turns broadcasting on |
| StackContainer.StackRange | src/elements/containers/stack.rs:38-43 | the stack's range is the largest minimum and the largest maximum of its elements, and (0, 0) when it has none |
| StackContainer.StackDrawLength | src/elements/containers/stack.rs:33-37 | drawing the stack makes exactly as many calls as its elements make together |
| StackContainer.StackDrawAt | src/elements/containers/stack.rs:33-37 | each element's calls appear in order, after all the calls of the elements before it |
| StackContainer.TopDrawsLast | src/elements/containers/stack.rs:33-37 | the last element's calls end the stack's, so it is drawn on top |
| StackContainer.StackHandle | src/elements/containers/stack.rs:44-52 | when broadcasting, every element gets the input, in order; otherwise only the last one does, and an empty stack delivers nothing |
| Alignments.AlignOffset | src/elements/filter/float.rs:34-42 | the offset stays inside the total and keeps a fitting run inside it; start is flush left |
| Alignments.AlignOffsetGaps | src/elements/filter/float.rs:34-42 | flush right leaves no gap after the run, and centring leaves gaps that differ by at most one cell |
| FloatFilter.FloatLayout | src/elements/filter/float.rs:25-45 | the element gets its minimum size, clipped to the output. It is placed inside the output: at the start edge for start alignment, at the far edge for end alignment |
| FloatFilter.FloatArea | src/elements/filter/float.rs:49-53 | the drawing area lies inside the output and is no larger than the element's minimum |
| FloatFilter.FloatMouse | src/elements/filter/float.rs:54-72 | a mouse is passed on exactly when it is over the element, in the element's coordinates and with its size |
| FloatFilter.FloatHandle | src/elements/filter/float.rs:54-72 | keys pass through, and mice pass exactly when they are over the element |
| FloatFilter.FloatMouseInvertsDraw | src/elements/filter/float.rs:49-72 | a mouse over a cell the element drew at a position reaches the element at that position |
| FloatFilter.ScenarioCentredSpan | src/elements/filter/float.rs:25-45 | a 3×1 element centred in 12×10 sits at (5, 5) |
| TileFilter.TileAxis | src/elements/filter/tile.rs:28-38 | a tiled axis uses tiles of the element's minimum size, at least 1, and an offset reduced modulo the tile size; an untiled axis uses the whole output |
| TileFilter.TileLayout | src/elements/filter/tile.rs:28-38 | the tile height is asked for with the tile width as the constraint |
| TileFilter.TileIndices | src/elements/filter/tile.rs:42-69 | the tiles start one before the output when offset and end once they pass its end |
| TileFilter.TileOrigins | src/elements/filter/tile.rs:42-69 | the tiles are drawn at consecutive multiples of the tile size, shifted by the offset |
| TileFilter.TilesCover | src/elements/filter/tile.rs:42-69 | every cell of the output is covered by a tile |
| TileFilter.TilesDisjoint | src/elements/filter/tile.rs:42-69 | no cell is covered by two tiles |
| TileFilter.TilesNearOutput | src/elements/filter/tile.rs:42-69 | every tile overlaps the output or starts just past its end |
| TileFilter.OriginsApart | src/elements/filter/tile.rs:42-69 | tiles do not overlap each other |
| TileFilter.TileLocal | src/elements/filter/tile.rs:92-117 | a mouse position maps to the position inside its tile |
| TileFilter.TileHandle | src/elements/filter/tile.rs:92-117 | keys pass through. A mouse panics exactly when the tile size cannot be had. Otherwise it moves into its tile, in the tile's coordinates and with the tile's size |
| TileFilter.TileMouseMatchesDraw | src/elements/filter/tile.rs:42-117 | the mouse position inside the tile is where the tile covering it drew that cell |
| TileFilter.TileRange | src/elements/filter/tile.rs:70-91 | a tiled axis needs the element's minimum and can grow without bound |
| TileFilter.ScenarioTileX | src/elements/filter/tile.rs:125-183 | horizontal tiling of `abc` at offset 2 shows `bcabcabcabca` |
| TileFilter.ScenarioTileXAligned | src/elements/filter/tile.rs:125-183 | an offset that is a multiple of the tile width tiles from column 0 |
| TileFilter.ScenarioTileY | src/elements/filter/tile.rs:125-183 | vertical tiling of two rows alternates, starting from the offset |
| ScrollFilter.ScrolledAxis | src/elements/filter/scroll.rs:26-49 | a scrolled axis is at least as long as the output. The window stays inside the element: from the start it is the requested offset, clamped; from the end it ends the requested distance before the element's end when it can |
| ScrollFilter.ScrollAxis | src/elements/filter/scroll.rs:26-49 | an unscrolled axis is the output's own length, unshifted |
| ScrollFilter.ScrollLayoutAsWritten | src/elements/filter/scroll.rs:26-49 | as written, an unscrolled height is taken from the output's width, so the window fits exactly when the height is scrolled or the output is square |
| ScrollFilter.ScrollLayout | src/elements/filter/scroll.rs:26-49 | the corrected layout always shows a window inside the element |
| ScrollFilter.ScrollLayoutsAgree | src/elements/filter/scroll.rs:36 | the two layouts agree exactly when the height is scrolled or the output is square |
| ScrollFilter.ScrollHeightFromWidth | src/elements/filter/scroll.rs:36 | a 5×3 output scrolled horizontally only gets height 5 as written, 3 corrected |
| ScrollFilter.ScrollRange | src/elements/filter/scroll.rs:58-71 | a scrolled axis fits in one cell and grows as far as the element can |
| ScrollFilter.ScrollHandle | src/elements/filter/scroll.rs:72-93 | keys pass through; mice are moved by the offset and carry the element's size |
| ScrollFilter.ScrollMouseOnElement | src/elements/filter/scroll.rs:72-93 | a mouse on the output lands inside the element at its position plus the offset, with no wrap-around |
| BorderFilter.SideColumns | src/elements/filter/border.rs:234-244 | the side border takes one column, or two with padding |
| BorderFilter.InnerArea | src/elements/filter/border.rs:234-244 | the element's area starts inside the border and ends one border width before the far edges; it is empty when the output is too small |
| BorderFilter.FarEdge | src/elements/filter/border.rs:247-256 | the far edge exists exactly when the dimension exceeds 1, and is then the last cell |
| BorderFilter.TitleWidth | src/elements/filter/border.rs:297-304 | the title's width is its text width, capped at `u16::MAX` |
| BorderFilter.TitleStart | src/elements/filter/border.rs:306-315 | the title starts after the corner, and a title that fits ends before the far corner (flush against it when end-aligned) |
| BorderFilter.Advance | src/elements/filter/border.rs:324-351 | a title character is placed only while it still fits before the far corner |
| BorderFilter.TitleChar | src/elements/filter/border.rs:324-351 | a control character is skipped; a printable one adds at most two writes and keeps the earlier ones |
| BorderFilter.TitleRunInside | src/elements/filter/border.rs:324-351 | all title writes land on the top or bottom row, between the corners and after the title's start |
| BorderFilter.EdgeRow | src/elements/filter/border.rs:353-364 | the edge writes go only to edge columns of their row |
| BorderFilter.EdgeRowCovers | src/elements/filter/border.rs:353-364 | every column of the edge that the title does not occupy gets an edge character |
| BorderFilter.TitleBetweenCorners | src/elements/filter/border.rs:324-364 | title characters lie strictly between the corners, and the edge is not drawn where the title is |
| BorderFilter.BorderWidth | src/elements/filter/border.rs:366-373 | the border adds the side columns on both sides to the element's range, saturating |
| BorderFilter.BorderHeight | src/elements/filter/border.rs:374-377 | the border adds two rows to the element's range, saturating |
| BorderFilter.BorderMouse | src/elements/filter/border.rs:378-407 | a mouse passes exactly when it is inside the inner area, moved into its coordinates and given its size |
| BorderFilter.BorderHandle | src/elements/filter/border.rs:378-407 | keys pass through; mice pass exactly as the inner-area test says |
| SizeFilter.Override | src/elements/filter/size.rs:13-22 | a set size overrides the element's, and an unset one defers to it |
| SizeFilter.IdealWidth | src/elements/filter/size.rs:13-17 | the ideal width is the set width, or the element's |
| SizeFilter.IdealHeight | src/elements/filter/size.rs:18-22 | the ideal height is the set height, or the element's |
| SizeFilter.IdealSize | src/elements/filter/size.rs:23-38 | the ideal size takes each set component and asks the element only when one is missing |
| SizeFilter.IdealSizeMatchesAxes | src/elements/filter/size.rs:13-38 | the ideal size agrees with the width and height taken separately, and does not depend on the element when both are set |
| Spans.NewSpan | src/elements/span.rs:93-95 | `span` keeps the text and uses the default style |
| Spans.SpanDraw | src/elements/span.rs:41-59 | a span only writes characters, on row 0, in its style |
| Spans.WidthFoldIsWrapped | src/elements/span.rs:60-71 | folding the character widths with `+` gives the text width modulo 2^16 |
| Spans.SpanWidth | src/elements/span.rs:60-71 | a span's width range is exactly its text width, wrapped to `u16` (so exact whenever it fits) |
| Spans.SpanHeight | src/elements/span.rs:72-74 | a span is exactly one row high |
| Spans.WriteWithin | src/lib.rs:98-131 | text written where it fits puts every character between the start column and the start plus the text width |
| Spans.SpanDrawsWithinWidth | src/elements/span.rs:41-59 | a span whose text fits writes only within its width |
| DevTools.Tab | src/elements/dev.rs:346-360 | tabbing always moves the focus |
| DevTools.TabBackInverts | src/elements/dev.rs:346-360 | tabbing back undoes tabbing forward and the other way round |
| DevTools.TabCycles | src/elements/dev.rs:346-360 | three tabs in one direction come back, passing through every panel |
| DevTools.NewDev | src/elements/dev.rs:44-54 | the dev tools start focused on the element, with the right panel 64 wide and the bottom panel 16 high, not resizing and with nothing captured |
| DevTools.Apply | src/elements/dev.rs:289-319 | each event changes only its own part of the state; a resize sets a requested panel size but never below the minimum |
| DevTools.ApplyAllKeepsMinimum | src/elements/dev.rs:289-319 | panels at least their minimum size stay so under any sequence of events |
| DevTools.NewDevPanelsAtLeastMinimum | src/elements/dev.rs:44-54 | from the start, the panels are never below their minimum sizes |
| DevTools.ApplyIdempotentOrInvolutive | src/elements/dev.rs:289-319 | toggling the abort confirmation twice undoes it; stopping resizing and resizing to given sizes are idempotent |

## Left out

- Terminal I/O is not modelled: the crossterm backend, the Tty, raw mode, flushing and reading real events. The dummy backend stands in for the terminal.
- `Terminal::draw` is not modelled: it is async, it polls events, and it has the drop and cleanup paths. Only `Terminal::diff` and the resize clamp are modelled.
- `Grid::resize_height_with_anchor`, `Grid::clear` and `Grid::contents` are called (src/elements/containers/container_1d/flow.rs:215 and 223, src/backend/dummy.rs:249) but have no definition in src/buffer.rs, so they are not modelled. The dummy's read of a resize records the height it requests instead of performing it.
- The `Element` impls of `Buffer`, `Grid` and `Line` (draw, ideal size, handle) are not modelled.
- `Dummy` stores the terminal's captured output and Tty. Those are left out.
- The ratio filter uses floating point and is not part of this model. Thin wrappers (on, map_event, input_mask, title, fill_background, line, text, block) are not part of this model either.
- `DevTools.Apply`: `CapturedData` carries text that is already decoded. The source's lossy UTF-8 decoding is not modelled.
- The dev tools' view construction (the split layout, the panels' contents) is not modelled. Only its state and events are.
- `impl Output for &mut O` forwards every call unchanged, so there is nothing to model.
- Plain `u16` additions and subtractions are modelled with release-build wrap-around; a debug build panics instead. This affects `Outputs.Write`, `Spans.SpanWidth`, `Containers.IdealSize`, `Terminal.CursorAfter` (the `+ 1` past a written cell), `Terminal.ClampCursor` (the `- 1` to the last row and column) and the flow accumulator.
- `OldFlow.UnbiasedSearch`: when every growth up to `u16::MAX - 1` fits, the source's loop overflows its counter. A release build loops forever there, and a debug build panics. The model returns `Panic`.
- `TileFilter.TileOrigins`: tiles are drawn into areas whose origin is an `i32` and may be negative. The `u16` area of `src/output.rs` does not cover that, so tile draws are stated by their origins, not as output calls.
- `TileFilter.TileOrigins`: each tiled copy is drawn through an output whose cursor setter does nothing (src/elements/filter/tile.rs:66). The model does not carry that suppression, so it does not state that tiled copies leave the cursor alone.
- `BorderFilter.EdgeRow`: corner and side characters and the padding fill are not modelled beyond the far-edge positions. Only the top and bottom edges and the title are.
- `Buffer.LineWriteChar`: its wide case is the corrected write (`Buffer.WriteWide`), not the one in src/buffer.rs:309-320 (`Buffer.LineWriteCharAsWritten`). Nothing about the grid, buffer or dummy below is promised for the write as written.
- `Buffer.GridWriteChar`: `Grid::write_char` calls the as-written line write. The model calls the corrected one, so its result differs whenever a wide character overlaps an old wide character from the left.
- `Buffer.GridWriteCharPreservesValid`: not promised for the write as written. That write can leave an orphaned continuation, and a later write onto it panics (`WideOrphan.OrphanReplayPanics`).
- `Buffer.ApplyCall`: forwards writes to the corrected grid write, not to the as-written one.
- `Buffer.ApplyCallsPreservesValid`: not promised for the write as written, for the reason given for `Buffer.GridWriteCharPreservesValid`.
- `Buffer.BufferWrite`: built on the corrected grid write.
- `Dummy.WriteText`: the dummy's `write` goes through `Grid::write_char` and so through the as-written line write. The model uses the corrected one.
- `Dummy.Apply`: writes are interpreted with the corrected line write. With the write as written, a replay can panic where the model does not (`WideOrphan.OrphanReplayPanics`).
- `LineSync.WriteWideCell`: stated for the corrected wide write. The as-written write breaks it when the old cell one column right was double.
- `RoundTrip.ReplayWriteGlyph`: stated for the corrected line write.
- `RoundTrip.ReplayCell`: stated for the corrected line write. With the write as written, one cell's replay can panic.
- `RoundTrip.ReplayRow`: stated for the corrected line write. With the write as written, the row of `WideOrphan.OrphanRowOps` replays to a panic.
- `RoundTrip.ReplayGrid`: stated for the corrected line write, as `RoundTrip.ReplayRow` is.
- `RoundTrip.DiffRoundTrip`: stated for the corrected line write. With the write as written, replaying a diff can panic (`WideOrphan`).
- `RoundTrip.DiffRoundTrip`: the dummy writes a zero-width mark one column past its base glyph, so the round trip is stated for cells holding a single glyph. The dummy caps its drawing position at the width and the terminal at the last column, so the dummy's cursor may end one column right of the tracker's.
- The Unicode width tables are a parameter (`WidthFn`), so no particular Unicode version is modelled.

## Findings

| source | as written | input that shows it | evidently intended | confidence | as-written member | corrected member |
|---|---|---|---|---|---|---|
| src/buffer.rs:309-320 | when the old cell at x + 1 was double, the new continuation at x + 1 is overwritten by a space, so the new double cell at x has no continuation, and the old continuation at x + 2 is left after a space. A later narrow write onto that orphan reaches `unreachable!()` | the line `a`, wide face, continuation, `d`, with a wide face written at column 0 | x + 1 stays the continuation and the orphan at x + 2 becomes a space | not executed | Buffer.WriteWideAsWritten, Buffer.AsWrittenBreaksInvariant, WideOrphan.OrphanReplayPanics | Buffer.WriteWide, Buffer.WidePreservesValid |
| src/terminal.rs:241-243 | moving the cursor sends `set_cursor_pos` but does not update the tracked position, so the next frame's write may skip its move | a 2×1 screen: frame 1 shows the cursor at column 1, frame 2 writes `a` at column 0 | the tracker records the cursor's new position | not executed | Terminal.DiffAsWritten, CursorTracking.StaleTrackerMisplacesWrite | Terminal.Diff, RoundTrip.DiffRoundTrip |
| src/elements/containers/flow.rs:132-158 | when nothing can grow, the biased search returns growth `u16::MAX`, and `layout` adds it to each minimum, overflowing | one element with range (1, 1) in 5 cells, biased to the start: size 0 | each element gets its maximum | not executed | OldFlow.LayoutAsWritten, OldFlow.BiasedOverflow | OldFlow.Layout, OldFlow.BiasedFlowTakesMaxima |
| src/elements/filter/scroll.rs:36 | an unscrolled vertical axis takes the output's width as its height | output 5×3 scrolled horizontally only: the element gets height 5 | the output's height | not executed | ScrollFilter.ScrollLayoutAsWritten, ScrollFilter.ScrollHeightFromWidth | ScrollFilter.ScrollLayout, ScrollFilter.ScrollLayoutsAgree |
| src/backend/dummy.rs:249 | a resize event resizes the grid's height to the new width | a 5×3 dummy receiving `Resize(5, 3)` asks for height 5 | the new height | not executed | Dummy.ReadEvent, Dummy.ReadEventHeightFromWidth | Dummy.ReadEventCorrected, Dummy.ReadEventsAgree |
