# ComposeLife core logic in Dafny

This project models the decision logic of ComposeLife, an Android implementation of Conway's Game of Life, and proves properties of that model. The simulation engines, the concrete `CellState` class and the pattern parser are not part of this model. Wherever the logic needs a cell state, the model uses a finite set of integer offsets (`Cells.CellState`). Union is set union and `offsetBy` is translation, because those are the only operations the modelled code uses.

Modules, in the order of the program's own structure:

- `Cells`: integer offsets, cell states as sets, translation, union and closed integer rectangles (`IntRect`).
- `ConfigurableAlgorithm`: the engine hot-swap stream.
  - The persisted algorithm choice selects an engine.
  - The select loop is modelled as an event-driven state machine folded over a trace of algorithm updates and deliveries from the current producer.
  - An update cancels the producer and restarts from the last emitted state. A delivery is emitted and becomes the restart point.
- `WatchFace`: the watch-face clock.
  - 12/24-hour time becomes four seven-segment digits.
  - Digits are built by union from the segment patterns.
  - The layout uses fixed translations.
  - The non-round random point pool is modelled.
  - Cells of the closed 70×70 window are indexed into a flat buffer.
- `SerializationMessages`: the eight pattern-parser diagnostic messages. Each message is proved to decode back to the diagnostic it was built from, so distinct diagnostics give distinct messages.
- `OscillatorPatterns`: the period check (the number of distinct phases) and the bounding-box hull fold used to validate oscillator patterns.
- `CellWindowModel`: the integer geometry of the drawn cell window, the editability rule and the gesture flag.
- `FullscreenSettings`: list/detail visibility of the fullscreen settings screen and its navigation transitions.
- `NavigationHost`: per-entry saved-state retention keyed by back-stack id. The instance state is written out as a string-keyed bundle (each counter under the text of its id) and read back; the two directions are proved inverse.
- `InlineSpeed`: the power-of-two speed sliders.
- `InteractableCell`: the cell on/off display and click-toggle rule.
- `Theme`: the dark-theme decision table, colour-scheme choice and the only-the-outermost-theme rule.
- Helper modules: `Wrappers` (`Option`), `Decimal` (integer to decimal text and back) and `Text` (prefix, suffix and index helpers).

## Model

| member | source | states |
|---|---|---|
| ConfigurableAlgorithm.CurrentAlgorithm | algorithm/src/main/kotlin/com/alexvanyo/composelife/algorithm/ConfigurableGameOfLifeAlgorithm.kt:26-31 | The naive engine is chosen exactly for `NAIVE`; `UNKNOWN`, `DEFAULT`, `HASHLIFE` and `UNRECOGNIZED` all choose HashLife |
| ConfigurableAlgorithm.Start | algorithm/src/main/kotlin/com/alexvanyo/composelife/algorithm/ConfigurableGameOfLifeAlgorithm.kt:48-49 | The loop starts with no producer and the original state as the restart point |
| ConfigurableAlgorithm.Step | algorithm/src/main/kotlin/com/alexvanyo/composelife/algorithm/ConfigurableGameOfLifeAlgorithm.kt:55-72 | An update cancels the producer and starts a fresh one for the chosen engine from the last emitted state. A delivery from the current producer is emitted unchanged and becomes the restart point. A delivery from anyone else changes nothing |
| ConfigurableAlgorithm.Run | algorithm/src/main/kotlin/com/alexvanyo/composelife/algorithm/ConfigurableGameOfLifeAlgorithm.kt:40-75 | A trace emits at most one state per event |
| ConfigurableAlgorithm.States | algorithm/src/main/kotlin/com/alexvanyo/composelife/algorithm/ConfigurableGameOfLifeAlgorithm.kt:68-71 | The emitted flow is the sequence of emitted states, in order |
| ConfigurableAlgorithm.NothingBeforeFirstUpdate | algorithm/src/main/kotlin/com/alexvanyo/composelife/algorithm/ConfigurableGameOfLifeAlgorithm.kt:48-68 | Before any algorithm value arrives nothing is emitted and the state is unchanged |
| ConfigurableAlgorithm.RunKeepsValid | algorithm/src/main/kotlin/com/alexvanyo/composelife/algorithm/ConfigurableGameOfLifeAlgorithm.kt:49-71 | The live producer's position always equals the last emitted state, and its id is below the next fresh id, after any trace |
| ConfigurableAlgorithm.RestartFromLastEmitted | algorithm/src/main/kotlin/com/alexvanyo/composelife/algorithm/ConfigurableGameOfLifeAlgorithm.kt:49-71 | After any trace the restart point is the last emitted state, or the original if nothing was emitted |
| ConfigurableAlgorithm.UpdateRestartsFromLastEmitted | algorithm/src/main/kotlin/com/alexvanyo/composelife/algorithm/ConfigurableGameOfLifeAlgorithm.kt:61-64 | An update after any trace starts the new engine from the last emitted state, or from the original |
| ConfigurableAlgorithm.EmissionsAreChained | algorithm/src/main/kotlin/com/alexvanyo/composelife/algorithm/ConfigurableGameOfLifeAlgorithm.kt:61-71 | Every emitted state is the emitting engine's generation computed from the state emitted before it |
| ConfigurableAlgorithm.OnlyLaterProducersSend | algorithm/src/main/kotlin/com/alexvanyo/composelife/algorithm/ConfigurableGameOfLifeAlgorithm.kt:59-68 | Once every live producer is at least a given id, no later emission comes from an older producer |
| ConfigurableAlgorithm.CancelledProducerNeverSends | algorithm/src/main/kotlin/com/alexvanyo/composelife/algorithm/ConfigurableGameOfLifeAlgorithm.kt:59-68 | After an update, no later emission comes from the cancelled producer |
| ConfigurableAlgorithm.SendOrSwitch | algorithm/src/main/kotlin/com/alexvanyo/composelife/algorithm/ConfigurableGameOfLifeAlgorithm.kt:53-72 | A switch keeps the restart point; an emission only moves the current producer's position to the emitted state |
| ConfigurableAlgorithm.ProducerFollowsLatestChoice | algorithm/src/main/kotlin/com/alexvanyo/composelife/algorithm/ConfigurableGameOfLifeAlgorithm.kt:44-64 | A producer exists exactly when some update has arrived, and it runs the engine of the latest update |
| ConfigurableAlgorithm.RunSnoc | algorithm/src/main/kotlin/com/alexvanyo/composelife/algorithm/ConfigurableGameOfLifeAlgorithm.kt:52-73 | Extending a trace by one event runs one more loop iteration and appends at most its emission |
| ConfigurableAlgorithm.UpdatesConflate | algorithm/src/main/kotlin/com/alexvanyo/composelife/algorithm/ConfigurableGameOfLifeAlgorithm.kt:44 | Two updates in a row leave the same engine, restart point and producer position as the second one alone |
| ConfigurableAlgorithm.SingleShotAgreesWithStream | algorithm/src/main/kotlin/com/alexvanyo/composelife/algorithm/ConfigurableGameOfLifeAlgorithm.kt:33-37 | The single-shot call gives the same state as the stream's first emission after one update |
| ConfigurableAlgorithm.ComputeGenerationWithStep | algorithm/src/main/kotlin/com/alexvanyo/composelife/algorithm/ConfigurableGameOfLifeAlgorithm.kt:33-37 | The single-shot computation runs the naive engine exactly for the `NAIVE` choice and HashLife for every other choice |
| Cells.Union | wear-watchface/src/androidMain/kotlin/com/alexvanyo/composelife/wear/watchface/GameOfLifeRenderer.kt:254-258 | A cell is in the union exactly when it is in either state |
| Cells.OffsetBy | wear-watchface/src/androidMain/kotlin/com/alexvanyo/composelife/wear/watchface/GameOfLifeRenderer.kt:255-268 | Every cell moves by the offset |
| Cells.InOffsetBy | wear-watchface/src/androidMain/kotlin/com/alexvanyo/composelife/wear/watchface/GameOfLifeRenderer.kt:255-268 | A cell is in the moved state exactly when moving it back lands in the original |
| Cells.OffsetByOrigin | wear-watchface/src/androidMain/kotlin/com/alexvanyo/composelife/wear/watchface/GameOfLifeRenderer.kt:255-268 | Translating by (0, 0) changes nothing |
| Cells.OffsetByCompose | wear-watchface/src/androidMain/kotlin/com/alexvanyo/composelife/wear/watchface/GameOfLifeRenderer.kt:255-268 | Two translations equal one by the sum |
| Cells.OffsetByInverse | wear-watchface/src/androidMain/kotlin/com/alexvanyo/composelife/wear/watchface/GameOfLifeRenderer.kt:255-268 | Translating back by the negated offset restores the state |
| Cells.OffsetByDistributesOverUnion | wear-watchface/src/androidMain/kotlin/com/alexvanyo/composelife/wear/watchface/GameOfLifeRenderer.kt:254-268 | Translating a union translates both parts |
| Cells.UnionLaws | wear-watchface/src/androidMain/kotlin/com/alexvanyo/composelife/wear/watchface/GameOfLifeRenderer.kt:254-268 | Union is commutative and associative, and absorbs a subset |
| Cells.RectFromOffsetAndSize | wear-watchface/src/androidMain/kotlin/com/alexvanyo/composelife/wear/watchface/GameOfLifeRenderer.kt:69 | A rectangle built from a corner and a size has that corner, width and height |
| Cells.AliveCellsInWindow | wear-watchface/src/androidMain/kotlin/com/alexvanyo/composelife/wear/watchface/GameOfLifeRenderer.kt:134 | The alive cells in a window are exactly the cells of the state inside the closed rectangle |
| WatchFace.InPattern | wear-watchface/src/androidMain/kotlin/com/alexvanyo/composelife/wear/watchface/GameOfLifeRenderer.kt:259-267 | `PatternCells` of a plaintext pattern has a cell exactly where its row text has an `O`, shifted by the offset |
| WatchFace.SegmentRows | wear-watchface/src/androidMain/kotlin/com/alexvanyo/composelife/wear/watchface/GameOfLifeRenderer.kt:372-517 | Every segment pattern is 18 rows of 10 characters |
| WatchFace.WitnessOnlyIn | wear-watchface/src/androidMain/kotlin/com/alexvanyo/composelife/wear/watchface/GameOfLifeRenderer.kt:372-517 | Each segment has a cell that no other segment has |
| WatchFace.SegmentInBox | wear-watchface/src/androidMain/kotlin/com/alexvanyo/composelife/wear/watchface/GameOfLifeRenderer.kt:372-517 | Every segment lies in the 10×18 digit box |
| WatchFace.GlyphIsLitSegments | wear-watchface/src/androidMain/kotlin/com/alexvanyo/composelife/wear/watchface/GameOfLifeRenderer.kt:338-351 | `Glyph` of a character is exactly the union of the segments it lights |
| WatchFace.FromChar | wear-watchface/src/androidMain/kotlin/com/alexvanyo/composelife/wear/watchface/GameOfLifeRenderer.kt:354-368 | `fromChar` succeeds exactly on 0..9, giving the numeral of that value, and fails on every other integer |
| WatchFace.FromCharInverse | wear-watchface/src/androidMain/kotlin/com/alexvanyo/composelife/wear/watchface/GameOfLifeRenderer.kt:338-368 | Every non-blank character comes back from `fromChar` of its numeral; only `Blank` has no numeral |
| WatchFace.FromCharInjective | wear-watchface/src/androidMain/kotlin/com/alexvanyo/composelife/wear/watchface/GameOfLifeRenderer.kt:354-368 | Distinct digits give distinct characters |
| WatchFace.BlankIsEmpty | wear-watchface/src/androidMain/kotlin/com/alexvanyo/composelife/wear/watchface/GameOfLifeRenderer.kt:351 | `Blank` has no cells |
| WatchFace.EightIsAllSegments | wear-watchface/src/androidMain/kotlin/com/alexvanyo/composelife/wear/watchface/GameOfLifeRenderer.kt:349 | `Eight` has exactly the cells of all seven segments |
| WatchFace.GlyphsWithinEight | wear-watchface/src/androidMain/kotlin/com/alexvanyo/composelife/wear/watchface/GameOfLifeRenderer.kt:341-351 | Every digit's cells are among `Eight`'s |
| WatchFace.GlyphInBox | wear-watchface/src/androidMain/kotlin/com/alexvanyo/composelife/wear/watchface/GameOfLifeRenderer.kt:338-351 | Every digit lies in the 10×18 digit box |
| WatchFace.WitnessInGlyph | wear-watchface/src/androidMain/kotlin/com/alexvanyo/composelife/wear/watchface/GameOfLifeRenderer.kt:338-351 | A segment's distinguishing cell is in a digit exactly when that segment is lit |
| WatchFace.GlyphInjective | wear-watchface/src/androidMain/kotlin/com/alexvanyo/composelife/wear/watchface/GameOfLifeRenderer.kt:338-351 | Distinct characters have distinct cells |
| WatchFace.DisplayHour | wear-watchface/src/androidMain/kotlin/com/alexvanyo/composelife/wear/watchface/GameOfLifeRenderer.kt:304-311 | In 24-hour format the hour is shown as is. In 12-hour format it is shown in 1..12, equal to the hour modulo 12 |
| WatchFace.CreateTimeDigits | wear-watchface/src/androidMain/kotlin/com/alexvanyo/composelife/wear/watchface/GameOfLifeRenderer.kt:303-329 | The four digits spell display hour and minute. The first is `Blank` exactly for a one-digit hour in 12-hour format; the others are always numerals |
| WatchFace.DisplayHourDetermines | wear-watchface/src/androidMain/kotlin/com/alexvanyo/composelife/wear/watchface/GameOfLifeRenderer.kt:304-311 | Two hours display the same exactly when they are equal (24-hour) or equal modulo 12 (12-hour) |
| WatchFace.TimeDigitsDetermineTime | wear-watchface/src/androidMain/kotlin/com/alexvanyo/composelife/wear/watchface/GameOfLifeRenderer.kt:303-329 | Two times give the same digits exactly when the minutes agree and the hours agree (modulo 12 in 12-hour format) |
| WatchFace.MovedGlyphInSlot | wear-watchface/src/androidMain/kotlin/com/alexvanyo/composelife/wear/watchface/GameOfLifeRenderer.kt:254-257 | A digit moved by a slot offset lies in that slot's box |
| WatchFace.ColonCells | wear-watchface/src/androidMain/kotlin/com/alexvanyo/composelife/wear/watchface/GameOfLifeRenderer.kt:258-267 | The colon occupies columns 27-28 and rows 6-11 |
| WatchFace.InLayout | wear-watchface/src/androidMain/kotlin/com/alexvanyo/composelife/wear/watchface/GameOfLifeRenderer.kt:254-267 | `TimeLayout` is exactly the four placed digits and the colon |
| WatchFace.SlotsApart | wear-watchface/src/androidMain/kotlin/com/alexvanyo/composelife/wear/watchface/GameOfLifeRenderer.kt:254-267 | The slots at x = 0, 14, 32 and 46 never overlap each other or the colon |
| WatchFace.PartInSlot | wear-watchface/src/androidMain/kotlin/com/alexvanyo/composelife/wear/watchface/GameOfLifeRenderer.kt:254-257 | Each placed digit lies in its own slot |
| WatchFace.PartOnlyInOwnSlot | wear-watchface/src/androidMain/kotlin/com/alexvanyo/composelife/wear/watchface/GameOfLifeRenderer.kt:254-257 | A placed digit has no cell in another slot |
| WatchFace.LayoutSlot | wear-watchface/src/androidMain/kotlin/com/alexvanyo/composelife/wear/watchface/GameOfLifeRenderer.kt:254-267 | The cells of the layout within a slot's box are exactly that slot's placed digit |
| WatchFace.ReadSlotOfTimeCells | wear-watchface/src/androidMain/kotlin/com/alexvanyo/composelife/wear/watchface/GameOfLifeRenderer.kt:254-268 | Each digit can be read back from the finished time cells |
| WatchFace.TimeCellsInjective | wear-watchface/src/androidMain/kotlin/com/alexvanyo/composelife/wear/watchface/GameOfLifeRenderer.kt:254-268 | Distinct digit quadruples give distinct time cells |
| WatchFace.LayoutInBox | wear-watchface/src/androidMain/kotlin/com/alexvanyo/composelife/wear/watchface/GameOfLifeRenderer.kt:254-267 | The unmoved layout of four digits and the colon lies in the box (0, 0)-(55, 17) |
| WatchFace.TimeCells | wear-watchface/src/androidMain/kotlin/com/alexvanyo/composelife/wear/watchface/GameOfLifeRenderer.kt:254-268 | Every time cell lies in the box (8, 26)-(63, 43) and so inside the 70×70 window |
| WatchFace.NotRoundRandomPointPool | wear-watchface/src/androidMain/kotlin/com/alexvanyo/composelife/wear/watchface/GameOfLifeRenderer.kt:293-301 | Every pool point lies in (-10, -10)-(80, 80) with x and y both outside 0..69, so off the cell window |
| WatchFace.NotRoundPoolComplete | wear-watchface/src/androidMain/kotlin/com/alexvanyo/composelife/wear/watchface/GameOfLifeRenderer.kt:293-301 | Every point of the rectangle that passes the filter is in the pool |
| WatchFace.CreateTimeCellState | wear-watchface/src/androidMain/kotlin/com/alexvanyo/composelife/wear/watchface/GameOfLifeRenderer.kt:250-281 | The result holds every time cell and otherwise only pool points. On a square screen, the cells inside the window are exactly the time cells |
| WatchFace.CellWindowFromSize | wear-watchface/src/androidMain/kotlin/com/alexvanyo/composelife/wear/watchface/GameOfLifeRenderer.kt:69 | The cell window is the rectangle at (0, 0) of size 69×69, i.e. (0, 0)-(69, 69) |
| WatchFace.BufferIndex | wear-watchface/src/androidMain/kotlin/com/alexvanyo/composelife/wear/watchface/GameOfLifeRenderer.kt:132-136 | The buffer index of a cell in the closed window lies in [0, (width+1)(height+1)) |
| WatchFace.BufferIndexRoundTrip | wear-watchface/src/androidMain/kotlin/com/alexvanyo/composelife/wear/watchface/GameOfLifeRenderer.kt:132-136 | The cell at a cell's buffer index is that cell |
| WatchFace.CellAtRoundTrip | wear-watchface/src/androidMain/kotlin/com/alexvanyo/composelife/wear/watchface/GameOfLifeRenderer.kt:132-136 | Every buffer index belongs to exactly one window cell |
| WatchFace.BufferIndexInjective | wear-watchface/src/androidMain/kotlin/com/alexvanyo/composelife/wear/watchface/GameOfLifeRenderer.kt:132-136 | Distinct window cells get distinct buffer indices |
| WatchFace.Render | wear-watchface/src/androidMain/kotlin/com/alexvanyo/composelife/wear/watchface/GameOfLifeRenderer.kt:132-137 | The buffer has one entry per window cell, and an entry is set exactly when its cell is alive |
| SerializationMessages.UnexpectedInputMessage | algorithm/src/jvmMain/kotlin/com/alexvanyo/composelife/model/SerializationMessages.jvm.kt:22-27 | The message quotes the input and gives the line and then the character index; they can be read back from it |
| SerializationMessages.UnexpectedCharacterMessage | algorithm/src/jvmMain/kotlin/com/alexvanyo/composelife/model/SerializationMessages.jvm.kt:29-34 | The message gives the character, line and offset, which can be read back from it, and ends with "interpreted as on" |
| SerializationMessages.UnexpectedHeaderMessage | algorithm/src/jvmMain/kotlin/com/alexvanyo/composelife/model/SerializationMessages.jvm.kt:36-39 | The message is "Unexpected header, found " followed by exactly the header |
| SerializationMessages.UnexpectedShortLineMessage | algorithm/src/jvmMain/kotlin/com/alexvanyo/composelife/model/SerializationMessages.jvm.kt:41-44 | The message depends only on the line index, which can be read back from it |
| SerializationMessages.UnexpectedBlankLineMessage | algorithm/src/jvmMain/kotlin/com/alexvanyo/composelife/model/SerializationMessages.jvm.kt:46-49 | The message depends only on the line index, which can be read back from it |
| SerializationMessages.UnexpectedEmptyFileMessage | algorithm/src/jvmMain/kotlin/com/alexvanyo/composelife/model/SerializationMessages.jvm.kt:51-52 | The constant message reads back as the empty-file diagnostic |
| SerializationMessages.RuleNotSupportedMessage | algorithm/src/jvmMain/kotlin/com/alexvanyo/composelife/model/SerializationMessages.jvm.kt:54-55 | The constant message reads back as the ruleset diagnostic and differs from the empty-file message |
| SerializationMessages.DuplicateTopLeftCoordinateMessage | algorithm/src/jvmMain/kotlin/com/alexvanyo/composelife/model/SerializationMessages.jvm.kt:57-66 | The message ends with "(x, y)" of the overwriting offset, and both coordinates can be read back |
| SerializationMessages.Message | algorithm/src/jvmMain/kotlin/com/alexvanyo/composelife/model/SerializationMessages.jvm.kt:22-66 | Every diagnostic's message reads back as that diagnostic |
| SerializationMessages.MessageInjective | algorithm/src/jvmMain/kotlin/com/alexvanyo/composelife/model/SerializationMessages.jvm.kt:22-66 | Distinct diagnostics have distinct messages |
| SerializationMessages.InputRoundTrip | algorithm/src/jvmMain/kotlin/com/alexvanyo/composelife/model/SerializationMessages.jvm.kt:22-27 | Decoding the unexpected-input message gives back input, line and character |
| SerializationMessages.CharacterRoundTrip | algorithm/src/jvmMain/kotlin/com/alexvanyo/composelife/model/SerializationMessages.jvm.kt:29-34 | Decoding the unexpected-character message gives back character, line and offset |
| SerializationMessages.CharacterEndsWithSuffix | algorithm/src/jvmMain/kotlin/com/alexvanyo/composelife/model/SerializationMessages.jvm.kt:29-34 | The unexpected-character message ends with " interpreted as on" |
| SerializationMessages.HeaderRoundTrip | algorithm/src/jvmMain/kotlin/com/alexvanyo/composelife/model/SerializationMessages.jvm.kt:36-39 | Decoding the header message gives back the header |
| SerializationMessages.ShortLineRoundTrip | algorithm/src/jvmMain/kotlin/com/alexvanyo/composelife/model/SerializationMessages.jvm.kt:41-44 | Decoding the short-line message gives back the line index |
| SerializationMessages.BlankLineRoundTrip | algorithm/src/jvmMain/kotlin/com/alexvanyo/composelife/model/SerializationMessages.jvm.kt:46-49 | Decoding the blank-line message gives back the line index |
| SerializationMessages.DuplicateRoundTrip | algorithm/src/jvmMain/kotlin/com/alexvanyo/composelife/model/SerializationMessages.jvm.kt:57-66 | Decoding the duplicate-coordinate message gives back both coordinates |
| Decimal.IntToStringRoundTrip | algorithm/src/jvmMain/kotlin/com/alexvanyo/composelife/model/SerializationMessages.jvm.kt:22-27 | An integer's decimal text parses back to the integer |
| Decimal.IntToStringInjective | algorithm/src/jvmMain/kotlin/com/alexvanyo/composelife/model/SerializationMessages.jvm.kt:22-27 | Distinct integers have distinct decimal texts |
| OscillatorPatterns.Distinct | patterns/src/commonTest/kotlin/com/alexvanyo/composelife/patterns/OscillatorPatternsTests.kt:49 | `distinct()` keeps each state of the list exactly once |
| OscillatorPatterns.DistinctSize | patterns/src/commonTest/kotlin/com/alexvanyo/composelife/patterns/OscillatorPatternsTests.kt:49 | The number of distinct states is the size of the set of states |
| OscillatorPatterns.DistinctKeepsLength | patterns/src/commonTest/kotlin/com/alexvanyo/composelife/patterns/OscillatorPatternsTests.kt:47-50 | The distinct count equals the list length exactly when no state repeats, and then `distinct()` is the identity |
| OscillatorPatterns.RepeatShrinksSet | patterns/src/commonTest/kotlin/com/alexvanyo/composelife/patterns/OscillatorPatternsTests.kt:47-50 | A repeated state makes the distinct count smaller than the list |
| OscillatorPatterns.RepeatingCellStates | patterns/src/commonTest/kotlin/com/alexvanyo/composelife/patterns/OscillatorPatternsTests.kt:44-45 | The phases are the seed followed by exactly the other states, in order |
| OscillatorPatterns.StatesAreDistinct | patterns/src/commonTest/kotlin/com/alexvanyo/composelife/patterns/OscillatorPatternsTests.kt:42-51 | A pattern passes only with a period between 1 and the number of phases; when the period is the number of phases, it passes exactly when no phase repeats |
| OscillatorPatterns.Combine | patterns/src/commonTest/kotlin/com/alexvanyo/composelife/patterns/OscillatorPatternsTests.kt:62-70 | One fold step gives the smallest box containing both the accumulator and the new box |
| OscillatorPatterns.FoldHull | patterns/src/commonTest/kotlin/com/alexvanyo/composelife/patterns/OscillatorPatternsTests.kt:60-71 | The fold yields a box exactly when it saw one, and that box contains the accumulator and every folded box |
| OscillatorPatterns.Hull | patterns/src/commonTest/kotlin/com/alexvanyo/composelife/patterns/OscillatorPatternsTests.kt:60-71 | The hull of a non-empty list exists and contains every box; the empty list has none |
| OscillatorPatterns.HullOfOne | patterns/src/commonTest/kotlin/com/alexvanyo/composelife/patterns/OscillatorPatternsTests.kt:60-64 | The fold over one state yields that state's box |
| OscillatorPatterns.FoldHullIsLeast | patterns/src/commonTest/kotlin/com/alexvanyo/composelife/patterns/OscillatorPatternsTests.kt:60-71 | Any box containing the accumulator and all folded boxes contains the fold's result |
| OscillatorPatterns.HullIsLeast | patterns/src/commonTest/kotlin/com/alexvanyo/composelife/patterns/OscillatorPatternsTests.kt:53-73 | The hull is the smallest box containing every phase box |
| OscillatorPatterns.BoundingBoxIsMinimalAndCorrect | patterns/src/commonTest/kotlin/com/alexvanyo/composelife/patterns/OscillatorPatternsTests.kt:53-73 | A pattern that passes the check declares a box containing every phase's box |
| OscillatorPatterns.BoundingBoxCheckMeans | patterns/src/commonTest/kotlin/com/alexvanyo/composelife/patterns/OscillatorPatternsTests.kt:53-73 | A pattern that passes the check has a declared box containing every phase box and contained in any box that does so |
| CellWindowModel.FloorOffset | ui/src/main/kotlin/com/alexvanyo/composelife/ui/cells/CellWindow.kt:190 | The integer offset is the floor of each coordinate |
| CellWindowModel.WindowOf | ui/src/main/kotlin/com/alexvanyo/composelife/ui/cells/CellWindow.kt:202-211 | The window's top-left is floor(offset) minus the left and top counts; its size is left + 1 + right by top + 1 + bottom |
| CellWindowModel.WindowHoldsCentre | ui/src/main/kotlin/com/alexvanyo/composelife/ui/cells/CellWindow.kt:205-211 | The window is at least 1×1 and holds every cell within the counts around floor(offset), the centre cell included |
| CellWindowModel.CheckedWindow | ui/src/main/kotlin/com/alexvanyo/composelife/ui/cells/CellWindow.kt:145-146 | A window is produced exactly when both centre-offset components lie in [0, 1] |
| CellWindowModel.IsEditable | ui/src/main/kotlin/com/alexvanyo/composelife/ui/cells/CellWindow.kt:292-302 | An immutable window is never editable; a mutable one exactly when its predicate holds |
| CellWindowModel.ShowsInteractableCells | ui/src/main/kotlin/com/alexvanyo/composelife/ui/cells/CellWindow.kt:261-265 | Only a mutable window shows interactable cells; a window that is not navigable asks its predicate with "not gesturing", a navigable one with the real gesture flag |
| CellWindowModel.DefaultRule | ui/src/main/kotlin/com/alexvanyo/composelife/ui/cells/CellWindow.kt:59-62 | With the default predicate, cells are interactable exactly when not gesturing and the scale is at least 1; never for an immutable window |
| CellWindowModel.GestureStep | ui/src/main/kotlin/com/alexvanyo/composelife/ui/cells/CellWindow.kt:150-155 | Turning navigation off clears the gesture flag; other events keep "not navigable implies not gesturing" |
| CellWindowModel.NonNavigableNeverGesturing | ui/src/main/kotlin/com/alexvanyo/composelife/ui/cells/CellWindow.kt:148-155 | After any sequence of gesture and navigability events, a non-navigable window is not gesturing |
| FullscreenSettings.LayoutOf | ui-app/src/androidMain/kotlin/com/alexvanyo/composelife/ui/app/action/settings/FullscreenSettingsScreen.kt:178-234 | Non-compact widths show list and detail; compact shows only the list exactly when details are off; detail panes show the current category |
| FullscreenSettings.ShowList | ui-app/src/androidMain/kotlin/com/alexvanyo/composelife/ui/app/action/settings/FullscreenSettingsScreen.kt:126-138 | Wide windows always show the list; compact ones show it exactly when no detail is asked for |
| FullscreenSettings.ShowDetail | ui-app/src/androidMain/kotlin/com/alexvanyo/composelife/ui/app/action/settings/FullscreenSettingsScreen.kt:126-138 | Wide windows always show the detail; compact ones show exactly one of list and detail; some pane always shows |
| FullscreenSettings.ShowListAndDetail | ui-app/src/androidMain/kotlin/com/alexvanyo/composelife/ui/app/action/settings/FullscreenSettingsScreen.kt:126-138 | Both panes show exactly when the window is not compact, whatever the stored flag says |
| FullscreenSettings.PredictiveBackEnabled | ui-app/src/androidMain/kotlin/com/alexvanyo/composelife/ui/app/action/settings/FullscreenSettingsScreen.kt:140-141 | Predictive back is enabled exactly when the detail is shown alone |
| FullscreenSettings.DetailShowsAppBar | ui-app/src/androidMain/kotlin/com/alexvanyo/composelife/ui/app/action/settings/FullscreenSettingsScreen.kt:169 | The detail's app bar shows exactly when the panes are not side by side |
| FullscreenSettings.ListShowsFloatingAppBar | ui-app/src/androidMain/kotlin/com/alexvanyo/composelife/ui/app/action/settings/FullscreenSettingsScreen.kt:155 | The list uses the floating app bar exactly when the panes are side by side |
| FullscreenSettings.IsVisuallySelected | ui-app/src/androidMain/kotlin/com/alexvanyo/composelife/ui/app/action/settings/FullscreenSettingsScreen.kt:149-155 | A category is highlighted exactly when the panes are side by side and it is the detail shown; never on a compact window |
| FullscreenSettings.Step | ui-app/src/androidMain/kotlin/com/alexvanyo/composelife/ui/app/action/settings/FullscreenSettingsScreen.kt:140-170 | Choosing a category selects it and shows details; both back actions hide details; an action whose control is not shown changes nothing; resizing keeps the selection |
| FullscreenSettings.CompactNavigation | ui-app/src/androidMain/kotlin/com/alexvanyo/composelife/ui/app/action/settings/FullscreenSettingsScreen.kt:140-170 | On a compact screen, choosing a category shows its detail alone, and either back action returns to the list |
| FullscreenSettings.ResizeRoundTrip | ui-app/src/androidMain/kotlin/com/alexvanyo/composelife/ui/app/action/settings/FullscreenSettingsScreen.kt:126-138 | Resizing and resizing back restores the screen and its layout |
| FullscreenSettings.DetailIsChosen | ui-app/src/androidMain/kotlin/com/alexvanyo/composelife/ui/app/action/settings/FullscreenSettingsScreen.kt:151-154 | The current category is the initial one or one the user chose |
| NavigationHost.Displayed | navigation/src/commonTest/kotlin/com/alexvanyo/composelife/navigation/NavigationHostTests.kt:44-100 | The host shows the value and id stored under the current entry id, and nothing if that id is missing |
| NavigationHost.Prune | navigation/src/commonTest/kotlin/com/alexvanyo/composelife/navigation/NavigationHostTests.kt:161-217 | Saved state is kept for ids in the entry map and dropped for all others |
| NavigationHost.Step | navigation/src/commonTest/kotlin/com/alexvanyo/composelife/navigation/NavigationHostTests.kt:103-217 | A click counts on the shown entry; removing an id drops its state; other entries in the map keep theirs |
| NavigationHost.Save | navigation/src/commonTest/kotlin/com/alexvanyo/composelife/navigation/NavigationHostTests.kt:221-279 | Every saved counter is written under its id's key, no other key is written, and each key is the text of an id |
| NavigationHost.Restore | navigation/src/commonTest/kotlin/com/alexvanyo/composelife/navigation/NavigationHostTests.kt:221-279 | The restored host has the counter under an id's key for exactly those ids whose key the bundle holds |
| NavigationHost.SaveRestoreRoundTrip | navigation/src/commonTest/kotlin/com/alexvanyo/composelife/navigation/NavigationHostTests.kt:221-279 | Reading back the written state gives the same host, for every host |
| NavigationHost.BundleRoundTrip | navigation/src/commonTest/kotlin/com/alexvanyo/composelife/navigation/NavigationHostTests.kt:221-279 | A bundle holding only id keys is written out again exactly as read |
| NavigationHost.RecreationKeepsHost | navigation/src/commonTest/kotlin/com/alexvanyo/composelife/navigation/NavigationHostTests.kt:221-279 | Recreating the host shows the same thing, and a host whose state lives only for entries in its map comes back unchanged |
| NavigationHost.KeptWhileInMap | navigation/src/commonTest/kotlin/com/alexvanyo/composelife/navigation/NavigationHostTests.kt:142-157 | An entry's state survives any events that neither remove it nor click |
| NavigationHost.RemovedStartsFresh | navigation/src/commonTest/kotlin/com/alexvanyo/composelife/navigation/NavigationHostTests.kt:200-217 | An entry removed and re-added starts again at count 0 |
| NavigationHost.SwitchAwayAndBack | navigation/src/commonTest/kotlin/com/alexvanyo/composelife/navigation/NavigationHostTests.kt:142-157 | Clicking bumps the shown counter by one; switching to another entry shows that entry's own counter; switching back shows the bumped counter |
| InlineSpeed.Log2 | ui-app/src/androidSharedTest/kotlin/com/alexvanyo/composelife/ui/app/action/InlineSpeedScreenTests.kt:179-185 | A slider position is given only for exact powers of two, and two to that power is the speed |
| InlineSpeed.Log2OfPow2 | ui-app/src/androidSharedTest/kotlin/com/alexvanyo/composelife/ui/app/action/InlineSpeedScreenTests.kt:206-221 | The position of speed 2^e is e |
| InlineSpeed.Stops | ui-app/src/androidSharedTest/kotlin/com/alexvanyo/composelife/ui/app/action/InlineSpeedScreenTests.kt:185 | A range with n steps has n + 2 stops from its low to its high end |
| InlineSpeed.GenerationsSlider | ui-app/src/androidSharedTest/kotlin/com/alexvanyo/composelife/ui/app/action/InlineSpeedScreenTests.kt:179-185 | The slider shows a whole position exactly for powers of two up to 256, and two to that position is the speed |
| InlineSpeed.GenerationsStopsAreWholeExponents | ui-app/src/androidSharedTest/kotlin/com/alexvanyo/composelife/ui/app/action/InlineSpeedScreenTests.kt:179-221 | Range 0..8 with 7 steps has exactly the stops 0, 1, …, 8 |
| InlineSpeed.SetGenerationsProgress | ui-app/src/androidSharedTest/kotlin/com/alexvanyo/composelife/ui/app/action/InlineSpeedScreenTests.kt:206-221 | Moving the slider to a position sets a speed the slider shows at that position |
| InlineSpeed.EnterGenerationsText | ui-app/src/androidSharedTest/kotlin/com/alexvanyo/composelife/ui/app/action/InlineSpeedScreenTests.kt:243-262 | Typing an integer's decimal text sets that integer |
| InlineSpeed.SetTargetStepsProgress | ui-app/src/androidSharedTest/kotlin/com/alexvanyo/composelife/ui/app/action/InlineSpeedScreenTests.kt:101-116 | Moving the target-steps slider to position p sets 2^p steps per second, which the slider shows at p |
| InlineSpeed.TargetStepsSlider | ui-app/src/androidSharedTest/kotlin/com/alexvanyo/composelife/ui/app/action/InlineSpeedScreenTests.kt:101-116 | The target-steps slider has a position exactly for whole powers of two up to 256; two to that position is the speed, on the stopless range 0..8 |
| InlineSpeed.EnterTargetStepsText | ui-app/src/androidSharedTest/kotlin/com/alexvanyo/composelife/ui/app/action/InlineSpeedScreenTests.kt:120-157 | Typing an integer's decimal text sets that many steps per second; typing the text of 2^e with e at most 8 puts the slider at e |
| InlineSpeed.OneGenerationAtZero | ui-app/src/androidSharedTest/kotlin/com/alexvanyo/composelife/ui/app/action/InlineSpeedScreenTests.kt:179-185 | One generation per step shows position 0 of 0..8 with 7 steps |
| InlineSpeed.PositionEightIs256 | ui-app/src/androidSharedTest/kotlin/com/alexvanyo/composelife/ui/app/action/InlineSpeedScreenTests.kt:206-221 | Position 8 gives 256 on both sliders |
| InlineSpeed.Typing256 | ui-app/src/androidSharedTest/kotlin/com/alexvanyo/composelife/ui/app/action/InlineSpeedScreenTests.kt:243-262 | Typing "256" sets 256, shown at slider position 8 |
| InteractableCell.IsOn | ui-app/src/androidSharedTest/kotlin/com/alexvanyo/composelife/ui/app/cells/InteractableCellTests.kt:40-88 | A cell reports on exactly when it is alive |
| InteractableCell.OnClickValue | ui-app/src/androidSharedTest/kotlin/com/alexvanyo/composelife/ui/app/cells/InteractableCellTests.kt:40-88 | A click requests the negation of the reported state |
| InteractableCell.DrawStateOf | ui-app/src/androidSharedTest/kotlin/com/alexvanyo/composelife/ui/app/cells/InteractableCellTests.kt:40-88 | The requested value becomes the draw state that reports it |
| InteractableCell.ClickToggles | ui-app/src/androidSharedTest/kotlin/com/alexvanyo/composelife/ui/app/cells/InteractableCellTests.kt:40-88 | Alive requests false and dead requests true; a click always changes the state and two clicks restore it |
| Theme.ShouldUseDarkTheme | ui-app/src/androidMain/kotlin/com/alexvanyo/composelife/ui/app/theme/Theme.kt:138-152 | Dark is used for the `Dark` preference and light for `Light`. Otherwise, including while loading or after a failure, the system setting is followed |
| Theme.ColorSchemeFor | ui-app/src/androidMain/kotlin/com/alexvanyo/composelife/ui/app/theme/Theme.kt:86-111 | The scheme is dark exactly when dark theme is asked for, and dynamic exactly when the SDK is at least 31 |
| Theme.Nest | ui-app/src/androidMain/kotlin/com/alexvanyo/composelife/ui/app/theme/Theme.kt:61-81 | Once a theme is in force, nested themes leave it unchanged; otherwise the outermost theme of the stack decides the scheme, and an empty stack applies none |

## Left out

- Coroutines and channels: `channelFlow`, `produceIn`, `select` bias, rendezvous buffering and cancellation timing are not modelled. The loop is a sequential state machine over events, and "a delivery from the current producer" stands for a value read from the live channel.
- Engines: the naive and HashLife engines are a parameter (`compute`) from engine, state and step to the next state. Each engine's flow is assumed to yield the generations after its starting state, not the starting state itself.
- ConfigurableAlgorithm.UpdatesConflate: equality is stated for engine, restart point and producer position, not for producer ids, which differ by one fresh id.
- `CellState` internals, `toCellState`, the pattern parser and `boundingBox` are not part of this model. Cell states are sets, plaintext patterns are read directly from their rows ('O' alive), and a state's bounding box is a parameter (`boxOf`).
- `IntRect.containedPoints` and `getAliveCellsInWindow` are taken to include the right and bottom edges (closed rectangles); the geometry module is not part of this model.
- OpenGL rendering, matrices, complication styling and colours of the watch face are platform graphics and are left out. `WatchFace.Render` takes the window as a parameter and yields a boolean per buffer slot instead of a colour.
- Randomness: `Random.nextFloat() < 0.2` selection of pool points is a parameter (`keep`).
- The round random pool's float Euclidean distance filter is a parameter (`roundPool`).
- Float pixel math in the cell window (`ceil` column counts, scale, zoom and pan) is left out; the four integer counts are inputs and offsets are reals.
- The gesture detector, `CustomTransformGestureDetector.kt` and `AnimatePlacement.kt` are float pointer and animation numerics and are left out.
- The `log2(60)` display value of the target-steps slider is a float logarithm and is left out; only whole slider positions are modelled.
- InlineSpeed.EnterGenerationsText: only the successful parse of well-formed decimal text is stated; the text field's rejection of other input is not asserted by the tests.
- InlineSpeed.EnterTargetStepsText: only whole-number text is read; fractional text such as "60.5" (the field holds a `Double`) is refused by the model, and the refusal of other input is not stated.
- NavigationHost.Save: entry ids are UUIDs in the program; the model uses natural numbers, and a key is the decimal text of the id, standing for the UUID's text form. The platform's bundle format beyond a string-keyed map is left out.
- The inline speed screen, the navigation host and the interactable cell are modelled from what their tests assert; their implementations are not part of this model.
- `DrawState` is modelled with its alive and dead cases only, the ones the tests exercise.
- Kotlin `Int` is 32 bits; the model uses unbounded integers, since all modelled values (times, window sizes, line numbers in messages) stay far below the limit.
- Diagnostic messages are plain strings; the `ParameterizedString` wrapper and localisation are not part of this model.
- `DisableOpenGLUi.kt`, dependency-injection and lifecycle wiring, Compose layout code, screenshot harnesses and test clock plumbing carry no modelled behaviour.
