# Countdown timer: a Dafny model

The program is a terminal countdown timer. It draws the remaining time as
five large block glyphs (`MM:SS`) in a 30 by 9 window centred in the
terminal. It falls back to plain text when the terminal is smaller than
that. While stopped it reads single keys: `h`/`j` take off 30/60 seconds,
`k`/`l` add 60/30, `s` starts, `t` switches between the `#` and the `*`
glyph table, and `q` quits. While running it sleeps a second and ticks. An
interrupt pauses a running timer and ends the program otherwise.

This project models the pure logic under the curses and sleep calls, as
immutable datatypes and functions:

- `Timer` (timer.dfy): the seconds/run-state record, `AddSeconds` with its
  clamp to `[0, 5940]`, the constructor, and the unguarded pre-decrementing
  `Tick`.
- `Glyphs` (glyphs.dfy): both glyph tables, character for character, kept
  as 9 rows of 66 characters. The packed string the program indexes is
  their concatenation. Also the offset arithmetic `idx*6 + row*66`, the
  glyph printer's loop, and the table toggle.
- `Clock` (clock.dfy): `"%02d:%02d"` of C-truncated `seconds / 60` and
  `seconds % 60`, cut to 5 characters by the 6-byte buffer, and the glyph
  slot `c - '0'` of each character. It is defined for every `int`, negative
  ones included.
- `Layout` (layout.dfy): the 30 by 9 minimum, the centring origin, the
  plain-text decision and resize detection.
- `Stopwatch` (stopwatch.dfy): the loop state (timer, active table, exit
  flag, last terminal size), one step function per event, event runs, and
  the reachable-state invariant.
- `Display` (display.dfy): one frame, meaning the origin, the clear, the
  colour pair and the writes into the window. It is given twice: as the
  printing loop the program runs, and as a reference definition in terms
  of the minute and second digits. The two are proved equal.

Three facts about the code that the model keeps:

- The window's top line is `rows/2 - 4`, so an 80 by 24 terminal puts it
  at line 8.
- Slot 10 of both tables is the colon glyph, where `':' - '0'` lands.
- Keys are read only while stopped.

## Model

| member | source | states |
|---|---|---|
| Timer.AddSeconds | main.cpp:73-80 | the result is always in [0, 5940]; it is the plain sum when that is in range, 0 below, 5940 above; the run state is unchanged |
| Timer.New | main.cpp:68-71 | a new timer is stopped, with the initial duration clamped to the ceiling |
| Timer.Tick | main.cpp:82 | seconds drop by exactly one and the report is true iff the timer held 1 second |
| Timer.AddThenSubtract | main.cpp:73-80 | adding d then −d restores the timer when no clamping occurred |
| Timer.AddSecondsMonotone | main.cpp:73-80 | a larger delta never leaves fewer seconds |
| Timer.TickAtZeroGoesNegative | main.cpp:82 | ticking at zero yields −1 with no zero report (the unguarded decrement) |
| Glyphs.Rows | main.cpp:9-29 | each table has 9 rows of 66 characters |
| Glyphs.Table | main.cpp:9-29 | each packed table is 594 = 9×66 characters long |
| Glyphs.ConcatIndex | main.cpp:9-29 | in equal-width rows, row r column k is character r·w + k of the packed string |
| Glyphs.Offset | main.cpp:38-46 | for slot 0..10 and row 0..8 the 6-character slice at `idx*6 + row*66` lies inside the table (largest index read: 593); the offset's row and column within the table are `row` and `idx*6` |
| Glyphs.GlyphRow | main.cpp:43 | one glyph row is 6 characters, each the table character at offset + k |
| Glyphs.GlyphRowInRow | main.cpp:38-46 | the packed offset reads columns idx·6..idx·6+6 of table row `row` |
| Glyphs.Letter | main.cpp:38-47 | a glyph is 9 writes of 6 characters, in one column, on consecutive lines |
| Glyphs.PrintLetter | main.cpp:38-47 | the loop reading the active table through the pointer, with its running index `+= 66` and cursor `++y`, produces exactly those writes |
| Glyphs.Toggle | main.cpp:204-207 | `t` always changes the active table |
| Glyphs.ToggleTwice | main.cpp:204-207 | two toggles restore the original table |
| Glyphs.ColonGlyph | main.cpp:10-29 | slot 10 is the colon in both tables: ink on rows 1, 2, 6, 7, blank elsewhere |
| Glyphs.NumbersColon | main.cpp:10-18 | slot 10 of the `#` table is the colon |
| Glyphs.Numbers2Colon | main.cpp:21-29 | slot 10 of the `*` table is the colon |
| Clock.CDiv | main.cpp:98 | C division truncates toward zero |
| Clock.CRem | main.cpp:98-99 | C remainder satisfies a = q·d + r with r taking the dividend's sign |
| Clock.Decimal | main.cpp:98 | the decimal writing is all digits, has no leading zero (it starts with `0` only when it is exactly `0`), and denotes n |
| Clock.Pad02 | main.cpp:98 | `%02d` is at least 2 characters. For n ≥ 0 it is digits denoting n: exactly 2 below 10, no leading zero from 10 up. For n < 0 it is `-` followed by the digits of −n, with no leading zero |
| Clock.Truncate | main.cpp:97-98 | a buffer of size n keeps the whole string when it fits, and otherwise exactly its first n−1 characters |
| Clock.Format | main.cpp:97-99 | the clock text never exceeds 5 characters, for any seconds value |
| Clock.Pad02TwoDigits | main.cpp:98 | values 0..99 pad to exactly their tens and units digits |
| Clock.FormatShape | main.cpp:97-99 | for seconds in [0, 5940] the text is minute tens, minute units, `:`, second tens, second units |
| Clock.ParseFormat | main.cpp:97-99 | for seconds in [0, 5940] the text is digit, digit, `:`, digit, digit, and reading it back gives the seconds |
| Clock.FormatExample90 | main.cpp:97-99 | 90 formats as `01:30` |
| Clock.FormatExample0 | main.cpp:97-99 | 0 formats as `00:00` |
| Clock.FormatExampleCeiling | main.cpp:97-99 | 5940 formats as `99:00` |
| Clock.GlyphIndex | main.cpp:106-108 | a digit maps to slot 0..9 and `:` to slot 10 |
| Clock.FormatSlots | main.cpp:97-108 | every character of an in-range clock text maps into [0, 10], and only the colon maps to 10 |
| Clock.FormatSlotValues | main.cpp:97-108 | the five slots are the minute and second digits with the colon slot between them |
| Layout.CenterWindow | main.cpp:125-141 | plain text iff cols < 30 or rows < 9; cleared iff the size changed; the remembered size is the current one; left/right margins differ by 0 or 1, top/bottom by 0 or −1 |
| Layout.OriginUnique | main.cpp:129-130 | the centring margins determine the origin, so they characterise `cols/2 − 15, rows/2 − 4` |
| Layout.CenterExample | main.cpp:129-130 | an 80×24 terminal gives origin (25, 8), glyph mode, and a clear on the first frame |
| Layout.RecenterIdempotent | main.cpp:132-137 | a second frame at the same size clears nothing and changes nothing else |
| Stopwatch.Init | main.cpp:116 | the program starts stopped with 90 seconds, the `#` table, no exit, remembered size 0×0 |
| Stopwatch.OnElapsed | main.cpp:182-186 | after the sleep: one second less; a running timer stops exactly when it reaches zero; nothing else changes; the invariant is kept while time was left |
| Stopwatch.OnKey | main.cpp:188-212 | `h j k l` apply −30/−60/+60/+30; `s` starts iff seconds ≠ 0, with seconds kept; `t` alone changes the table; `q` alone sets exit; any other key changes nothing; the last size is never touched |
| Stopwatch.OnInterrupt | main.cpp:143-150 | running becomes stopped with seconds unchanged; stopped ends the program |
| Stopwatch.Step | main.cpp:178-213 | only a frame changes the remembered size, and it sets it to the terminal's |
| Stopwatch.StepPreservesValid | main.cpp:178-213 | every enabled event keeps seconds in [0, 5940] and running ⇒ seconds > 0 |
| Stopwatch.RunPreservesValid | main.cpp:178-213 | every admissible run of events keeps the invariant |
| Stopwatch.ReachableValid | main.cpp:178-213 | every reachable state has 0 ≤ seconds ≤ 5940 and running ⇒ seconds > 0 |
| Stopwatch.KeysUndo | main.cpp:189-195 | `k` then `j`, and `l` then `h`, restore the state when nothing was clamped |
| Stopwatch.ToggleTwiceRestores | main.cpp:204-208 | `t` twice restores the state |
| Stopwatch.StartAtZeroIgnored | main.cpp:198-202 | `s` at zero changes nothing |
| Stopwatch.InterruptedSleepStillTicks | main.cpp:182-186 | an interrupt during the sleep pauses the timer and the pass still takes one second off, never below zero |
| Stopwatch.InterruptTwice | main.cpp:143-150 | the first interrupt pauses with seconds unchanged; the second ends the program |
| Stopwatch.CountdownRunning | main.cpp:182-186 | from running with n seconds, after k < n ticks it still runs with n − k, and the zero report comes only on the n-th tick |
| Stopwatch.CountdownStops | main.cpp:182-186 | exactly n ticks from running with n seconds stop the timer at 0 |
| Stopwatch.EndToEnd | main.cpp:178-213 | from the start: `k` gives 150, `s` runs, and 150 ticks end stopped at 0 |
| Display.ColorPair | main.cpp:101 | pair 1 iff running, pair 2 otherwise |
| Display.ClockSlot | main.cpp:97-99 | every block's slot is a valid glyph slot |
| Display.GlyphPuts | main.cpp:106-109 | 45 writes, all inside the 30×9 window |
| Display.Present | main.cpp:95-114 | remembers the size; passes the centring origin to `mvwin`; clears iff resized; plain text iff cols < 30 or rows < 9, and then the text at (0, 0); glyph mode writes the clock-digit glyphs; colour pair 1 iff running, 2 iff stopped; every write fits the window |
| Display.DrawStepIsPresent | main.cpp:125-141 | a reachable state can always be drawn, and the loop's frame step is the state change of drawing |
| Display.BlockPrefix | main.cpp:106-109 | the writes of the first b+1 blocks are those of the first b followed by glyph ClockSlot(seconds, b) at column 6b |
| Display.TextSlot | main.cpp:97-108 | character b of an in-range clock text selects the slot of block b: a minute digit, the colon or a second digit |
| Display.BlockIsLetter | main.cpp:106-109 | block b of the display is glyph ClockSlot(seconds, b) at column 6b |
| Display.PrintBlocks | main.cpp:97-109 | printing slot `text[i] − '0'` at column 6i for each character produces the clock-digit glyphs |
| Display.Print | main.cpp:95-114 | the frame as the program draws it equals the reference frame |

## Left out

- Curses calls (`initscr`, `newwin`, `mvwin`, attributes, `waddnstr`, refreshes, clears, colour pairs, `has_colors` and `CleanUp`) are terminal I/O. The model keeps only the values passed to them: origins, cleared-or-not, colour pair number, strings and cells.
- `getchar` and `sleep_for` are blocking I/O and timing. They become the `Press` and `Elapsed` events.
- Signal registration and asynchronous delivery are concurrency. The handler is modelled as the `Interrupt` event between passes and the `SleepInterrupted` event during a running pass's sleep. An interrupt arriving while `q` is being processed is not modelled.
- Interrupt while stopped ends the program with cleanup and status 0; the model records this as the exit flag, like `q`.
- `getchar` returning end-of-file: keys are `char`s, so EOF is not a separate value. The source treats it like any other unmatched key.
- Timer.AddSeconds: does not model the unsigned parameter's 32-bit wrap, because for every delta the program passes (±30, ±60) the wrap yields the signed sum.
- Timer.New: the unsigned constructor argument is a `nat` without 32-bit wrap, because the only value passed is 90.
- 32-bit `int` overflow of the seconds is not modelled, because reachable values stay in [0, 5940].
- `mvwprintw` uses the clock text as its format string. The text never holds `%`, so it is modelled as a plain write.
- Display.Present: requires the seconds to be in [0, 5940] when glyphs are drawn. For negative values the source reads outside the table, which is undefined behaviour: -1 gives `00:-1`, and `'-' - '0'` is -3. Values above 5940 are drawn by the source from the cut text (6000 gives `100:0`), but the model does not cover them. Reachable states always meet the requirement (Display.DrawStepIsPresent).
- The unused wide-string `font` and the commented-out border draw no output.
