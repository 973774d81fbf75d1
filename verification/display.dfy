/**
 Drawing one frame: recentre the window, pick the colour pair from the run
 state, and write the clock either as plain text (terminal too small) or
 as five block glyphs side by side.
 */
module Display {

  import Timer
  import Glyphs
  import Clock
  import Layout
  import Stopwatch

  /** Colour pair 1 (green) while running, pair 2 (red) while stopped. */
  function ColorPair(state: Timer.RunState): (pair: int)
    ensures pair == 1 || pair == 2
    ensures pair == 1 <==> state == Timer.Running
  {
    if state == Timer.Running then 1 else 2
  }

  /**
   One frame: the window origin, whether the screen was cleared first,
   whether the clock is shown as plain text, the colour pair, and the
   writes into the timer window.
   */
  datatype Frame = Frame(x: int, y: int, cleared: bool, plain: bool, pair: int, puts: seq<Glyphs.Put>)

  /**
   The glyph slot block `b` shows for `seconds`: minute tens, minute
   units, the colon, second tens, second units.
   */
  function ClockSlot(seconds: int, b: int): (slot: int)
    requires Timer.InRange(seconds) && 0 <= b < Clock.Blocks
    ensures Glyphs.ValidSlot(slot)
  {
    var minutes := seconds / 60;
    var rest := seconds % 60;
    [minutes / 10, minutes % 10, Glyphs.ColonSlot, rest / 10, rest % 10][b]
  }

  /**
   The block glyphs for `seconds` drawn from a packed table: glyph row
   `n % 9` of block `n / 9`, for each of the 45 writes.
   */
  function GlyphPuts(table: string, seconds: int): (puts: seq<Glyphs.Put>)
    requires Glyphs.Packed(table) && Timer.InRange(seconds)
    ensures |puts| == Clock.Blocks * Glyphs.LetterHeight
    ensures forall n :: 0 <= n < |puts| ==>
      0 <= puts[n].x && puts[n].x + |puts[n].text| <= Layout.MinWidth && 0 <= puts[n].y < Layout.MinHeight
  {
    seq(Clock.Blocks * Glyphs.LetterHeight, n requires 0 <= n < Clock.Blocks * Glyphs.LetterHeight =>
      Glyphs.Put((n / Glyphs.LetterHeight) * Glyphs.LetterWidth + Layout.Padding,
                 Layout.Padding + n % Glyphs.LetterHeight,
                 Glyphs.GlyphRow(table, ClockSlot(seconds, n / Glyphs.LetterHeight), n % Glyphs.LetterHeight)))
  }

  /**
   The frame drawn for state `a` in a terminal of size `term`, and the
   state afterwards. The centred origin is the one passed to `mvwin`
   (which leaves the window in place when that origin is off-screen, as it
   is for a too-small terminal), and every write lands inside the 30 by 9
   timer window.
   */
  function Present(a: Stopwatch.App, term: Layout.Size): (r: (Stopwatch.App, Frame))
    requires Layout.TooSmall(term) || Timer.InRange(a.timer.seconds)
    ensures r.0 == a.(last := term)
    ensures r.1.x == Layout.CenterWindow(a.last, term).x && r.1.y == Layout.CenterWindow(a.last, term).y
    ensures 0 <= (term.cols - (r.1.x + Layout.MinWidth)) - r.1.x <= 1
    ensures -1 <= (term.rows - (r.1.y + Layout.MinHeight)) - r.1.y <= 0
    ensures r.1.cleared <==> a.last != term
    ensures r.1.plain <==> term.cols < 30 || term.rows < 9
    ensures r.1.pair == 1 <==> a.timer.state == Timer.Running
    ensures r.1.pair == 2 <==> a.timer.state == Timer.Stopped
    ensures r.1.plain ==> r.1.puts == [Glyphs.Put(0, 0, Clock.Format(a.timer.seconds))]
    ensures !r.1.plain ==> r.1.puts == GlyphPuts(Glyphs.Table(a.style), a.timer.seconds)
    ensures forall n :: 0 <= n < |r.1.puts| ==>
      0 <= r.1.puts[n].x && r.1.puts[n].x + |r.1.puts[n].text| <= Layout.MinWidth && 0 <= r.1.puts[n].y < Layout.MinHeight
  {
    var p := Layout.CenterWindow(a.last, term);
    var puts := if p.tooSmall then [Glyphs.Put(0, 0, Clock.Format(a.timer.seconds))]
                else GlyphPuts(Glyphs.Table(a.style), a.timer.seconds);
    (a.(last := p.remembered), Frame(p.x, p.y, p.cleared, p.tooSmall, ColorPair(a.timer.state), puts))
  }

  /**
   A reachable state can always be drawn, and the loop's `Draw` step is
   exactly the state change of drawing a frame.
   */
  lemma DrawStepIsPresent(a: Stopwatch.App, term: Layout.Size)
    requires Stopwatch.Valid(a) && !a.exit
    ensures Layout.TooSmall(term) || Timer.InRange(a.timer.seconds)
    ensures Stopwatch.Step(a, Stopwatch.Draw(term)) == Present(a, term).0
  {
  }

  /** Write `9*b + row` of the glyph display belongs to block `b`, glyph row `row`. */
  lemma DivModBlock(b: int, row: int)
    requires 0 <= b < Clock.Blocks && 0 <= row < Glyphs.LetterHeight
    ensures (b * Glyphs.LetterHeight + row) / Glyphs.LetterHeight == b
    ensures (b * Glyphs.LetterHeight + row) % Glyphs.LetterHeight == row
  {
  }

  /** Block `b` of the glyph display is glyph `ClockSlot(seconds, b)` drawn at column `b*6`. */
  lemma BlockIsLetter(table: string, seconds: int, b: int)
    requires Glyphs.Packed(table) && Timer.InRange(seconds) && 0 <= b < Clock.Blocks
    ensures (b + 1) * Glyphs.LetterHeight <= |GlyphPuts(table, seconds)|
    ensures GlyphPuts(table, seconds)[b * Glyphs.LetterHeight..(b + 1) * Glyphs.LetterHeight]
         == Glyphs.Letter(table, b * Glyphs.LetterWidth + Layout.Padding, Layout.Padding, ClockSlot(seconds, b))
  {
    var all := GlyphPuts(table, seconds);
    var block := all[b * Glyphs.LetterHeight..(b + 1) * Glyphs.LetterHeight];
    var letter := Glyphs.Letter(table, b * Glyphs.LetterWidth + Layout.Padding, Layout.Padding, ClockSlot(seconds, b));
    forall row | 0 <= row < Glyphs.LetterHeight
      ensures block[row] == letter[row]
    {
      var n := b * Glyphs.LetterHeight + row;
      DivModBlock(b, row);
      assert block[row] == all[n];
      assert all[n] == Glyphs.Put(b * Glyphs.LetterWidth + Layout.Padding, Layout.Padding + row,
                                  Glyphs.GlyphRow(table, ClockSlot(seconds, b), row));
    }
  }

  /** The writes of blocks `0..b+1` are those of blocks `0..b` followed by block `b`'s glyph. */
  lemma BlockPrefix(table: string, seconds: int, b: int)
    requires Glyphs.Packed(table) && Timer.InRange(seconds) && 0 <= b < Clock.Blocks
    ensures (b + 1) * Glyphs.LetterHeight <= |GlyphPuts(table, seconds)|
    ensures GlyphPuts(table, seconds)[..(b + 1) * Glyphs.LetterHeight]
         == GlyphPuts(table, seconds)[..b * Glyphs.LetterHeight]
            + Glyphs.Letter(table, b * Glyphs.LetterWidth + Layout.Padding, Layout.Padding, ClockSlot(seconds, b))
  {
    var all := GlyphPuts(table, seconds);
    BlockIsLetter(table, seconds, b);
    assert all[..(b + 1) * Glyphs.LetterHeight]
        == all[..b * Glyphs.LetterHeight] + all[b * Glyphs.LetterHeight..(b + 1) * Glyphs.LetterHeight];
  }

  /** Character `b` of the clock text selects the slot `ClockSlot` gives for block `b`. */
  lemma TextSlot(seconds: int, b: int)
    requires Timer.InRange(seconds) && 0 <= b < Clock.Blocks
    ensures b < |Clock.Format(seconds)|
    ensures Clock.GlyphIndex(Clock.Format(seconds)[b]) == ClockSlot(seconds, b)
  {
    Clock.FormatSlotValues(seconds);
  }

  /**
   The block-glyph part of a frame as the program draws it: glyph slot
   `text[i] - '0'` at column `i*6`, for each of the five characters of the
   clock text.
   */
  method PrintBlocks(table: string, seconds: int) returns (puts: seq<Glyphs.Put>)
    requires Glyphs.Packed(table) && Timer.InRange(seconds)
    ensures puts == GlyphPuts(table, seconds)
  {
    var text := Clock.Format(seconds);
    puts := [];
    var i := 0;
    while i < Clock.Blocks
      invariant 0 <= i <= Clock.Blocks
      invariant puts == GlyphPuts(table, seconds)[..i * Glyphs.LetterHeight]
    {
      TextSlot(seconds, i);
      var idx := Clock.GlyphIndex(text[i]);
      var letter := Glyphs.PrintLetter(table, i * Glyphs.LetterWidth + Layout.Padding, Layout.Padding, idx);
      BlockPrefix(table, seconds, i);
      puts := puts + letter;
      i := i + 1;
    }
  }

  /** A whole frame as the program draws it. */
  method Print(a: Stopwatch.App, term: Layout.Size) returns (next: Stopwatch.App, frame: Frame)
    requires Layout.TooSmall(term) || Timer.InRange(a.timer.seconds)
    ensures (next, frame) == Present(a, term)
  {
    var p := Layout.CenterWindow(a.last, term);
    next := a.(last := p.remembered);
    var puts: seq<Glyphs.Put>;
    if p.tooSmall {
      puts := [Glyphs.Put(0, 0, Clock.Format(a.timer.seconds))];
    } else {
      puts := PrintBlocks(Glyphs.Table(a.style), a.timer.seconds);
    }
    frame := Frame(p.x, p.y, p.cleared, p.tooSmall, ColorPair(a.timer.state), puts);
  }
}
