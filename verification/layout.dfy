/**
 Window placement: where the fixed-size timer window goes in the terminal,
 whether the terminal is too small for block glyphs, and whether the
 screen must be wiped because the terminal changed size since last frame.
 */
module Layout {

  import Glyphs
  import Clock

  /** Padding around the glyphs inside the timer window (none). */
  const Padding: int := 0

  /** The timer window's size: five glyphs side by side, one glyph tall. */
  const MinWidth: int := Glyphs.LetterWidth * Clock.Blocks + Padding * 2
  const MinHeight: int := Glyphs.LetterHeight + Padding * 2

  /** A terminal extent in character cells. */
  datatype Size = Size(cols: nat, rows: nat)

  /** The size remembered before the first frame: both globals start at zero. */
  const Unseen: Size := Size(0, 0)

  /**
   The outcome of recentring for one frame: the window's top-left cell,
   whether the terminal is too small for block glyphs (the program's
   `display_big_text` flag, which despite its name selects plain text),
   whether the whole screen was cleared, and the size to remember.
   */
  datatype Placement = Placement(x: int, y: int, tooSmall: bool, cleared: bool, remembered: Size)

  /** True when the terminal cannot hold the timer window. */
  predicate TooSmall(term: Size) {
    term.cols < MinWidth || term.rows < MinHeight
  }

  /**
   Recentres the timer window in a terminal of size `term`, given the
   size `last` seen on the previous frame.
   */
  function CenterWindow(last: Size, term: Size): (p: Placement)
    ensures p.tooSmall <==> term.cols < 30 || term.rows < 9
    ensures p.cleared <==> last != term
    ensures p.remembered == term
    ensures 0 <= (term.cols - (p.x + MinWidth)) - p.x <= 1
    ensures -1 <= (term.rows - (p.y + MinHeight)) - p.y <= 0
  {
    var y := term.rows / 2 - MinHeight / 2;
    var x := term.cols / 2 - MinWidth / 2;
    var changed := last.cols != term.cols || last.rows != term.rows;
    Placement(x, y, TooSmall(term), changed, term)
  }

  /**
   The centring conditions pin the origin down: any origin whose margins
   differ as `CenterWindow`'s do is the one it picks.
   */
  lemma OriginUnique(term: Size, x: int, y: int)
    requires 0 <= (term.cols - (x + MinWidth)) - x <= 1
    requires -1 <= (term.rows - (y + MinHeight)) - y <= 0
    ensures x == CenterWindow(Unseen, term).x
    ensures y == CenterWindow(Unseen, term).y
  {
  }

  /** An 80 by 24 terminal puts the window at column 25, line 8. */
  lemma CenterExample()
    ensures var p := CenterWindow(Unseen, Size(80, 24)); p.x == 25 && p.y == 8 && !p.tooSmall && p.cleared
  {
  }

  /** A second frame at an unchanged size does not clear the screen again. */
  lemma RecenterIdempotent(last: Size, term: Size)
    ensures var p := CenterWindow(last, term);
      CenterWindow(p.remembered, term) == p.(cleared := false)
  {
  }
}
