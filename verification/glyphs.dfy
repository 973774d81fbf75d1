/**
 The block-letter font: two glyph tables and the arithmetic that cuts one
 glyph out of them.

 Each table is 9 rows of 66 characters. The program stores the rows end to
 end in one packed string and finds row `r` of glyph slot `i` at offset
 `i*6 + r*66`; here the rows are kept apart and the packed string is their
 concatenation, so the offset arithmetic becomes a lemma. Slots 0-9 are the
 digits and slot 10 is the colon, which is where `':' - '0'` lands.
 */
module Glyphs {

  /** Which of the two tables is active: the `#` one or the `*` one. */
  datatype Style = Numbers | Numbers2

  const LetterCount: int := 11
  const LetterHeight: int := 9
  const LetterWidth: int := 6
  const AlphabetWidth: int := 66
  const TableSize: int := 594

  /** The glyph slot of the colon. */
  const ColonSlot: int := 10

  const NumbersRows: seq<string> := [
    " ##### ###   ##### ##### #   # ##### ##### ##### ##### #####      ",
    " #   #   #   #   #     # #   # #     #         # #   # #   #  ### ",
    " #   #   #   #   #     # #   # #     #         # #   # #   #  ### ",
    " #   #   #       #     # #   # #     #         # #   # #   #      ",
    " #   #   #   ##### ##### ##### ##### ##### ##### ##### #####      ",
    " #   #   #   #         #     #     # #   #     # #   #     #      ",
    " #   #   #   #         #     #     # #   #     # #   #     #  ### ",
    " #   #   #   #         #     #     # #   #     # #   #     #  ### ",
    " ##### ##### ##### #####     # ##### #####     # ##### #####      "
  ]

  const Numbers2Rows: seq<string> := [
    "   *     *    ***  *****     * *****  ***  *****  ***   ***       ",
    "  * *   **   *   *     *    ** *     *   *     * *   * *   *  *** ",
    " *   * * *       *    *    * * *     *        *  *   * *   *  *** ",
    " *   *   *       *   *    *  * * **  *       *   *   * *  **      ",
    " *   *   *      *   ***  *   * **  * * **    *    ***   ** *      ",
    " *   *   *     *       * *****     * **  *  *    *   *     *      ",
    " *   *   *    *        *     *     * *   *  *    *   *     *  *** ",
    "  * *    *   *     *   *     * *   * *   * *     *   * *   *  *** ",
    "   *   ***** *****  ***      *  ***   ***  *      ***   **        "
  ]

  /** The rows of a style's table. */
  function Rows(s: Style): (rows: seq<string>)
    ensures |rows| == LetterHeight
    ensures forall r :: 0 <= r < |rows| ==> |rows[r]| == AlphabetWidth
  {
    match s
    case Numbers => NumbersRows
    case Numbers2 => Numbers2Rows
  }

  /** The rows of `rows` written one after another. */
  function Concat(rows: seq<string>): string {
    if rows == [] then "" else rows[0] + Concat(rows[1..])
  }

  /** The packed table of a style, as the program stores it. */
  function Table(s: Style): (t: string)
    ensures |t| == TableSize
  {
    ConcatLength(Rows(s), AlphabetWidth);
    Concat(Rows(s))
  }

  /** Rows of equal width `w` concatenate to `|rows| * w` characters. */
  lemma {:induction false} ConcatLength(rows: seq<string>, w: nat)
    requires forall r :: 0 <= r < |rows| ==> |rows[r]| == w
    ensures |Concat(rows)| == |rows| * w
  {
    if rows != [] {
      ConcatLength(rows[1..], w);
    }
  }

  /** In rows of equal width `w`, character `k` of row `r` sits at `r*w + k` of the concatenation. */
  lemma {:induction false} ConcatIndex(rows: seq<string>, w: nat, r: nat, k: nat)
    requires forall i :: 0 <= i < |rows| ==> |rows[i]| == w
    requires r < |rows| && k < w
    ensures r * w + k < |Concat(rows)|
    ensures Concat(rows)[r * w + k] == rows[r][k]
  {
    ConcatLength(rows, w);
    ConcatLength(rows[1..], w);
    if r > 0 {
      ConcatIndex(rows[1..], w, r - 1, k);
      assert r * w + k == w + ((r - 1) * w + k);
    }
  }

  /** The `t` key: swap the active table for the other one. */
  function Toggle(s: Style): (r: Style)
    ensures r != s
  {
    match s
    case Numbers => Numbers2
    case Numbers2 => Numbers
  }

  /** True for a slot that exists in both tables. */
  predicate ValidSlot(idx: int) {
    0 <= idx < LetterCount
  }

  /**
   Where row `row` of glyph slot `idx` starts in a packed table. The whole
   6-character slice that starts there lies inside the table.
   */
  function Offset(idx: int, row: int): (o: int)
    requires ValidSlot(idx) && 0 <= row < LetterHeight
    ensures 0 <= o && o + LetterWidth <= TableSize
    ensures o % AlphabetWidth == idx * LetterWidth
    ensures o / AlphabetWidth == row
  {
    idx * LetterWidth + row * AlphabetWidth
  }

  /** A packed table: 9 rows of 66 characters stored end to end, as `Table` gives for either style. */
  predicate Packed(table: string) {
    |table| == TableSize
  }

  /** Row `row` of glyph slot `idx` in a packed table: six consecutive characters. */
  function GlyphRow(table: string, idx: int, row: int): (r: string)
    requires Packed(table) && ValidSlot(idx) && 0 <= row < LetterHeight
    ensures |r| == LetterWidth
    ensures forall k :: 0 <= k < LetterWidth ==> r[k] == table[Offset(idx, row) + k]
  {
    table[Offset(idx, row)..Offset(idx, row) + LetterWidth]
  }

  /**
   The packed offset arithmetic reads the intended cells: row `row` of
   glyph `idx` is columns `idx*6 .. idx*6+6` of table row `row`.
   */
  lemma GlyphRowInRow(s: Style, idx: int, row: int)
    requires ValidSlot(idx) && 0 <= row < LetterHeight
    ensures GlyphRow(Table(s), idx, row) == Rows(s)[row][idx * LetterWidth..idx * LetterWidth + LetterWidth]
  {
    PackedRow(Rows(s), idx, row);
  }

  /** `GlyphRowInRow` for any 9 rows of 66 characters. */
  lemma PackedRow(rows: seq<string>, idx: int, row: int)
    requires |rows| == LetterHeight && forall r :: 0 <= r < |rows| ==> |rows[r]| == AlphabetWidth
    requires ValidSlot(idx) && 0 <= row < LetterHeight
    ensures Packed(Concat(rows))
    ensures GlyphRow(Concat(rows), idx, row) == rows[row][idx * LetterWidth..idx * LetterWidth + LetterWidth]
  {
    ConcatLength(rows, AlphabetWidth);
    RowChars(rows, AlphabetWidth, row, row * AlphabetWidth);
    SliceAt(Concat(rows), rows[row], row * AlphabetWidth, idx * LetterWidth, idx * LetterWidth + LetterWidth);
  }

  /**
   Row `r` of equal-width rows occupies `w` characters from `start = r*w`
   of the concatenation, character for character.
   */
  lemma RowChars(rows: seq<string>, w: nat, r: nat, start: nat)
    requires forall i :: 0 <= i < |rows| ==> |rows[i]| == w
    requires r < |rows| && start == r * w
    ensures start + w <= |Concat(rows)|
    ensures forall k :: 0 <= k < w ==> Concat(rows)[start + k] == rows[r][k]
  {
    ConcatLength(rows, w);
    RowFits(r, w, |rows|);
    forall k | 0 <= k < w
      ensures Concat(rows)[start + k] == rows[r][k]
    {
      ConcatIndex(rows, w, r, k);
    }
  }

  /** A string that agrees with `row` on `lo..hi` from `start` on holds that slice of `row` there. */
  lemma SliceAt(s: string, row: string, start: nat, lo: nat, hi: nat)
    requires lo <= hi <= |row| && start + hi <= |s|
    requires forall k :: lo <= k < hi ==> s[start + k] == row[k]
    ensures s[start + lo..start + hi] == row[lo..hi]
  {
    forall j | 0 <= j < hi - lo
      ensures s[start + lo..start + hi][j] == row[lo..hi][j]
    {
      assert s[start + lo + j] == row[lo + j];
    }
  }

  /** Row `r` of `n` rows of width `w` ends inside the concatenation. */
  lemma {:induction false} RowFits(r: nat, w: nat, n: nat)
    requires r < n
    ensures r * w + w <= n * w
    decreases n
  {
    assert n * w == (n - 1) * w + w;
    if r < n - 1 {
      RowFits(r, w, n - 1);
    }
  }

  /** One write of a string at a cell of the timer window (column `x`, line `y`). */
  datatype Put = Put(x: int, y: int, text: string)

  /**
   The writes that draw glyph slot `idx` of a packed table with its
   top-left cell at `(x, y)`: one 6-character write per glyph row, each one
   line lower and in the same column.
   */
  function Letter(table: string, x: int, y: int, idx: int): (r: seq<Put>)
    requires Packed(table) && ValidSlot(idx)
    ensures |r| == LetterHeight
    ensures forall row :: 0 <= row < LetterHeight ==>
      r[row].x == x && r[row].y == y + row && r[row].text == GlyphRow(table, idx, row)
  {
    seq(LetterHeight, row requires 0 <= row < LetterHeight => Put(x, y + row, GlyphRow(table, idx, row)))
  }

  /**
   The glyph printer as the program runs it, reading the active table
   through a pointer: a running table index that starts at `idx*6` and
   advances by one table row per glyph row, and a cursor that moves down
   one line per glyph row.
   */
  method PrintLetter(table: string, x: int, y: int, idx: int) returns (puts: seq<Put>)
    requires Packed(table) && ValidSlot(idx)
    ensures puts == Letter(table, x, y, idx)
  {
    var index := idx * LetterWidth;
    var line := y;
    puts := [];
    var i := 0;
    while i < LetterHeight
      invariant 0 <= i <= LetterHeight
      invariant index == idx * LetterWidth + i * AlphabetWidth
      invariant line == y + i
      invariant puts == Letter(table, x, y, idx)[..i]
    {
      assert index == Offset(idx, i);
      puts := puts + [Put(x, line, table[index..index + LetterWidth])];
      line := line + 1;
      index := index + AlphabetWidth;
      i := i + 1;
    }
  }

  /** Two presses of `t` give back the table that was active before. */
  lemma ToggleTwice(s: Style)
    ensures Toggle(Toggle(s)) == s
  {
  }

  /** The ink a style draws with. */
  function Ink(s: Style): char {
    match s
    case Numbers => '#'
    case Numbers2 => '*'
  }

  /**
   Slot 10 is a colon in both tables: a three-cell dash of ink on rows 1,
   2, 6 and 7 and blank rows elsewhere.
   */
  lemma ColonGlyph(s: Style, row: int)
    requires 0 <= row < LetterHeight
    ensures GlyphRow(Table(s), ColonSlot, row) ==
      if row in {1, 2, 6, 7} then [' ', ' ', Ink(s), Ink(s), Ink(s), ' '] else "      "
  {
    GlyphRowInRow(s, ColonSlot, row);
    match s
    case Numbers => NumbersColon(row);
    case Numbers2 => Numbers2Colon(row);
  }

  lemma NumbersColon(row: int)
    requires 0 <= row < LetterHeight
    ensures NumbersRows[row][60..66] == if row in {1, 2, 6, 7} then "  ### " else "      "
  {
  }

  lemma Numbers2Colon(row: int)
    requires 0 <= row < LetterHeight
    ensures Numbers2Rows[row][60..66] == if row in {1, 2, 6, 7} then "  *** " else "      "
  {
  }
}
