/**
 The text screen of code/arch/x86/tty.c: an 80 by 25 buffer that shows the last
 rows of a page without end, on which nothing ever scrolls.
*/
module Tty {
  const COLUMNS: nat := 80
  const ROWS: nat := 25
  const SIZE: nat := COLUMNS * ROWS

  type Byte = x: int | 0 <= x < 256
  type Cell = x: int | 0 <= x < 65536

  const DEFAULT_COLOR: Byte := 0x0F

  // The attribute in the high byte, the character in the low one.
  function CellOf(color: Byte, ch: Byte): Cell { color * 256 + ch }

  lemma CellBytes(color: Byte, ch: Byte)
    ensures CellOf(color, ch) / 256 == color && CellOf(color, ch) % 256 == ch
  {
  }

  const BLANK: Cell := CellOf(DEFAULT_COLOR, ' ' as int)

  // ------------------------------------------------------------ the endless page

  // The cells written so far, all others being blank, and where the next
  // character goes, counted along the rows.
  datatype Page = Page(cells: map<nat, Cell>, pos: nat)

  function CellAt(g: Page, i: nat): Cell { if i in g.cells then g.cells[i] else BLANK }

  function Row(g: Page): nat { g.pos / COLUMNS }

  // What a character means.
  function Put(g: Page, color: Byte, ch: Byte): Page {
    if ch == '\n' as int then g.(pos := (Row(g) + 1) * COLUMNS)
    else if ch == '\r' as int then g.(pos := Row(g) * COLUMNS)
    else if ch == 8 then g.(pos := if g.pos % COLUMNS == 0 then g.pos else g.pos - 1)
    else if ch == '\t' as int then Tab(g)
    else Write(g, color, ch)
  }

  function Write(g: Page, color: Byte, ch: Byte): Page {
    Page(g.cells[g.pos := CellOf(color, ch)], g.pos + 1)
  }

  // Four blanks in the default colour, whatever the colour of the tab.
  function Tab(g: Page): Page {
    var h := Write(Write(g, DEFAULT_COLOR, ' ' as int), DEFAULT_COLOR, ' ' as int);
    Write(Write(h, DEFAULT_COLOR, ' ' as int), DEFAULT_COLOR, ' ' as int)
  }

  // A text in the default colour.
  function Puts(g: Page, text: seq<Byte>): Page
    decreases |text|
  {
    if text == [] then g
    else
      var m := |text| - 1;
      Put(Puts(g, text[..m]), DEFAULT_COLOR, text[m])
  }

  lemma {:induction false} PutsAppend(g: Page, s: seq<Byte>, t: seq<Byte>)
    ensures Puts(g, s + t) == Puts(Puts(g, s), t)
    decreases |t|
  {
    if t == [] {
      assert s + t == s;
    } else {
      var m := |t| - 1;
      PutsAppend(g, s, t[..m]);
      assert (s + t)[..|s + t| - 1] == s + t[..m];
    }
  }

  // The row of the cursor never goes back, and rows above it keep their cells.
  lemma PutForward(g: Page, color: Byte, ch: Byte)
    ensures Row(Put(g, color, ch)) >= Row(g)
    ensures forall i: nat :: i < Row(g) * COLUMNS ==> CellAt(Put(g, color, ch), i) == CellAt(g, i)
  {
  }

  lemma {:induction false} PutsForward(g: Page, text: seq<Byte>)
    ensures Row(Puts(g, text)) >= Row(g)
    ensures forall i: nat :: i < Row(g) * COLUMNS ==> CellAt(Puts(g, text), i) == CellAt(g, i)
    decreases |text|
  {
    if text != [] {
      var m := |text| - 1;
      PutsForward(g, text[..m]);
      PutForward(Puts(g, text[..m]), DEFAULT_COLOR, text[m]);
    }
  }

  predicate Plain(ch: Byte) {
    ch != '\n' as int && ch != '\r' as int && ch != 8 && ch != '\t' as int
  }

  // A text without control characters lies on the page as it reads.
  lemma {:induction false} PutsPlain(g: Page, text: seq<Byte>)
    requires forall i :: 0 <= i < |text| ==> Plain(text[i])
    ensures var h := Puts(g, text);
      && h.pos == g.pos + |text|
      && forall i: nat :: CellAt(h, i) ==
           if g.pos <= i < g.pos + |text| then CellOf(DEFAULT_COLOR, text[i - g.pos]) else CellAt(g, i)
    decreases |text|
  {
    if text != [] {
      var m := |text| - 1;
      PutsPlain(g, text[..m]);
      assert Plain(text[m]);
      var f, h := Puts(g, text[..m]), Puts(g, text);
      assert h == Write(f, DEFAULT_COLOR, text[m]);
      forall i: nat
        ensures CellAt(h, i) ==
          if g.pos <= i < g.pos + |text| then CellOf(DEFAULT_COLOR, text[i - g.pos]) else CellAt(g, i)
      {
        assert CellAt(h, i) == if i == f.pos then CellOf(DEFAULT_COLOR, text[m]) else CellAt(f, i);
      }
    }
  }

  // --------------------------------------------------------- control characters

  // A plain character is written at the cursor in its colour, and the cursor goes on by
  // one; a newline goes to the start of the next row and writes nothing.
  lemma PlainAndNewline(g: Page, color: Byte, ch: Byte)
    ensures Plain(ch) ==> var h := Put(g, color, ch);
      && h.pos == g.pos + 1 && CellAt(h, g.pos) / 256 == color && CellAt(h, g.pos) % 256 == ch
      && forall i: nat :: i != g.pos ==> CellAt(h, i) == CellAt(g, i)
    ensures var h := Put(g, color, 10); h.cells == g.cells && Row(h) == Row(g) + 1 && h.pos % COLUMNS == 0
  {
    CellBytes(color, ch);
  }

  // A carriage return goes to the first column of the same row, and a backspace one
  // place back, but not out of its row; neither writes anything.
  lemma ReturnAndBackspace(g: Page, color: Byte)
    ensures var h := Put(g, color, 13); h.cells == g.cells && Row(h) == Row(g) && h.pos % COLUMNS == 0
    ensures var h := Put(g, color, 8); h.cells == g.cells && Row(h) == Row(g)
    ensures var h := Put(g, color, 8); h.pos % COLUMNS == if g.pos % COLUMNS == 0 then 0 else g.pos % COLUMNS - 1
  {
  }

  // A tab of any colour is four blanks in the default colour.
  lemma TabIsBlanks(g: Page, color: Byte)
    ensures Put(g, color, 9) == Puts(g, [32, 32, 32, 32])
  {
    assert [32, 32, 32, 32][..3] == [32, 32, 32] && [32, 32, 32][..2] == [32, 32] && [32, 32][..1] == [32];
    assert [32][..0] == [];
    assert Puts(g, [32]) == Write(g, DEFAULT_COLOR, 32);
    assert Puts(g, [32, 32]) == Write(Puts(g, [32]), DEFAULT_COLOR, 32);
    assert Puts(g, [32, 32, 32]) == Write(Puts(g, [32, 32]), DEFAULT_COLOR, 32);
  }

  // A plain text short of a whole row.
  predicate Line(l: seq<Byte>) {
    |l| < COLUMNS && forall i :: 0 <= i < |l| ==> Plain(l[i])
  }

  // The lines, each with a newline behind it.
  function Text(lines: seq<seq<Byte>>): seq<Byte> {
    if lines == [] then [] else Text(lines[..|lines| - 1]) + lines[|lines| - 1] + [10]
  }

  // Cell x of the row shows the line, and what was there before behind it.
  ghost predicate RowShows(h: Page, g: Page, row: nat, l: seq<Byte>) {
    forall i: nat :: i / COLUMNS == row ==>
      CellAt(h, i) == var x := i % COLUMNS; if x < |l| then CellOf(DEFAULT_COLOR, l[x]) else CellAt(g, i)
  }

  // Rows before the first and from the last on are as they were.
  ghost predicate SameOutside(h: Page, g: Page, first: nat, last: nat) {
    forall i: nat :: !(first <= i / COLUMNS < last) ==> CellAt(h, i) == CellAt(g, i)
  }

  lemma OneLine(g: Page, l: seq<Byte>)
    requires g.pos % COLUMNS == 0 && Line(l)
    ensures var h := Puts(g, l + [10]);
      h.pos == (Row(g) + 1) * COLUMNS && RowShows(h, g, Row(g), l) && SameOutside(h, g, Row(g), Row(g) + 1)
  {
    var f, h := Puts(g, l), Puts(g, l + [10]);
    assert (l + [10])[..|l|] == l;
    PutsPlain(g, l);
    assert h == Put(f, DEFAULT_COLOR, 10) && Row(f) == Row(g) && h.cells == f.cells;
    assert forall i: nat :: CellAt(h, i) == CellAt(f, i);
  }

  // A line in an earlier row, and the new one, after one line more.
  lemma RowKept(h: Page, f: Page, g: Page, row: nat, l: seq<Byte>, next: nat)
    requires RowShows(f, g, row, l) && SameOutside(h, f, next, next + 1) && row < next
    ensures RowShows(h, g, row, l)
  {
  }

  lemma RowAdded(h: Page, f: Page, g: Page, first: nat, row: nat, l: seq<Byte>)
    requires RowShows(h, f, row, l) && SameOutside(f, g, first, row)
    ensures RowShows(h, g, row, l)
  {
  }

  lemma OutsideGrows(h: Page, f: Page, g: Page, first: nat, row: nat)
    requires SameOutside(f, g, first, row) && SameOutside(h, f, row, row + 1) && first <= row
    ensures SameOutside(h, g, first, row + 1)
  {
  }

  lemma RowStart(g: Page, row: nat)
    requires g.pos == row * COLUMNS
    ensures Row(g) == row && g.pos % COLUMNS == 0
  {
  }

  lemma NothingPut(g: Page)
    requires g.pos % COLUMNS == 0
    ensures Puts(g, Text([])) == g && SameOutside(g, g, Row(g), Row(g)) && g.pos == Row(g) * COLUMNS
  {
  }

  lemma LastLine(lines: seq<seq<Byte>>)
    requires lines != []
    ensures var m := |lines| - 1; Text(lines) == Text(lines[..m]) + (lines[m] + [10])
  {
  }

  // h shows the lines from a row on, and otherwise is as g.
  ghost predicate LinesShown(h: Page, g: Page, row: nat, lines: seq<seq<Byte>>) {
    && (forall k: nat :: k < |lines| ==> RowShows(h, g, row + k, lines[k]))
    && SameOutside(h, g, row, row + |lines|)
  }

  lemma LinesNext(h: Page, f: Page, g: Page, row: nat, before: seq<seq<Byte>>, l: seq<Byte>)
    requires LinesShown(f, g, row, before)
    requires RowShows(h, f, row + |before|, l) && SameOutside(h, f, row + |before|, row + |before| + 1)
    ensures LinesShown(h, g, row, before + [l])
  {
    hide RowShows, SameOutside;
    var next := row + |before|;
    RowAdded(h, f, g, row, next, l);
    OutsideGrows(h, f, g, row, next);
    forall k: nat | k < |before| ensures RowShows(h, g, row + k, before[k]) {
      RowKept(h, f, g, row + k, before[k], next);
    }
  }

  // Lines put from the start of a row on lie in consecutive rows, the cursor is at the
  // start of the row behind them, and no other row changes.
  lemma {:induction false} PutsLines(g: Page, lines: seq<seq<Byte>>)
    requires g.pos % COLUMNS == 0 && forall k :: 0 <= k < |lines| ==> Line(lines[k])
    ensures Puts(g, Text(lines)).pos == (Row(g) + |lines|) * COLUMNS
    ensures LinesShown(Puts(g, Text(lines)), g, Row(g), lines)
    decreases |lines|
  {
    if lines == [] {
      NothingPut(g);
    } else {
      hide Puts, Text, Row, LinesShown, RowShows, SameOutside, Line;
      var m := |lines| - 1;
      var l, f := lines[m], Puts(g, Text(lines[..m]));
      PutsLines(g, lines[..m]);
      LastLine(lines);
      PutsAppend(g, Text(lines[..m]), l + [10]);
      RowStart(f, Row(g) + m);
      OneLine(f, l);
      LinesNext(Puts(f, l + [10]), f, g, Row(g), lines[..m], l);
      assert lines[..m] + [l] == lines;
    }
  }

  // ---------------------------------------------------------------- the window

  // The row of the page at the top of the screen: as far up as the cursor's row
  // allows.
  function Top(g: Page): nat { if Row(g) < ROWS then 0 else Row(g) - (ROWS - 1) }

  // The screen scrolls no further than it must to show the cursor.
  lemma TopIsLeast(g: Page, top: nat)
    ensures Top(g) <= Row(g) < Top(g) + ROWS
    ensures top <= Row(g) < top + ROWS ==> Top(g) <= top
  {
  }

  // The buffer shows the rows from top on, and nothing is written below them.
  ghost predicate Shows(text: seq<Cell>, g: Page, top: nat) {
    && |text| == SIZE
    && (forall i: nat :: i < SIZE ==> text[i] == CellAt(g, top * COLUMNS + i))
    && (forall i: nat :: i >= top * COLUMNS + SIZE ==> i !in g.cells)
  }

  // Rows from the second on move up by one; the last becomes blank.
  function Rolled(text: seq<Cell>): seq<Cell>
    requires |text| == SIZE
  {
    text[COLUMNS..] + seq(COLUMNS, _ => BLANK)
  }

  lemma RolledShows(text: seq<Cell>, g: Page, top: nat)
    requires Shows(text, g, top)
    ensures Shows(Rolled(text), g, top + 1)
  {
    forall i: nat | i < SIZE ensures Rolled(text)[i] == CellAt(g, (top + 1) * COLUMNS + i) {
      if i < SIZE - COLUMNS {
        assert text[i + COLUMNS] == CellAt(g, top * COLUMNS + (i + COLUMNS));
      }
    }
  }

  // Moving the cursor does not change what the screen shows.
  lemma MoveOnPage(g: Page, h: Page, top: nat)
    requires h.cells == g.cells
    ensures forall text :: Shows(text, g, top) ==> Shows(text, h, top)
  {
  }

  // Writing a character at the cursor shows at the cursor.
  lemma WriteShows(text: seq<Cell>, g: Page, top: nat, color: Byte, ch: Byte)
    requires Shows(text, g, top) && 0 <= g.pos - top * COLUMNS < SIZE
    ensures Shows(text[g.pos - top * COLUMNS := CellOf(color, ch)], Write(g, color, ch), top)
  {
  }

  class Screen {
    const textMem: array<Cell>
    var cursorLoc: nat

    // The page the screen is a window on.
    ghost var page: Page

    ghost predicate Valid()
      reads this, textMem
    {
      && cursorLoc < SIZE
      && cursorLoc == page.pos - Top(page) * COLUMNS
      && Shows(textMem[..], page, Top(page))
    }

    // tty_init: the page starts as what the boot code left on the screen.
    constructor (textMem: array<Cell>, cursorLoc: nat)
      requires textMem.Length == SIZE && cursorLoc < SIZE
      ensures Valid() && this.textMem == textMem && page.pos == cursorLoc
      ensures forall i: nat :: i < SIZE ==> CellAt(page, i) == textMem[i]
    {
      this.textMem, this.cursorLoc := textMem, cursorLoc;
      page := Page(map i: nat | i < SIZE :: textMem[i], cursorLoc);
    }

    // roll_screen_mem
    method RollScreenMem()
      requires textMem.Length == SIZE
      modifies textMem
      ensures textMem[..] == Rolled(old(textMem[..]))
    {
      var i := COLUMNS;
      while i < SIZE
        invariant COLUMNS <= i <= SIZE
        invariant forall k :: 0 <= k < i - COLUMNS ==> textMem[k] == old(textMem[k + COLUMNS])
        invariant forall k :: i - COLUMNS <= k < SIZE ==> textMem[k] == old(textMem[k])
      {
        textMem[i - COLUMNS] := textMem[i];
        i := i + 1;
      }
      i := 0;
      while i < COLUMNS
        invariant 0 <= i <= COLUMNS
        invariant forall k :: 0 <= k < SIZE - COLUMNS ==> textMem[k] == old(textMem[k + COLUMNS])
        invariant forall k :: SIZE - COLUMNS <= k < SIZE - COLUMNS + i ==> textMem[k] == BLANK
      {
        SetChar(DEFAULT_COLOR, ' ' as int, SIZE - COLUMNS + i);
        i := i + 1;
      }
    }

    // set_char
    method SetChar(color: Byte, val: Byte, loc: nat)
      requires loc < textMem.Length
      modifies textMem
      ensures textMem[..] == old(textMem[..])[loc := CellOf(color, val)]
    {
      textMem[loc] := CellOf(color, val);
    }

    // __kputchar_cga: on the page, the character does what it means.
    method KputcharCga(color: Byte, ch: Byte)
      requires Valid()
      modifies this`cursorLoc, this`page, textMem
      ensures Valid() && page == Put(old(page), color, ch)
      decreases if ch == '\t' as int then 1 else 0, 0
    {
      ghost var top := Top(page);
      if ch == '\n' as int || ch == '\r' as int {
        if ch == '\n' as int {
          cursorLoc := cursorLoc + COLUMNS;
        }
        cursorLoc := cursorLoc - cursorLoc % COLUMNS;
        MoveOnPage(page, Put(page, color, ch), top);
        page := Put(page, color, ch);
      } else if ch == 8 {
        if cursorLoc % COLUMNS != 0 {
          cursorLoc := cursorLoc - 1;
        }
        MoveOnPage(page, Put(page, color, ch), top);
        page := Put(page, color, ch);
      } else if ch == '\t' as int {
        Kputchar(' ' as int);
        Kputchar(' ' as int);
        Kputchar(' ' as int);
        Kputchar(' ' as int);
        top := Top(page);
      } else {
        WriteShows(textMem[..], page, top, color, ch);
        SetChar(color, ch, cursorLoc);
        cursorLoc := cursorLoc + 1;
        page := Put(page, color, ch);
      }
      RollIfFull(top);
    }

    // The check for a rolling screen.
    method RollIfFull(ghost top: nat)
      requires cursorLoc <= SIZE && cursorLoc == page.pos - top * COLUMNS
      requires top == 0 || page.pos >= (top + ROWS - 1) * COLUMNS
      requires Shows(textMem[..], page, top)
      modifies this`cursorLoc, textMem
      ensures Valid()
    {
      if cursorLoc >= SIZE {
        RolledShows(textMem[..], page, top);
        RollScreenMem();
        cursorLoc := SIZE - COLUMNS;
      }
    }

    // kputchar, as far as the screen goes
    method Kputchar(ch: Byte)
      requires Valid()
      modifies this`cursorLoc, this`page, textMem
      ensures Valid() && page == Put(old(page), DEFAULT_COLOR, ch)
      decreases if ch == '\t' as int then 1 else 0, 1
    {
      KputcharCga(DEFAULT_COLOR, ch);
    }

    // clear_screen: a new page begins.
    method ClearScreen()
      requires textMem.Length == SIZE
      modifies this`cursorLoc, this`page, textMem
      ensures Valid() && page == Page(map[], 0)
    {
      var i := 0;
      while i < SIZE
        invariant 0 <= i <= SIZE
        invariant forall k :: 0 <= k < i ==> textMem[k] == BLANK
      {
        SetChar(DEFAULT_COLOR, ' ' as int, i);
        i := i + 1;
      }
      cursorLoc := 0;
      page := Page(map[], 0);
    }
  }
}
