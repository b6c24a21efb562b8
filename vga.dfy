/** Model of vga.c: the text console. The cursor, the colour and the
    80x25 grid of 16-bit cells at 0xB8000 are the fields of `Console`; the
    functions on `Screen` values say what each operation does to them. */
module Vga {
  import opened Util

  const Width: nat := 80
  const Height: nat := 25
  const CellCount: nat := Width * Height
  const TabSize: nat := 4

  const Tab: bv8 := 9
  const LineFeed: bv8 := 10
  const CarriageReturn: bv8 := 13
  const Space: bv8 := 32

  /** A colour value that leaves the character byte of a cell free. */
  predicate IsAttribute(color: bv16) {
    color & 0x00FF == 0
  }

  /** `(foreground << 8) | (background << 12)` for two 4-bit palette entries:
      the form of `defaultColor`. */
  function MakeColor(foreground: bv16, background: bv16): (color: bv16)
    requires foreground < 16 && background < 16
    ensures IsAttribute(color)
    ensures (color >> 8) & 0xF == foreground && color >> 12 == background
  {
    (foreground << 8) | (background << 12)
  }

  /** A `char` promoted to `int`: on i386 `char` is signed, so a code of
      0x80 or more arrives with bits 8-15 set. */
  function Promote(c: bv8): bv16 {
    if c < 0x80 then c as bv16 else 0xFF00 | c as bv16
  }

  /** The cell `c | color`: the character code in the low byte and, for an
      ASCII character, the colour in the high byte. */
  function Cell(c: bv8, color: bv16): (cell: bv16)
    ensures IsAttribute(color) ==> (cell & 0xFF) as bv8 == c
    ensures IsAttribute(color) && c < 0x80 ==> cell >> 8 == color >> 8
    ensures 0x80 <= c ==> cell >> 8 == 0xFF
  {
    Promote(c) | color
  }

  /** The blank cell that clearing and tabs write. */
  function Blank(color: bv16): bv16 {
    Cell(Space, color)
  }

  /** Cell index of position (`line`, `column`): `line * width + column`. */
  function Index(line: nat, column: nat): nat {
    line * Width + column
  }

  /** The console's state: cursor, current colour and the grid contents. */
  datatype Screen = Screen(line: nat, column: nat, color: bv16, cells: seq<bv16>)

  /** The in-bounds invariant: with it every write at (`line`, `column`),
      `column < width`, falls inside the grid. */
  predicate Valid(st: Screen) {
    st.line < Height && st.column <= Width && |st.cells| == CellCount
  }

  /** The grid after scrollUp: rows 1.. move up by one, the top row is lost
      and the bottom row is blank in `color`. */
  function Scrolled(cells: seq<bv16>, color: bv16): (r: seq<bv16>)
    requires |cells| == CellCount
    ensures |r| == CellCount
    ensures forall k :: 0 <= k < Index(Height - 1, 0) ==> r[k] == cells[k + Width]
    ensures forall k :: Index(Height - 1, 0) <= k < CellCount ==> r[k] == Blank(color)
  {
    cells[Width..] + seq(Width, _ => Blank(color))
  }

  /** newLine: column 0 of the next line, scrolling when on the last line. */
  function AfterNewLine(st: Screen): (r: Screen)
    requires Valid(st)
    ensures Valid(r) && r.column == 0 && r.color == st.color
  {
    if st.line < Height - 1 then st.(line := st.line + 1, column := 0)
    else st.(cells := Scrolled(st.cells, st.color), column := 0)
  }

  /** The wrap done before a tab or a printable character at the end of a line. */
  function Wrap(st: Screen): (r: Screen)
    requires Valid(st)
    ensures Valid(r) && r.column < Width && r.color == st.color
  {
    if st.column == Width then AfterNewLine(st) else st
  }

  /** `column + (4 - column % 4)`: the least multiple of 4 above `column`. */
  function TabStop(column: nat): (stop: nat)
    ensures stop % TabSize == 0 && column < stop <= column + TabSize
    ensures column < Width ==> stop <= Width
  {
    column + (TabSize - column % TabSize)
  }

  /** One iteration of print's loop, for the character `c`. */
  function AfterWrite(st: Screen, c: bv8): (r: Screen)
    requires Valid(st)
    ensures Valid(r) && r.color == st.color
  {
    if c == LineFeed then AfterNewLine(st)
    else if c == CarriageReturn then st.(column := 0)
    else
      var w := Wrap(st);
      var at := Index(w.line, w.column);
      if c == Tab then
        var stop := TabStop(w.column);
        w.(cells := Filled(w.cells, at, Index(w.line, stop), Blank(w.color)), column := stop)
      else
        w.(cells := w.cells[at := Cell(c, w.color)], column := w.column + 1)
  }

  /** print's loop over the characters `s`, left to right. */
  function AfterPrint(st: Screen, s: seq<bv8>): (r: Screen)
    requires Valid(st)
    ensures Valid(r) && r.color == st.color
    decreases |s|
  {
    if s == [] then st else AfterPrint(AfterWrite(st, s[0]), s[1..])
  }

  /** The length of a NUL-terminated string: the index of its first NUL. */
  function StrLen(s: seq<bv8>): (n: nat)
    requires 0 in s
    ensures n < |s| && s[n] == 0
    ensures forall k :: 0 <= k < n ==> s[k] != 0
  {
    if s[0] == 0 then 0 else 1 + StrLen(s[1..])
  }

  // ---------------------------------------------------------------------
  // Properties of the state machine

  /** newLine moves down a line without touching the grid, except on the
      last line, where it stays and the grid scrolls. */
  lemma NewLineEffect(st: Screen)
    requires Valid(st)
    ensures AfterNewLine(st).column == 0
    ensures st.line < Height - 1 ==>
      AfterNewLine(st).line == st.line + 1 && AfterNewLine(st).cells == st.cells
    ensures st.line == Height - 1 ==>
      AfterNewLine(st).line == st.line && AfterNewLine(st).cells == Scrolled(st.cells, st.color)
  {
  }

  /** '\r' returns to column 0 and changes nothing else. */
  lemma CarriageReturnEffect(st: Screen)
    requires Valid(st)
    ensures AfterWrite(st, CarriageReturn) == Screen(st.line, 0, st.color, st.cells)
  {
  }

  /** A printable character, after the wrap, lands at the cursor in the
      current colour and moves the cursor right; no other cell changes. */
  lemma PrintableEffect(st: Screen, c: bv8)
    requires Valid(st) && c != Tab && c != LineFeed && c != CarriageReturn
    ensures var w, r := Wrap(st), AfterWrite(st, c);
      && (st.column == Width ==> w == AfterNewLine(st))
      && (st.column < Width ==> w == st)
      && r.line == w.line && r.column == w.column + 1
      && r.cells[Index(w.line, w.column)] == Cell(c, st.color)
      && forall k :: 0 <= k < CellCount && k != Index(w.line, w.column) ==> r.cells[k] == w.cells[k]
  {
  }

  /** A tab, after the wrap, moves the cursor to the next tab stop and blanks
      the cells it passes over on the current line; no other cell changes. */
  lemma TabEffect(st: Screen)
    requires Valid(st)
    ensures var w, r := Wrap(st), AfterWrite(st, Tab);
      && (st.column == Width ==> w == AfterNewLine(st))
      && (st.column < Width ==> w == st)
      && r.line == w.line && r.column == TabStop(w.column)
      && (w.column == 0 ==> r.column == TabSize)
      && forall k :: 0 <= k < CellCount ==>
           r.cells[k] == if Index(w.line, w.column) <= k < Index(w.line, r.column) then Blank(st.color) else w.cells[k]
  {
  }

  /** Printing `s1 + s2` is printing `s1`, then `s2`. */
  lemma {:induction false} AfterPrintAppend(st: Screen, s1: seq<bv8>, s2: seq<bv8>)
    requires Valid(st)
    ensures AfterPrint(st, s1 + s2) == AfterPrint(AfterPrint(st, s1), s2)
    decreases |s1|
  {
    if s1 == [] {
      assert s1 + s2 == s2;
    } else {
      assert (s1 + s2)[1..] == s1[1..] + s2;
      AfterPrintAppend(AfterWrite(st, s1[0]), s1[1..], s2);
    }
  }

  /** Text without control characters that fits on the current line is
      written at the cursor, moves the cursor by its length, and leaves the
      rest of the grid alone. */
  lemma {:induction false} PlainTextEffect(st: Screen, s: seq<bv8>)
    requires Valid(st) && st.column + |s| <= Width
    requires forall k :: 0 <= k < |s| ==> s[k] != Tab && s[k] != LineFeed && s[k] != CarriageReturn
    ensures var r := AfterPrint(st, s);
      && r.line == st.line && r.column == st.column + |s|
      && (forall k :: 0 <= k < |s| ==> r.cells[Index(st.line, st.column + k)] == Cell(s[k], st.color))
      && forall k :: 0 <= k < CellCount && !(Index(st.line, st.column) <= k < Index(st.line, st.column + |s|)) ==>
           r.cells[k] == st.cells[k]
    decreases |s|
  {
    if s != [] {
      var w := AfterWrite(st, s[0]);
      PrintableEffect(st, s[0]);
      PlainTextEffect(w, s[1..]);
      var r := AfterPrint(st, s);
      assert r == AfterPrint(w, s[1..]);
      forall k | 0 <= k < |s|
        ensures r.cells[Index(st.line, st.column + k)] == Cell(s[k], st.color)
      {
        if k > 0 {
          assert s[k] == s[1..][k - 1];
          assert Index(st.line, st.column + k) == Index(w.line, w.column + (k - 1));
        }
      }
    }
  }

  /** Text without control characters that ends before the last cell of the
      grid is written at consecutive cells from the cursor, wrapping at the
      end of each line; the cursor's cell index advances by its length and
      no other cell changes (no scroll can happen). */
  lemma {:induction false} WrappedTextEffect(st: Screen, s: seq<bv8>)
    requires Valid(st) && Index(st.line, st.column) + |s| <= CellCount
    requires forall k :: 0 <= k < |s| ==> s[k] != Tab && s[k] != LineFeed && s[k] != CarriageReturn
    ensures var r, at := AfterPrint(st, s), Index(st.line, st.column);
      && Index(r.line, r.column) == at + |s|
      && (forall k :: 0 <= k < |s| ==> r.cells[at + k] == Cell(s[k], st.color))
      && forall k :: 0 <= k < CellCount && !(at <= k < at + |s|) ==> r.cells[k] == st.cells[k]
    decreases |s|
  {
    if s != [] {
      var at := Index(st.line, st.column);
      var w := Wrap(st);
      if st.column == Width {
        assert st.line < Height - 1;
        assert w == st.(line := st.line + 1, column := 0);
      }
      assert Index(w.line, w.column) == at && w.cells == st.cells;
      var v := AfterWrite(st, s[0]);
      PrintableEffect(st, s[0]);
      assert Index(v.line, v.column) == at + 1;
      WrappedTextEffect(v, s[1..]);
      var r := AfterPrint(st, s);
      assert r == AfterPrint(v, s[1..]);
      forall k | 0 <= k < |s|
        ensures r.cells[at + k] == Cell(s[k], st.color)
      {
        if k > 0 {
          assert s[k] == s[1..][k - 1];
          assert at + k == Index(v.line, v.column) + (k - 1);
        }
      }
    }
  }

  /** print("ab\tc") from column 0: 'a' at 0, 'b' at 1, blanks at 2 and 3,
      'c' at 4, and the cursor ends at column 5 of the same line. */
  lemma TabScenario(st: Screen)
    requires Valid(st) && st.column == 0
    ensures var r, at := AfterPrint(st, [97, 98, Tab, 99]), Index(st.line, 0);
      && r.line == st.line && r.column == 5
      && r.cells[at] == Cell(97, st.color) && r.cells[at + 1] == Cell(98, st.color)
      && r.cells[at + 2] == Blank(st.color) && r.cells[at + 3] == Blank(st.color)
      && r.cells[at + 4] == Cell(99, st.color)
  {
    var s1 := AfterWrite(st, 97);
    var s2 := AfterWrite(s1, 98);
    var s3 := AfterWrite(s2, Tab);
    var s4 := AfterWrite(s3, 99);
    assert AfterPrint(s3, [99]) == s4;
    assert AfterPrint(s2, [Tab, 99]) == s4;
    assert AfterPrint(s1, [98, Tab, 99]) == s4;
  }

  // ---------------------------------------------------------------------
  // The driver's globals and functions

  /** `line`, `column`, `currentColor` and the cell buffer `vga`;
      `defaultColor` is built from the two palette nibbles of vga.h. */
  class Console {
    const vga: array<bv16>
    const defaultColor: bv16
    var line: nat
    var column: nat
    var currentColor: bv16

    ghost predicate Valid()
      reads this
    {
      && vga.Length == CellCount && line < Height && column <= Width
      && IsAttribute(defaultColor) && IsAttribute(currentColor)
    }

    ghost function State(): Screen
      reads this, vga
    {
      Screen(line, column, currentColor, vga[..])
    }

    /** The start-up state: cursor at the origin, colour `defaultColor`, and
        the grid holding whatever `screen` holds. */
    constructor (screen: array<bv16>, foreground: bv16, background: bv16)
      requires screen.Length == CellCount && foreground < 16 && background < 16
      ensures Valid() && vga == screen && line == 0 && column == 0
      ensures defaultColor == MakeColor(foreground, background) && currentColor == defaultColor
    {
      vga := screen;
      defaultColor := MakeColor(foreground, background);
      line, column := 0, 0;
      currentColor := MakeColor(foreground, background);
    }

    /** Reset: cursor to the origin, default colour, every cell blank. */
    method Reset()
      requires Valid()
      modifies this, vga
      ensures Valid() && line == 0 && column == 0 && currentColor == defaultColor
      ensures forall k :: 0 <= k < vga.Length ==> vga[k] == Blank(defaultColor)
    {
      line := 0;
      column := 0;
      currentColor := defaultColor;
      for y := 0 to Height
        invariant forall k :: 0 <= k < Index(y, 0) ==> vga[k] == Blank(defaultColor)
        modifies vga
      {
        for x := 0 to Width
          invariant forall k :: 0 <= k < Index(y, x) ==> vga[k] == Blank(defaultColor)
          modifies vga
        {
          vga[Index(y, x)] := Blank(defaultColor);
        }
      }
    }

    /** newLine */
    method NewLine()
      requires Valid()
      modifies this, vga
      ensures Valid() && State() == AfterNewLine(old(State()))
    {
      if line < Height - 1 {
        line := line + 1;
        column := 0;
      } else {
        ScrollUp();
        column := 0;
      }
    }

    /** scrollUp: copies row y to row y-1 for y = 1..height-1, then blanks
        the last row; the cursor and the colour do not change. */
    method ScrollUp()
      requires Valid()
      modifies vga
      ensures vga[..] == Scrolled(old(vga[..]), currentColor)
    {
      ghost var prev := vga[..];
      for y := 1 to Height
        invariant forall k :: 0 <= k < Index(y - 1, 0) ==> vga[k] == prev[k + Width]
        invariant vga[Index(y - 1, 0)..] == prev[Index(y - 1, 0)..]
      {
        for x := 0 to Width
          invariant forall k :: 0 <= k < Index(y - 1, x) ==> vga[k] == prev[k + Width]
          invariant vga[Index(y - 1, x)..] == prev[Index(y - 1, x)..]
        {
          assert vga[Index(y, x)] == prev[Index(y - 1, x) + Width];
          vga[Index(y - 1, x)] := vga[Index(y, x)];
        }
      }
      for x := 0 to Width
        invariant forall k :: 0 <= k < Index(Height - 1, 0) ==> vga[k] == prev[k + Width]
        invariant forall k :: Index(Height - 1, 0) <= k < Index(Height - 1, x) ==> vga[k] == Blank(currentColor)
      {
        vga[Index(Height - 1, x)] := Blank(currentColor);
      }
      assert vga[..] == Scrolled(prev, currentColor);
    }

    /** The body of print's loop: the `switch` on one character `c`. */
    method PutChar(c: bv8)
      requires Valid()
      modifies this, vga
      ensures Valid() && State() == AfterWrite(old(State()), c)
    {
      ghost var before := State();
      if c == LineFeed {
        NewLine();
      } else if c == CarriageReturn {
        column := 0;
      } else if c == Tab {
        PutTab();
      } else {
        if column == Width {
          NewLine();
        }
        assert State() == Wrap(before);
        vga[Index(line, column)] := Cell(c, currentColor);
        column := column + 1;
      }
    }

    /** The '\t' case of print's `switch`: wrap at the end of the line, then
        blank cells up to the next tab stop, counting `tabLen` down. */
    method PutTab()
      requires Valid()
      modifies this, vga
      ensures Valid() && State() == AfterWrite(old(State()), Tab)
    {
      ghost var before := State();
      if column == Width {
        NewLine();
      }
      ghost var w := State();
      assert w == Wrap(before);
      var tabLen: nat := TabSize - column % TabSize;
      while tabLen != 0
        invariant Valid() && line == w.line && currentColor == w.color
        invariant w.column <= column && column + tabLen == TabStop(w.column)
        invariant vga[..] == Filled(w.cells, Index(w.line, w.column), Index(w.line, column), Blank(w.color))
        modifies this, vga
        decreases tabLen
      {
        FilledExtend(w.cells, Index(w.line, w.column), Index(w.line, column), Blank(w.color));
        vga[Index(line, column)] := Blank(currentColor);
        column := column + 1;
        tabLen := tabLen - 1;
      }
    }

    /** print: handles the characters of the NUL-terminated string `s` one by
        one until its NUL. */
    method Print(s: seq<bv8>)
      requires Valid() && 0 in s
      modifies this, vga
      ensures Valid() && State() == AfterPrint(old(State()), s[..StrLen(s)])
    {
      ghost var start := State();
      var i := 0;
      while s[i] != 0
        invariant i <= StrLen(s)
        invariant Valid() && State() == AfterPrint(start, s[..i])
        decreases StrLen(s) - i
      {
        PutChar(s[i]);
        assert s[..i + 1] == s[..i] + [s[i]];
        AfterPrintAppend(start, s[..i], [s[i]]);
        i := i + 1;
      }
    }
  }
}
