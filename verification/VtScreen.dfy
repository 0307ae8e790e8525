/** The screen buffer of src/lib_core/vt/screen.rs: cells row by row, a cursor that may stand one
    column past the right edge (a pending wrap), and one saved cursor. */
module VtScreens {
  import opened Common
  import opened Arith

  datatype Color = Indexed(i: byte) | Rgb(r: byte, g: byte, b: byte)

  datatype Attr = Attr(fg: Color, bg: Color, bold: bool, underline: bool, blink: bool, reverse: bool)

  const DEFAULT_ATTR: Attr := Attr(Indexed(7), Indexed(0), false, false, false, false)

  datatype Cell = Cell(c: byte, attr: Attr)

  const BLANK: byte := 0x20

  datatype Screen = Screen(
    w: nat, h: nat, cells: seq<Cell>, x: nat, y: nat, attr: Attr, sx: nat, sy: nat, sattr: Attr)

  /** Offset of column `x` in row `y`. */
  function Offset(w: nat, x: nat, y: nat): nat { y * w + x }

  function Area(w: nat, h: nat): nat { h * w }

  /** The cursor and the saved cursor are on the screen, or in the pending-wrap column. */
  predicate ScreenOk(s: Screen) {
    && s.w > 0 && s.h > 0 && |s.cells| == Area(s.w, s.h)
    && s.x <= s.w && s.y < s.h && s.sx <= s.w && s.sy < s.h
  }

  lemma OffsetIs(w: nat, x: nat, y: nat)
    ensures Offset(w, x, y) == y * w + x
  {
  }

  lemma OffsetInRange(w: nat, h: nat, x: nat, y: nat)
    requires w > 0 && y < h && x <= w
    ensures Offset(w, x, y) <= Area(w, h) && (x < w ==> Offset(w, x, y) < Area(w, h))
    ensures Offset(w, x, y) == Area(w, h) <==> x == w && y == h - 1
    ensures Offset(w, x, y) == Offset(w, 0, y) + x && Offset(w, w, y) == Offset(w, 0, y + 1)
  {
    assert (y + 1) * w == y * w + w;
    MulMono(y + 1, h, w);
    if y + 1 < h {
      assert (y + 2) * w == (y + 1) * w + w;
      MulMono(y + 2, h, w);
    } else {
      assert y + 1 == h;
    }
  }

  // ---------------------------------------------------------------- what the operations do

  /** Cells `lo` up to `hi` replaced by `c`. */
  function Filled(cells: seq<Cell>, lo: nat, hi: nat, c: Cell): (r: seq<Cell>)
    ensures |r| == |cells|
  {
    seq(|cells|, i requires 0 <= i < |cells| => if lo <= i < hi then c else cells[i])
  }

  /** An erased cell keeps only the background colour. */
  function Erased(a: Attr): Cell { Cell(BLANK, DEFAULT_ATTR.(bg := a.bg)) }

  /** Every row moves up by one; the last becomes blank. */
  function Scrolled(cells: seq<Cell>, w: nat, c: Cell): (r: seq<Cell>)
    requires w <= |cells|
    ensures |r| == |cells|
  {
    cells[w..] + seq(w, _ => c)
  }

  function NewLine(s: Screen): Screen
    requires ScreenOk(s)
  {
    if s.y + 1 >= s.h then
      AreaRow(s.w, s.h);
      s.(x := 0, y := s.h - 1, cells := Scrolled(s.cells, s.w, Erased(s.attr)))
    else s.(x := 0, y := s.y + 1)
  }

  lemma AreaRow(w: nat, h: nat)
    requires h > 0
    ensures w <= Area(w, h) && Area(w, h) - w == Offset(w, 0, h - 1)
  {
    assert (h - 1) * w + w == h * w;
  }

  function Put(s: Screen, c: byte): Screen
    requires ScreenOk(s) && s.x < s.w
  {
    OffsetInRange(s.w, s.h, s.x, s.y);
    s.(cells := s.cells[Offset(s.w, s.x, s.y) := Cell(c, s.attr)], x := s.x + 1)
  }

  function WriteChar(s: Screen, c: byte): Screen
    requires ScreenOk(s)
  {
    if c == 0x0A then NewLine(s)
    else if c == 0x0D then s.(x := 0)
    else if c == 0x08 then s.(x := if s.x > 0 then s.x - 1 else 0)
    else if s.x >= s.w then Put(NewLine(s), c)
    else Put(s, c)
  }

  function ClearScreen(s: Screen): Screen {
    s.(cells := Filled(s.cells, 0, |s.cells|, Erased(s.attr)), x := 0, y := 0)
  }

  /** EL with mode 1 in the pending-wrap column of the last row would index past the last cell. */
  predicate LineClearFails(s: Screen, mode: nat) { mode == 1 && Offset(s.w, 0, s.y) + s.x >= |s.cells| }

  lemma LineClearFailsWhere(s: Screen, mode: nat)
    requires ScreenOk(s)
    ensures LineClearFails(s, mode) <==> mode == 1 && s.x == s.w && s.y == s.h - 1
  {
    hide Offset, Area;
    OffsetInRange(s.w, s.h, s.x, s.y);
  }

  /** EL. In the pending-wrap column mode 1 also blanks the first cell of the next row. */
  function ClearLine(s: Screen, mode: nat): Screen {
    var row := Offset(s.w, 0, s.y);
    var c := Cell(BLANK, s.attr);
    if mode == 0 then s.(cells := Filled(s.cells, row + s.x, row + s.w, c))
    else if mode == 1 then s.(cells := Filled(s.cells, row, row + s.x + 1, c))
    else if mode == 2 then s.(cells := Filled(s.cells, row, row + s.w, c))
    else s
  }

  function SetCursor(s: Screen, x: nat, y: nat): Screen
    requires s.w > 0 && s.h > 0
  {
    s.(x := Min(x, s.w - 1), y := Min(y, s.h - 1))
  }

  function SaveCursor(s: Screen): Screen { s.(sx := s.x, sy := s.y, sattr := s.attr) }

  function RestoreCursor(s: Screen): Screen { s.(x := s.sx, y := s.sy, attr := s.sattr) }

  // ---------------------------------------------------------------- what they keep

  lemma NewLineOk(s: Screen)
    requires ScreenOk(s)
    ensures ScreenOk(NewLine(s)) && NewLine(s).x == 0
  {
    hide Area, Offset;
    AreaRow(s.w, s.h);
  }

  lemma PutOk(s: Screen, c: byte)
    requires ScreenOk(s) && s.x < s.w
    ensures ScreenOk(Put(s, c))
  {
    hide Area, Offset;
    OffsetInRange(s.w, s.h, s.x, s.y);
  }

  lemma WriteCharOk(s: Screen, c: byte)
    requires ScreenOk(s)
    ensures ScreenOk(WriteChar(s, c)) && WriteChar(s, c).w == s.w && WriteChar(s, c).h == s.h
  {
    hide Area, Offset, Scrolled;
    NewLineOk(s);
    if s.x < s.w { PutOk(s, c); } else { PutOk(NewLine(s), c); }
  }

  class ScreenBuffer {
    const width: nat
    const height: nat
    const buffer: array<Cell>
    var cursorX: nat
    var cursorY: nat
    var attr: Attr
    var savedX: nat
    var savedY: nat
    var savedAttr: Attr

    ghost function Now(): Screen
      reads this, buffer
    {
      Screen(width, height, buffer[..], cursorX, cursorY, attr, savedX, savedY, savedAttr)
    }

    ghost predicate Valid()
      reads this, buffer
    {
      ScreenOk(Now())
    }

    constructor (w: nat, h: nat)
      requires w > 0 && h > 0
      ensures Valid() && fresh(buffer) && width == w && height == h
      ensures Now() == Screen(w, h, seq(Area(w, h), _ => Cell(BLANK, DEFAULT_ATTR)), 0, 0, DEFAULT_ATTR, 0, 0, DEFAULT_ATTR)
    {
      hide Area;
      width, height := w, h;
      buffer := new Cell[Area(w, h)](_ => Cell(BLANK, DEFAULT_ATTR));
      cursorX, cursorY, attr := 0, 0, DEFAULT_ATTR;
      savedX, savedY, savedAttr := 0, 0, DEFAULT_ATTR;
      new;
      assert buffer[..] == seq(Area(w, h), _ => Cell(BLANK, DEFAULT_ATTR));
    }

    /** Writes `c` to the cells from `lo` up to `hi`. */
    method Fill(lo: nat, hi: nat, c: Cell)
      requires lo <= hi <= buffer.Length || hi <= lo
      modifies buffer
      ensures buffer[..] == Filled(old(buffer[..]), lo, hi, c)
    {
      var i := lo;
      while i < hi
        invariant lo <= i && (i == lo || i <= hi)
        invariant forall j :: 0 <= j < buffer.Length ==> buffer[j] == if lo <= j < i then c else old(buffer[j])
      {
        buffer[i] := c;
        i := i + 1;
      }
      assert buffer[..] == Filled(old(buffer[..]), lo, hi, c);
    }

    /** scroll_up: rows are copied upwards in place, cell by cell. */
    method ScrollUp()
      requires Valid()
      modifies buffer
      ensures width <= buffer.Length && buffer[..] == Scrolled(old(buffer[..]), width, Erased(attr))
    {
      hide Area, Offset;
      AreaRow(width, height);
      ghost var old0 := buffer[..];
      var last := Offset(width, 0, height - 1);
      RowStart(width);
      var y := 0;
      while y < height - 1
        invariant 0 <= y <= height - 1
        invariant Moved(old0, buffer[..], width, Offset(width, 0, y))
      {
        OffsetInRange(width, height, 0, y);
        OffsetInRange(width, height, width, y);
        OffsetInRange(width, height, width, y + 1);
        var row := Offset(width, 0, y);
        var below := Offset(width, 0, y + 1);
        var x := 0;
        while x < width
          invariant 0 <= x <= width && Moved(old0, buffer[..], width, row + x)
        {
          ghost var before := buffer[..];
          buffer[row + x] := buffer[below + x];
          assert buffer[..] == before[row + x := before[row + x + width]];
          MoveStep(old0, before, width, row + x);
          x := x + 1;
        }
        y := y + 1;
      }
      Fill(last, last + width, Erased(attr));
      assert buffer[..] == Scrolled(old0, width, Erased(attr));
    }

    method MoveToNextLine()
      requires Valid()
      modifies this, buffer
      ensures Valid() && Now() == NewLine(old(Now()))
    {
      hide Area, Offset, Scrolled;
      NewLineOk(Now());
      cursorX := 0;
      if cursorY + 1 >= height {
        ScrollUp();
        cursorY := height - 1;
      } else {
        cursorY := cursorY + 1;
      }
    }

    /** The cell in column `x` of row `y`. */
    ghost predicate Shows(x: nat, y: nat, c: Cell)
      reads this, buffer
    {
      var i := y * width + x;
      i < buffer.Length && buffer[i] == c
    }

    /** write_char. A printable character is in the cell before the cursor afterwards. */
    method Write(c: byte)
      requires Valid()
      modifies this, buffer
      ensures Valid() && Now() == WriteChar(old(Now()), c)
      ensures c >= 0x20 ==> cursorX > 0 && Shows(cursorX - 1, cursorY, Cell(c, attr))
    {
      hide Area, Offset, NewLine;
      WriteCharOk(Now(), c);
      NewLineOk(Now());
      if c == 0x0A {
        MoveToNextLine();
      } else if c == 0x0D {
        cursorX := 0;
      } else if c == 0x08 {
        if cursorX > 0 { cursorX := cursorX - 1; }
      } else {
        if cursorX >= width { MoveToNextLine(); }
        var idx := Offset(width, cursorX, cursorY);
        OffsetInRange(width, height, cursorX, cursorY);
        ghost var before := buffer[..];
        if idx < buffer.Length { buffer[idx] := Cell(c, attr); }
        assert buffer[..] == before[idx := Cell(c, attr)];
        OffsetIs(width, cursorX, cursorY);
        assert Shows(cursorX, cursorY, Cell(c, attr));
        cursorX := cursorX + 1;
      }
    }

    method Clear()
      requires Valid()
      modifies this, buffer
      ensures Valid() && Now() == ClearScreen(old(Now()))
    {
      hide Area;
      Fill(0, buffer.Length, Erased(attr));
      cursorX, cursorY := 0, 0;
    }

    /** clear_line. The result is false where the original would index out of range and stop: in
        mode 1, in the pending-wrap column of the last row, and nowhere else. */
    method EraseLine(mode: nat) returns (ok: bool)
      requires Valid()
      modifies buffer
      ensures ok <==> !(mode == 1 && old(cursorX) == width && old(cursorY) == height - 1)
      ensures ok <==> !LineClearFails(old(Now()), mode)
      ensures ok ==> Valid() && Now() == ClearLine(old(Now()), mode)
    {
      hide Area, Offset, Filled;
      OffsetInRange(width, height, cursorX, cursorY);
      OffsetInRange(width, height, width, cursorY);
      var row := Offset(width, 0, cursorY);
      var c := Cell(BLANK, attr);
      if mode == 0 {
        Fill(row + cursorX, row + width, c);
      } else if mode == 1 {
        if row + cursorX >= buffer.Length { return false; }
        Fill(row, row + cursorX + 1, c);
      } else if mode == 2 {
        Fill(row, row + width, c);
      }
      return true;
    }

    method MoveTo(x: nat, y: nat)
      requires Valid()
      modifies this
      ensures Valid() && Now() == SetCursor(old(Now()), x, y)
    {
      hide Area;
      cursorX := if x < width - 1 then x else width - 1;
      cursorY := if y < height - 1 then y else height - 1;
    }

    method Save()
      requires Valid()
      modifies this
      ensures Valid() && Now() == SaveCursor(old(Now()))
    {
      hide Area;
      savedX, savedY, savedAttr := cursorX, cursorY, attr;
    }

    method Restore()
      requires Valid()
      modifies this
      ensures Valid() && Now() == RestoreCursor(old(Now()))
    {
      hide Area;
      cursorX, cursorY, attr := savedX, savedY, savedAttr;
    }
  }

  /** The first `n` cells have received the cell one row below; the others are as before. */
  ghost predicate Moved(old0: seq<Cell>, cells: seq<Cell>, w: nat, n: nat) {
    && |cells| == |old0| && n + w <= |old0|
    && forall i: nat :: i < |cells| ==> cells[i] == From(old0, w, n, i)
  }

  ghost function From(old0: seq<Cell>, w: nat, n: nat, i: nat): Cell
    requires i < |old0| && n + w <= |old0|
  {
    if i < n then old0[i + w] else old0[i]
  }

  lemma MoveStep(old0: seq<Cell>, cells: seq<Cell>, w: nat, n: nat)
    requires Moved(old0, cells, w, n) && n + w < |old0|
    ensures Moved(old0, cells[n := cells[n + w]], w, n + 1)
  {
  }

  lemma RowStart(w: nat)
    ensures Offset(w, 0, 0) == 0
  {
  }
}
