/**
 What a viewer of the terminal sees: the effect of bytes on single cells, on the cursor and on the
 attributes, and whole texts, without reference to how the screen functions are written.
 */
module VtLaws {
  import opened Common
  import opened Arith
  import opened VtParsing
  import opened VtScreens
  import opened VtTerminals

  /** The cell in column `col` of row `row`. */
  function CellAt(s: Screen, col: nat, row: nat): Cell
    requires ScreenOk(s) && col < s.w && row < s.h
  {
    OffsetInRange(s.w, s.h, col, row);
    s.cells[row * s.w + col]
  }

  /** A blank on the background in use. */
  function BlankOn(a: Attr): Cell { Cell(0x20, Attr(Indexed(7), a.bg, false, false, false, false)) }

  /** `s'` is `s` but for the cells, the cursor and the attributes. */
  predicate SameFrame(s: Screen, s': Screen) { s'.w == s.w && s'.h == s.h && s'.sx == s.sx && s'.sy == s.sy && s'.sattr == s.sattr }

  /** The bytes act on the screen in use; the other screen and the modes stay. */
  ghost predicate Becomes(d: Display, bs: seq<byte>, s': Screen) {
    DisplayOk(d) && Run(EMPTY, bs).state == EMPTY
    && After(EMPTY, d, bs) == Some(if d.isAlternate then d.(alternate := s') else d.(primary := s'))
  }

  // ---------------------------------------------------------------- a character

  /** Distinct places have distinct offsets. */
  lemma OffsetInjective(w: nat, x: nat, y: nat, col: nat, row: nat)
    requires x < w && col < w && y * w + x == row * w + col
    ensures x == col && y == row
  {
    DivModUnique(y, x, w);
    DivModUnique(row, col, w);
  }

  /** One row further is one width further. */
  lemma RowBelow(w: nat, h: nat, col: nat, row: nat)
    requires col < w && row < h
    ensures (row + 1) * w + col == row * w + col + w
    ensures row * w + col + w < h * w <==> row + 1 < h
  {
    assert (row + 1) * w == row * w + w;
    if row + 1 < h {
      MulMono(row + 2, h, w);
      assert (row + 2) * w == row * w + 2 * w;
    } else {
      assert row + 1 == h;
    }
  }

  /** What a new line does to the cell in column `col` of row `row`. */
  lemma NewLineCell(s: Screen, col: nat, row: nat)
    requires ScreenOk(s) && col < s.w && row < s.h
    ensures var s' := NewLine(s);
      && ScreenOk(s') && SameFrame(s, s') && s'.attr == s.attr && s'.x == 0 && s'.y == (if s.y + 1 < s.h then s.y + 1 else s.y)
      && CellAt(s', col, row) == (if s.y + 1 < s.h then CellAt(s, col, row)
                                  else if row + 1 < s.h then CellAt(s, col, row + 1) else BlankOn(s.attr))
  {
    hide Area;
    NewLineOk(s);
    OffsetInRange(s.w, s.h, col, row);
    RowBelow(s.w, s.h, col, row);
    AreaRow(s.w, s.h);
    AreaIs(s.w, s.h);
  }

  lemma AreaIs(w: nat, h: nat)
    ensures Area(w, h) == h * w
  {
  }

  lemma PutCell(s: Screen, c: byte, col: nat, row: nat)
    requires ScreenOk(s) && s.x < s.w && col < s.w && row < s.h
    ensures var s' := Put(s, c);
      && ScreenOk(s') && SameFrame(s, s') && s'.attr == s.attr && s'.x == s.x + 1 && s'.y == s.y
      && CellAt(s', col, row) == if col == s.x && row == s.y then Cell(c, s.attr) else CellAt(s, col, row)
  {
    hide Area;
    PutOk(s, c);
    OffsetInRange(s.w, s.h, col, row);
    OffsetInRange(s.w, s.h, s.x, s.y);
    if s.y * s.w + s.x == row * s.w + col { OffsetInjective(s.w, s.x, s.y, col, row); }
  }

  /** A printable byte. The cell at the cursor, after a pending wrap, holds it with the attributes in
      use; every other cell is as before or, if the screen scrolled, that of the row below. */
  lemma Printed(d: Display, c: byte, col: nat, row: nat) returns (s': Screen)
    requires DisplayOk(d) && c >= 0x20 && col < Active(d).w && row < Active(d).h
    ensures Becomes(d, [c], s') && ScreenOk(s')
    ensures var s := Active(d);
      var wraps := s.x == s.w;
      var scrolls := wraps && s.y + 1 == s.h;
      var x, y := if wraps then 0 else s.x, if wraps && !scrolls then s.y + 1 else s.y;
      && SameFrame(s, s') && s'.x == x + 1 && s'.y == y && s'.attr == s.attr
      && CellAt(s', col, row) ==
         if col == x && row == y then Cell(c, s.attr)
         else if !scrolls then CellAt(s, col, row)
         else if row + 1 < s.h then CellAt(s, col, row + 1) else BlankOn(s.attr)
  {
    hide Area, NewLine, Put, CellAt, Show, Run;
    var s := Active(d);
    s' := WriteChar(s, c);
    OneAction(d, c, Print(c));
    NewLineOk(s);
    if s.x == s.w {
      NewLineCell(s, col, row);
      PutCell(NewLine(s), c, col, row);
    } else {
      PutCell(s, c, col, row);
    }
  }

  /** A byte that is an action of its own. */
  lemma OneAction(d: Display, b: byte, a: Action)
    requires DisplayOk(d) && Advance(EMPTY, b) == (EMPTY, Some(a))
    ensures Run(EMPTY, [b]).state == EMPTY && After(EMPTY, d, [b]) == Handle(d, a)
  {
    hide Show, Handle, Advance, DisplayOk;
    RunOne(EMPTY, b);
    ShowOne(d, a);
  }

  // ---------------------------------------------------------------- a text

  const PLAIN: Attr := Attr(Indexed(7), Indexed(0), false, false, false, false)

  function TextCell(bs: seq<byte>, k: nat): Cell { Cell(if k < |bs| then bs[k] else 0x20, PLAIN) }

  /** The screen holds `bs`, row after row, from its row `top` on; the cursor stands behind the last
      byte, waiting to wrap if that ends a row. Only a full screen has scrolled. */
  ghost predicate Holding(s: Screen, bs: seq<byte>, top: nat) {
    && ScreenOk(s) && s.attr == PLAIN && s.y * s.w + s.x + top * s.w == |bs|
    && (top > 0 ==> s.y + 1 == s.h) && (s.x == 0 ==> bs == [])
    && (forall i: nat :: i < |s.cells| ==> s.cells[i] == TextCell(bs, top * s.w + i))
  }

  /** One more byte, with room in the row or below. */
  lemma MoreText(s: Screen, bs: seq<byte>, top: nat, c: byte)
    requires Holding(s, bs, top) && c >= 0x20 && (s.x < s.w || s.y + 1 < s.h)
    ensures Holding(WriteChar(s, c), bs + [c], top)
  {
    hide Area;
    WriteCharOk(s, c);
    var s' := WriteChar(s, c);
    OffsetInRange(s.w, s.h, s.x, s.y);
    var at := |bs| - top * s.w;
    assert (s.y + 1) * s.w == s.y * s.w + s.w;
    assert at < |s.cells| && s'.cells == s.cells[at := Cell(c, PLAIN)];
    forall i: nat | i < |s'.cells| ensures s'.cells[i] == TextCell(bs + [c], top * s.w + i) {
      assert s.cells[i] == TextCell(bs, top * s.w + i);
    }
  }

  /** One more byte when the screen is full: everything moves up a row. */
  lemma MoreRows(s: Screen, bs: seq<byte>, top: nat, c: byte)
    requires Holding(s, bs, top) && c >= 0x20 && s.x == s.w && s.y + 1 == s.h
    ensures Holding(WriteChar(s, c), bs + [c], top + 1)
  {
    hide Area;
    WriteCharOk(s, c);
    NewLineOk(s);
    var s1, s' := NewLine(s), WriteChar(s, c);
    AreaRow(s.w, s.h);
    AreaIs(s.w, s.h);
    var w, n := s.w, |s.cells|;
    assert s.h * w == (s.h - 1) * w + w && (top + 1) * w == top * w + w;
    assert |bs| == top * w + n && s'.cells == s1.cells[n - w := Cell(c, PLAIN)];
    forall i: nat | i < n ensures s'.cells[i] == TextCell(bs + [c], (top + 1) * w + i) {
      if i + w < n { assert s1.cells[i] == s.cells[i + w] == TextCell(bs, top * w + (i + w)); }
    }
  }

  lemma BlankHolds(w: nat, h: nat)
    requires w > 0 && h > 0
    ensures DisplayOk(Blank(w, h)) && Holding(Blank(w, h).primary, [], 0) && !Blank(w, h).isAlternate
  {
    hide Area;
  }

  /** Any text of printable bytes, of any length, on a new terminal of any size. */
  lemma {:induction false} TextShown(w: nat, h: nat, bs: seq<byte>) returns (s': Screen, top: nat)
    requires w > 0 && h > 0 && forall c <- bs :: c >= 0x20
    ensures Becomes(Blank(w, h), bs, s') && Holding(s', bs, top) && s'.w == w && s'.h == h
    decreases |bs|
  {
    hide Holding, WriteChar, Run, Show, Blank, DisplayOk;
    BlankHolds(w, h);
    var d := Blank(w, h);
    if bs == [] {
      s', top := d.primary, 0;
      ShowNothing(EMPTY, d);
      RunStep(EMPTY, bs);
      BlankSize(w, h);
    } else {
      var n := |bs| - 1;
      var front, c := bs[..n], bs[n];
      assert c in bs && forall b <- front :: b in bs;
      var s, t := TextShown(w, h, front);
      assert bs == front + [c];
      s', top := AddByte(s, front, t, c);
      var d1 := d.(primary := s);
      AfterConcat(EMPTY, d, front, [c]);
      RunConcat(EMPTY, front, [c]);
      Sized(w, h, s, front, t);
      OneAction(d1, c, Print(c));
    }
  }

  lemma BlankSize(w: nat, h: nat)
    ensures Blank(w, h).primary.w == w && Blank(w, h).primary.h == h
  {
  }

  lemma Sized(w: nat, h: nat, s: Screen, bs: seq<byte>, top: nat)
    requires Holding(s, bs, top) && s.w == w > 0 && s.h == h > 0
    ensures DisplayOk(Blank(w, h).(primary := s)) && Handle(Blank(w, h).(primary := s), Print(0x20)).Some?
    ensures forall c: byte :: Handle(Blank(w, h).(primary := s), Print(c)) == Some(Blank(w, h).(primary := WriteChar(s, c)))
  {
    hide Area, WriteChar;
  }

  lemma AddByte(s: Screen, bs: seq<byte>, top: nat, c: byte) returns (s': Screen, top': nat)
    requires Holding(s, bs, top) && c >= 0x20
    ensures s' == WriteChar(s, c) && Holding(s', bs + [c], top') && s'.w == s.w && s'.h == s.h
  {
    hide WriteChar;
    WriteCharOk(s, c);
    s' := WriteChar(s, c);
    if s.x == s.w && s.y + 1 == s.h {
      MoreRows(s, bs, top, c);
      top' := top + 1;
    } else {
      MoreText(s, bs, top, c);
      top' := top;
    }
  }

  /** Typing fills the screen row by row: cell (col, row) shows byte (top + row) * w + col of the text,
      or a blank, where `top` rows have scrolled away; the cursor is behind the last byte. */
  lemma TextOnScreen(w: nat, h: nat, bs: seq<byte>, col: nat, row: nat) returns (s': Screen, top: nat)
    requires col < w && row < h && forall c <- bs :: c >= 0x20
    ensures Becomes(Blank(w, h), bs, s') && ScreenOk(s') && s'.w == w && s'.h == h
    ensures CellAt(s', col, row).attr == PLAIN
    ensures CellAt(s', col, row).c == (var k := (top + row) * w + col; if k < |bs| then bs[k] else 0x20)
    ensures (top + s'.y) * w + s'.x == |bs| && (top > 0 ==> s'.y == h - 1) && (bs != [] ==> s'.x > 0)
  {
    hide Area, Run, Show, Blank, Becomes;
    s', top := TextShown(w, h, bs);
    OffsetInRange(w, h, col, row);
    assert (top + row) * w == top * w + row * w && (top + s'.y) * w == top * w + s'.y * w;
    assert CellAt(s', col, row) == TextCell(bs, top * w + (row * w + col));
  }

  /** A line that fits: its bytes are in row 0, everything else is blank, the cursor is behind them. */
  lemma LineOnScreen(w: nat, h: nat, bs: seq<byte>, col: nat, row: nat) returns (s': Screen)
    requires col < w && row < h && |bs| <= w && forall c <- bs :: c >= 0x20
    ensures Becomes(Blank(w, h), bs, s') && ScreenOk(s') && s'.w == w && s'.h == h && s'.x == |bs| && s'.y == 0
    ensures CellAt(s', col, row) == Cell(if row == 0 && col < |bs| then bs[col] else 0x20, PLAIN)
  {
    hide Becomes, CellAt, ScreenOk;
    var top: nat;
    s', top := TextOnScreen(w, h, bs, col, row);
    if top + s'.y > 0 { MulMono(1, top + s'.y, w); }
    if top + row > 0 { MulMono(1, top + row, w); }
  }

  // ---------------------------------------------------------------- control characters and escapes

  /** BS and CR move the cursor, LF, VT and FF start a line, and no other control byte shows. */
  lemma Controlled(d: Display, b: byte, col: nat, row: nat) returns (s': Screen)
    requires DisplayOk(d) && col < Active(d).w && row < Active(d).h
    requires b <= 0x17 || b == 0x19 || 0x1C <= b <= 0x1F
    ensures Becomes(d, [b], s') && ScreenOk(s')
    ensures var s := Active(d);
      if b == 0x08 then s' == s.(x := if s.x > 0 then s.x - 1 else 0)
      else if b == 0x0D then s' == s.(x := 0)
      else if b == 0x0A || b == 0x0B || b == 0x0C then LineFed(s, s', col, row)
      else s' == s
  {
    hide Area, NewLine, CellAt, Show, Run;
    var s := Active(d);
    s' := ExecuteOn(s, b);
    OneAction(d, b, Execute(b));
    NewLineCell(s, col, row);
  }

  /** The cursor is at the start of the next row; in the last row the screen has scrolled instead. */
  predicate LineFed(s: Screen, s': Screen, col: nat, row: nat)
    requires ScreenOk(s) && ScreenOk(s') && col < s.w && row < s.h
  {
    && SameFrame(s, s') && s'.attr == s.attr && s'.x == 0 && s'.y == (if s.y + 1 < s.h then s.y + 1 else s.y)
    && CellAt(s', col, row) == (if s.y + 1 < s.h then CellAt(s, col, row)
                                else if row + 1 < s.h then CellAt(s, col, row + 1) else BlankOn(s.attr))
  }

  /** ESC E starts a line, ESC M goes up one row, and no other escape sequence shows. */
  lemma Escaped(d: Display, inter: seq<byte>, b: byte, col: nat, row: nat) returns (s': Screen)
    requires DisplayOk(d) && col < Active(d).w && row < Active(d).h
    requires EscapeSequence(inter, b)
    ensures Becomes(d, [0x1B] + inter + [b], s') && ScreenOk(s')
    ensures var s := Active(d);
      if inter == [] && b == 0x45 then LineFed(s, s', col, row)
      else if inter == [] && b == 0x4D then s' == s.(y := if s.y > 0 then s.y - 1 else 0)
      else s' == s
  {
    hide Area, NewLine, CellAt, Show, Run;
    var s := Active(d);
    s' := EscOn(s, inter, b);
    EscRoundTrip(inter, b);
    ShowOne(d, EscDispatch(inter, false, b));
    NewLineCell(s, col, row);
  }

  // ---------------------------------------------------------------- control sequences

  /** ESC [, the parameters if there are any, the final byte. */
  function Bytes(ps: seq<nat>, f: byte): seq<byte> { if ps == [] then [0x1B, 0x5B, f] else Csi(None, ps, f) }

  /** Parameter `i` as far as 63 bits can hold it. */
  function Arg(ps: seq<nat>, i: nat, default: nat): nat {
    if i >= |ps| then default else if ps[i] <= 0x7FFF_FFFF_FFFF_FFFF then ps[i] else 0x7FFF_FFFF_FFFF_FFFF
  }

  /** A parameter that counts: 1 if it is missing or 0. */
  function Times(ps: seq<nat>, i: nat): nat { if Arg(ps, i, 1) == 0 then 1 else Arg(ps, i, 1) }

  lemma Acts(d: Display, ps: seq<nat>, f: byte)
    requires DisplayOk(d) && 0x40 <= f <= 0x7E
    ensures Run(EMPTY, Bytes(ps, f)).state == EMPTY
    ensures After(EMPTY, d, Bytes(ps, f)) == Handle(d, CsiDispatch(Sats(ps), [], false, f, None))
  {
    hide DisplayOk, Handle, Run, Show, Csi, Sats;
    if ps == [] {
      CsiInter([], f);
      assert [0x1B, 0x5B] + [] + [f] == [0x1B, 0x5B, f];
      assert Sats(ps) == [];
      ShowOne(d, CsiDispatch([], [], false, f, None));
    } else {
      CsiRoundTrip(None, ps, f);
      AfterCsi(d, None, ps, f);
    }
  }

  lemma ActsOnScreen(d: Display, ps: seq<nat>, f: byte, s': Screen)
    requires DisplayOk(d) && 0x40 <= f <= 0x7E && f != 0x68 && f != 0x6C
    requires CsiOnScreen(Active(d), Sats(ps), f) == Some(s')
    ensures Becomes(d, Bytes(ps, f), s')
  {
    hide ScreenOk, Run, Show, Bytes, CsiOnScreen, Sats;
    Acts(d, ps, f);
  }

  lemma ArgIs(ps: seq<nat>, i: nat, default: nat)
    ensures Param(Sats(ps), i, default) == Arg(ps, i, default)
    ensures Count(Sats(ps), i) == Times(ps, i)
  {
  }

  /** CUU, CUD, CUF and CUB move the cursor by the parameter, up to the edge. CUP takes row and column
      from 1, up to the last. */
  lemma Moves(d: Display, ps: seq<nat>, f: byte) returns (s': Screen)
    requires DisplayOk(d) && f in [0x41, 0x42, 0x43, 0x44, 0x48, 0x66]
    ensures Becomes(d, Bytes(ps, f), s')
    ensures var s, n, m := Active(d), Times(ps, 0), Times(ps, 1);
      if f == 0x41 then s' == s.(y := if n <= s.y then s.y - n else 0)
      else if f == 0x42 then s' == s.(y := if s.y + n < s.h then s.y + n else s.h - 1)
      else if f == 0x43 then s' == s.(x := if s.x + n < s.w then s.x + n else s.w - 1)
      else if f == 0x44 then s' == s.(x := if n <= s.x then s.x - n else 0)
      else s' == s.(x := if m <= s.w then m - 1 else s.w - 1, y := if n <= s.h then n - 1 else s.h - 1)
  {
    hide Becomes, Bytes, Area, Arg, Param, Sats, Times, Count;
    TimesPositive(ps, 0);
    TimesPositive(ps, 1);
    s' := CsiOnScreen(Active(d), Sats(ps), f).value;
    ActsOnScreen(d, ps, f, s');
  }

  lemma TimesPositive(ps: seq<nat>, i: nat)
    ensures Count(Sats(ps), i) == Times(ps, i) >= 1
  {
    ArgIs(ps, i, 1);
  }

  /** ED 2 blanks every cell and takes the cursor home; no other ED shows. */
  lemma ErasesDisplay(d: Display, ps: seq<nat>, col: nat, row: nat) returns (s': Screen)
    requires DisplayOk(d) && col < Active(d).w && row < Active(d).h
    ensures Becomes(d, Bytes(ps, 0x4A), s') && ScreenOk(s')
    ensures var s := Active(d);
      if Arg(ps, 0, 0) % 256 != 2 then s' == s
      else SameFrame(s, s') && s'.attr == s.attr && s'.x == 0 && s'.y == 0 && CellAt(s', col, row) == BlankOn(s.attr)
  {
    hide Becomes, Bytes, Area, Arg, Param, Sats;
    ArgIs(ps, 0, 0);
    s' := CsiOnScreen(Active(d), Sats(ps), 0x4A).value;
    CsiScreenOk(Active(d), Sats(ps), 0x4A);
    ActsOnScreen(d, ps, 0x4A, s');
    OffsetInRange(s'.w, s'.h, col, row);
  }

  /** The cells EL blanks: from the cursor on, up to the cursor, or the row. Mode 1 in the pending-wrap
      column takes the first cell of the next row as well. */
  predicate InErased(s: Screen, mode: nat, col: nat, row: nat) {
    if mode == 0 then row == s.y && col >= s.x
    else if mode == 1 then (row == s.y && col <= s.x) || (s.x == s.w && row == s.y + 1 && col == 0)
    else mode == 2 && row == s.y
  }

  /** EL, cell by cell; only where it does not stop the terminal. */
  lemma ErasesLine(d: Display, ps: seq<nat>, col: nat, row: nat) returns (s': Screen)
    requires DisplayOk(d) && col < Active(d).w && row < Active(d).h
    requires var s := Active(d); !(Arg(ps, 0, 0) % 256 == 1 && s.x == s.w && s.y == s.h - 1)
    ensures Becomes(d, Bytes(ps, 0x4B), s') && ScreenOk(s')
    ensures var s := Active(d);
      && s' == s.(cells := s'.cells)
      && CellAt(s', col, row) == if InErased(s, Arg(ps, 0, 0) % 256, col, row) then Cell(0x20, s.attr) else CellAt(s, col, row)
  {
    hide Becomes, Bytes, Area, Arg, Param, Sats, LineClearFails, ClearLine, CellAt;
    ArgIs(ps, 0, 0);
    var s, mode := Active(d), Arg(ps, 0, 0) % 256;
    LineClearFailsWhere(s, mode);
    s' := CsiOnScreen(s, Sats(ps), 0x4B).value;
    CsiScreenOk(s, Sats(ps), 0x4B);
    ActsOnScreen(d, ps, 0x4B, s');
    ErasedCell(s, mode, col, row);
  }

  lemma ErasedCell(s: Screen, mode: nat, col: nat, row: nat)
    requires ScreenOk(s) && col < s.w && row < s.h && ScreenOk(ClearLine(s, mode))
    ensures var s' := ClearLine(s, mode);
      && s' == s.(cells := s'.cells)
      && CellAt(s', col, row) == if InErased(s, mode, col, row) then Cell(0x20, s.attr) else CellAt(s, col, row)
  {
    hide Area;
    OffsetInRange(s.w, s.h, col, row);
    WithinRow(s.w, s.y, col, row);
  }

  /** Where an offset lies as seen from the start of row `y`. */
  lemma WithinRow(w: nat, y: nat, col: nat, row: nat)
    requires col < w
    ensures var at, start := row * w + col, y * w;
      && (row < y ==> at < start) && (row == y ==> at == start + col)
      && (row == y + 1 ==> at == start + w + col) && (row > y + 1 ==> at >= start + 2 * w)
  {
    if row < y {
      MulMono(row + 1, y, w);
      assert (row + 1) * w == row * w + w;
    } else if row > y + 1 {
      MulMono(y + 2, row, w);
      assert (y + 2) * w == y * w + 2 * w;
    } else if row == y + 1 {
      assert (y + 1) * w == y * w + w;
    }
  }

  /** SCP remembers the cursor and the attributes, RCP takes them back. */
  lemma SavesRestores(d: Display, ps: seq<nat>)
    requires DisplayOk(d)
    ensures var s := Active(d);
      && Becomes(d, Bytes(ps, 0x73), s.(sx := s.x, sy := s.y, sattr := s.attr))
      && Becomes(d, Bytes(ps, 0x75), s.(x := s.sx, y := s.sy, attr := s.sattr))
  {
    hide Becomes, Bytes, Area, Sats;
    var s := Active(d);
    ActsOnScreen(d, ps, 0x73, s.(sx := s.x, sy := s.y, sattr := s.attr));
    ActsOnScreen(d, ps, 0x75, s.(x := s.sx, y := s.sy, attr := s.sattr));
  }

  /** Any other final byte does nothing. */
  lemma Unknown(d: Display, ps: seq<nat>, f: byte)
    requires DisplayOk(d) && 0x40 <= f <= 0x7E
    requires f !in [0x41, 0x42, 0x43, 0x44, 0x48, 0x66, 0x4A, 0x4B, 0x6D, 0x73, 0x75, 0x68, 0x6C]
    ensures Becomes(d, Bytes(ps, f), Active(d))
  {
    hide Becomes, Bytes, Area, Sats;
    ActsOnScreen(d, ps, f, Active(d));
  }

  /** A private prefix changes the meaning of h and l only. */
  lemma PrefixIgnored(d: Display, q: byte, ps: seq<nat>, f: byte)
    requires DisplayOk(d) && 0x40 <= f <= 0x7E && 0x3C <= q <= 0x3F && ps != []
    ensures f != 0x68 && f != 0x6C ==> After(EMPTY, d, Csi(Some(q), ps, f)) == After(EMPTY, d, Csi(None, ps, f))
    ensures (f == 0x68 || f == 0x6C) && q != 0x3F ==> After(EMPTY, d, Csi(Some(q), ps, f)) == Some(d)
    ensures f == 0x68 || f == 0x6C ==> After(EMPTY, d, Csi(None, ps, f)) == Some(d)
  {
    hide ScreenOk, After, Csi, CsiOnScreen, Sats, Modes, WithActive;
    AfterCsi(d, None, ps, f);
    AfterCsi(d, Some(q), ps, f);
  }

  // ---------------------------------------------------------------- attributes

  /** SGR with one parameter; without any nothing changes. */
  lemma SgrCodes(d: Display, n: nat) returns (a: Attr)
    requires DisplayOk(d)
    ensures var s := Active(d); Becomes(d, Bytes([n], 0x6D), s.(attr := a)) && Becomes(d, Bytes([], 0x6D), s)
    ensures var b := Active(d).attr;
      if n == 0 then a == PLAIN
      else if n == 1 then a == b.(bold := true)
      else if n == 4 then a == b.(underline := true)
      else if n == 5 then a == b.(blink := true)
      else if n == 7 then a == b.(reverse := true)
      else if 30 <= n <= 37 then a == b.(fg := Indexed(n - 30))
      else if 90 <= n <= 97 then a == b.(fg := Indexed(n - 82))
      else if 40 <= n <= 47 then a == b.(bg := Indexed(n - 40))
      else if 100 <= n <= 107 then a == b.(bg := Indexed(n - 92))
      else a == b
  {
    hide Becomes, Bytes, ScreenOk, Sgr;
    var s := Active(d);
    a := Sgr(s.attr, Sats([n]), 0);
    assert Sats([]) == [];
    SgrEnd(s.attr, [], 0);
    SgrOnce(s.attr, Sats([n]));
    ActsOnScreen(d, [n], 0x6D, s.(attr := a));
    ActsOnScreen(d, [], 0x6D, s);
  }

  lemma SgrEnd(a: Attr, ps: seq<nat>, i: nat)
    requires i >= |ps|
    ensures Sgr(a, ps, i) == a
  {
  }

  lemma SgrOnce(a: Attr, ps: seq<nat>)
    requires |ps| == 1
    ensures Sgr(a, ps, 0) == SgrStep(a, ps, 0).0
  {
    hide Sgr;
    SgrNext(a, ps);
    SgrEnd(SgrStep(a, ps, 0).0, ps, SgrStep(a, ps, 0).1);
  }

  /** The rest of an extended colour: 5 and an index, or 2 and three components. */
  predicate Completes(qs: seq<nat>) { (|qs| >= 2 && qs[0] == 5) || (|qs| >= 4 && qs[0] == 2) }

  /** `ps` is one parameter with what belongs to it, in front of `qs`: an extended colour takes two or
      four more if they are there. */
  predicate OneItem(ps: seq<nat>, qs: seq<nat>) {
    if |ps| == 1 then (ps[0] == 38 || ps[0] == 48) ==> !Completes(qs)
    else |ps| > 0 && (ps[0] == 38 || ps[0] == 48) && ((|ps| == 3 && ps[1] == 5) || (|ps| == 5 && ps[1] == 2))
  }

  lemma {:induction false} SgrShift(a: Attr, ps: seq<nat>, qs: seq<nat>, i: nat)
    ensures Sgr(a, ps + qs, |ps| + i) == Sgr(a, qs, i)
    decreases if i <= |qs| then |qs| - i else 0
  {
    hide SgrStep;
    if i < |qs| {
      StepShift(a, ps, qs, i);
      var (a1, n) := SgrStep(a, qs, i);
      SgrShift(a1, ps, qs, i + n);
      assert |ps| + (i + n) == |ps| + i + n;
    }
  }

  lemma StepShift(a: Attr, ps: seq<nat>, qs: seq<nat>, i: nat)
    requires i < |qs|
    ensures SgrStep(a, ps + qs, |ps| + i) == SgrStep(a, qs, i) && SgrStep(a, qs, i).1 >= 1
  {
    var r := ps + qs;
    assert forall k: nat :: k < |qs| ==> r[|ps| + k] == qs[k];
  }

  lemma ItemStep(a: Attr, ps: seq<nat>, qs: seq<nat>)
    requires OneItem(ps, qs)
    ensures SgrStep(a, ps + qs, 0) == (Sgr(a, ps, 0), |ps|)
  {
    hide Sgr;
    var (a1, n) := SgrStep(a, ps, 0);
    assert n == |ps|;
    SgrNext(a, ps);
    SgrEnd(a1, ps, n);
  }

  lemma SgrNext(a: Attr, ps: seq<nat>)
    requires ps != []
    ensures Sgr(a, ps, 0) == Sgr(SgrStep(a, ps, 0).0, ps, SgrStep(a, ps, 0).1)
  {
    hide SgrStep;
  }

  lemma SgrFirst(a: Attr, ps: seq<nat>, qs: seq<nat>)
    requires OneItem(ps, qs)
    ensures Sgr(a, ps + qs, 0) == Sgr(Sgr(a, ps, 0), qs, 0)
  {
    hide Sgr, SgrStep;
    ItemStep(a, ps, qs);
    SgrNext(a, ps + qs);
    SgrShift(Sgr(a, ps, 0), ps, qs, 0);
  }

  lemma SatsItem(ps: seq<nat>, qs: seq<nat>)
    ensures Sats(ps + qs) == Sats(ps) + Sats(qs)
    ensures OneItem(ps, qs) ==> OneItem(Sats(ps), Sats(qs))
  {
    assert forall i: nat :: i < |qs| ==> (ps + qs)[|ps| + i] == qs[i];
  }

  /** The parameters of one SGR act like as many SGRs, one after the other. */
  lemma SgrSplits(d: Display, ps: seq<nat>, qs: seq<nat>)
    requires DisplayOk(d) && OneItem(ps, qs)
    ensures After(EMPTY, d, Bytes(ps + qs, 0x6D)) == After(EMPTY, d, Bytes(ps, 0x6D) + Bytes(qs, 0x6D))
  {
    hide Sgr, OneItem, Run, Show, Bytes, ScreenOk, Sats;
    var s := Active(d);
    var a1 := Sgr(s.attr, Sats(ps), 0);
    var d1 := WithActive(d, s.(attr := a1));
    SatsItem(ps, qs);
    SgrFirst(s.attr, Sats(ps), Sats(qs));
    Acts(d, ps + qs, 0x6D);
    Acts(d, ps, 0x6D);
    HandleOk(d, CsiDispatch(Sats(ps), [], false, 0x6D, None));
    Acts(d1, qs, 0x6D);
    AfterConcat(EMPTY, d, Bytes(ps, 0x6D), Bytes(qs, 0x6D));
  }

  // ---------------------------------------------------------------- modes

  /** Private mode `n` set or reset. */
  lemma ModeCodes(d: Display, n: nat, on: bool) returns (d': Display)
    requires DisplayOk(d)
    ensures After(EMPTY, d, Csi(Some(0x3F), [n], if on then 0x68 else 0x6C)) == Some(d')
    ensures var p, a := d.primary, d.alternate;
      if n == 47 || n == 1047 then d' == d.(isAlternate := on)
      else if n == 1049 && on then
        d' == d.(isAlternate := true, primary := p.(sx := p.x, sy := p.y, sattr := p.attr),
                 alternate := a.(cells := seq(|a.cells|, _ => BlankOn(a.attr)), x := 0, y := 0))
      else if n == 1049 then d' == d.(isAlternate := false, primary := p.(x := p.sx, y := p.sy, attr := p.sattr))
      else if n == 1000 || n == 1002 || n == 1006 || n == 1015 then d' == d.(mouse := on)
      else if n == 2004 then d' == d.(paste := on)
      else d' == d
  {
    hide After, Csi, ScreenOk, ModeStep;
    var m := Sat(n);
    d' := ModeStep(d, m, on);
    AfterCsi(d, Some(0x3F), [n], if on then 0x68 else 0x6C);
    assert Sats([n]) == [m];
    assert [m][..0] == [];
    assert Modes(d, [], on) == d;
    ModeIs(d, m, on);
  }

  lemma ModeIs(d: Display, n: nat, on: bool)
    ensures var p, a, d' := d.primary, d.alternate, ModeStep(d, n, on);
      if n == 47 || n == 1047 then d' == d.(isAlternate := on)
      else if n == 1049 && on then
        d' == d.(isAlternate := true, primary := p.(sx := p.x, sy := p.y, sattr := p.attr),
                 alternate := a.(cells := seq(|a.cells|, _ => BlankOn(a.attr)), x := 0, y := 0))
      else if n == 1049 then d' == d.(isAlternate := false, primary := p.(x := p.sx, y := p.sy, attr := p.sattr))
      else if n == 1000 || n == 1002 || n == 1006 || n == 1015 then d' == d.(mouse := on)
      else if n == 2004 then d' == d.(paste := on)
      else d' == d
  {
    var a := d.alternate;
    assert Filled(a.cells, 0, |a.cells|, Erased(a.attr)) == seq(|a.cells|, _ => BlankOn(a.attr));
  }

  lemma {:induction false} ModesConcat(d: Display, ps: seq<nat>, qs: seq<nat>, on: bool)
    ensures Modes(d, ps + qs, on) == Modes(Modes(d, ps, on), qs, on)
    decreases |qs|
  {
    hide ModeStep;
    if qs == [] {
      assert ps + qs == ps;
    } else {
      ModesConcat(d, ps, qs[..|qs| - 1], on);
      assert (ps + qs)[..|ps + qs| - 1] == ps + qs[..|qs| - 1];
    }
  }

  /** Several modes in one sequence are set one after the other. */
  lemma ModesSplit(d: Display, ps: seq<nat>, qs: seq<nat>, on: bool)
    requires DisplayOk(d) && ps != [] && qs != []
    ensures var f: byte := if on then 0x68 else 0x6C;
      After(EMPTY, d, Csi(Some(0x3F), ps + qs, f)) == After(EMPTY, d, Csi(Some(0x3F), ps, f) + Csi(Some(0x3F), qs, f))
  {
    hide Run, Show, Csi, ScreenOk, Sats, Modes;
    var f: byte := if on then 0x68 else 0x6C;
    SatsItem(ps, qs);
    ModesConcat(d, Sats(ps), Sats(qs), on);
    var d1 := Modes(d, Sats(ps), on);
    ModesOk(d, Sats(ps), on);
    AfterCsi(d, Some(0x3F), ps + qs, f);
    AfterCsi(d, Some(0x3F), ps, f);
    CsiRoundTrip(Some(0x3F), ps, f);
    AfterCsi(d1, Some(0x3F), qs, f);
    AfterConcat(EMPTY, d, Csi(Some(0x3F), ps, f), Csi(Some(0x3F), qs, f));
  }

  // ---------------------------------------------------------------- operating system commands

  lemma {:induction false} PutsKept(d: Display, bs: seq<byte>)
    requires DisplayOk(d)
    ensures Show(d, Puts(bs)) == Some(d.(osc := d.osc + bs))
    decreases |bs|
  {
    hide ScreenOk;
    if bs == [] {
      assert d.osc + bs == d.osc;
    } else {
      assert Puts(bs)[0] == OscPut(bs[0]) && Puts(bs)[1..] == Puts(bs[1..]);
      var d1 := d.(osc := d.osc + [bs[0]]);
      PutsKept(d1, bs[1..]);
      assert d.osc + [bs[0]] + bs[1..] == d.osc + bs;
    }
  }

  /** The bytes of a command are kept for later and show nothing. */
  lemma OscKept(d: Display, bs: seq<byte>)
    requires DisplayOk(d) && forall b <- bs :: b != 0x07 && b != 0x1B
    ensures After(EMPTY, d, [0x1B, 0x5D] + bs + [0x07]) == Some(d.(osc := d.osc + bs))
  {
    hide ScreenOk, Run, Show, Puts;
    OscRoundTrip(bs);
    PutsKept(d, bs);
    ShowConcat(d, Puts(bs), [OscEnd]);
    ShowOne(d.(osc := d.osc + bs), OscEnd);
  }
}
