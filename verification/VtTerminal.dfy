/** The terminal of src/lib_core/vt/mod.rs: two screens behind one parser. */
module VtTerminals {
  import opened Common
  import opened VtParsing
  import opened VtScreens

  datatype Display = Display(
    primary: Screen, alternate: Screen, isAlternate: bool, mouse: bool, paste: bool, osc: seq<byte>)

  function Active(d: Display): Screen { if d.isAlternate then d.alternate else d.primary }

  function WithActive(d: Display, s: Screen): Display {
    if d.isAlternate then d.(alternate := s) else d.(primary := s)
  }

  // ---------------------------------------------------------------- control sequences

  /** params.get(i), or the default. */
  function Param(params: seq<nat>, i: nat, default: nat): nat { if i < |params| then params[i] else default }

  /** A count: absent and 0 both mean 1. */
  function Count(params: seq<nat>, i: nat): nat { Max(Param(params, i, 1), 1) }

  function Minus(a: nat, b: nat): nat { if a >= b then a - b else 0 }

  /** Extended colours take one or three further parameters. */
  function Extended(params: seq<nat>, i: nat): Option<Color>
    requires i < |params|
  {
    if i + 2 < |params| && params[i + 1] == 5 then Some(Indexed(params[i + 2] % 256))
    else if i + 4 < |params| && params[i + 1] == 2 then
      Some(Rgb(params[i + 2] % 256, params[i + 3] % 256, params[i + 4] % 256))
    else None
  }

  function Skip(c: Option<Color>): nat { match c case None => 1 case Some(Indexed(_)) => 3 case Some(Rgb(_, _, _)) => 5 }

  /** One step of SGR: the new attributes and the parameters used up. */
  function SgrStep(a: Attr, params: seq<nat>, i: nat): (Attr, nat)
    requires i < |params|
  {
    var p := params[i];
    var c := Extended(params, i);
    if p == 0 then (DEFAULT_ATTR, 1)
    else if p == 1 then (a.(bold := true), 1)
    else if p == 4 then (a.(underline := true), 1)
    else if p == 5 then (a.(blink := true), 1)
    else if p == 7 then (a.(reverse := true), 1)
    else if 30 <= p <= 37 then (a.(fg := Indexed(p - 30)), 1)
    else if p == 38 then (if c.Some? then a.(fg := c.value) else a, Skip(c))
    else if 40 <= p <= 47 then (a.(bg := Indexed(p - 40)), 1)
    else if p == 48 then (if c.Some? then a.(bg := c.value) else a, Skip(c))
    else if 90 <= p <= 97 then (a.(fg := Indexed(p - 90 + 8)), 1)
    else if 100 <= p <= 107 then (a.(bg := Indexed(p - 100 + 8)), 1)
    else (a, 1)
  }

  function Sgr(a: Attr, params: seq<nat>, i: nat): Attr
    decreases if i <= |params| then |params| - i else 0
  {
    if i >= |params| then a
    else
      var (a1, n) := SgrStep(a, params, i);
      Sgr(a1, params, i + n)
  }

  /** A control sequence other than h and l, on the active screen. Nothing results where the
      original would index out of range. */
  function CsiOnScreen(s: Screen, params: seq<nat>, final: byte): Option<Screen>
    requires ScreenOk(s)
  {
    if final == 0x41 then Some(s.(y := Minus(s.y, Count(params, 0))))
    else if final == 0x42 then Some(s.(y := Min(s.y + Count(params, 0), s.h - 1)))
    else if final == 0x43 then Some(s.(x := Min(s.x + Count(params, 0), s.w - 1)))
    else if final == 0x44 then Some(s.(x := Minus(s.x, Count(params, 0))))
    else if final == 0x48 || final == 0x66 then Some(SetCursor(s, Count(params, 1) - 1, Count(params, 0) - 1))
    else if final == 0x4A then Some(if Param(params, 0, 0) % 256 == 2 then ClearScreen(s) else s)
    else if final == 0x4B then
      if LineClearFails(s, Param(params, 0, 0) % 256) then None else Some(ClearLine(s, Param(params, 0, 0) % 256))
    else if final == 0x6D then Some(s.(attr := Sgr(s.attr, params, 0)))
    else if final == 0x73 then Some(SaveCursor(s))
    else if final == 0x75 then Some(RestoreCursor(s))
    else Some(s)
  }

  /** One private mode set or reset. */
  function ModeStep(d: Display, p: nat, on: bool): Display {
    if p == 47 || p == 1047 then d.(isAlternate := on)
    else if p == 1049 then
      if on then d.(isAlternate := true, primary := SaveCursor(d.primary), alternate := ClearScreen(d.alternate))
      else d.(isAlternate := false, primary := RestoreCursor(d.primary))
    else if p == 1000 || p == 1002 || p == 1006 || p == 1015 then d.(mouse := on)
    else if p == 2004 then d.(paste := on)
    else d
  }

  function Modes(d: Display, params: seq<nat>, on: bool): Display {
    if params == [] then d else ModeStep(Modes(d, params[..|params| - 1], on), params[|params| - 1], on)
  }

  function Backspace(s: Screen): Screen { s.(x := Minus(s.x, 1)) }

  function ExecuteOn(s: Screen, b: byte): Screen
    requires ScreenOk(s)
  {
    if b == 0x08 then Backspace(s)
    else if b == 0x0A || b == 0x0B || b == 0x0C then NewLine(s)
    else if b == 0x0D then s.(x := 0)
    else s
  }

  function EscOn(s: Screen, inter: seq<byte>, b: byte): Screen
    requires ScreenOk(s)
  {
    if inter != [] then s
    else if b == 0x45 then NewLine(s)
    else if b == 0x4D then s.(y := Minus(s.y, 1))
    else s
  }

  /** Both screens are sound and of the same size. */
  predicate DisplayOk(d: Display) {
    ScreenOk(d.primary) && ScreenOk(d.alternate) && d.primary.w == d.alternate.w && d.primary.h == d.alternate.h
  }

  /** handle_action; nothing where the original would stop. */
  function Handle(d: Display, a: Action): Option<Display>
    requires DisplayOk(d)
  {
    match a
    case OscPut(b) => Some(d.(osc := d.osc + [b]))
    case OscEnd => Some(d)
    case Print(c) => Some(WithActive(d, WriteChar(Active(d), c)))
    case Execute(b) => Some(WithActive(d, ExecuteOn(Active(d), b)))
    case EscDispatch(inter, _, b) => Some(WithActive(d, EscOn(Active(d), inter, b)))
    case CsiDispatch(params, _, _, final, prefix) =>
      if final == 0x68 || final == 0x6C then
        Some(if prefix == Some(0x3F) then Modes(d, params, final == 0x68) else d)
      else
        var s := CsiOnScreen(Active(d), params, final);
        if s.None? then None else Some(WithActive(d, s.value))
  }

  // ---------------------------------------------------------------- what every byte keeps

  predicate SameSize(s: Screen, s': Screen) { s'.w == s.w && s'.h == s.h }

  lemma CsiScreenOk(s: Screen, params: seq<nat>, final: byte)
    requires ScreenOk(s) && CsiOnScreen(s, params, final).Some?
    ensures var s' := CsiOnScreen(s, params, final).value; ScreenOk(s') && SameSize(s, s')
  {
    hide Area, Offset, Sgr, Filled;
  }

  lemma ExecuteScreenOk(s: Screen, b: byte, inter: seq<byte>)
    requires ScreenOk(s)
    ensures ScreenOk(ExecuteOn(s, b)) && SameSize(s, ExecuteOn(s, b))
    ensures ScreenOk(EscOn(s, inter, b)) && SameSize(s, EscOn(s, inter, b))
  {
    hide Area, Offset, Scrolled;
    NewLineOk(s);
  }

  lemma {:induction false} ModesOk(d: Display, params: seq<nat>, on: bool)
    requires DisplayOk(d)
    ensures DisplayOk(Modes(d, params, on))
  {
    hide Area, Filled;
    if params != [] { ModesOk(d, params[..|params| - 1], on); }
  }

  lemma ActiveOk(d: Display, s: Screen)
    requires DisplayOk(d) && ScreenOk(s) && SameSize(Active(d), s)
    ensures DisplayOk(WithActive(d, s))
  {
    hide ScreenOk;
  }

  /** The cursors of both screens stay in range, whatever the action. */
  lemma HandleOk(d: Display, a: Action)
    requires DisplayOk(d) && Handle(d, a).Some?
    ensures DisplayOk(Handle(d, a).value)
  {
    hide ScreenOk, WriteChar, ExecuteOn, EscOn, CsiOnScreen, Modes, WithActive;
    match a
    case OscPut(b) =>
    case OscEnd =>
    case Print(c) =>
      WriteCharOk(Active(d), c);
      ActiveOk(d, WriteChar(Active(d), c));
    case Execute(b) =>
      ExecuteScreenOk(Active(d), b, []);
      ActiveOk(d, ExecuteOn(Active(d), b));
    case EscDispatch(inter, _, b) =>
      ExecuteScreenOk(Active(d), b, inter);
      ActiveOk(d, EscOn(Active(d), inter, b));
    case CsiDispatch(params, _, _, final, prefix) =>
      if final == 0x68 || final == 0x6C {
        ModesOk(d, params, final == 0x68);
      } else {
        CsiScreenOk(Active(d), params, final);
        ActiveOk(d, CsiOnScreen(Active(d), params, final).value);
      }
  }

  /** Exactly one thing can go wrong: EL with mode 1 in the pending-wrap column of the last row. */
  predicate Stops(d: Display, a: Action) {
    a.CsiDispatch? && a.final == 0x4B && Param(a.params, 0, 0) % 256 == 1
    && Active(d).x == Active(d).w && Active(d).y == Active(d).h - 1
  }

  lemma StopsExactly(d: Display, a: Action)
    requires DisplayOk(d)
    ensures Handle(d, a).None? <==> Stops(d, a)
  {
    hide ScreenOk, WriteChar, ExecuteOn, EscOn, Modes, WithActive, Sgr, ClearLine, LineClearFails;
    if a.CsiDispatch? { LineClearFailsWhere(Active(d), Param(a.params, 0, 0) % 256); }
  }

  // ---------------------------------------------------------------- streams of bytes

  /** What the display shows after a list of actions. */
  ghost function Show(d: Display, acts: seq<Action>): (r: Option<Display>)
    requires DisplayOk(d)
    ensures r.Some? ==> DisplayOk(r.value)
    decreases |acts|
  {
    if acts == [] then Some(d)
    else
      var d1 := Handle(d, acts[0]);
      if d1.None? then None else HandleOk(d, acts[0]); Show(d1.value, acts[1..])
  }

  lemma {:induction false} ShowConcat(d: Display, a: seq<Action>, b: seq<Action>)
    requires DisplayOk(d)
    ensures Show(d, a + b) == var d1 := Show(d, a); if d1.None? then None else Show(d1.value, b)
    decreases |a|
  {
    hide DisplayOk, Handle;
    if a == [] {
      assert a + b == b;
    } else {
      assert (a + b)[0] == a[0] && (a + b)[1..] == a[1..] + b;
      if Handle(d, a[0]).Some? {
        HandleOk(d, a[0]);
        ShowConcat(Handle(d, a[0]).value, a[1..], b);
      }
    }
  }

  /** The display after feeding `bs` to a terminal in parser state `p`. */
  ghost function After(p: PState, d: Display, bs: seq<byte>): Option<Display>
    requires DisplayOk(d)
  {
    Show(d, Run(p, bs).actions)
  }

  /** The terminal survives `bs` up to byte `k`, and that byte completes an action that stops it. */
  ghost predicate StopsAt(p: PState, d: Display, bs: seq<byte>, k: nat)
    requires DisplayOk(d)
  {
    && k < |bs| && After(p, d, bs[..k]).Some?
    && var a := Advance(Run(p, bs[..k]).state, bs[k]).1;
       a.Some? && Stops(After(p, d, bs[..k]).value, a.value)
  }

  /** A stream stops the terminal if and only if one of its bytes completes an EL with mode 1 while
      the cursor waits to wrap in the last row. */
  lemma {:induction false} StreamStops(p: PState, d: Display, bs: seq<byte>)
    requires DisplayOk(d)
    ensures After(p, d, bs).None? <==> exists k: nat :: StopsAt(p, d, bs, k)
    decreases |bs|
  {
    hide DisplayOk, After, Run, Advance, Stops;
    if bs == [] {
      ShowNothing(p, d);
    } else {
      var n := |bs| - 1;
      var front := bs[..n];
      StreamStops(p, d, front);
      LastByte(p, d, bs);
      forall k: nat | k < n ensures StopsAt(p, d, bs, k) <==> StopsAt(p, d, front, k) { assert bs[..k] == front[..k]; }
      if After(p, d, front).None? {
        var k: nat :| StopsAt(p, d, front, k);
        assert StopsAt(p, d, bs, k);
      } else {
        forall k: nat | k < n ensures !StopsAt(p, d, bs, k) { }
        if After(p, d, bs).None? { assert StopsAt(p, d, bs, n); }
      }
    }
  }

  /** The last byte stops the terminal, or a byte before it did. */
  lemma LastByte(p: PState, d: Display, bs: seq<byte>)
    requires DisplayOk(d) && bs != []
    ensures var n := |bs| - 1;
      After(p, d, bs).None? <==> After(p, d, bs[..n]).None? || StopsAt(p, d, bs, n)
  {
    hide DisplayOk, Run, Show, Advance, Stops, Handle;
    var n := |bs| - 1;
    var q := Run(p, bs[..n]);
    assert bs == bs[..n] + [bs[n]];
    RunConcat(p, bs[..n], [bs[n]]);
    RunOne(q.state, bs[n]);
    ShowConcat(d, q.actions, Run(q.state, [bs[n]]).actions);
    if Show(d, q.actions).Some? {
      var d1, a := Show(d, q.actions).value, Advance(q.state, bs[n]).1;
      if a.Some? {
        ShowOne(d1, a.value);
        StopsExactly(d1, a.value);
      } else {
        ShowOne(d1, OscEnd);
      }
    }
  }

  /** A stopping byte is the letter K. */
  lemma StopsAtK(p: PState, d: Display, bs: seq<byte>, k: nat)
    requires DisplayOk(d) && StopsAt(p, d, bs, k)
    ensures bs[k] == 0x4B
  {
    hide DisplayOk, After, Run;
  }

  /** A new terminal. */
  function Blank(w: nat, h: nat): Display {
    var s := Screen(w, h, seq(Area(w, h), _ => Cell(BLANK, DEFAULT_ATTR)), 0, 0, DEFAULT_ATTR, 0, 0, DEFAULT_ATTR);
    Display(s, s, false, false, false, [])
  }

  /** It happens: one letter and ESC [ 1 K stop a new terminal with one cell. */
  lemma OneCellStops()
    ensures DisplayOk(Blank(1, 1)) && After(EMPTY, Blank(1, 1), [0x61, 0x1B, 0x5B, 0x31, 0x4B]).None?
  {
    hide Run, Show, Handle, Blank, Csi, DisplayOk, Advance, After, Sats;
    var el := Csi(None, [1], 0x4B);
    var d1 := OneCellFull();
    OneByteEl();
    assert [0x61, 0x1B, 0x5B, 0x31, 0x4B] == [0x61] + el;
    AfterConcat(EMPTY, Blank(1, 1), [0x61], el);
    AfterCsi(d1, None, [1], 0x4B);
    StopsExactly(d1, CsiDispatch(Sats([1]), [], false, 0x4B, None));
  }

  lemma AfterConcat(p: PState, d: Display, a: seq<byte>, b: seq<byte>)
    requires DisplayOk(d)
    ensures After(p, d, a + b) == var d1 := After(p, d, a); if d1.None? then None else After(Run(p, a).state, d1.value, b)
  {
    hide Run, Show, DisplayOk;
    RunConcat(p, a, b);
    ShowConcat(d, Run(p, a).actions, Run(Run(p, a).state, b).actions);
  }

  /** The letter fills the cell and leaves the cursor waiting to wrap. */
  lemma OneCellFull() returns (d1: Display)
    ensures DisplayOk(Blank(1, 1)) && DisplayOk(d1) && Active(d1).x == Active(d1).w && Active(d1).y == Active(d1).h - 1
    ensures Run(EMPTY, [0x61]).state == EMPTY && After(EMPTY, Blank(1, 1), [0x61]) == Some(d1)
  {
    var d := Blank(1, 1);
    d1 := Handle(d, Print(0x61)).value;
    HandleOk(d, Print(0x61));
    RunOne(EMPTY, 0x61);
    ShowOne(d, Print(0x61));
  }

  lemma OneByteEl()
    ensures Csi(None, [1], 0x4B) == [0x1B, 0x5B, 0x31, 0x4B]
  {
    assert Dec(1) == [0x31];
  }

  /** For every byte stream: if it does not stop, both cursors are where they may be. */
  lemma CursorsInRange(p: PState, d: Display, bs: seq<byte>)
    requires DisplayOk(d) && After(p, d, bs).Some?
    ensures var d' := After(p, d, bs).value;
      && d'.primary.x <= d'.primary.w && d'.primary.y < d'.primary.h
      && d'.alternate.x <= d'.alternate.w && d'.alternate.y < d'.alternate.h
      && |d'.primary.cells| == Area(d'.primary.w, d'.primary.h) && |d'.alternate.cells| == Area(d'.alternate.w, d'.alternate.h)
  {
    hide Area, Run, Show;
    assert DisplayOk(After(p, d, bs).value);
  }

  // ---------------------------------------------------------------- the alternate screen

  /** While the alternate screen is active nothing writes to the primary cells. */
  lemma PrimaryCellsKept(d: Display, a: Action)
    requires DisplayOk(d) && d.isAlternate && Handle(d, a).Some?
    ensures Handle(d, a).value.primary.cells == d.primary.cells
  {
    hide ScreenOk, WriteChar, ExecuteOn, EscOn, CsiOnScreen, Modes;
    if a.CsiDispatch? { ModesKeepCells(d, a.params, a.final == 0x68); }
  }

  lemma {:induction false} ModesKeepCells(d: Display, params: seq<nat>, on: bool)
    ensures Modes(d, params, on).primary.cells == d.primary.cells
  {
    hide ClearScreen;
    if params != [] { ModesKeepCells(d, params[..|params| - 1], on); }
  }

  /** The primary screen is still `s`, with the cursor of `s` saved. */
  predicate Holds(d: Display, s: Screen) { d.primary == SaveCursor(s) }

  lemma {:induction false} ModesHold(d: Display, params: seq<nat>, on: bool, s: Screen)
    requires Holds(d, s)
    ensures Holds(Modes(d, params, on), s)
  {
    hide ClearScreen;
    if params != [] { ModesHold(d, params[..|params| - 1], on, s); }
  }

  lemma HandleHolds(d: Display, a: Action, s: Screen)
    requires DisplayOk(d) && d.isAlternate && Handle(d, a).Some? && Holds(d, s)
    ensures Holds(Handle(d, a).value, s)
  {
    hide ScreenOk, WriteChar, ExecuteOn, EscOn, CsiOnScreen, Modes;
    if a.CsiDispatch? { ModesHold(d, a.params, a.final == 0x68, s); }
  }

  /** The alternate screen is active before each of the actions. */
  ghost predicate InAlternate(d: Display, acts: seq<Action>)
    requires DisplayOk(d)
    decreases |acts|
  {
    acts == [] ||
    (d.isAlternate && (Handle(d, acts[0]).Some? ==> (HandleOk(d, acts[0]); InAlternate(Handle(d, acts[0]).value, acts[1..]))))
  }

  lemma {:induction false} SessionHolds(d: Display, acts: seq<Action>, s: Screen)
    requires DisplayOk(d) && InAlternate(d, acts) && Holds(d, s) && Show(d, acts).Some?
    ensures Holds(Show(d, acts).value, s)
    decreases |acts|
  {
    hide DisplayOk, Handle, Holds;
    if acts != [] {
      HandleOk(d, acts[0]);
      HandleHolds(d, acts[0], s);
      SessionHolds(Handle(d, acts[0]).value, acts[1..], s);
    }
  }

  // ---------------------------------------------------------------- the generator (src/drivers/tty/ansi.rs)

  function CursorPosition(row: nat, col: nat): seq<byte> { Csi(None, [row, col], 0x48) }

  function Foreground256(c: nat): seq<byte> { Csi(None, [38, 5, c], 0x6D) }

  function Background256(c: nat): seq<byte> { Csi(None, [48, 5, c], 0x6D) }

  function ForegroundTrueColor(r: byte, g: byte, b: byte): seq<byte> { Csi(None, [38, 2, r, g, b], 0x6D) }

  function BackgroundTrueColor(r: byte, g: byte, b: byte): seq<byte> { Csi(None, [48, 2, r, g, b], 0x6D) }

  function AlternateScreen(on: bool): seq<byte> { Csi(Some(0x3F), [1049], if on then 0x68 else 0x6C) }

  /** A generated sequence does what its one dispatch does. */
  lemma AfterCsi(d: Display, prefix: Option<byte>, ps: seq<nat>, final: byte)
    requires DisplayOk(d) && ps != [] && Final(final) && (prefix.Some? ==> 0x3C <= prefix.value <= 0x3F)
    ensures After(EMPTY, d, Csi(prefix, ps, final)) == Handle(d, CsiDispatch(Sats(ps), [], false, final, prefix))
  {
    hide DisplayOk, Handle, Run, Csi, Sats;
    CsiRoundTrip(prefix, ps, final);
    var a := CsiDispatch(Sats(ps), [], false, final, prefix);
    assert [a][1..] == [];
    if Handle(d, a).Some? {
      HandleOk(d, a);
      assert Show(Handle(d, a).value, []) == Some(Handle(d, a).value);
    }
  }

  /** cursor_position drives the terminal to the position, clamped to the screen. */
  lemma CursorPositionWorks(d: Display, row: nat, col: nat)
    requires DisplayOk(d) && Active(d).w <= PARAM_MAX && Active(d).h <= PARAM_MAX
    ensures After(EMPTY, d, CursorPosition(row, col)) == Some(WithActive(d, Active(d).(
      x := Min(Max(col, 1) - 1, Active(d).w - 1), y := Min(Max(row, 1) - 1, Active(d).h - 1))))
  {
    hide After, Csi;
    AfterCsi(d, None, [row, col], 0x48);
  }

  /** The 256-colour sequences set the colour given, taken modulo 256, and nothing else. */
  lemma Colors256Work(d: Display, c: nat)
    requires DisplayOk(d)
    ensures var s, k := Active(d), Indexed(Sat(c) % 256);
      && After(EMPTY, d, Foreground256(c)) == Some(WithActive(d, s.(attr := s.attr.(fg := k))))
      && After(EMPTY, d, Background256(c)) == Some(WithActive(d, s.(attr := s.attr.(bg := k))))
      && (c < 256 ==> k == Indexed(c))
  {
    hide After, Csi, Sgr, ScreenOk, WithActive;
    AfterCsi(d, None, [38, 5, c], 0x6D);
    AfterCsi(d, None, [48, 5, c], 0x6D);
    SgrIndexed(Active(d).attr, Sats([38, 5, c]));
    SgrIndexed(Active(d).attr, Sats([48, 5, c]));
  }

  lemma SgrIndexed(a: Attr, ps: seq<nat>)
    requires |ps| == 3 && ps[1] == 5
    ensures ps[0] == 38 ==> Sgr(a, ps, 0) == a.(fg := Indexed(ps[2] % 256))
    ensures ps[0] == 48 ==> Sgr(a, ps, 0) == a.(bg := Indexed(ps[2] % 256))
  {
  }

  lemma SgrRgb(a: Attr, ps: seq<nat>)
    requires |ps| == 5 && ps[1] == 2
    ensures ps[0] == 38 ==> Sgr(a, ps, 0) == a.(fg := Rgb(ps[2] % 256, ps[3] % 256, ps[4] % 256))
    ensures ps[0] == 48 ==> Sgr(a, ps, 0) == a.(bg := Rgb(ps[2] % 256, ps[3] % 256, ps[4] % 256))
  {
  }

  /** The true-colour sequences set exactly the colour given. */
  lemma TrueColorsWork(d: Display, r: byte, g: byte, b: byte)
    requires DisplayOk(d)
    ensures var s := Active(d);
      && After(EMPTY, d, ForegroundTrueColor(r, g, b)) == Some(WithActive(d, s.(attr := s.attr.(fg := Rgb(r, g, b)))))
      && After(EMPTY, d, BackgroundTrueColor(r, g, b)) == Some(WithActive(d, s.(attr := s.attr.(bg := Rgb(r, g, b)))))
  {
    hide After, Csi, Sgr, ScreenOk, WithActive;
    AfterCsi(d, None, [38, 2, r, g, b], 0x6D);
    AfterCsi(d, None, [48, 2, r, g, b], 0x6D);
    SgrRgb(Active(d).attr, Sats([38, 2, r, g, b]));
    SgrRgb(Active(d).attr, Sats([48, 2, r, g, b]));
  }

  /** What ?1049h and ?1049l do. */
  lemma AlternateScreenDoes(d: Display, on: bool)
    requires DisplayOk(d)
    ensures After(EMPTY, d, AlternateScreen(on)) == Some(ModeStep(d, 1049, on))
    ensures Run(EMPTY, AlternateScreen(on)).state == EMPTY
  {
    hide After, Csi, ScreenOk, ModeStep;
    AfterCsi(d, Some(0x3F), [1049], if on then 0x68 else 0x6C);
    CsiRoundTrip(Some(0x3F), [1049], if on then 0x68 else 0x6C);
    assert Sats([1049]) == [1049];
    assert [1049][..0] == [];
    assert Modes(d, [], on) == d;
  }

  /** The display right after entering the alternate screen. */
  function Entered(d: Display): (r: Display)
    requires DisplayOk(d)
    ensures DisplayOk(r)
  {
    ModeStep(d, 1049, true)
  }

  /** An alternate-screen session: whatever bytes come in between, as long as the alternate screen
      stays active, leaving it gives back the primary screen as it was on entry: every cell, the
      cursor and the attributes. */
  lemma SessionRestores(d: Display, bs: seq<byte>)
    requires DisplayOk(d) && Run(EMPTY, bs).state == EMPTY
    requires InAlternate(Entered(d), Run(EMPTY, bs).actions) && Show(Entered(d), Run(EMPTY, bs).actions).Some?
    ensures var r := After(EMPTY, d, AlternateScreen(true) + bs + AlternateScreen(false));
      r.Some? && !r.value.isAlternate
      && r.value.primary == d.primary.(sx := d.primary.x, sy := d.primary.y, sattr := d.primary.attr)
  {
    hide Run, Show, DisplayOk, AlternateScreen;
    var a, c := AlternateScreen(true), AlternateScreen(false);
    var d1 := Entered(d);
    AlternateScreenDoes(d, true);
    RunConcat(EMPTY, a, bs);
    RunConcat(EMPTY, a + bs, c);
    ShowConcat(d, Run(EMPTY, a).actions, Run(EMPTY, bs).actions);
    ShowConcat(d, Run(EMPTY, a + bs).actions, Run(EMPTY, c).actions);
    SessionHolds(d1, Run(EMPTY, bs).actions, d.primary);
    var d2 := Show(d1, Run(EMPTY, bs).actions).value;
    AlternateScreenDoes(d2, false);
  }

  // ---------------------------------------------------------------- the terminal object

  class VtTerminal {
    const parser: Parser
    const primary: ScreenBuffer
    const alternate: ScreenBuffer
    var isAlternate: bool
    var mouseReporting: bool
    var bracketedPaste: bool
    var oscBuffer: seq<byte>

    ghost predicate Valid()
      reads this, parser, primary, alternate, primary.buffer, alternate.buffer
    {
      && primary != alternate && primary.buffer != alternate.buffer
      && DisplayOk(Now())
    }

    ghost function Now(): Display
      reads this, primary, alternate, primary.buffer, alternate.buffer
    {
      Display(primary.Now(), alternate.Now(), isAlternate, mouseReporting, bracketedPaste, oscBuffer)
    }

    constructor (w: nat, h: nat)
      requires w > 0 && h > 0
      ensures Valid() && parser.Now() == EMPTY && Now() == Blank(w, h)
      ensures fresh(parser) && fresh(primary) && fresh(alternate) && fresh(primary.buffer) && fresh(alternate.buffer)
    {
      hide Area;
      parser := new Parser();
      primary := new ScreenBuffer(w, h);
      alternate := new ScreenBuffer(w, h);
      isAlternate, mouseReporting, bracketedPaste, oscBuffer := false, false, false, [];
    }

    /** The buffer that output goes to. */
    method Current() returns (b: ScreenBuffer)
      ensures b == if isAlternate then alternate else primary
    {
      if isAlternate { b := alternate; } else { b := primary; }
    }

    /** The SGR loop. */
    method SelectGraphics(b: ScreenBuffer, params: seq<nat>)
      modifies b`attr
      ensures b.attr == Sgr(old(b.attr), params, 0)
    {
      hide SgrStep;
      var i := 0;
      while i < |params|
        invariant Sgr(old(b.attr), params, 0) == Sgr(b.attr, params, i)
        decreases if i <= |params| then |params| - i else 0
      {
        var a, n := ApplyParam(b.attr, params, i);
        b.attr := a;
        i := i + n;
      }
    }

    /** One SGR parameter, with the further ones an extended colour takes. */
    method ApplyParam(a: Attr, params: seq<nat>, i: nat) returns (r: Attr, n: nat)
      requires i < |params|
      ensures (r, n) == SgrStep(a, params, i) && n >= 1
    {
      var p := params[i];
      r, n := a, 1;
      if p == 0 { r := DEFAULT_ATTR; }
      else if p == 1 { r := a.(bold := true); }
      else if p == 4 { r := a.(underline := true); }
      else if p == 5 { r := a.(blink := true); }
      else if p == 7 { r := a.(reverse := true); }
      else if 30 <= p <= 37 { r := a.(fg := Indexed(p - 30)); }
      else if p == 38 {
        if i + 2 < |params| && params[i + 1] == 5 {
          r, n := a.(fg := Indexed(params[i + 2] % 256)), 3;
        } else if i + 4 < |params| && params[i + 1] == 2 {
          r, n := a.(fg := Rgb(params[i + 2] % 256, params[i + 3] % 256, params[i + 4] % 256)), 5;
        }
      }
      else if 40 <= p <= 47 { r := a.(bg := Indexed(p - 40)); }
      else if p == 48 {
        if i + 2 < |params| && params[i + 1] == 5 {
          r, n := a.(bg := Indexed(params[i + 2] % 256)), 3;
        } else if i + 4 < |params| && params[i + 1] == 2 {
          r, n := a.(bg := Rgb(params[i + 2] % 256, params[i + 3] % 256, params[i + 4] % 256)), 5;
        }
      }
      else if 90 <= p <= 97 { r := a.(fg := Indexed(p - 90 + 8)); }
      else if 100 <= p <= 107 { r := a.(bg := Indexed(p - 100 + 8)); }
    }

    /** handle_csi on the active buffer, all finals but h and l. */
    method HandleCsi(b: ScreenBuffer, params: seq<nat>, final: byte) returns (ok: bool)
      requires b.Valid()
      modifies b, b.buffer
      ensures ok <==> old(CsiOnScreen(b.Now(), params, final)).Some?
      ensures ok ==> Some(b.Now()) == old(CsiOnScreen(b.Now(), params, final))
    {
      hide Area, Offset, Sgr, Filled, ClearLine, ClearScreen;
      ok := true;
      var n := if |params| > 0 && params[0] > 1 then params[0] else 1;
      if 0x41 <= final <= 0x44 {
        MoveBy(b, n, final);
      } else if final == 0x48 || final == 0x66 {
        var x := if |params| > 1 && params[1] > 1 then params[1] else 1;
        b.MoveTo(x - 1, n - 1);
      } else if final == 0x4A {
        if |params| > 0 && params[0] % 256 == 2 { b.Clear(); }
      } else if final == 0x4B {
        ok := b.EraseLine(if |params| > 0 then params[0] % 256 else 0);
      } else if final == 0x6D {
        SelectGraphics(b, params);
      } else if final == 0x73 {
        b.Save();
      } else if final == 0x75 {
        b.Restore();
      }
    }

    /** CUU, CUD, CUF and CUB. */
    method MoveBy(b: ScreenBuffer, n: nat, final: byte)
      requires b.Valid() && 0x41 <= final <= 0x44
      modifies b
      ensures b.Now() == (
        var s := old(b.Now());
        if final == 0x41 then s.(y := Minus(s.y, n))
        else if final == 0x42 then s.(y := Min(s.y + n, s.h - 1))
        else if final == 0x43 then s.(x := Min(s.x + n, s.w - 1))
        else s.(x := Minus(s.x, n)))
    {
      hide Area;
      if final == 0x41 {
        b.cursorY := if b.cursorY >= n then b.cursorY - n else 0;
      } else if final == 0x42 {
        b.cursorY := if b.cursorY + n <= b.height - 1 then b.cursorY + n else b.height - 1;
      } else if final == 0x43 {
        b.cursorX := if b.cursorX + n <= b.width - 1 then b.cursorX + n else b.width - 1;
      } else {
        b.cursorX := if b.cursorX >= n then b.cursorX - n else 0;
      }
    }

    /** handle_mode */
    method HandleMode(params: seq<nat>, prefix: Option<byte>, on: bool)
      requires Valid()
      modifies this, primary, alternate, alternate.buffer
      ensures Valid()
      ensures Now() == if prefix == Some(0x3F) then Modes(old(Now()), params, on) else old(Now())
    {
      hide ScreenOk, ClearScreen, SaveCursor, RestoreCursor, Active, WithActive;
      if prefix != Some(0x3F) { return; }
      var k := 0;
      assert params[..0] == [];
      while k < |params|
        invariant 0 <= k <= |params| && Valid() && Now() == Modes(old(Now()), params[..k], on)
      {
        assert params[..k + 1][..k] == params[..k];
        SetMode(params[k], on);
        k := k + 1;
      }
      assert params[..k] == params;
    }

    method SetMode(p: nat, on: bool)
      requires Valid()
      modifies this, primary, alternate, alternate.buffer
      ensures Valid() && Now() == ModeStep(old(Now()), p, on)
    {
      hide Area, Filled;
      if p == 47 || p == 1047 || p == 1049 {
        if on {
          isAlternate := true;
          if p == 1049 {
            primary.Save();
            alternate.Clear();
          }
        } else {
          isAlternate := false;
          if p == 1049 { primary.Restore(); }
        }
      } else if p == 1000 || p == 1002 || p == 1006 || p == 1015 {
        mouseReporting := on;
      } else if p == 2004 {
        bracketedPaste := on;
      }
    }

    /** Execute and EscDispatch actions on the active buffer. */
    method Obey(b: ScreenBuffer, a: Action)
      requires b.Valid() && (a.Execute? || a.EscDispatch?)
      modifies b, b.buffer
      ensures b.Now() == if a.Execute? then ExecuteOn(old(b.Now()), a.c) else EscOn(old(b.Now()), a.inter, a.c)
    {
      hide Area, NewLine;
      if a.Execute? {
        if a.c == 0x08 {
          if b.cursorX > 0 { b.cursorX := b.cursorX - 1; }
        } else if a.c == 0x0A || a.c == 0x0B || a.c == 0x0C {
          b.MoveToNextLine();
        } else if a.c == 0x0D {
          b.cursorX := 0;
        }
      } else if a.inter == [] {
        if a.c == 0x45 {
          b.MoveToNextLine();
        } else if a.c == 0x4D {
          b.cursorY := if b.cursorY > 0 then b.cursorY - 1 else 0;
        }
      }
    }

    /** handle_action */
    method HandleAction(a: Action) returns (ok: bool)
      requires Valid()
      modifies this, primary, alternate, primary.buffer, alternate.buffer
      ensures ok <==> !Stops(old(Now()), a)
      ensures ok ==> Valid() && Handle(old(Now()), a) == Some(Now())
    {
      hide Area, ScreenOk, WriteChar, ExecuteOn, EscOn, CsiOnScreen, Modes, Stops;
      StopsExactly(Now(), a);
      if Handle(Now(), a).Some? { HandleOk(Now(), a); }
      ok := true;
      var b := Current();
      match a {
        case OscPut(c) => oscBuffer := oscBuffer + [c];
        case OscEnd =>
        case Print(c) => b.Write(c);
        case Execute(_) => Obey(b, a);
        case EscDispatch(_, _, _) => Obey(b, a);
        case CsiDispatch(_, _, _, _, _) => ok := HandleSequence(a);
      }
    }

    /** The CsiDispatch branch of handle_action. */
    method HandleSequence(a: Action) returns (ok: bool)
      requires Valid() && a.CsiDispatch?
      modifies this, primary, alternate, primary.buffer, alternate.buffer
      ensures ok <==> Handle(old(Now()), a).Some?
      ensures ok ==> Valid() && Handle(old(Now()), a) == Some(Now())
    {
      hide Area, ScreenOk, CsiOnScreen, Modes;
      if Handle(Now(), a).Some? { HandleOk(Now(), a); }
      ok := true;
      if a.final == 0x68 || a.final == 0x6C {
        HandleMode(a.params, a.prefix, a.final == 0x68);
      } else {
        var b := Current();
        ok := HandleCsi(b, a.params, a.final);
      }
    }

    /** process_byte. The result is false exactly where the original would index past the last
        cell: EL 1 in the pending-wrap column of the last row. */
    method ProcessByte(c: byte) returns (ok: bool)
      requires Valid()
      modifies this, parser, primary, alternate, primary.buffer, alternate.buffer
      ensures parser.Now() == Advance(old(parser.Now()), c).0
      ensures ok ==> Valid()
      ensures if ok then After(old(parser.Now()), old(Now()), [c]) == Some(Now()) else After(old(parser.Now()), old(Now()), [c]) == None
    {
      hide Area, ScreenOk, Handle, Advance, Stops;
      ghost var p0, d0 := parser.Now(), Now();
      RunOne(p0, c);
      var a := parser.Feed(c);
      assert Now() == d0;
      ok := true;
      if a.Some? {
        StopsExactly(d0, a.value);
        ShowOne(d0, a.value);
        ok := HandleAction(a.value);
      }
    }

    /** A whole stream, up to the point where it stops. */
    method Process(bs: seq<byte>) returns (ok: bool)
      requires Valid()
      modifies this, parser, primary, alternate, primary.buffer, alternate.buffer
      ensures ok ==> Valid()
      ensures if ok then After(old(parser.Now()), old(Now()), bs) == Some(Now()) else After(old(parser.Now()), old(Now()), bs) == None
      ensures ok <==> !exists k: nat :: StopsAt(old(parser.Now()), old(Now()), bs, k)
    {
      hide Run, Show, DisplayOk, Advance, StopsAt;
      ghost var p0, d0 := parser.Now(), Now();
      StreamStops(p0, d0, bs);
      var k := 0;
      ShowNothing(p0, d0);
      assert bs[..0] == [];
      while k < |bs|
        invariant 0 <= k <= |bs| && Valid()
        invariant parser.Now() == Run(p0, bs[..k]).state && After(p0, d0, bs[..k]) == Some(Now())
      {
        ghost var p, d := parser.Now(), Now();
        assert bs[..k + 1] == bs[..k] + [bs[k]] && bs == bs[..k + 1] + bs[k + 1..];
        RunConcat(p0, bs[..k], [bs[k]]);
        RunOne(p, bs[k]);
        ShowConcat(d0, Run(p0, bs[..k]).actions, Run(p, [bs[k]]).actions);
        ok := ProcessByte(bs[k]);
        if !ok {
          RunConcat(p0, bs[..k + 1], bs[k + 1..]);
          ShowConcat(d0, Run(p0, bs[..k + 1]).actions, Run(Run(p0, bs[..k + 1]).state, bs[k + 1..]).actions);
          return;
        }
        k := k + 1;
      }
      assert bs[..k] == bs;
      ok := true;
    }
  }

  lemma ShowNothing(p: PState, d: Display)
    requires DisplayOk(d)
    ensures Run(p, []).state == p && After(p, d, []) == Some(d)
  {
  }

  lemma ShowOne(d: Display, a: Action)
    requires DisplayOk(d)
    ensures Show(d, [a]) == Handle(d, a) && Show(d, []) == Some(d)
  {
    hide DisplayOk, Handle;
    assert [a][1..] == [];
    if Handle(d, a).Some? { HandleOk(d, a); assert Show(Handle(d, a).value, []) == Some(Handle(d, a).value); }
  }
}
