/**
 The escape-sequence parser of src/lib_core/vt/parser.rs (control sequences as in section 5.4 of
 ECMA-48). Characters are their codes; a byte produces at most one action.
 */
module VtParsing {
  import opened Common

  const PARAM_MAX: nat := 0x7FFF_FFFF_FFFF_FFFF

  datatype Action =
    | Print(c: byte)
    | Execute(c: byte)
    | OscPut(c: byte)
    | OscEnd
    | CsiDispatch(params: seq<nat>, intermediates: seq<byte>, ignore: bool, final: byte, prefix: Option<byte>)
    | EscDispatch(inter: seq<byte>, ign: bool, c: byte)

  datatype Mode =
    | Ground | Escape | EscapeIntermediate | CsiEntry | CsiParam | CsiIntermediate | CsiIgnore
    | DcsEntry | OscString | SosPmapiString

  datatype PState = PState(mode: Mode, params: seq<nat>, intermediates: seq<byte>, ignore: bool, prefix: Option<byte>)

  const EMPTY: PState := PState(Ground, [], [], false, None)

  predicate Control(b: byte) { b <= 0x17 || b == 0x19 || 0x1C <= b <= 0x1F }

  predicate Intermediate(b: byte) { 0x20 <= b <= 0x2F }

  predicate Digit(b: byte) { 0x30 <= b <= 0x39 }

  predicate Final(b: byte) { 0x40 <= b <= 0x7E }

  function Sat(v: nat): nat { Min(v, PARAM_MAX) }

  /** A digit extends the last parameter, or starts one; parameters saturate. */
  function AddDigit(params: seq<nat>, d: nat): seq<nat> {
    if params == [] then [d]
    else params[..|params| - 1] + [Sat(Sat(params[|params| - 1] * 10) + d)]
  }

  function Dispatch(p: PState, b: byte): Action { CsiDispatch(p.params, p.intermediates, p.ignore, b, p.prefix) }

  /** One byte: the next state and the action, if any. */
  function Advance(p: PState, b: byte): (PState, Option<Action>) {
    match p.mode
    case Ground =>
      if Control(b) then (p, Some(Execute(b)))
      else if b == 0x1B then (p.(mode := Escape), None)
      else if b >= 0x20 then (p, Some(Print(b)))
      else (p, None)
    case Escape =>
      if Control(b) then (p, Some(Execute(b)))
      else if b == 0x1B then (p, None)
      else if Intermediate(b) then (p.(intermediates := p.intermediates + [b], mode := EscapeIntermediate), None)
      else if b == 0x50 then (p.(mode := DcsEntry), None)
      else if b == 0x58 || b == 0x5E || b == 0x5F then (p.(mode := SosPmapiString), None)
      else if b == 0x5B then (p.(mode := CsiEntry), None)
      else if b == 0x5D then (p.(mode := OscString), None)
      else if 0x30 <= b <= 0x7E then (EMPTY, Some(EscDispatch(p.intermediates, p.ignore, b)))
      else (EMPTY, None)
    case EscapeIntermediate =>
      if Control(b) then (p, Some(Execute(b)))
      else if Intermediate(b) then (p.(intermediates := p.intermediates + [b]), None)
      else if 0x30 <= b <= 0x7E then (EMPTY, Some(EscDispatch(p.intermediates, p.ignore, b)))
      else (EMPTY, None)
    case CsiEntry =>
      if Control(b) then (p, Some(Execute(b)))
      else if b == 0x1B then (p.(mode := Escape), None)
      else if Intermediate(b) then (p.(intermediates := p.intermediates + [b], mode := CsiIntermediate), None)
      else if Digit(b) then (p.(params := p.params + [b - 0x30], mode := CsiParam), None)
      else if b == 0x3B then (p.(params := p.params + [0, 0], mode := CsiParam), None)
      else if 0x3C <= b <= 0x3F then (p.(prefix := Some(b), mode := CsiParam), None)
      else if Final(b) then (EMPTY, Some(Dispatch(p, b)))
      else (p.(mode := CsiIgnore), None)
    case CsiParam =>
      if Control(b) then (p, Some(Execute(b)))
      else if Digit(b) then (p.(params := AddDigit(p.params, b - 0x30)), None)
      else if b == 0x3B then (p.(params := p.params + [0]), None)
      else if Final(b) then (EMPTY, Some(Dispatch(p, b)))
      else (p.(mode := CsiIgnore), None)
    case CsiIntermediate =>
      if Control(b) then (p, Some(Execute(b)))
      else if Intermediate(b) then (p.(intermediates := p.intermediates + [b]), None)
      else if Final(b) then (EMPTY, Some(Dispatch(p, b)))
      else (p.(mode := CsiIgnore), None)
    case CsiIgnore =>
      if Control(b) then (p, Some(Execute(b)))
      else if Final(b) then (EMPTY, None)
      else (p, None)
    case OscString =>
      if b == 0x07 then (EMPTY, Some(OscEnd))
      else if b == 0x1B then (p.(mode := Escape), None)
      else (p, Some(OscPut(b)))
    case _ => (EMPTY, None)
  }

  /** Outside a sequence nothing is pending; only control sequences collect parameters. */
  predicate ParserOk(p: PState) {
    && (p.mode in {Ground, Escape, CsiEntry, OscString, DcsEntry, SosPmapiString} ==> p == EMPTY.(mode := p.mode))
    && (p.mode == EscapeIntermediate ==> p.params == [] && p.prefix == None)
    && !p.ignore && InRange(p.params)
  }

  predicate InRange(params: seq<nat>) { forall i :: 0 <= i < |params| ==> params[i] <= PARAM_MAX }

  lemma InRangeSteps(params: seq<nat>, d: nat)
    requires InRange(params) && d < 10
    ensures InRange([]) && InRange(params + [d]) && InRange(params + [0]) && InRange(params + [0, 0]) && InRange(AddDigit(params, d))
  {
    assert Sat(PARAM_MAX) == PARAM_MAX;
  }

  /** Every byte keeps that, and dispatched parameters are within range. */
  lemma AdvanceOk(p: PState, b: byte)
    requires ParserOk(p)
    ensures ParserOk(Advance(p, b).0)
    ensures Advance(p, b).1.Some? && Advance(p, b).1.value.CsiDispatch? ==>
              Advance(p, b).0 == EMPTY && InRange(Advance(p, b).1.value.params)
  {
    hide InRange, AddDigit;
    InRangeSteps(p.params, if Digit(b) then b - 0x30 else 0);
  }

  class Parser {
    var mode: Mode
    var params: seq<nat>
    var intermediates: seq<byte>
    var ignore: bool
    var prefix: Option<byte>

    ghost function Now(): PState
      reads this
    {
      PState(mode, params, intermediates, ignore, prefix)
    }

    constructor ()
      ensures Now() == EMPTY
    {
      mode, params, intermediates, ignore, prefix := Ground, [], [], false, None;
    }

    method Reset()
      modifies this
      ensures Now() == EMPTY
    {
      mode, params, intermediates, ignore, prefix := Ground, [], [], false, None;
    }

    method Collect(b: byte, next: Mode)
      modifies this
      ensures Now() == old(Now()).(intermediates := old(intermediates) + [b], mode := next)
    {
      intermediates := intermediates + [b];
      mode := next;
    }

    /** A digit in the parameter state. */
    method Accumulate(d: nat)
      requires d < 10
      modifies this`params
      ensures params == AddDigit(old(params), d)
    {
      if params == [] {
        params := [d];
      } else {
        var last := params[|params| - 1];
        var tenfold := if last * 10 > PARAM_MAX then PARAM_MAX else last * 10;
        params := params[..|params| - 1] + [if tenfold + d > PARAM_MAX then PARAM_MAX else tenfold + d];
      }
    }

    /** advance: the fields follow the transition function, and the callback fires at most once. */
    method Feed(b: byte) returns (action: Option<Action>)
      modifies this
      ensures (Now(), action) == Advance(old(Now()), b)
    {
      hide AddDigit;
      action := None;
      match mode {
        case Ground =>
          if Control(b) { action := Some(Execute(b)); }
          else if b == 0x1B { mode := Escape; }
          else if b >= 0x20 { action := Some(Print(b)); }
        case Escape =>
          if Control(b) { action := Some(Execute(b)); }
          else if b == 0x1B { }
          else if Intermediate(b) { Collect(b, EscapeIntermediate); }
          else if b == 0x50 { mode := DcsEntry; }
          else if b == 0x58 || b == 0x5E || b == 0x5F { mode := SosPmapiString; }
          else if b == 0x5B { mode := CsiEntry; }
          else if b == 0x5D { mode := OscString; }
          else {
            if 0x30 <= b <= 0x7E { action := Some(EscDispatch(intermediates, ignore, b)); }
            Reset();
          }
        case EscapeIntermediate =>
          if Control(b) { action := Some(Execute(b)); }
          else if Intermediate(b) { Collect(b, mode); }
          else {
            if 0x30 <= b <= 0x7E { action := Some(EscDispatch(intermediates, ignore, b)); }
            Reset();
          }
        case CsiEntry =>
          if Control(b) { action := Some(Execute(b)); }
          else if b == 0x1B { mode := Escape; }
          else if Intermediate(b) { Collect(b, CsiIntermediate); }
          else if Digit(b) { params := params + [b - 0x30]; mode := CsiParam; }
          else if b == 0x3B { params := params + [0, 0]; mode := CsiParam; }
          else if 0x3C <= b <= 0x3F { prefix := Some(b); mode := CsiParam; }
          else if Final(b) { action := Some(CsiDispatch(params, intermediates, ignore, b, prefix)); Reset(); }
          else { mode := CsiIgnore; }
        case CsiParam =>
          if Control(b) { action := Some(Execute(b)); }
          else if Digit(b) { Accumulate(b - 0x30); }
          else if b == 0x3B { params := params + [0]; }
          else if Final(b) { action := Some(CsiDispatch(params, intermediates, ignore, b, prefix)); Reset(); }
          else { mode := CsiIgnore; }
        case CsiIntermediate =>
          if Control(b) { action := Some(Execute(b)); }
          else if Intermediate(b) { Collect(b, mode); }
          else if Final(b) { action := Some(CsiDispatch(params, intermediates, ignore, b, prefix)); Reset(); }
          else { mode := CsiIgnore; }
        case CsiIgnore =>
          if Control(b) { action := Some(Execute(b)); }
          else if Final(b) { Reset(); }
        case OscString =>
          if b == 0x07 { action := Some(OscEnd); Reset(); }
          else if b == 0x1B { mode := Escape; }
          else { action := Some(OscPut(b)); }
        case _ =>
          Reset();
      }
    }
  }

  // ---------------------------------------------------------------- whole sequences

  datatype Fed = Fed(state: PState, actions: seq<Action>)

  function Shown(a: Option<Action>): seq<Action> { if a.Some? then [a.value] else [] }

  /** The state and all actions after a stream of bytes. */
  function Run(p: PState, bs: seq<byte>): Fed
    decreases |bs|
  {
    if bs == [] then Fed(p, [])
    else
      var (p1, a) := Advance(p, bs[0]);
      var rest := Run(p1, bs[1..]);
      Fed(rest.state, Shown(a) + rest.actions)
  }

  lemma {:induction false} RunConcat(p: PState, a: seq<byte>, b: seq<byte>)
    ensures Run(p, a + b) == Fed(Run(Run(p, a).state, b).state, Run(p, a).actions + Run(Run(p, a).state, b).actions)
    decreases |a|
  {
    hide Advance, Run, Shown;
    RunStep(p, a);
    if a == [] {
      assert a + b == b;
    } else {
      var p1 := Advance(p, a[0]).0;
      RunStep(p, a + b);
      RunConcat(p1, a[1..], b);
      assert (a + b)[0] == a[0] && (a + b)[1..] == a[1..] + b;
    }
  }

  lemma RunStep(p: PState, bs: seq<byte>)
    ensures bs == [] ==> Run(p, bs) == Fed(p, [])
    ensures bs != [] ==>
      var rest := Run(Advance(p, bs[0]).0, bs[1..]);
      Run(p, bs) == Fed(rest.state, Shown(Advance(p, bs[0]).1) + rest.actions)
  {
    hide Advance;
  }

  /** Decimal digits. */
  function Dec(n: nat): (ds: seq<byte>)
    ensures ds != [] && forall d <- ds :: Digit(d)
  {
    if n < 10 then [0x30 + n] else Dec(n / 10) + [0x30 + n % 10]
  }

  function DigitOf(d: byte): nat
    requires Digit(d)
  {
    d - 0x30
  }

  /** Feeding digits to a parameter in progress. */
  function Accum(v: nat, ds: seq<byte>): nat
    requires forall d <- ds :: Digit(d)
  {
    if ds == [] then v else Sat(Sat(Accum(v, ds[..|ds| - 1]) * 10) + DigitOf(ds[|ds| - 1]))
  }

  /** Saturation commutes with reading digits: the result is the number, cut off at the maximum. */
  lemma {:induction false} AccumDec(n: nat)
    ensures Accum(0, Dec(n)) == Sat(n)
  {
    if n >= 10 {
      AccumDec(n / 10);
      assert Dec(n)[..|Dec(n)| - 1] == Dec(n / 10);
    }
  }

  lemma DigitStep(p: PState, ps: seq<nat>, v: nat, d: byte)
    requires p.mode == CsiParam && p.params == ps + [v] && Digit(d)
    ensures Advance(p, d) == (p.(params := ps + [Sat(Sat(v * 10) + DigitOf(d))]), None)
  {
    hide Sat;
  }

  lemma AccumStep(v: nat, a: seq<byte>, d: byte, ds: seq<byte>)
    requires ds == a + [d] && forall c <- ds :: Digit(c)
    ensures (forall c <- a :: Digit(c)) && Accum(v, ds) == Sat(Sat(Accum(v, a) * 10) + DigitOf(d))
  {
    hide Sat;
    assert ds[..|ds| - 1] == a;
    assert forall c <- a :: c in ds;
  }

  lemma {:induction false} FeedDigits(p: PState, ps: seq<nat>, v: nat, ds: seq<byte>)
    requires p.mode == CsiParam && p.params == ps + [v] && forall d <- ds :: Digit(d)
    ensures Run(p, ds) == Fed(p.(params := ps + [Accum(v, ds)]), [])
    decreases |ds|
  {
    hide Advance, Sat;
    if ds != [] {
      var a, d := ds[..|ds| - 1], ds[|ds| - 1];
      assert ds == a + [d];
      AccumStep(v, a, d, ds);
      FeedDigits(p, ps, v, a);
      RunConcat(p, a, [d]);
      RunOne(p.(params := ps + [Accum(v, a)]), d);
      DigitStep(p.(params := ps + [Accum(v, a)]), ps, Accum(v, a), d);
    }
  }

  lemma RunOne(p: PState, b: byte)
    ensures Run(p, [b]) == Fed(Advance(p, b).0, Shown(Advance(p, b).1))
  {
    hide Advance;
    assert [b][1..] == [];
    assert Run(Advance(p, b).0, []) == Fed(Advance(p, b).0, []);
  }

  /** Parameters in decimal, separated by semicolons. */
  function Joined(ps: seq<nat>): seq<byte>
    requires ps != []
  {
    if |ps| == 1 then Dec(ps[0]) else Joined(ps[..|ps| - 1]) + [0x3B] + Dec(ps[|ps| - 1])
  }

  function Sats(ps: seq<nat>): (r: seq<nat>)
    ensures |r| == |ps| && forall i :: 0 <= i < |ps| ==> r[i] == Sat(ps[i])
  {
    seq(|ps|, i requires 0 <= i < |ps| => Sat(ps[i]))
  }

  /** A control sequence: ESC [, a private prefix or none, parameters, final byte. */
  function Csi(prefix: Option<byte>, ps: seq<nat>, final: byte): seq<byte>
    requires ps != []
  {
    [0x1B, 0x5B] + (if prefix.Some? then [prefix.value] else []) + Joined(ps) + [final]
  }

  /** The state in which the parameters have been read. */
  function InParams(prefix: Option<byte>, ps: seq<nat>): PState { PState(CsiParam, ps, [], false, prefix) }

  /** Where reading of parameters starts: after ESC [ or after the prefix. */
  function Opening(prefix: Option<byte>): PState {
    if prefix.Some? then InParams(prefix, []) else EMPTY.(mode := CsiEntry)
  }

  lemma FirstDigit(prefix: Option<byte>, d: byte)
    requires Digit(d)
    ensures Advance(Opening(prefix), d) == (InParams(prefix, [DigitOf(d)]), None)
  {
    var none: seq<nat> := [];
    assert none + [DigitOf(d)] == [DigitOf(d)];
  }

  lemma FirstParam(prefix: Option<byte>, n: nat)
    ensures Run(Opening(prefix), Dec(n)) == Fed(InParams(prefix, [Sat(n)]), [])
  {
    hide Dec, Accum, Advance, Run;
    var ds := Dec(n);
    var d, rest := ds[0], ds[1..];
    assert ds == [d] + rest && Digit(d);
    FirstDigit(prefix, d);
    RunConcat(Opening(prefix), [d], rest);
    RunOne(Opening(prefix), d);
    var v := DigitOf(d);
    FeedDigits(InParams(prefix, [v]), [], v, rest);
    AccumFirst(v, rest, ds);
    AccumDec(n);
  }

  lemma {:induction false} AccumFirst(v: nat, rest: seq<byte>, ds: seq<byte>)
    requires v < 10 && ds == [0x30 + v] + rest && forall d <- ds :: Digit(d)
    ensures (forall d <- rest :: Digit(d)) && Accum(0, ds) == Accum(v, rest)
    decreases |rest|
  {
    assert forall d <- rest :: d in ds;
    if rest == [] {
      assert ds[..0] == [];
    } else {
      var r := rest[..|rest| - 1];
      assert ds[..|ds| - 1] == [0x30 + v] + r;
      assert forall d <- [0x30 + v] + r :: d in ds;
      AccumFirst(v, r, ds[..|ds| - 1]);
    }
  }

  lemma SemicolonStep(prefix: Option<byte>, ps: seq<nat>)
    ensures Advance(InParams(prefix, ps), 0x3B) == (InParams(prefix, ps + [0]), None)
  {
  }

  lemma NextParam(prefix: Option<byte>, ps: seq<nat>, n: nat)
    ensures Run(InParams(prefix, ps), [0x3B] + Dec(n)) == Fed(InParams(prefix, ps + [Sat(n)]), [])
  {
    hide Dec, Accum, Advance, Run, Sat;
    RunConcat(InParams(prefix, ps), [0x3B], Dec(n));
    RunOne(InParams(prefix, ps), 0x3B);
    SemicolonStep(prefix, ps);
    FeedDigits(InParams(prefix, ps + [0]), ps, 0, Dec(n));
    AccumDec(n);
  }

  lemma JoinedStep(ps: seq<nat>)
    requires ps != []
    ensures Joined(ps) == if |ps| == 1 then Dec(ps[0]) else Joined(ps[..|ps| - 1]) + ([0x3B] + Dec(ps[|ps| - 1]))
  {
    hide Dec;
  }

  lemma {:induction false} AllParams(prefix: Option<byte>, ps: seq<nat>)
    requires ps != []
    ensures Run(Opening(prefix), Joined(ps)) == Fed(InParams(prefix, Sats(ps)), [])
    decreases |ps|
  {
    hide Dec, Run, Joined, Sats, Sat, Opening, InParams;
    JoinedStep(ps);
    if |ps| == 1 {
      FirstParam(prefix, ps[0]);
      assert Sats(ps) == [Sat(ps[0])];
    } else {
      var qs, n := ps[..|ps| - 1], ps[|ps| - 1];
      AllParams(prefix, qs);
      RunConcat(Opening(prefix), Joined(qs), [0x3B] + Dec(n));
      NextParam(prefix, Sats(qs), n);
      assert Sats(ps) == Sats(qs) + [Sat(n)];
    }
  }

  /** From an empty ground state, a control sequence yields exactly one dispatch with exactly its
      parameters (cut off at the 64-bit maximum) and leads back to an empty ground state. */
  lemma CsiRoundTrip(prefix: Option<byte>, ps: seq<nat>, final: byte)
    requires ps != [] && Final(final) && (prefix.Some? ==> 0x3C <= prefix.value <= 0x3F)
    ensures Run(EMPTY, Csi(prefix, ps, final)) == Fed(EMPTY, [CsiDispatch(Sats(ps), [], false, final, prefix)])
  {
    hide Joined, Run;
    var pre := if prefix.Some? then [prefix.value] else [];
    var open := [0x1B, 0x5B] + pre;
    OpeningReached(prefix);
    AllParams(prefix, ps);
    RunConcat(EMPTY, open + Joined(ps), [final]);
    RunConcat(EMPTY, open, Joined(ps));
    RunOne(InParams(prefix, Sats(ps)), final);
  }

  lemma OpeningReached(prefix: Option<byte>)
    requires prefix.Some? ==> 0x3C <= prefix.value <= 0x3F
    ensures Run(EMPTY, [0x1B, 0x5B] + if prefix.Some? then [prefix.value] else []) == Fed(Opening(prefix), [])
  {
    hide Run;
    RunOne(EMPTY, 0x1B);
    RunOne(EMPTY.(mode := Escape), 0x5B);
    RunConcat(EMPTY, [0x1B], [0x5B]);
    assert [0x1B] + [0x5B] == [0x1B, 0x5B];
    if prefix.Some? {
      RunOne(EMPTY.(mode := CsiEntry), prefix.value);
      RunConcat(EMPTY, [0x1B, 0x5B], [prefix.value]);
    } else {
      assert [0x1B, 0x5B] + [] == [0x1B, 0x5B];
    }
  }

  // ---------------------------------------------------------------- omitted parameters

  function Field(n: Option<nat>): seq<byte> { if n.Some? then Dec(n.value) else [] }

  function Value(n: Option<nat>): nat { if n.Some? then Sat(n.value) else 0 }

  /** Parameters separated by semicolons, some of them left out. */
  function Fields(ps: seq<Option<nat>>): seq<byte>
    requires ps != []
  {
    if |ps| == 1 then Field(ps[0]) else Fields(ps[..|ps| - 1]) + [0x3B] + Field(ps[|ps| - 1])
  }

  function Values(ps: seq<Option<nat>>): seq<nat> { seq(|ps|, i requires 0 <= i < |ps| => Value(ps[i])) }

  /** An omitted parameter is 0; but a first one is not counted if it is alone or follows a prefix. */
  function Received(prefix: Option<byte>, ps: seq<Option<nat>>): seq<nat>
    requires ps != []
  {
    if ps[0].None? && (prefix.Some? || |ps| == 1) then Values(ps[1..]) else Values(ps)
  }

  /** Where the parser is after the fields: still at the start if there was nothing to read. */
  function Reading(prefix: Option<byte>, ps: seq<Option<nat>>): PState
    requires ps != []
  {
    if ps == [None] then Opening(prefix) else InParams(prefix, Received(prefix, ps))
  }

  lemma NextField(prefix: Option<byte>, vs: seq<nat>, n: Option<nat>)
    ensures Run(InParams(prefix, vs), [0x3B] + Field(n)) == Fed(InParams(prefix, vs + [Value(n)]), [])
  {
    hide Dec, Advance, Run, Sat;
    if n.Some? {
      NextParam(prefix, vs, n.value);
    } else {
      assert [0x3B] + Field(n) == [0x3B];
      RunOne(InParams(prefix, vs), 0x3B);
      SemicolonStep(prefix, vs);
    }
  }

  /** A semicolon first of all, without a prefix: two parameters. */
  lemma LeadingSemicolon(n: Option<nat>)
    ensures Run(Opening(None), [0x3B] + Field(n)) == Fed(InParams(None, [0, Value(n)]), [])
  {
    hide Dec, Run, Sat, Accum;
    var o := Opening(None);
    var none: seq<nat> := [];
    assert none + [0, 0] == [0, 0];
    RunOne(o, 0x3B);
    if n.Some? {
      RunConcat(o, [0x3B], Dec(n.value));
      assert [0, 0] == [0] + [0];
      FeedDigits(InParams(None, [0, 0]), [0], 0, Dec(n.value));
      AccumDec(n.value);
      assert [0] + [Sat(n.value)] == [0, Sat(n.value)];
    } else {
      assert [0x3B] + Field(n) == [0x3B];
    }
  }

  lemma {:induction false} AllFields(prefix: Option<byte>, ps: seq<Option<nat>>)
    requires ps != []
    ensures Run(Opening(prefix), Fields(ps)) == Fed(Reading(prefix, ps), [])
    decreases |ps|
  {
    hide Dec, Run, Sat, Field, InParams;
    var n := ps[|ps| - 1];
    if |ps| == 1 {
      OneField(prefix, n);
      assert ps == [n];
    } else {
      var qs := ps[..|ps| - 1];
      AllFields(prefix, qs);
      assert Fields(ps) == Fields(qs) + ([0x3B] + Field(n));
      RunConcat(Opening(prefix), Fields(qs), [0x3B] + Field(n));
      if qs == [None] {
        assert ps == [None, n] && Values(ps[1..]) == [Value(n)] && Values(ps) == [0, Value(n)] && [] + [Value(n)] == [Value(n)];
        if prefix.None? { LeadingSemicolon(n); } else { NextField(prefix, [], n); }
      } else {
        assert ps[1..] == qs[1..] + [n] && ps == qs + [n];
        assert Values(ps[1..]) == Values(qs[1..]) + [Value(n)] && Values(ps) == Values(qs) + [Value(n)];
        NextField(prefix, Received(prefix, qs), n);
      }
    }
  }

  lemma OneField(prefix: Option<byte>, n: Option<nat>)
    ensures Run(Opening(prefix), Field(n)) == Fed(Reading(prefix, [n]), [])
  {
    hide Dec, Run, Sat;
    if n.Some? {
      FirstParam(prefix, n.value);
      assert Values([n]) == [Sat(n.value)];
    } else {
      RunStep(Opening(prefix), []);
    }
  }

  /** The parameters dispatched, for every list of given and omitted ones. */
  lemma CsiFields(prefix: Option<byte>, ps: seq<Option<nat>>, f: byte)
    requires ps != [] && 0x40 <= f <= 0x7E && (prefix.Some? ==> 0x3C <= prefix.value <= 0x3F)
    ensures var bs := [0x1B, 0x5B] + (if prefix.Some? then [prefix.value] else []) + Fields(ps) + [f];
      Run(EMPTY, bs) == Fed(EMPTY, [CsiDispatch(Received(prefix, ps), [], false, f, prefix)])
  {
    hide Run, Fields, Received;
    var open := [0x1B, 0x5B] + if prefix.Some? then [prefix.value] else [];
    OpeningReached(prefix);
    AllFields(prefix, ps);
    NothingReceived(prefix);
    RunConcat(EMPTY, open + Fields(ps), [f]);
    RunConcat(EMPTY, open, Fields(ps));
    RunOne(Reading(prefix, ps), f);
  }

  lemma NothingReceived(prefix: Option<byte>)
    ensures Received(prefix, [None]) == []
  {
  }

  // ---------------------------------------------------------------- the other sequences

  predicate AllIntermediate(bs: seq<byte>) { forall b <- bs :: 0x20 <= b <= 0x2F }

  /** A complete escape sequence: intermediates and a final byte that opens nothing else. */
  predicate EscapeSequence(inter: seq<byte>, b: byte) {
    AllIntermediate(inter) && 0x30 <= b <= 0x7E && (inter == [] ==> b !in [0x50, 0x58, 0x5B, 0x5D, 0x5E, 0x5F])
  }

  lemma CollectStep(p: PState, b: byte)
    requires 0x20 <= b <= 0x2F && (p.mode == EscapeIntermediate || p.mode == CsiIntermediate)
    ensures Advance(p, b) == (p.(intermediates := p.intermediates + [b]), None)
  {
  }

  /** Intermediate bytes are collected one after the other. */
  lemma {:induction false} Collects(p: PState, bs: seq<byte>)
    requires AllIntermediate(bs) && (p.mode == EscapeIntermediate || p.mode == CsiIntermediate)
    ensures Run(p, bs) == Fed(p.(intermediates := p.intermediates + bs), [])
    decreases |bs|
  {
    hide Advance, Run;
    RunStep(p, bs);
    if bs != [] {
      assert bs[0] in bs && forall b <- bs[1..] :: b in bs;
      CollectStep(p, bs[0]);
      Collects(p.(intermediates := p.intermediates + [bs[0]]), bs[1..]);
      assert p.intermediates + [bs[0]] + bs[1..] == p.intermediates + bs;
    } else {
      assert p.intermediates + bs == p.intermediates;
    }
  }

  /** The state after ESC and its intermediates. */
  lemma AfterEscape(inter: seq<byte>)
    requires AllIntermediate(inter)
    ensures Run(EMPTY, [0x1B] + inter) == Fed(EMPTY.(mode := if inter == [] then Escape else EscapeIntermediate, intermediates := inter), [])
  {
    hide Run;
    RunOne(EMPTY, 0x1B);
    if inter == [] {
      assert [0x1B] + inter == [0x1B];
    } else {
      RunConcat(EMPTY, [0x1B], inter);
      FirstInter(Escape, EscapeIntermediate, inter);
    }
  }

  /** An escape sequence yields exactly one dispatch with exactly its intermediates. */
  lemma EscRoundTrip(inter: seq<byte>, b: byte)
    requires EscapeSequence(inter, b)
    ensures Run(EMPTY, [0x1B] + inter + [b]) == Fed(EMPTY, [EscDispatch(inter, false, b)])
  {
    hide Run;
    AfterEscape(inter);
    RunConcat(EMPTY, [0x1B] + inter, [b]);
    RunOne(Run(EMPTY, [0x1B] + inter).state, b);
  }

  /** Any other byte at the end of one drops it. */
  lemma EscDropped(inter: seq<byte>, b: byte)
    requires AllIntermediate(inter) && (b == 0x18 || b == 0x1A || b >= 0x7F || (b == 0x1B && inter != []))
    ensures Run(EMPTY, [0x1B] + inter + [b]) == Fed(EMPTY, [])
  {
    hide Run;
    AfterEscape(inter);
    RunConcat(EMPTY, [0x1B] + inter, [b]);
    RunOne(Run(EMPTY, [0x1B] + inter).state, b);
  }

  lemma FirstInter(m: Mode, next: Mode, inter: seq<byte>)
    requires AllIntermediate(inter) && inter != [] && (m, next) in {(Escape, EscapeIntermediate), (CsiEntry, CsiIntermediate)}
    ensures Run(EMPTY.(mode := m), inter) == Fed(EMPTY.(mode := next, intermediates := inter), [])
  {
    hide Run;
    assert inter[0] in inter && forall b <- inter[1..] :: b in inter;
    assert inter == [inter[0]] + inter[1..] && [] + [inter[0]] == [inter[0]];
    var p := EMPTY.(mode := m);
    RunConcat(p, [inter[0]], inter[1..]);
    RunOne(p, inter[0]);
    assert Advance(p, inter[0]) == (EMPTY.(mode := next, intermediates := [inter[0]]), None);
    Collects(EMPTY.(mode := next, intermediates := [inter[0]]), inter[1..]);
  }

  lemma AfterCsiInter(inter: seq<byte>)
    requires AllIntermediate(inter)
    ensures Run(EMPTY, [0x1B, 0x5B] + inter) == Fed(EMPTY.(mode := if inter == [] then CsiEntry else CsiIntermediate, intermediates := inter), [])
  {
    hide Run, Advance;
    OpeningReached(None);
    assert [0x1B, 0x5B] + [] == [0x1B, 0x5B];
    if inter == [] {
      assert [0x1B, 0x5B] + inter == [0x1B, 0x5B];
    } else {
      RunConcat(EMPTY, [0x1B, 0x5B], inter);
      FirstInter(CsiEntry, CsiIntermediate, inter);
    }
  }

  /** A control sequence without parameters. */
  lemma CsiInter(inter: seq<byte>, f: byte)
    requires AllIntermediate(inter) && 0x40 <= f <= 0x7E
    ensures Run(EMPTY, [0x1B, 0x5B] + inter + [f]) == Fed(EMPTY, [CsiDispatch([], inter, false, f, None)])
  {
    hide Run;
    AfterCsiInter(inter);
    RunConcat(EMPTY, [0x1B, 0x5B] + inter, [f]);
    RunOne(Run(EMPTY, [0x1B, 0x5B] + inter).state, f);
  }

  /** Bytes with no place in the part of a control sequence that has been reached. */
  predicate Misplaced(m: Mode, b: byte) {
    var never := b == 0x18 || b == 0x1A || b >= 0x7F;
    match m
    case CsiEntry => never || b == 0x3A
    case CsiParam => never || b == 0x1B || 0x20 <= b <= 0x2F || b == 0x3A || 0x3C <= b <= 0x3F
    case CsiIntermediate => never || b == 0x1B || 0x30 <= b <= 0x3F
    case _ => false
  }

  /** Bytes skipped while a sequence is being ignored. */
  predicate Skipped(b: byte) { b == 0x18 || b == 0x1A || b == 0x1B || 0x20 <= b <= 0x3F || b >= 0x7F }

  lemma SkipStep(p: PState, b: byte)
    requires p.mode == CsiIgnore && Skipped(b)
    ensures Advance(p, b) == (p, None)
  {
  }

  lemma {:induction false} Skips(p: PState, bs: seq<byte>)
    requires p.mode == CsiIgnore && forall b <- bs :: Skipped(b)
    ensures Run(p, bs) == Fed(p, [])
    decreases |bs|
  {
    hide Advance, Run, Skipped;
    RunStep(p, bs);
    if bs != [] {
      assert bs[0] in bs && forall b <- bs[1..] :: b in bs;
      SkipStep(p, bs[0]);
      Skips(p, bs[1..]);
    }
  }

  /** A misplaced byte drops the sequence: everything up to and with its final byte is ignored. */
  lemma Abandoned(p: PState, b: byte, bs: seq<byte>, f: byte)
    requires Misplaced(p.mode, b) && (forall x <- bs :: Skipped(x)) && 0x40 <= f <= 0x7E
    ensures Run(p, [b] + bs + [f]) == Fed(EMPTY, [])
  {
    hide Run;
    var q := p.(mode := CsiIgnore);
    RunOne(p, b);
    Skips(q, bs);
    RunConcat(p, [b], bs);
    RunConcat(p, [b] + bs, [f]);
    RunOne(q, f);
  }

  /** A control byte inside a sequence acts at once and leaves the sequence alone. */
  lemma ControlInside(p: PState, c: byte, bs: seq<byte>)
    requires p.mode !in {OscString, DcsEntry, SosPmapiString} && (c <= 0x17 || c == 0x19 || 0x1C <= c <= 0x1F)
    ensures Run(p, [c] + bs) == Fed(Run(p, bs).state, [Execute(c)] + Run(p, bs).actions)
  {
    hide Run, Advance;
    ControlStep(p, c);
    RunOne(p, c);
    RunConcat(p, [c], bs);
  }

  lemma ControlStep(p: PState, c: byte)
    requires p.mode !in {OscString, DcsEntry, SosPmapiString} && (c <= 0x17 || c == 0x19 || 0x1C <= c <= 0x1F)
    ensures Advance(p, c) == (p, Some(Execute(c)))
  {
  }

  /** CAN and SUB do nothing between sequences. */
  lemma Dropped(b: byte)
    requires b == 0x18 || b == 0x1A
    ensures Run(EMPTY, [b]) == Fed(EMPTY, [])
  {
    hide Run;
    RunOne(EMPTY, b);
  }

  /** ESC right after ESC or ESC [ starts over. */
  lemma Restarts(p: PState)
    requires p == EMPTY.(mode := Escape) || p == EMPTY.(mode := CsiEntry)
    ensures Run(p, [0x1B]) == Run(EMPTY, [0x1B])
  {
    hide Run;
    RunOne(p, 0x1B);
    RunOne(EMPTY, 0x1B);
  }

  /** Device control, start of string, privacy message and application command each swallow one byte. */
  lemma StringsSkipped(k: byte, b: byte)
    requires k in [0x50, 0x58, 0x5E, 0x5F]
    ensures Run(EMPTY, [0x1B, k, b]) == Fed(EMPTY, [])
  {
    hide Run;
    assert [0x1B, k, b] == [0x1B] + [k] + [b];
    var e := EMPTY.(mode := Escape);
    RunOne(EMPTY, 0x1B);
    RunOne(e, k);
    RunConcat(EMPTY, [0x1B], [k]);
    RunConcat(EMPTY, [0x1B] + [k], [b]);
    RunOne(Run(e, [k]).state, b);
  }

  function Puts(bs: seq<byte>): seq<Action> { seq(|bs|, i requires 0 <= i < |bs| => OscPut(bs[i])) }

  lemma OscStep(b: byte)
    requires b != 0x07 && b != 0x1B
    ensures Advance(EMPTY.(mode := OscString), b) == (EMPTY.(mode := OscString), Some(OscPut(b)))
  {
  }

  lemma {:induction false} OscBody(bs: seq<byte>)
    requires forall b <- bs :: b != 0x07 && b != 0x1B
    ensures Run(EMPTY.(mode := OscString), bs) == Fed(EMPTY.(mode := OscString), Puts(bs))
    decreases |bs|
  {
    hide Advance, Run;
    RunStep(EMPTY.(mode := OscString), bs);
    if bs != [] {
      assert bs[0] in bs && forall b <- bs[1..] :: b in bs;
      OscStep(bs[0]);
      OscBody(bs[1..]);
      assert Puts(bs) == [OscPut(bs[0])] + Puts(bs[1..]);
    }
  }

  /** An operating system command: ESC ], any bytes but BEL and ESC, then BEL. */
  lemma OscRoundTrip(bs: seq<byte>)
    requires forall b <- bs :: b != 0x07 && b != 0x1B
    ensures Run(EMPTY, [0x1B, 0x5D] + bs + [0x07]) == Fed(EMPTY, Puts(bs) + [OscEnd])
    ensures Run(EMPTY, [0x1B, 0x5D] + bs + [0x1B]) == Fed(EMPTY.(mode := Escape), Puts(bs))
  {
    hide Run, Puts;
    assert [0x1B, 0x5D] == [0x1B] + [0x5D];
    var e, o := EMPTY.(mode := Escape), EMPTY.(mode := OscString);
    RunOne(EMPTY, 0x1B);
    RunOne(e, 0x5D);
    RunConcat(EMPTY, [0x1B], [0x5D]);
    OscBody(bs);
    RunConcat(EMPTY, [0x1B, 0x5D], bs);
    RunConcat(EMPTY, [0x1B, 0x5D] + bs, [0x07]);
    RunConcat(EMPTY, [0x1B, 0x5D] + bs, [0x1B]);
    RunOne(o, 0x07);
    RunOne(o, 0x1B);
  }
}
