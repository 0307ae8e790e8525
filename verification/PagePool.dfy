/**
 Page tables whose frames come from the frame allocator: no table frame is ever free, so a
 freshly allocated frame can be linked without sharing a table. `Translation` is the partial
 map from pages to frames that the tables stand for.
 */
module PagePool {
  import opened Common
  import opened Arith
  import opened Bits
  import opened PageTree
  import Frames

  datatype MapError = FrameAllocationFailed | PageAlreadyMapped

  datatype MapResult<+T> = Done(value: T) | Failed(error: MapError)

  // ---------------------------------------------------------------- the partial map

  /** What a virtual address stands for. */
  function Translation(arch: Arch, mem: Tables, root: nat, va: nat): Option<nat> {
    var e := Leaf(arch, mem, root, PathOf(va));
    if Present(e) then Some(Addr(arch, e) + va % PAGE) else None
  }

  // ---------------------------------------------------------------- the walk on the words of memory

  /** The address an entry holds: its bits from 12 to 47 (Arm) or to 51 (x86). */
  function FieldOf(arch: Arch, e: nat): nat {
    e / 0x1000 % (if arch.Arm? then 0x10_0000_0000 else 0x100_0000_0000) * 0x1000
  }

  /** Where an entry above the last level leads: bit 0 says present; on Arm bit 1 and on x86 a clear
      bit 7 says table. */
  function Next(arch: Arch, e: nat): Option<nat> {
    if e % 2 == 1 && (if arch.Arm? then e / 2 % 2 == 1 else e / 0x80 % 2 == 0) then Some(FieldOf(arch, e)) else None
  }

  /** Three tables down, with nine index bits a level from bit 39 on, then the page and the offset. */
  function Hardware(arch: Arch, mem: Tables, root: nat, va: nat): Option<nat> {
    match Next(arch, EntryAt(mem, root, va / 0x80_0000_0000 % 512))
    case None => None
    case Some(t1) =>
      match Next(arch, EntryAt(mem, t1, va / 0x4000_0000 % 512))
      case None => None
      case Some(t2) =>
        match Next(arch, EntryAt(mem, t2, va / 0x20_0000 % 512))
        case None => None
        case Some(t3) =>
          var e := EntryAt(mem, t3, va / 0x1000 % 512);
          if e % 2 == 1 then Some(FieldOf(arch, e) + va % 0x1000) else None
  }

  lemma FieldIs(arch: Arch, e: nat)
    ensures Addr(arch, e) == FieldOf(arch, e)
  {
    hide Pow2, Addr;
    AddrAlt(arch, e);
    Pow2Small();
    Pow2Sum(12, 12);
    Pow2Sum(24, 12);
    Pow2Sum(36, 4);
  }

  lemma NextIs(arch: Arch, mem: Tables, t: nat, i: nat)
    ensures Follow(arch, mem, t, i) == Next(arch, EntryAt(mem, t, i))
  {
    hide Addr, FieldOf, EntryAt;
    var e := EntryAt(mem, t, i);
    FieldIs(arch, e);
    assert TestBit(e, 1) <==> e / 2 % 2 == 1;
    BitIsDigit(e, 7);
    assert Pow2(7) == 0x80 by { assert Pow2(4) == 16; }
  }

  /** `Translation` is what the hardware does with the words of the tables. */
  lemma TranslationIsHardware(arch: Arch, mem: Tables, root: nat, va: nat)
    ensures Translation(arch, mem, root, va) == Hardware(arch, mem, root, va)
  {
    hide Addr, FieldOf, EntryAt, Follow, Next, TestBit;
    var p := PathOf(va);
    assert p[..3][..2] == p[..2] && p[..2][..1] == p[..1] && p[..1][..0] == [];
    var t1 := Follow(arch, mem, root, p[0]);
    assert Walk(arch, mem, root, []) == Some(root);
    assert Walk(arch, mem, root, p[..1]) == t1;
    var t2 := if t1.None? then None else Follow(arch, mem, t1.value, p[1]);
    assert Walk(arch, mem, root, p[..2]) == t2;
    var t3 := if t2.None? then None else Follow(arch, mem, t2.value, p[2]);
    assert Walk(arch, mem, root, p[..3]) == t3;
    NextIs(arch, mem, root, p[0]);
    if t1.Some? { NextIs(arch, mem, t1.value, p[1]); }
    if t2.Some? { NextIs(arch, mem, t2.value, p[2]); }
    LastIs(arch, if t3.Some? then EntryAt(mem, t3.value, p[3]) else 0);
  }

  lemma LastIs(arch: Arch, e: nat)
    ensures Present(e) <==> e % 2 == 1
    ensures Addr(arch, e) == FieldOf(arch, e)
  {
    hide Addr, FieldOf;
    FieldIs(arch, e);
  }

  /** No last-level entry differs. */
  ghost predicate SameLeaves(arch: Arch, mem: Tables, mem': Tables, root: nat) {
    forall q: seq<nat> :: PathOk(arch, q) && |q| == 4 ==> Leaf(arch, mem', root, q) == Leaf(arch, mem, root, q)
  }

  /** Only the last-level entry of path `p` differs, and it is now `e`. */
  ghost predicate LeafSet(arch: Arch, mem: Tables, mem': Tables, root: nat, p: seq<nat>, e: nat) {
    forall q: seq<nat> :: PathOk(arch, q) && |q| == 4 ==>
      Leaf(arch, mem', root, q) == if q == p then e else Leaf(arch, mem, root, q)
  }

  /** Pages whose top-level index the tables may use for pages. */
  predicate Plain(arch: Arch, va: nat) { PathOk(arch, PathOf(va)) }

  ghost predicate SameTranslations(arch: Arch, mem: Tables, mem': Tables, root: nat) {
    forall va: nat :: Plain(arch, va) ==> Translation(arch, mem', root, va) == Translation(arch, mem, root, va)
  }

  /** `page` now translates to `frame` (or to nothing); every other page is as before. */
  ghost predicate Retranslated(arch: Arch, mem: Tables, mem': Tables, root: nat, page: nat, frame: Option<nat>) {
    forall va: nat :: Plain(arch, va) ==>
      Translation(arch, mem', root, va) ==
      if PageKey(va) != PageKey(page) then Translation(arch, mem, root, va)
      else if frame.Some? then Some(frame.value + va % PAGE) else None
  }

  lemma SameLeavesTranslate(arch: Arch, mem: Tables, mem': Tables, root: nat)
    requires SameLeaves(arch, mem, mem', root)
    ensures SameTranslations(arch, mem, mem', root)
  {
    hide Leaf, Present, Addr, PathOf, PathOk;
  }

  lemma LeafSetTranslates(arch: Arch, mem: Tables, mem': Tables, root: nat, page: nat, e: nat)
    requires LeafSet(arch, mem, mem', root, PathOf(page), e)
    ensures Retranslated(arch, mem, mem', root, page, if Present(e) then Some(Addr(arch, e)) else None)
  {
    hide Leaf, Present, Addr, PathOf, PathOk, PageKey;
    forall va: nat ensures PathOf(va) == PathOf(page) <==> PageKey(va) == PageKey(page) {
      SamePath(va, page);
    }
  }

  lemma SameThenSet(arch: Arch, mem: Tables, mem1: Tables, mem2: Tables, root: nat, p: seq<nat>, e: nat)
    requires SameLeaves(arch, mem, mem1, root) && LeafSet(arch, mem1, mem2, root, p, e)
    ensures LeafSet(arch, mem, mem2, root, p, e)
  {
    hide Leaf, PathOk;
  }

  lemma SameTrans(arch: Arch, mem: Tables, mem1: Tables, mem2: Tables, root: nat)
    requires SameLeaves(arch, mem, mem1, root) && SameLeaves(arch, mem1, mem2, root)
    ensures SameLeaves(arch, mem, mem2, root)
  {
    hide Leaf, PathOk;
  }

  lemma LinkLeaves(arch: Arch, mem: Tables, root: nat, p: seq<nat>, i: nat, e: nat, f: nat)
    requires CanLink(arch, mem, root, p, i, e, f)
    ensures SameLeaves(arch, mem, Linked(arch, mem, root, p, i, e, f), root)
  {
    hide Leaf, PathOk, CanLink, Linked;
    forall q: seq<nat> | PathOk(arch, q) && |q| == 4
      ensures Leaf(arch, Linked(arch, mem, root, p, i, e, f), root, q) == Leaf(arch, mem, root, q)
    {
      LinkLeaf(arch, mem, root, p, i, e, f, q);
    }
  }

  lemma SetLeaves(arch: Arch, mem: Tables, root: nat, p: seq<nat>, i: nat, e: nat)
    requires CanSet(arch, mem, root, p, i)
    ensures LeafSet(arch, mem, WithLeaf(arch, mem, root, p, i, e), root, p + [i], e)
  {
    hide Leaf, PathOk, CanSet, WithLeaf;
    forall q: seq<nat> | PathOk(arch, q) && |q| == 4
      ensures Leaf(arch, WithLeaf(arch, mem, root, p, i, e), root, q) == if q == p + [i] then e else Leaf(arch, mem, root, q)
    {
      SetLeaf(arch, mem, root, p, i, e, q);
    }
  }

  // ---------------------------------------------------------------- table frames

  /** Free frames are whole tables of memory outside the tree. */
  ghost predicate FreeOutside(arch: Arch, mem: Tables, root: nat, rs: seq<Frames.Region>, bitmap: seq<nat>) {
    forall f: nat :: Frames.FrameFree(rs, bitmap, f) ==> Outside(arch, mem, root, f) && TableOk(arch, mem, f)
  }

  /** Whole, unshared and never free. */
  ghost predicate PoolOk(arch: Arch, mem: Tables, root: nat, rs: seq<Frames.Region>, bitmap: seq<nat>) {
    TreeOk(arch, mem, root) && FreeOutside(arch, mem, root, rs, bitmap)
  }

  ghost predicate NoFrame(rs: seq<Frames.Region>, bitmap: seq<nat>) {
    forall f: nat :: !Frames.FrameFree(rs, bitmap, f)
  }

  /** `bitmap'` is `bitmap` after handing out `r`. */
  ghost predicate Took(rs: seq<Frames.Region>, bitmap: seq<nat>, bitmap': seq<nat>, r: Option<nat>) {
    && (r.Some? ==> Frames.FrameFree(rs, bitmap, r.value))
    && forall a: nat :: Frames.FrameFree(rs, bitmap', a) <==> Some(a) != r && Frames.FrameFree(rs, bitmap, a)
  }

  lemma TookNone(arch: Arch, mem: Tables, root: nat, rs: seq<Frames.Region>, bitmap: seq<nat>, bitmap': seq<nat>)
    requires PoolOk(arch, mem, root, rs, bitmap) && Took(rs, bitmap, bitmap', None)
    ensures PoolOk(arch, mem, root, rs, bitmap')
  {
    hide Frames.FrameFree, Outside, TableOk, TreeOk;
  }

  lemma TookSome(arch: Arch, mem: Tables, root: nat, rs: seq<Frames.Region>, bitmap: seq<nat>, bitmap': seq<nat>, f: nat)
    requires PoolOk(arch, mem, root, rs, bitmap) && Took(rs, bitmap, bitmap', Some(f))
    ensures Outside(arch, mem, root, f) && TableOk(arch, mem, f)
  {
    hide Frames.FrameFree, Outside, TableOk, TreeOk;
  }

  /** The allocator's promise is what keeps the tree unshared: a frame it hands out can be linked. */
  lemma LinkPool(arch: Arch, mem: Tables, root: nat, rs: seq<Frames.Region>, bitmap: seq<nat>, bitmap': seq<nat>,
                 p: seq<nat>, i: nat, e: nat, f: nat)
    requires PoolOk(arch, mem, root, rs, bitmap) && Took(rs, bitmap, bitmap', Some(f))
    requires CanLink(arch, mem, root, p, i, e, f)
    ensures PoolOk(arch, Linked(arch, mem, root, p, i, e, f), root, rs, bitmap')
  {
    hide Frames.FrameFree, Outside, TreeOk, Walk, IsTable, Addr, Framed, Present, PathOk;
    var mem' := Linked(arch, mem, root, p, i, e, f);
    LinkTree(arch, mem, root, p, i, e, f);
    forall g: nat | Frames.FrameFree(rs, bitmap', g)
      ensures Outside(arch, mem', root, g) && TableOk(arch, mem', g)
    {
      LinkOutside(arch, mem, root, p, i, e, f, g);
    }
  }

  lemma SetPool(arch: Arch, mem: Tables, root: nat, rs: seq<Frames.Region>, bitmap: seq<nat>, p: seq<nat>, i: nat, e: nat)
    requires PoolOk(arch, mem, root, rs, bitmap) && CanSet(arch, mem, root, p, i)
    ensures PoolOk(arch, WithLeaf(arch, mem, root, p, i, e), root, rs, bitmap)
  {
    hide Frames.FrameFree, Outside, TreeOk, Walk, IsTable, Addr, Framed, Present, PathOk;
    var mem' := WithLeaf(arch, mem, root, p, i, e);
    SetTree(arch, mem, root, p, i, e);
    forall g: nat | Frames.FrameFree(rs, bitmap, g)
      ensures Outside(arch, mem', root, g) && TableOk(arch, mem', g)
    {
      SetOutside(arch, mem, root, p, i, e, g);
    }
  }

  // ---------------------------------------------------------------- entry bits

  /** A frame address has no bit set below bit 12. */
  lemma {:induction false} LowBits(f: nat, n: nat, k: nat)
    requires f % Pow2(n) == 0 && k < n
    ensures !TestBit(f, k)
  {
    hide Pow2;
    Pow2Step(n);
    var h := Pow2(n - 1);
    assert f == f / (2 * h) * (2 * h);
    assert f == 2 * (f / (2 * h) * h);
    if k > 0 {
      assert f / 2 == f / (2 * h) * h;
      MultipleMod(f / (2 * h), h);
      LowBits(f / 2, n - 1, k - 1);
    }
  }

  lemma {:induction false} HighBits(f: nat, n: nat, k: nat)
    requires f < Pow2(n) && k >= n
    ensures !TestBit(f, k)
  {
    if n > 0 { HighBits(f / 2, n - 1, k - 1); } else if k > 0 { HighBits(f / 2, 0, k - 1); }
  }

  /** The flag bits of an entry are exactly those put there. */
  lemma EntryFlags(arch: Arch, f: nat, bits: seq<nat>, k: nat)
    requires Framed(arch, f) && FlagBits(arch, bits) && (k < 12 || k >= AddrBits(arch))
    ensures TestBit(OrBits(f, bits), k) <==> k in bits
  {
    hide Pow2, TestBit, OrBits;
    OrBitsTest(f, bits, k);
    Pow2Values();
    if k < 12 { LowBits(f, 12, k); } else { HighBits(f, AddrBits(arch), k); }
  }

  // ---------------------------------------------------------------- whole runs

  datatype PageOp = Map(page: nat, frame: nat, flags: seq<nat>) | Unmap(page: nat)

  /** Refused: the page is mapped already, or not mapped. Starved: no frame for a table. */
  datatype Outcome = Performed | Refused | Starved

  /** The frame of a page after a run: the last successful operation on it decides. */
  function FrameAfter(ops: seq<PageOp>, os: seq<Outcome>, key: nat): Option<nat>
    requires |os| == |ops|
  {
    if ops == [] then None
    else
      var k := |ops| - 1;
      if os[k] == Performed && PageKey(ops[k].page) == key then
        if ops[k].Map? then Some(ops[k].frame) else None
      else FrameAfter(ops[..k], os[..k], key)
  }

  /** The tables stand for exactly the pages the run has left mapped. */
  ghost predicate Stands(arch: Arch, mem: Tables, root: nat, ops: seq<PageOp>, os: seq<Outcome>)
    requires |os| == |ops|
  {
    forall va: nat :: Plain(arch, va) ==>
      Translation(arch, mem, root, va) ==
        var f := FrameAfter(ops, os, PageKey(va)); if f.Some? then Some(f.value + va % PAGE) else None
  }

  /** What one operation does to the translations. */
  ghost predicate Stepped(arch: Arch, mem: Tables, mem': Tables, root: nat, op: PageOp, o: Outcome) {
    if o != Performed then SameTranslations(arch, mem, mem', root)
    else Retranslated(arch, mem, mem', root, op.page, if op.Map? then Some(op.frame) else None)
  }

  lemma StandsStep(arch: Arch, mem: Tables, mem': Tables, root: nat, ops: seq<PageOp>, os: seq<Outcome>,
                   op: PageOp, o: Outcome)
    requires |os| == |ops| && Stands(arch, mem, root, ops, os) && Stepped(arch, mem, mem', root, op, o)
    ensures Stands(arch, mem', root, ops + [op], os + [o])
  {
    hide Translation, PageKey, Plain;
    var ops', os' := ops + [op], os + [o];
    assert ops'[..|ops|] == ops && os'[..|ops|] == os;
  }

  /** Outcome `k` is right: a map is refused exactly if its page is mapped at that point, an unmap is
      done exactly if it is. So a map of an unmapped page fails only for want of a frame. */
  predicate OutcomeOk(ops: seq<PageOp>, os: seq<Outcome>, k: nat)
    requires k < |ops| && k < |os|
  {
    var mapped := FrameAfter(ops[..k], os[..k], PageKey(ops[k].page)).Some?;
    if ops[k].Map? then os[k] == Refused <==> mapped else os[k] == if mapped then Performed else Refused
  }

  lemma OutcomeStays(ops: seq<PageOp>, os: seq<Outcome>, o: Outcome, k: nat)
    requires k < |os| <= |ops| && OutcomeOk(ops, os, k)
    ensures OutcomeOk(ops, os + [o], k)
  {
    assert (os + [o])[..k] == os[..k];
  }

  lemma OutcomeNow(arch: Arch, mem: Tables, root: nat, ops: seq<PageOp>, os: seq<Outcome>, o: Outcome, k: nat)
    requires k < |ops| && |os| == k && Stands(arch, mem, root, ops[..k], os) && Plain(arch, ops[k].page)
    requires var mapped := Translation(arch, mem, root, ops[k].page).Some?;
      if ops[k].Map? then o == Refused <==> mapped else o == if mapped then Performed else Refused
    ensures OutcomeOk(ops, os + [o], k)
  {
    hide Translation, PageKey, FrameAfter, Plain;
    assert (os + [o])[..k] == os;
  }

  /** How many outcomes were for want of a frame. */
  function Starvations(os: seq<Outcome>): nat {
    if os == [] then 0 else Starvations(os[..|os| - 1]) + if os[|os| - 1] == Starved then 1 else 0
  }

  lemma StarvationsStep(os: seq<Outcome>, o: Outcome)
    ensures Starvations(os + [o]) == Starvations(os) + if o == Starved then 1 else 0
  {
    assert (os + [o])[..|os|] == os;
  }

  /** No frame has become free. */
  ghost predicate FewerFree(rs: seq<Frames.Region>, bitmap: seq<nat>, bitmap': seq<nat>) {
    forall f: nat :: Frames.FrameFree(rs, bitmap', f) ==> Frames.FrameFree(rs, bitmap, f)
  }

  /** Starvation is accounted for: nothing is free any more, or the allocator came empty-handed with
      a padding bit as often. */
  ghost predicate Hungry(rs: seq<Frames.Region>, bitmap: seq<nat>, os: seq<Outcome>, spent: int) {
    NoFrame(rs, bitmap) || Starvations(os) <= spent
  }

  lemma HungryStep(rs: seq<Frames.Region>, bitmap: seq<nat>, bitmap': seq<nat>, os: seq<Outcome>, o: Outcome, spent: int, spent': int)
    requires Hungry(rs, bitmap, os, spent) && FewerFree(rs, bitmap, bitmap') && spent <= spent'
    requires o == Starved && spent == spent' ==> NoFrame(rs, bitmap')
    ensures Hungry(rs, bitmap', os + [o], spent')
  {
    hide Frames.FrameFree;
    StarvationsStep(os, o);
  }
}
