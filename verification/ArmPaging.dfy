/** The four-level Arm page tables of src/memory/paging/arm_lpae.rs. */
module ArmPaging {
  import opened Common
  import opened Bits
  import opened PageTree
  import opened PagePool
  import Frames

  /** Positions of the generic page flags (src/memory/paging/mod.rs). */
  const WRITABLE: nat := 1
  const USER_ACCESSIBLE: nat := 2
  const NO_EXECUTE: nat := 63

  /** convert_flags followed by the bits set_page adds: VALID, TABLE and AF, and the permissions. */
  function PageBits(flags: seq<nat>): seq<nat> {
    [0, 10]
    + (if WRITABLE !in flags then [7] else [])
    + (if USER_ACCESSIBLE in flags then [6] else [])
    + (if NO_EXECUTE in flags then [54] else [])
    + [0, 1, 10]
  }

  function TableEntry(f: nat): nat { OrBits(f, [0, 1]) }

  function PageEntry(f: nat, flags: seq<nat>): nat { OrBits(f, PageBits(flags)) }

  /** A table entry holds its frame, and outside the address field only VALID and TABLE. */
  lemma TableEntryOk(f: nat)
    requires Framed(Arm, f)
    ensures var e := TableEntry(f);
      && IsTable(Arm, e) && Addr(Arm, e) == f
      && (forall b: nat :: b < 12 || b >= 48 ==> (TestBit(e, b) <==> b == 0 || b == 1))
  {
    hide OrBits, Addr, TestBit, Framed;
    EntryAddr(Arm, f, [0, 1]);
    forall b: nat | b < 12 || b >= 48 ensures TestBit(TableEntry(f), b) <==> b == 0 || b == 1 {
      EntryFlags(Arm, f, [0, 1], b);
    }
  }

  lemma PageBitsAre(flags: seq<nat>, b: nat)
    ensures FlagBits(Arm, PageBits(flags))
    ensures b in PageBits(flags) <==>
            b == 0 || b == 1 || b == 10 || (b == 7 && 1 !in flags) || (b == 6 && 2 in flags) || (b == 54 && 63 in flags)
  {
    var bits := PageBits(flags);
    assert bits[0] == 0 && bits[1] == 10 && bits[|bits| - 2] == 1;
  }

  /** A page entry holds its frame, and outside the address field exactly these bits: VALID (0),
      TABLE (1) and AF (10); READ_ONLY (7) unless the flags hold WRITABLE (1); USER_ACCESSIBLE (6) if
      they hold USER_ACCESSIBLE (2); EXECUTE_NEVER (54) if they hold NO_EXECUTE (63). */
  lemma PageEntryOk(f: nat, flags: seq<nat>)
    requires Framed(Arm, f)
    ensures var e := PageEntry(f, flags);
      && Present(e) && Addr(Arm, e) == f
      && (forall b: nat :: b < 12 || b >= 48 ==> (TestBit(e, b) <==>
            b == 0 || b == 1 || b == 10 || (b == 7 && 1 !in flags) || (b == 6 && 2 in flags) || (b == 54 && 63 in flags)))
  {
    hide OrBits, Addr, TestBit, Framed, PageBits, FlagBits;
    var bits := PageBits(flags);
    PageBitsAre(flags, 0);
    EntryAddr(Arm, f, bits);
    forall b: nat | b < 12 || b >= 48
      ensures TestBit(PageEntry(f, flags), b) <==>
              b == 0 || b == 1 || b == 10 || (b == 7 && 1 !in flags) || (b == 6 && 2 in flags) || (b == 54 && 63 in flags)
    {
      PageBitsAre(flags, b);
      EntryFlags(Arm, f, bits, b);
    }
  }

  /** An all-zero root table is the only table and translates nothing. */
  lemma EmptyRoot(arch: Arch, mem: Tables, root: nat)
    requires root in mem && mem[root] == ZeroTable() && Framed(arch, root)
    ensures TreeOk(arch, mem, root) && NoBlocks(arch, mem, root)
    ensures forall f: nat :: f != root ==> Outside(arch, mem, root, f)
    ensures forall va: nat :: Plain(arch, va) ==> Translation(arch, mem, root, va).None?
  {
    hide Addr, TestBit, PathOf, Walk, PathOk, Present, IsTable, EntryAt, ZeroTable, Translation;
    forall p: seq<nat> ensures Walk(arch, mem, root, p) == if p == [] then Some(root) else None {
      EmptyWalk(arch, mem, root, p);
    }
    forall i: nat ensures !Present(EntryAt(mem, root, i)) { EmptyEntry(mem, root, i); }
    forall va: nat | Plain(arch, va) ensures Translation(arch, mem, root, va).None? { EmptyLeaf(arch, mem, root, va); }
  }

  lemma EmptyEntry(mem: Tables, root: nat, i: nat)
    requires root in mem && mem[root] == ZeroTable()
    ensures !Present(EntryAt(mem, root, i))
  {
  }

  lemma EmptyLeaf(arch: Arch, mem: Tables, root: nat, va: nat)
    requires root in mem && mem[root] == ZeroTable()
    ensures Translation(arch, mem, root, va).None?
  {
    hide Addr, PathOf, Walk, ZeroTable, TestBit;
    EmptyWalk(arch, mem, root, PathOf(va)[..3]);
    NotTableZero(arch);
  }

  lemma {:induction false} EmptyWalk(arch: Arch, mem: Tables, root: nat, p: seq<nat>)
    requires root in mem && mem[root] == ZeroTable()
    ensures Walk(arch, mem, root, p) == if p == [] then Some(root) else None
    decreases |p|
  {
    NotTableZero(arch);
    if p != [] { EmptyWalk(arch, mem, root, p[..|p| - 1]); }
  }

  /** The first `k` steps of the walk to `va`. */
  function Steps(va: nat, k: nat): seq<nat>
    requires k <= 4
  {
    PathOf(va)[..k]
  }

  lemma StepsOk(va: nat, k: nat)
    requires k < 4
    ensures PathOk(Arm, PathOf(va)) && PathOk(Arm, Steps(va, k)) && |Steps(va, k)| == k
    ensures Steps(va, k) + [PathOf(va)[k]] == Steps(va, k + 1) && PathOk(Arm, Steps(va, k + 1))
    ensures Steps(va, 4) == PathOf(va) && Steps(va, 0) == []
  {
  }

  /** A walk that ends early has no leaf. */
  lemma {:induction false} NoWalkNoLeaf(arch: Arch, mem: Tables, root: nat, va: nat, k: nat)
    requires k <= 3 && Walk(arch, mem, root, Steps(va, k)).None?
    ensures Leaf(arch, mem, root, PathOf(va)) == 0
    decreases 3 - k
  {
    hide Addr, IsTable, PathOf;
    if k < 3 {
      assert Steps(va, k + 1)[..k] == Steps(va, k);
      NoWalkNoLeaf(arch, mem, root, va, k + 1);
    }
  }

  class ArmLpaePageTable {
    const root: nat
    const frames: Frames.BitmapFrameAllocator
    var mem: Tables

    /** The tables form an unshared tree and no table frame is free. */
    ghost predicate Shape()
      reads this, frames
    {
      frames.Valid() && PoolOk(Arm, mem, root, frames.regions, frames.bitmap)
    }

    ghost predicate Valid()
      reads this, frames
    {
      Shape() && NoBlocks(Arm, mem, root)
    }

    /** A new address space over a zeroed root frame that the allocator does not own any more. */
    constructor (root: nat, frames: Frames.BitmapFrameAllocator, mem: Tables)
      requires frames.Valid() && root in mem && mem[root] == ZeroTable() && Framed(Arm, root)
      requires !Frames.FrameFree(frames.regions, frames.bitmap, root)
      requires forall f: nat :: Frames.FrameFree(frames.regions, frames.bitmap, f) ==> TableOk(Arm, mem, f)
      ensures Valid() && this.root == root && this.frames == frames && this.mem == mem
      ensures forall va: nat :: Translation(Arm, mem, root, va).None?
    {
      hide Frames.FrameFree, TreeOk, NoBlocks, Outside, TableOk, Translation, PathOf;
      this.root := root;
      this.frames := frames;
      this.mem := mem;
      new;
      EmptyRoot(Arm, mem, root);
      forall va: nat ensures Plain(Arm, va) { StepsOk(va, 0); }
    }

    /** create_next_level_table on entry `i` of the table `t` at the end of path `p`: afterwards
        the walk reaches the returned table and no translation has changed. A block entry is an
        error; running out of frames leaves the entry unused. */
    method CreateNextLevelTable(ghost p: seq<nat>, t: nat, i: nat) returns (r: MapResult<nat>)
      requires Shape() && |p| < 3 && PathOk(Arm, p) && PathOk(Arm, p + [i]) && i < ENTRY_COUNT
      requires Walk(Arm, mem, root, p) == Some(t)
      modifies this, frames
      ensures Shape() && (old(NoBlocks(Arm, mem, root)) ==> NoBlocks(Arm, mem, root))
      ensures SameLeaves(Arm, old(mem), mem, root)
      ensures r.Done? ==> Walk(Arm, mem, root, p + [i]) == Some(r.value)
      ensures r.Done? && !old(Present(EntryAt(mem, t, i))) ==>
                forall b: nat :: b < 12 || b >= 48 ==> (TestBit(EntryAt(mem, t, i), b) <==> b == 0 || b == 1)
      ensures r == Failed(PageAlreadyMapped) ==> old(!NoBlock(Arm, mem, root, p, i))
      ensures r == Failed(FrameAllocationFailed) ==> old(Walk(Arm, mem, root, p + [i])).None?
      ensures r == Failed(FrameAllocationFailed) && frames.spurious == old(frames.spurious) ==>
                NoFrame(frames.regions, frames.bitmap)
      ensures frames.spurious >= old(frames.spurious) && FewerFree(frames.regions, old(frames.bitmap), frames.bitmap)
    {
      hide Frames.FrameFree, TreeOk, NoBlocks, Outside, Walk, Addr, TestBit, Leaf, PathOk, Framed, TableEntry, FreeOutside, Linked,
        SameLeaves, Frames.NextBit, Frames.ClearAt, Frames.BitToFrame, Frames.Around;
      WalkStep(Arm, mem, root, p, i);
      TreeTable(Arm, mem, root, p);
      var e := mem[t][i];
      if !Present(e) {
        ghost var bitmap0, mem0 := frames.bitmap, mem;
        var f := frames.AllocateFrame();
        assert Took(frames.regions, bitmap0, frames.bitmap, f);
        if f.None? {
          TookNone(Arm, mem, root, frames.regions, bitmap0, frames.bitmap);
          SameRefl(Arm, mem, root);
          return Failed(FrameAllocationFailed);
        }
        TookSome(Arm, mem, root, frames.regions, bitmap0, frames.bitmap, f.value);
        TableEntryOk(f.value);
        var e' := TableEntry(f.value);
        assert CanLink(Arm, mem, root, p, i, e', f.value);
        LinkPool(Arm, mem, root, frames.regions, bitmap0, frames.bitmap, p, i, e', f.value);
        LinkLeaves(Arm, mem, root, p, i, e', f.value);
        LinkWalk(Arm, mem, root, p, i, e', f.value, p + [i]);
        if NoBlocks(Arm, mem, root) { LinkBlocks(Arm, mem, root, p, i, e', f.value); }
        mem := SetEntry(mem, t, i, e');
        var zeroed := Zeroed(mem[f.value]);
        mem := mem[f.value := zeroed];
        LinkedIs(Arm, mem0, root, p, i, e', f.value);
        assert mem == Linked(Arm, mem0, root, p, i, e', f.value);
        return Done(f.value);
      } else if IsTable(Arm, e) {
        SameRefl(Arm, mem, root);
        return Done(Addr(Arm, e));
      } else {
        SameRefl(Arm, mem, root);
        return Failed(PageAlreadyMapped);
      }
    }

    /** map_to_lpae. A page already mapped is refused; a failed call changes no translation; a
        successful one makes `page` translate to `frame` and no other page differently. */
    method MapTo(page: nat, frame: nat, flags: seq<nat>) returns (r: MapResult<()>)
      requires Valid() && Framed(Arm, frame)
      modifies this, frames
      ensures Valid()
      ensures r == Failed(PageAlreadyMapped) <==> old(Translation(Arm, mem, root, page)).Some?
      ensures r.Failed? ==> SameTranslations(Arm, old(mem), mem, root)
      ensures r.Done? ==> Retranslated(Arm, old(mem), mem, root, page, Some(frame))
      ensures r.Done? ==> var e := Leaf(Arm, mem, root, PathOf(page));
        && Addr(Arm, e) == frame
        && (forall b: nat :: b < 12 || b >= 48 ==> (TestBit(e, b) <==>
              b == 0 || b == 1 || b == 10 || (b == 7 && 1 !in flags) || (b == 6 && 2 in flags) || (b == 54 && 63 in flags)))
      ensures r == Failed(FrameAllocationFailed) && frames.spurious == old(frames.spurious) ==>
                NoFrame(frames.regions, frames.bitmap)
      ensures frames.spurious >= old(frames.spurious) && FewerFree(frames.regions, old(frames.bitmap), frames.bitmap)
    {
      hide Frames.FrameFree, PoolOk, NoBlocks, Walk, Addr, Present, Leaf, PathOf, Framed, PageEntry, SameLeaves, Steps,
        SameTranslations, Retranslated, LeafSet, PathOk, TableOk;
      ghost var mem0 := mem;
      var p := PathOf(page);
      StepsOk(page, 0);
      StepsOk(page, 1);
      StepsOk(page, 2);
      StepsOk(page, 3);
      RootWalk(Arm, mem, root);
      var l1 := CreateNextLevelTable(Steps(page, 0), root, p[0]);
      ghost var mem1 := mem;
      SameLeavesTranslate(Arm, mem0, mem1, root);
      SameAt(Arm, mem0, mem1, root, page);
      if l1.Failed? {
        AllocationFailure(Arm, mem0, root, page, 0, l1.error);
        return Failed(l1.error);
      }
      var l2 := CreateNextLevelTable(Steps(page, 1), l1.value, p[1]);
      ghost var mem2 := mem;
      SameTrans(Arm, mem0, mem1, mem2, root);
      SameLeavesTranslate(Arm, mem0, mem2, root);
      SameAt(Arm, mem0, mem2, root, page);
      if l2.Failed? {
        AllocationFailure(Arm, mem1, root, page, 1, l2.error);
        return Failed(l2.error);
      }
      var l3 := CreateNextLevelTable(Steps(page, 2), l2.value, p[2]);
      ghost var mem3 := mem;
      SameTrans(Arm, mem0, mem2, mem3, root);
      SameLeavesTranslate(Arm, mem0, mem3, root);
      SameAt(Arm, mem0, mem3, root, page);
      if l3.Failed? {
        AllocationFailure(Arm, mem2, root, page, 2, l3.error);
        return Failed(l3.error);
      }
      LeafIs(Arm, mem, root, frames.regions, frames.bitmap, page, l3.value);
      if Present(mem[l3.value][p[3]]) {
        return Failed(PageAlreadyMapped);
      }
      PutLeaf(Arm, mem, root, frames.regions, frames.bitmap, page, l3.value, PageEntry(frame, flags));
      SameThenSet(Arm, mem0, mem3, SetEntry(mem3, l3.value, p[3], PageEntry(frame, flags)), root, p, PageEntry(frame, flags));
      PageEntryOk(frame, flags);
      mem := SetEntry(mem, l3.value, p[3], PageEntry(frame, flags));
      LeafSetTranslates(Arm, mem0, mem, root, page, PageEntry(frame, flags));
      LeafSetHere(Arm, mem0, mem, root, page, PageEntry(frame, flags));
      return Done(());
    }

    /** unmap_lpae: refused exactly when the page has no translation, and then nothing changes. */
    method Unmap(page: nat) returns (ok: bool)
      requires Valid()
      modifies this
      ensures Valid()
      ensures ok <==> old(Translation(Arm, mem, root, page)).Some?
      ensures !ok ==> mem == old(mem)
      ensures ok ==> Retranslated(Arm, old(mem), mem, root, page, None) && LeafSet(Arm, old(mem), mem, root, PathOf(page), 0)
    {
      hide Frames.FrameFree, PoolOk, Walk, Addr, TestBit, Leaf, PathOf, Framed, Steps,
        SameTranslations, Retranslated, LeafSet, PathOk, NoBlocks, TableOk;
      var p := PathOf(page);
      ghost var mem0 := mem;
      StepsOk(page, 0);
      NotTableZero(Arm);
      RootWalk(Arm, mem, root);
      Descend(Arm, mem, root, frames.regions, frames.bitmap, page, 0, root);
      if !Present(mem[root][p[0]]) { return false; }
      var l1 := Addr(Arm, mem[root][p[0]]);
      Descend(Arm, mem, root, frames.regions, frames.bitmap, page, 1, l1);
      if !Present(mem[l1][p[1]]) { return false; }
      var l2 := Addr(Arm, mem[l1][p[1]]);
      Descend(Arm, mem, root, frames.regions, frames.bitmap, page, 2, l2);
      if !Present(mem[l2][p[2]]) { return false; }
      var l3 := Addr(Arm, mem[l2][p[2]]);
      LeafIs(Arm, mem, root, frames.regions, frames.bitmap, page, l3);
      if !Present(mem[l3][p[3]]) { return false; }
      PutLeaf(Arm, mem, root, frames.regions, frames.bitmap, page, l3, 0);
      mem := SetEntry(mem, l3, p[3], 0);
      NotTableZero(Arm);
      LeafSetTranslates(Arm, mem0, mem, root, page, 0);
      return true;
    }

    /** translate_lpae. A block entry at level 1 or 2 answers with its own address plus the offset
        in the page; without blocks the result is the translation of the address. */
    method Translate(addr: nat) returns (r: Option<nat>)
      requires Shape() && NoBlock(Arm, mem, root, [], PathOf(addr)[0])
      ensures NoBlocks(Arm, mem, root) ==> r == Translation(Arm, mem, root, addr)
      ensures forall e: nat :: BlockOn(mem, root, addr, 1, e) || BlockOn(mem, root, addr, 2, e) ==>
                r == Some(Addr(Arm, e) + addr % PAGE)
    {
      hide Frames.FrameFree, PoolOk, Walk, Addr, TestBit, Leaf, PathOf, Framed, Steps, NoBlocks, TableOk, PathOk, NoBlock, EntryAt;
      WalkEnds(Arm, mem, root, addr, 1);
      var page, offset := addr - addr % PAGE, addr % PAGE;
      PagePath(addr);
      var p := PathOf(page);
      StepsOk(addr, 0);
      NotTableZero(Arm);
      RootWalk(Arm, mem, root);
      Descend(Arm, mem, root, frames.regions, frames.bitmap, addr, 0, root);
      var e0 := mem[root][p[0]];
      if !Present(e0) { return None; }
      var l1 := Addr(Arm, e0);
      Descend(Arm, mem, root, frames.regions, frames.bitmap, addr, 1, l1);
      var e1 := mem[l1][p[1]];
      if !Present(e1) { return None; }
      if !IsTable(Arm, e1) { return Some(Addr(Arm, e1) + offset); }
      var l2 := Addr(Arm, e1);
      Descend(Arm, mem, root, frames.regions, frames.bitmap, addr, 2, l2);
      var e2 := mem[l2][p[2]];
      if !Present(e2) { return None; }
      if !IsTable(Arm, e2) { return Some(Addr(Arm, e2) + offset); }
      var l3 := Addr(Arm, e2);
      LeafIs(Arm, mem, root, frames.regions, frames.bitmap, addr, l3);
      var e3 := mem[l3][p[3]];
      if !Present(e3) { return None; }
      return Some(Addr(Arm, e3) + offset);
    }

    /** Any run of map and unmap calls on an empty address space. The tables stand for exactly the
        pages that the successful calls left mapped; every outcome is right; and while a frame is still
        free, at most 63 maps have failed for want of one. */
    method Run(ops: seq<PageOp>) returns (os: seq<Outcome>)
      requires Valid() && forall va: nat :: Translation(Arm, mem, root, va).None?
      requires forall k :: 0 <= k < |ops| && ops[k].Map? ==> Framed(Arm, ops[k].frame)
      modifies this, frames
      ensures Valid() && |os| == |ops| && Stands(Arm, mem, root, ops, os)
      ensures forall k :: 0 <= k < |ops| ==> OutcomeOk(ops, os, k)
      ensures NoFrame(frames.regions, frames.bitmap) || Starvations(os) <= 63
    {
      hide Translation, Framed, NoBlocks, PoolOk, NoFrame, OutcomeOk, Hungry, FewerFree, Starvations, Stands, Stepped, Frames.CountSet, TreeOk;
      os := [];
      var k := 0;
      HungryStart(frames.regions, frames.bitmap);
      NothingMapped(Arm, mem, root);
      assert ops[..0] == [];
      while k < |ops|
        invariant 0 <= k <= |ops| && |os| == k && Valid() && Stands(Arm, mem, root, ops[..k], os)
        invariant forall j :: 0 <= j < k ==> OutcomeOk(ops, os, j)
        invariant Hungry(frames.regions, frames.bitmap, os, frames.spurious - old(frames.spurious))
      {
        ghost var mem0, b0, sp := mem, frames.bitmap, frames.spurious;
        var o := Apply(ops[k]);
        OutcomeNow(Arm, mem0, root, ops, os, o, k);
        forall j | 0 <= j < k ensures OutcomeOk(ops, os + [o], j) { OutcomeStays(ops, os, o, j); }
        HungryStep(frames.regions, b0, frames.bitmap, os, o, sp - old(frames.spurious), frames.spurious - old(frames.spurious));
        StandsStep(Arm, mem0, mem, root, ops[..k], os, ops[k], o);
        assert ops[..k + 1] == ops[..k] + [ops[k]];
        os := os + [o];
        k := k + 1;
      }
      assert ops[..k] == ops;
      HungryEnd(frames.regions, frames.bitmap, os, frames.spurious - old(frames.spurious));
    }

    /** One call of a run and its outcome. */
    method Apply(op: PageOp) returns (o: Outcome)
      requires Valid() && (op.Map? ==> Framed(Arm, op.frame))
      modifies this, frames
      ensures Valid() && Stepped(Arm, old(mem), mem, root, op, o)
      ensures var mapped := old(Translation(Arm, mem, root, op.page)).Some?;
              if op.Map? then o == Refused <==> mapped else o == if mapped then Performed else Refused
      ensures frames.spurious >= old(frames.spurious) && FewerFree(frames.regions, old(frames.bitmap), frames.bitmap)
      ensures o == Starved && frames.spurious == old(frames.spurious) ==> NoFrame(frames.regions, frames.bitmap)
    {
      hide Translation, Framed, NoBlocks, PoolOk, Retranslated, SameTranslations, PageEntry, NoFrame, Leaf, FewerFree, Frames.CountSet;
      StepsOk(op.page, 0);
      FewerSame(frames.regions, frames.bitmap);
      match op {
        case Map(page, frame, flags) =>
          var r := MapTo(page, frame, flags);
          o := if r.Done? then Performed else if r.error == PageAlreadyMapped then Refused else Starved;
        case Unmap(page) =>
          SameRefl(Arm, mem, root);
          SameLeavesTranslate(Arm, mem, mem, root);
          var ok := Unmap(page);
          o := if ok then Performed else Refused;
      }
    }
  }

  lemma NothingMapped(arch: Arch, mem: Tables, root: nat)
    requires forall va: nat :: Translation(arch, mem, root, va).None?
    ensures Stands(arch, mem, root, [], [])
  {
    hide Translation, PageKey, Plain;
  }

  lemma HungryStart(rs: seq<Frames.Region>, bitmap: seq<nat>)
    ensures Hungry(rs, bitmap, [], 0)
  {
  }

  lemma FewerSame(rs: seq<Frames.Region>, bitmap: seq<nat>)
    ensures FewerFree(rs, bitmap, bitmap)
  {
    hide Frames.FrameFree;
  }

  lemma HungryEnd(rs: seq<Frames.Region>, bitmap: seq<nat>, os: seq<Outcome>, spent: int)
    requires Hungry(rs, bitmap, os, spent)
    ensures NoFrame(rs, bitmap) || Starvations(os) <= spent
  {
  }

  /** The walk to `va` meets the block entry `e` in its table of level `k`. */
  ghost predicate BlockOn(mem: Tables, root: nat, va: nat, k: nat, e: nat)
    requires k < 4
  {
    var t := Walk(Arm, mem, root, Steps(va, k));
    t.Some? && EntryAt(mem, t.value, PathOf(va)[k]) == e && Present(e) && !IsTable(Arm, e)
  }

  lemma WalkEnds(arch: Arch, mem: Tables, root: nat, va: nat, k: nat)
    requires k < 4
    ensures Walk(arch, mem, root, Steps(va, k)).None? ==> Walk(arch, mem, root, Steps(va, k + 1)).None?
  {
    hide Addr, IsTable, PathOf;
    assert Steps(va, k + 1)[..k] == Steps(va, k);
  }

  lemma PagePath(va: nat)
    ensures va >= va % PAGE && PathOf(va - va % PAGE) == PathOf(va)
  {
    hide PathOf;
    SamePath(va - va % PAGE, va);
  }

  lemma LinkedIs(arch: Arch, mem: Tables, root: nat, p: seq<nat>, i: nat, e: nat, f: nat)
    requires CanLink(arch, mem, root, p, i, e, f)
    ensures Linked(arch, mem, root, p, i, e, f) == SetEntry(mem, Walk(arch, mem, root, p).value, i, e)[f := ZeroTable()]
    ensures EntryAt(Linked(arch, mem, root, p, i, e, f), Walk(arch, mem, root, p).value, i) == e
  {
    hide Walk, TreeOk, IsTable, Addr, Framed;
    assert Walk(arch, mem, root, p) != Some(f);
  }

  lemma TreeTable(arch: Arch, mem: Tables, root: nat, p: seq<nat>)
    requires TreeOk(arch, mem, root) && PathOk(arch, p) && |p| <= 3 && Walk(arch, mem, root, p).Some?
    ensures TableOk(arch, mem, Walk(arch, mem, root, p).value)
  {
    hide Walk;
  }

  lemma SameRefl(arch: Arch, mem: Tables, root: nat)
    ensures SameLeaves(arch, mem, mem, root)
  {
    hide Leaf;
  }

  lemma RootWalk(arch: Arch, mem: Tables, root: nat)
    ensures Walk(arch, mem, root, []) == Some(root)
  {
  }

  /** One level of the descent: the table is whole, and its entry leads on exactly if present. */
  lemma Descend(arch: Arch, mem: Tables, root: nat, rs: seq<Frames.Region>, bitmap: seq<nat>, va: nat, k: nat, t: nat)
    requires PoolOk(arch, mem, root, rs, bitmap) && Plain(arch, va)
    requires k < 3 && Walk(arch, mem, root, Steps(va, k)) == Some(t)
    ensures t in mem && PathOf(va)[k] < |mem[t]|
    ensures var e := mem[t][PathOf(va)[k]];
      && (!Present(e) ==> Leaf(arch, mem, root, PathOf(va)) == 0)
      && (IsTable(arch, e) ==> Walk(arch, mem, root, Steps(va, k + 1)) == Some(Addr(arch, e)))
      && (!IsTable(arch, e) ==> Walk(arch, mem, root, Steps(va, k + 1)) == None)
      && EntryAt(mem, t, PathOf(va)[k]) == e
      && (NoBlocks(arch, mem, root) && Present(e) ==> IsTable(arch, e))
      && (NoBlock(arch, mem, root, Steps(va, k), PathOf(va)[k]) && Present(e) ==> IsTable(arch, e))
  {
    hide Walk, Addr, Present, Leaf, PathOf, Unshared, FreeOutside;
    var p, i := Steps(va, k), PathOf(va)[k];
    assert p + [i] == Steps(va, k + 1);
    WalkStep(arch, mem, root, p, i);
    assert NoBlocks(arch, mem, root) ==> NoBlock(arch, mem, root, p, i);
    if !Present(mem[t][i]) { NoWalkNoLeaf(arch, mem, root, va, k + 1); }
  }

  lemma LeafIs(arch: Arch, mem: Tables, root: nat, rs: seq<Frames.Region>, bitmap: seq<nat>, va: nat, t: nat)
    requires PoolOk(arch, mem, root, rs, bitmap) && Plain(arch, va) && Walk(arch, mem, root, Steps(va, 3)) == Some(t)
    ensures t in mem && PathOf(va)[3] < |mem[t]| && Leaf(arch, mem, root, PathOf(va)) == mem[t][PathOf(va)[3]]
  {
    hide Walk, PathOf, FreeOutside;
    TreeTable(arch, mem, root, Steps(va, 3));
  }

  lemma AllocationFailure(arch: Arch, mem: Tables, root: nat, va: nat, k: nat, error: MapError)
    requires k < 3 && PathOk(arch, Steps(va, k)) && PathOk(arch, Steps(va, k + 1)) && NoBlocks(arch, mem, root)
    requires error == PageAlreadyMapped ==> !NoBlock(arch, mem, root, Steps(va, k), PathOf(va)[k])
    requires error == FrameAllocationFailed ==> Walk(arch, mem, root, Steps(va, k + 1)).None?
    ensures error == FrameAllocationFailed && Translation(arch, mem, root, va).None?
  {
    hide Walk, PathOf, PathOk, NoBlock, Leaf;
    assert Steps(va, k) + [PathOf(va)[k]] == Steps(va, k + 1);
    NoWalkNoLeaf(arch, mem, root, va, k + 1);
    NotTableZero(arch);
  }

  /** Writing the last-level entry of a page. */
  lemma PutLeaf(arch: Arch, mem: Tables, root: nat, rs: seq<Frames.Region>, bitmap: seq<nat>, va: nat, t: nat, e: nat)
    requires PoolOk(arch, mem, root, rs, bitmap) && NoBlocks(arch, mem, root) && Plain(arch, va)
    requires Walk(arch, mem, root, Steps(va, 3)) == Some(t)
    ensures t in mem && PathOf(va)[3] < |mem[t]|
    ensures var mem' := SetEntry(mem, t, PathOf(va)[3], e);
      && PoolOk(arch, mem', root, rs, bitmap) && NoBlocks(arch, mem', root)
      && LeafSet(arch, mem, mem', root, PathOf(va), e)
  {
    hide Walk, PathOf, NoBlocks, FreeOutside, Unshared, LeafSet;
    var p, i := Steps(va, 3), PathOf(va)[3];
    TreeTable(arch, mem, root, p);
    assert CanSet(arch, mem, root, p, i);
    SetPool(arch, mem, root, rs, bitmap, p, i, e);
    SetBlocks(arch, mem, root, p, i, e);
    SetLeaves(arch, mem, root, p, i, e);
    assert p + [i] == PathOf(va);
  }

  lemma LeafSetHere(arch: Arch, mem: Tables, mem': Tables, root: nat, va: nat, e: nat)
    requires LeafSet(arch, mem, mem', root, PathOf(va), e) && Plain(arch, va)
    ensures Leaf(arch, mem', root, PathOf(va)) == e
  {
    hide Leaf, PathOf, PathOk;
  }

  lemma SameAt(arch: Arch, mem: Tables, mem': Tables, root: nat, va: nat)
    requires SameLeaves(arch, mem, mem', root) && Plain(arch, va)
    ensures Translation(arch, mem', root, va) == Translation(arch, mem, root, va)
  {
    hide Leaf, PathOf, PathOk, Addr, Present;
  }
}
