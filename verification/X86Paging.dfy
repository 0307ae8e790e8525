/**
 The x86-64 page tables of src/memory/paging/x86_64_paging.rs. Tables are never addressed
 directly: entry 511 of the top table points to the top table itself, and each table is
 reached through a recursive window of the virtual address space, resolved by the hardware.
 */
module X86Paging {
  import opened Common
  import opened Arith
  import opened Bits
  import opened PageTree
  import opened PagePool
  import opened ArmPaging
  import Frames

  // ---------------------------------------------------------------- the hardware walk

  /** The frame the hardware reaches for an address: three tables, then the page. */
  function HwFrame(mem: Tables, cr3: nat, va: nat): Option<nat> {
    var e := Leaf(X86, mem, cr3, PathOf(va));
    if Present(e) then Some(Addr(X86, e)) else None
  }

  /** The top table's last entry points to the top table. */
  ghost predicate SelfMap(mem: Tables, root: nat) {
    Follow(X86, mem, root, RECURSIVE) == Some(root)
  }

  /** Addresses of the recursive windows: the table `k` levels down on the way to `page`. The
      index fields of each base are zero, so or-ing the indices in is adding them. */
  function WindowAddr(page: nat, k: nat): nat
    requires k <= 3
  {
    var p := PathOf(page);
    if k == 0 then 0xFFFF_FFFF_FFFF_F000
    else if k == 1 then 0xFFFF_FFFF_FFE0_0000 + p[0] * 0x1000
    else if k == 2 then 0xFFFF_FFFF_C000_0000 + p[0] * 0x20_0000 + p[1] * 0x1000
    else 0xFFFF_FF80_0000_0000 + p[0] * 0x4000_0000 + p[1] * 0x20_0000 + p[2] * 0x1000
  }

  function Loops(n: nat): (s: seq<nat>)
    ensures |s| == n
  {
    if n == 0 then [] else [RECURSIVE] + Loops(n - 1)
  }

  lemma PathFrom(top: nat, a: nat, b: nat, c: nat, d: nat)
    requires a < 512 && b < 512 && c < 512 && d < 512
    ensures PathOf(((((top * 512 + a) * 512 + b) * 512 + c) * 512 + d) * 0x1000) == [a, b, c, d]
  {
    hide PathOf;
    var k3 := top * 512 + a;
    var k2 := k3 * 512 + b;
    var k1 := k2 * 512 + c;
    var k := k1 * 512 + d;
    PageStart(k);
    Split(k1, d, k);
    Split(k2, c, k1);
    Split(k3, b, k2);
    Split(top, a, k3);
    PathIs(k * 0x1000, k);
    DivDiv(k);
  }

  lemma PageStart(k: nat)
    ensures k * 0x1000 / 0x1000 == k
  {
  }

  lemma Split(h: nat, d: nat, k: nat)
    requires d < 512 && k == h * 512 + d
    ensures k / 512 == h && k % 512 == d
  {
  }

  lemma DivDiv(k: nat)
    ensures k / 0x4_0000 == k / 512 / 512 && k / 0x800_0000 == k / 512 / 512 / 512
  {
    ModThenDiv(k, 512, 512);
    ModThenDiv(k, 512, 0x4_0000);
    ModThenDiv(k / 512, 512, 512);
  }

  lemma PathIs(va: nat, k: nat)
    requires k == va / 0x1000
    ensures PathOf(va) == [k / 0x800_0000 % 512, k / 0x4_0000 % 512, k / 512 % 512, k % 512]
  {
    Shifts(va, k);
  }

  /** A window address is the recursive index as often as levels are left, then the path. */
  lemma WindowPath(page: nat, k: nat)
    requires k <= 3
    ensures PathOf(WindowAddr(page, k)) == Loops(4 - k) + Steps(page, k)
  {
    hide PathOf;
    var p := PathOf(page);
    KeyDigits(page);
    if k == 0 {
      PathFrom(0xFFFF, 511, 511, 511, 511);
      assert Loops(4) == [511, 511, 511, 511];
    } else if k == 1 {
      PathFrom(0xFFFF, 511, 511, 511, p[0]);
      assert Loops(3) == [511, 511, 511] && Steps(page, 1) == [p[0]];
    } else if k == 2 {
      PathFrom(0xFFFF, 511, 511, p[0], p[1]);
      assert Loops(2) == [511, 511] && Steps(page, 2) == [p[0], p[1]];
    } else {
      PathFrom(0xFFFF, 511, p[0], p[1], p[2]);
      assert Loops(1) == [511] && Steps(page, 3) == [p[0], p[1], p[2]];
    }
  }

  /** Going through the recursive entry first changes nothing. */
  lemma {:induction false} SelfLoop(mem: Tables, root: nat, s: seq<nat>)
    requires SelfMap(mem, root)
    ensures Walk(X86, mem, root, [RECURSIVE] + s) == Walk(X86, mem, root, s)
    decreases |s|
  {
    hide Follow;
    if s == [] {
      WalkStep(X86, mem, root, [], RECURSIVE);
      assert [] + [RECURSIVE] == [RECURSIVE] + s;
      RootWalk(X86, mem, root);
    } else {
      var r, j := s[..|s| - 1], s[|s| - 1];
      SelfLoop(mem, root, r);
      assert [RECURSIVE] + s == ([RECURSIVE] + r) + [j] && s == r + [j];
      WalkStep(X86, mem, root, [RECURSIVE] + r, j);
      WalkStep(X86, mem, root, r, j);
    }
  }

  lemma {:induction false} SelfLoops(mem: Tables, root: nat, n: nat, s: seq<nat>)
    requires SelfMap(mem, root)
    ensures Walk(X86, mem, root, Loops(n) + s) == Walk(X86, mem, root, s)
  {
    hide SelfMap, Walk;
    if n == 0 {
      assert Loops(0) + s == s;
    } else {
      SelfLoops(mem, root, n - 1, s);
      assert Loops(n) + s == [RECURSIVE] + (Loops(n - 1) + s);
      SelfLoop(mem, root, Loops(n - 1) + s);
    }
  }

  /** The hardware finds at each recursive address exactly the table that direct descent reaches. */
  lemma WindowReaches(mem: Tables, root: nat, page: nat, k: nat)
    requires SelfMap(mem, root) && k <= 3 && Walk(X86, mem, root, Steps(page, k)).Some?
    ensures HwFrame(mem, root, WindowAddr(page, k)) == Walk(X86, mem, root, Steps(page, k))
  {
    hide SelfMap, PathOf, Walk, WindowAddr, Addr;
    var q := Loops(4 - k) + Steps(page, k);
    WindowPath(page, k);
    SelfLoops(mem, root, 4 - k, Steps(page, k));
    assert q == q[..3] + [q[3]];
    WalkStep(X86, mem, root, q[..3], q[3]);
  }

  // ---------------------------------------------------------------- entries

  function X86Table(f: nat): nat { OrBits(f, [0, 1, 2]) }

  function X86Page(f: nat, flags: seq<nat>): nat { OrBits(f, flags + [0]) }

  /** Positions of the flags in PageFlags. */
  predicate PageFlags(flags: seq<nat>) { forall b <- flags :: b <= 8 || b == 63 }

  /** A table entry holds its frame, and outside the address field PRESENT (0), WRITABLE (1) and
      USER_ACCESSIBLE (2) only. */
  lemma X86TableOk(f: nat)
    requires Framed(X86, f)
    ensures var e := X86Table(f);
      && IsTable(X86, e) && Addr(X86, e) == f
      && (forall b: nat :: b < 12 || b >= 52 ==> (TestBit(e, b) <==> b <= 2))
  {
    hide OrBits, Addr, TestBit, Framed;
    EntryAddr(X86, f, [0, 1, 2]);
    forall b: nat | b < 12 || b >= 52 ensures TestBit(X86Table(f), b) <==> b <= 2 {
      EntryFlags(X86, f, [0, 1, 2], b);
    }
  }

  /** A page entry holds its frame and exactly the flags given, plus PRESENT. */
  lemma X86PageOk(f: nat, flags: seq<nat>)
    requires Framed(X86, f) && PageFlags(flags)
    ensures var e := X86Page(f, flags);
      && Present(e) && Addr(X86, e) == f
      && (forall b: nat :: b < 12 || b >= 52 ==> (TestBit(e, b) <==> b in flags || b == 0))
  {
    hide OrBits, Addr, TestBit, Framed;
    EntryAddr(X86, f, flags + [0]);
    assert (flags + [0])[|flags|] == 0;
    forall b: nat | b < 12 || b >= 52 ensures TestBit(X86Page(f, flags), b) <==> b in flags || b == 0 {
      EntryFlags(X86, f, flags + [0], b);
    }
  }

  // ---------------------------------------------------------------- invariants

  /** Top-level entries are tables (bit 7 is reserved there). */
  ghost predicate TopTables(mem: Tables, root: nat) {
    forall i: nat :: i < RECURSIVE ==> NoBlock(X86, mem, root, [], i)
  }

  /** A last-level entry is either all zero or present. */
  ghost predicate LeavesClean(mem: Tables, root: nat) {
    forall q: seq<nat> :: PathOk(X86, q) && |q| == 4 ==> Leaf(X86, mem, root, q) == 0 || Present(Leaf(X86, mem, root, q))
  }

  /** A huge page lies on the way to `page`. */
  ghost predicate Huge(mem: Tables, root: nat, page: nat) {
    || !NoBlock(X86, mem, root, Steps(page, 1), PathOf(page)[1])
    || !NoBlock(X86, mem, root, Steps(page, 2), PathOf(page)[2])
  }

  lemma XStepsOk(page: nat, k: nat)
    requires Plain(X86, page) && k < 4
    ensures PathOk(X86, Steps(page, k)) && |Steps(page, k)| == k && PathOf(page)[k] < ENTRY_COUNT
    ensures Steps(page, k) + [PathOf(page)[k]] == Steps(page, k + 1) && PathOk(X86, Steps(page, k + 1))
    ensures PathOf(page)[0] < RECURSIVE
  {
    hide PathOf;
  }

  /** Memories that differ only in table `f`, which the walk does not pass. */
  lemma {:induction false} WalkIgnores(arch: Arch, a: Tables, b: Tables, root: nat, q: seq<nat>, f: nat)
    requires forall t: nat, i: nat :: t != f ==> EntryAt(a, t, i) == EntryAt(b, t, i)
    requires forall k :: 0 <= k < |q| ==> Walk(arch, a, root, q[..k]) != Some(f)
    ensures Walk(arch, a, root, q) == Walk(arch, b, root, q)
    decreases |q|
  {
    hide EntryAt, IsTable, Addr;
    if q != [] {
      var r := q[..|q| - 1];
      forall k | 0 <= k < |r| ensures Walk(arch, a, root, r[..k]) != Some(f) { assert r[..k] == q[..k]; }
      WalkIgnores(arch, a, b, root, r, f);
    }
  }

  /** Linking below a page's path leaves the recursive entry alone and the top level tables. */
  lemma LinkTop(mem: Tables, root: nat, p: seq<nat>, i: nat, e: nat, f: nat)
    requires CanLink(X86, mem, root, p, i, e, f) && SelfMap(mem, root) && TopTables(mem, root)
    ensures SelfMap(Linked(X86, mem, root, p, i, e, f), root) && TopTables(Linked(X86, mem, root, p, i, e, f), root)
  {
    hide Addr, IsTable, Present, EntryAt, TreeOk, Outside, Linked, TableOk, Framed;
    var mem' := Linked(X86, mem, root, p, i, e, f);
    RootWalk(X86, mem, root);
    LinkEntry(X86, mem, root, p, i, e, f, [], RECURSIVE);
    assert p == [] ==> (p + [i])[0] == i;
    forall j: nat | j < RECURSIVE ensures NoBlock(X86, mem', root, [], j) {
      LinkEntry(X86, mem, root, p, i, e, f, [], j);
      assert NoBlock(X86, mem, root, [], j);
    }
  }

  /** After the entry is written but before the new table is zeroed: the windows already work. */
  lemma BeforeZero(mem: Tables, root: nat, page: nat, k: nat, e: nat, f: nat)
    requires k < 3 && Plain(X86, page) && SelfMap(mem, root) && TopTables(mem, root)
    requires CanLink(X86, mem, root, Steps(page, k), PathOf(page)[k], e, f)
    ensures var mem1 := SetEntry(mem, Walk(X86, mem, root, Steps(page, k)).value, PathOf(page)[k], e);
      SelfMap(mem1, root) && NoBlock(X86, mem1, root, [], PathOf(page)[0])
      && Walk(X86, mem1, root, Steps(page, k + 1)) == Some(f)
  {
    hide Addr, IsTable, Present, TreeOk, Framed, Walk, PathOf, Steps, PathOk;
    var p, i := Steps(page, k), PathOf(page)[k];
    var mem1 := SetEntry(mem, Walk(X86, mem, root, p).value, i, e);
    var mem' := Linked(X86, mem, root, p, i, e, f);
    XStepsOk(page, k);
    LinkTop(mem, root, p, i, e, f);
    LinkedIs(X86, mem, root, p, i, e, f);
    RootWalk(X86, mem, root);
    RootWalk(X86, mem1, root);
    RootWalk(X86, mem', root);
    RootOutside(mem, root, f);
    assert forall t: nat, j: nat :: t != f ==> EntryAt(mem', t, j) == EntryAt(mem1, t, j);
    LinkWalk(X86, mem, root, p, i, e, f, p + [i]);
    PrefixesAvoid(mem, root, p, i, e, f, p + [i], mem');
    WalkIgnores(X86, mem', mem1, root, Steps(page, k + 1), f);
    assert NoBlock(X86, mem', root, [], PathOf(page)[0]);
  }

  lemma RootOutside(mem: Tables, root: nat, f: nat)
    requires Outside(X86, mem, root, f)
    ensures f != root
  {
    assert PathOk(X86, []);
    RootWalk(X86, mem, root);
  }

  lemma PrefixesAvoid(mem: Tables, root: nat, p: seq<nat>, i: nat, e: nat, f: nat, q: seq<nat>, mem': Tables)
    requires CanLink(X86, mem, root, p, i, e, f) && q == p + [i] && PathOk(X86, q) && |q| <= 3
    requires mem' == Linked(X86, mem, root, p, i, e, f)
    ensures forall j :: 0 <= j < |q| ==> Walk(X86, mem', root, q[..j]) != Some(f)
  {
    hide Linked, CanLink, Walk;
    forall j | 0 <= j < |q| ensures Walk(X86, mem', root, q[..j]) != Some(f) {
      LinkWalk(X86, mem, root, p, i, e, f, q[..j]);
      LinkedFrameOutside(mem, root, p, i, e, f, q[..j]);
    }
  }

  lemma LinkedFrameOutside(mem: Tables, root: nat, p: seq<nat>, i: nat, e: nat, f: nat, q: seq<nat>)
    requires CanLink(X86, mem, root, p, i, e, f) && PathOk(X86, q) && |q| <= 3
    ensures Walk(X86, mem, root, q) != Some(f)
  {
    hide Walk, PathOk, TreeOk;
  }

  lemma CleanSame(mem: Tables, mem': Tables, root: nat)
    requires SameLeaves(X86, mem, mem', root) && LeavesClean(mem, root)
    ensures LeavesClean(mem', root)
  {
    hide Leaf, PathOk, Present;
  }

  lemma CleanSet(mem: Tables, mem': Tables, root: nat, p: seq<nat>, e: nat)
    requires LeafSet(X86, mem, mem', root, p, e) && LeavesClean(mem, root) && (e == 0 || Present(e))
    ensures LeavesClean(mem', root)
  {
    hide Leaf, PathOk, Present;
  }

  /** Writing a last-level entry leaves the top table alone. */
  lemma SetTop(mem: Tables, root: nat, p: seq<nat>, i: nat, e: nat)
    requires CanSet(X86, mem, root, p, i) && SelfMap(mem, root) && TopTables(mem, root)
    ensures SelfMap(WithLeaf(X86, mem, root, p, i, e), root) && TopTables(WithLeaf(X86, mem, root, p, i, e), root)
  {
    hide Addr, IsTable, Present, EntryAt, TreeOk, WithLeaf, TableOk;
    var mem' := WithLeaf(X86, mem, root, p, i, e);
    RootWalk(X86, mem, root);
    SetEntryAt(X86, mem, root, p, i, e, [], RECURSIVE);
    forall j: nat | j < RECURSIVE ensures NoBlock(X86, mem', root, [], j) {
      SetEntryAt(X86, mem, root, p, i, e, [], j);
      assert NoBlock(X86, mem, root, [], j);
    }
  }

  /** A top table with only its recursive entry is the only table and translates nothing. */
  lemma EmptyTop(mem: Tables, root: nat)
    requires root in mem && mem[root] == ZeroTable()[RECURSIVE := X86Table(root)] && Framed(X86, root)
    ensures TreeOk(X86, mem, root) && SelfMap(mem, root) && TopTables(mem, root) && LeavesClean(mem, root)
    ensures NoBlocks(X86, mem, root)
    ensures forall f: nat :: f != root ==> Outside(X86, mem, root, f)
    ensures forall va: nat :: Plain(X86, va) ==> Translation(X86, mem, root, va).None?
  {
    hide Addr, TestBit, PathOf, Framed, X86Table;
    X86TableOk(root);
    NotTableZero(X86);
    forall p: seq<nat> | PathOk(X86, p)
      ensures Walk(X86, mem, root, p) == if p == [] then Some(root) else None
    {
      EmptyTopWalk(mem, root, p);
    }
    assert EntryAt(mem, root, RECURSIVE) == X86Table(root);
    forall q: seq<nat> | PathOk(X86, q) && |q| == 4 ensures Leaf(X86, mem, root, q) == 0 {
      PathPrefix(X86, q);
    }
  }

  lemma {:induction false} EmptyTopWalk(mem: Tables, root: nat, p: seq<nat>)
    requires root in mem && mem[root] == ZeroTable()[RECURSIVE := X86Table(root)] && PathOk(X86, p)
    ensures Walk(X86, mem, root, p) == if p == [] then Some(root) else None
    decreases |p|
  {
    hide Addr, TestBit;
    NotTableZero(X86);
    if p != [] { EmptyTopWalk(mem, root, p[..|p| - 1]); }
  }

  class X86PageTable {
    /** The frame register CR3 holds. */
    const root: nat
    const frames: Frames.BitmapFrameAllocator
    var mem: Tables

    ghost predicate Valid()
      reads this, frames
    {
      && frames.Valid() && PoolOk(X86, mem, root, frames.regions, frames.bitmap)
      && SelfMap(mem, root) && TopTables(mem, root) && LeavesClean(mem, root)
    }

    /** A top table that holds nothing but its recursive entry. */
    constructor (root: nat, frames: Frames.BitmapFrameAllocator, mem: Tables)
      requires frames.Valid() && Framed(X86, root)
      requires root in mem && mem[root] == ZeroTable()[RECURSIVE := X86Table(root)]
      requires !Frames.FrameFree(frames.regions, frames.bitmap, root)
      requires forall f: nat :: Frames.FrameFree(frames.regions, frames.bitmap, f) ==> TableOk(X86, mem, f)
      ensures Valid() && this.root == root && this.frames == frames && this.mem == mem && NoBlocks(X86, mem, root)
      ensures forall va: nat :: Plain(X86, va) ==> Translation(X86, mem, root, va).None?
    {
      hide Frames.FrameFree, TreeOk, Outside, TableOk, Translation, PathOf, SelfMap, TopTables, LeavesClean, X86Table, NoBlocks;
      this.root := root;
      this.frames := frames;
      this.mem := mem;
      new;
      EmptyTop(mem, root);
    }

    /** p4, p3, p2 and p1 (`k` = 0 to 3): the table for `page`, accessed through its window once
        the entry above it is present and not a huge page. It is the table of direct descent. */
    method Table(page: nat, k: nat) returns (r: Option<nat>)
      requires k <= 3 && Plain(X86, page) && SelfMap(mem, root) && NoBlock(X86, mem, root, [], PathOf(page)[0])
      ensures r == Walk(X86, mem, root, Steps(page, k))
      decreases k
    {
      hide SelfMap, PathOf, Walk, WindowAddr, Addr, EntryAt, HwFrame, TestBit, PathOk;
      XStepsOk(page, k);
      RootWalk(X86, mem, root);
      if k == 0 {
        assert Steps(page, 0) == [];
        WindowReaches(mem, root, page, 0);
        return HwFrame(mem, root, WindowAddr(page, 0));
      }
      XStepsOk(page, k - 1);
      var above := Table(page, k - 1);
      WalkStep(X86, mem, root, Steps(page, k - 1), PathOf(page)[k - 1]);
      if above.Some? {
        var e := EntryAt(mem, above.value, PathOf(page)[k - 1]);
        assert k == 1 ==> Steps(page, 0) == [];
        if Present(e) && (k == 1 || !TestBit(e, 7)) {
          WindowReaches(mem, root, page, k);
          return HwFrame(mem, root, WindowAddr(page, k));
        }
      }
      return None;
    }

    /** The body of create_table_if_needed at one level: entry `k` of the path is empty, so a new
        table goes there, zeroed through its own window. */
    method AddTable(page: nat, k: nat, t: nat) returns (r: MapResult<()>)
      requires Valid() && k < 3 && Plain(X86, page) && Walk(X86, mem, root, Steps(page, k)) == Some(t)
      requires !Present(EntryAt(mem, t, PathOf(page)[k]))
      modifies this, frames
      ensures Valid() && SameLeaves(X86, old(mem), mem, root) && (old(NoBlocks(X86, mem, root)) ==> NoBlocks(X86, mem, root))
      ensures r.Done? ==> Walk(X86, mem, root, Steps(page, k + 1)).Some?
      ensures r.Done? ==> forall b: nat :: b < 12 || b >= 52 ==> (TestBit(EntryAt(mem, t, PathOf(page)[k]), b) <==> b <= 2)
      ensures r.Failed? ==> r.error == FrameAllocationFailed
      ensures r.Failed? && frames.spurious == old(frames.spurious) ==> NoFrame(frames.regions, frames.bitmap)
      ensures frames.spurious >= old(frames.spurious) && FewerFree(frames.regions, old(frames.bitmap), frames.bitmap)
    {
      hide Frames.FrameFree, TreeOk, Outside, Walk, Addr, TestBit, Leaf, PathOk, Framed, X86Table, FreeOutside, Linked,
        SameLeaves, SelfMap, TopTables, LeavesClean, Steps, PathOf, NoBlock, NoBlocks, Frames.NextBit, Frames.ClearAt, Frames.BitToFrame,
        Frames.Around;
      XStepsOk(page, k);
      ghost var p := Steps(page, k);
      var i := PathOf(page)[k];
      TreeTable(X86, mem, root, p);
      ghost var bitmap0, mem0 := frames.bitmap, mem;
      var f := frames.AllocateFrame();
      assert Took(frames.regions, bitmap0, frames.bitmap, f);
      if f.None? {
        TookNone(X86, mem, root, frames.regions, bitmap0, frames.bitmap);
        SameRefl(X86, mem, root);
        return Failed(FrameAllocationFailed);
      }
      TookSome(X86, mem, root, frames.regions, bitmap0, frames.bitmap, f.value);
      X86TableOk(f.value);
      var e := X86Table(f.value);
      assert CanLink(X86, mem, root, p, i, e, f.value);
      LinkPool(X86, mem, root, frames.regions, bitmap0, frames.bitmap, p, i, e, f.value);
      LinkLeaves(X86, mem, root, p, i, e, f.value);
      CleanSame(mem, Linked(X86, mem, root, p, i, e, f.value), root);
      LinkWalk(X86, mem, root, p, i, e, f.value, p + [i]);
      LinkTop(mem, root, p, i, e, f.value);
      if NoBlocks(X86, mem, root) { LinkBlocks(X86, mem, root, p, i, e, f.value); }
      BeforeZero(mem, root, page, k, e, f.value);
      LinkedIs(X86, mem, root, p, i, e, f.value);
      mem := SetEntry(mem, t, i, e);
      var below := Table(page, k + 1);
      if below.Some? {
        var zeroed := Zeroed(mem[below.value]);
        mem := mem[below.value := zeroed];
      }
      return Done(());
    }

    /** create_table_if_needed: afterwards the walk reaches the table below `level`, unless a huge
        page is in the way; no translation changes. */
    method CreateTableIfNeeded(page: nat, level: nat) returns (r: MapResult<()>)
      requires Valid() && Plain(X86, page)
      modifies this, frames
      ensures Valid() && SameLeaves(X86, old(mem), mem, root) && (old(NoBlocks(X86, mem, root)) ==> NoBlocks(X86, mem, root))
      ensures r.Done? && 2 <= level <= 4 ==> Walk(X86, mem, root, Steps(page, 5 - level)).Some? || Huge(mem, root, page)
      ensures r.Failed? ==> r.error == FrameAllocationFailed && Leaf(X86, mem, root, PathOf(page)) == 0
      ensures r.Failed? && frames.spurious == old(frames.spurious) ==> NoFrame(frames.regions, frames.bitmap)
      ensures frames.spurious >= old(frames.spurious) && FewerFree(frames.regions, old(frames.bitmap), frames.bitmap)
      decreases if level <= 4 then 4 - level else 0
    {
      hide Frames.FrameFree, PoolOk, Walk, Addr, TestBit, Leaf, PathOk, SameLeaves, SelfMap, LeavesClean, Steps, PathOf,
        NoFrame, EntryAt, NoBlocks, FewerFree;
      SameRefl(X86, mem, root);
      ghost var b0 := frames.bitmap;
      FewerSame(frames.regions, b0);
      if level < 2 || level > 4 { return Done(()); }
      var k := 4 - level;
      ghost var mem0 := mem;
      XStepsOk(page, k);
      RootWalk(X86, mem, root);
      if level < 4 {
        r := CreateTableIfNeeded(page, level + 1);
        if r.Failed? { return; }
      }
      ghost var mem1, b1 := mem, frames.bitmap;
      var t := Table(page, k);
      assert k == 0 ==> Steps(page, k) == [];
      if t.Some? {
        EntryDecides(mem, root, page, k, t.value);
        if !Present(EntryAt(mem, t.value, PathOf(page)[k])) {
          r := AddTable(page, k, t.value);
          SameTrans(X86, mem0, mem1, mem, root);
          FewerTrans(frames.regions, b0, b1, frames.bitmap);
          if r.Failed? { LeafSame(mem1, mem, root, page); }
          return;
        }
      }
      return Done(());
    }

    /** map_to. The page is refused if its entry is in use; a failed call changes no translation;
        a successful one makes `page` translate to `frame` and no other page differently. */
    method MapTo(page: nat, frame: nat, flags: seq<nat>) returns (r: MapResult<()>)
      requires Valid() && Plain(X86, page) && Framed(X86, frame) && PageFlags(flags)
      modifies this, frames
      ensures Valid() && (old(NoBlocks(X86, mem, root)) ==> NoBlocks(X86, mem, root))
      ensures frames.spurious >= old(frames.spurious) && FewerFree(frames.regions, old(frames.bitmap), frames.bitmap)
      ensures r == Failed(PageAlreadyMapped) <==> old(Translation(X86, mem, root, page)).Some?
      ensures r.Failed? ==> SameTranslations(X86, old(mem), mem, root)
      ensures r.Done? ==> Retranslated(X86, old(mem), mem, root, page, Some(frame))
      ensures r.Done? ==> var e := Leaf(X86, mem, root, PathOf(page));
        && Addr(X86, e) == frame && (forall b: nat :: b < 12 || b >= 52 ==> (TestBit(e, b) <==> b in flags || b == 0))
      ensures r == Failed(FrameAllocationFailed) && frames.spurious == old(frames.spurious) ==>
                NoFrame(frames.regions, frames.bitmap) || Huge(mem, root, page)
    {
      hide Frames.FrameFree, PoolOk, Walk, Addr, TestBit, Leaf, PathOk, SameLeaves, SelfMap, Steps, PathOf,
        NoFrame, Huge, TopTables, X86Page, SameTranslations, Retranslated, LeafSet, Framed, PageFlags, LeavesClean, NoBlocks, FewerFree;
      ghost var mem0 := mem;
      LeafState(mem, root, page);
      r := CreateTableIfNeeded(page, 2);
      ghost var mem1 := mem;
      SameLeavesTranslate(X86, mem0, mem1, root);
      LeafSame(mem0, mem1, root, page);
      NotTableZero(X86);
      if r.Failed? { return; }
      TopIs(mem, root, page);
      var p1 := Table(page, 3);
      if p1.Some? {
        var i := PathOf(page)[3];
        LeafIs(X86, mem, root, frames.regions, frames.bitmap, page, p1.value);
        if mem[p1.value][i] != 0 {
          return Failed(PageAlreadyMapped);
        }
        var e := X86Page(frame, flags);
        X86PageOk(frame, flags);
        XPutLeaf(mem, root, frames.regions, frames.bitmap, page, p1.value, e);
        mem := SetEntry(mem, p1.value, i, e);
        SameThenSet(X86, mem0, mem1, mem, root, PathOf(page), e);
        LeafSetTranslates(X86, mem0, mem, root, page, e);
        LeafSetHere(X86, mem0, mem, root, page, e);
        return Done(());
      } else {
        NoWalkNoLeaf(X86, mem, root, page, 3);
        return Failed(FrameAllocationFailed);
      }
    }

    /** unmap: refused exactly when the page has no translation, and then nothing changes. */
    method Unmap(page: nat) returns (ok: bool)
      requires Valid() && Plain(X86, page)
      modifies this
      ensures Valid() && (old(NoBlocks(X86, mem, root)) ==> NoBlocks(X86, mem, root))
      ensures ok <==> old(Translation(X86, mem, root, page)).Some?
      ensures !ok ==> mem == old(mem)
      ensures ok ==> Retranslated(X86, old(mem), mem, root, page, None) && LeafSet(X86, old(mem), mem, root, PathOf(page), 0)
    {
      hide Frames.FrameFree, PoolOk, Walk, Addr, TestBit, Leaf, PathOk, SelfMap, Steps, PathOf,
        TopTables, Retranslated, LeafSet, LeavesClean, NoBlocks;
      ghost var mem0 := mem;
      LeafState(mem, root, page);
      NotTableZero(X86);
      TopIs(mem, root, page);
      var p1 := Table(page, 3);
      if p1.None? {
        NoWalkNoLeaf(X86, mem, root, page, 3);
        return false;
      }
      LeafIs(X86, mem, root, frames.regions, frames.bitmap, page, p1.value);
      if mem[p1.value][PathOf(page)[3]] == 0 { return false; }
      XPutLeaf(mem, root, frames.regions, frames.bitmap, page, p1.value, 0);
      mem := SetEntry(mem, p1.value, PathOf(page)[3], 0);
      LeafSetTranslates(X86, mem0, mem, root, page, 0);
      return true;
    }

    /** translate: frame plus offset for a mapped page, nothing otherwise. */
    method Translate(addr: nat) returns (r: Option<nat>)
      requires Valid() && Plain(X86, addr)
      ensures r == Translation(X86, mem, root, addr)
    {
      hide Frames.FrameFree, PoolOk, Walk, Addr, TestBit, Leaf, PathOk, SelfMap, Steps, PathOf, TopTables, LeavesClean;
      var page, offset := addr - addr % PAGE, addr % PAGE;
      PagePath(addr);
      NotTableZero(X86);
      TopIs(mem, root, page);
      var p1 := Table(page, 3);
      if p1.None? {
        NoWalkNoLeaf(X86, mem, root, page, 3);
        return None;
      }
      LeafIs(X86, mem, root, frames.regions, frames.bitmap, page, p1.value);
      var e := mem[p1.value][PathOf(page)[3]];
      if Present(e) { return Some(Addr(X86, e) + offset); }
      return None;
    }

    /** Any run of map and unmap calls on an empty address space. The tables stand for exactly the
        pages that the successful calls left mapped; every outcome is right; and, without huge pages,
        while a frame is still free at most 63 maps have failed for want of one. */
    method Run(ops: seq<PageOp>) returns (os: seq<Outcome>)
      requires Valid() && forall va: nat :: Plain(X86, va) ==> Translation(X86, mem, root, va).None?
      requires forall k :: 0 <= k < |ops| ==> Plain(X86, ops[k].page)
      requires forall k :: 0 <= k < |ops| && ops[k].Map? ==> Framed(X86, ops[k].frame) && PageFlags(ops[k].flags)
      modifies this, frames
      ensures Valid() && |os| == |ops| && Stands(X86, mem, root, ops, os)
      ensures forall k :: 0 <= k < |ops| ==> OutcomeOk(ops, os, k)
      ensures old(NoBlocks(X86, mem, root)) ==> NoFrame(frames.regions, frames.bitmap) || Starvations(os) <= 63
    {
      hide Translation, Framed, PoolOk, Retranslated, SameTranslations, X86Page, NoFrame, Leaf, Plain, SelfMap, TopTables, LeavesClean,
        PageFlags, Huge, OutcomeOk, Hungry, FewerFree, Starvations, NoBlocks, Frames.CountSet;
      os := [];
      var k := 0;
      HungryStart(frames.regions, frames.bitmap);
      while k < |ops|
        invariant 0 <= k <= |ops| && |os| == k && Valid() && Stands(X86, mem, root, ops[..k], os)
        invariant forall j :: 0 <= j < k ==> OutcomeOk(ops, os, j)
        invariant old(NoBlocks(X86, mem, root)) ==>
          NoBlocks(X86, mem, root) && Hungry(frames.regions, frames.bitmap, os, frames.spurious - old(frames.spurious))
      {
        ghost var mem0, b0, sp := mem, frames.bitmap, frames.spurious;
        var o;
        FewerSame(frames.regions, b0);
        match ops[k] {
          case Map(page, frame, flags) =>
            var r := MapTo(page, frame, flags);
            if NoBlocks(X86, mem, root) { NotHuge(mem, root, page); }
            o := if r.Done? then Performed else if r.error == PageAlreadyMapped then Refused else Starved;
          case Unmap(page) =>
            var ok := Unmap(page);
            o := if ok then Performed else Refused;
        }
        if mem == mem0 { SameRefl(X86, mem, root); SameLeavesTranslate(X86, mem, mem, root); }
        OutcomeNow(X86, mem0, root, ops, os, o, k);
        forall j | 0 <= j < k ensures OutcomeOk(ops, os + [o], j) { OutcomeStays(ops, os, o, j); }
        if old(NoBlocks(X86, mem, root)) {
          HungryStep(frames.regions, b0, frames.bitmap, os, o, sp - old(frames.spurious), frames.spurious - old(frames.spurious));
        }
        StandsStep(X86, mem0, mem, root, ops[..k], os, ops[k], o);
        assert ops[..k + 1] == ops[..k] + [ops[k]];
        os := os + [o];
        k := k + 1;
      }
      assert ops[..k] == ops;
      if old(NoBlocks(X86, mem, root)) {
        HungryEnd(frames.regions, frames.bitmap, os, frames.spurious - old(frames.spurious));
      }
    }
  }

  lemma NotHuge(mem: Tables, root: nat, page: nat)
    requires NoBlocks(X86, mem, root) && Plain(X86, page)
    ensures !Huge(mem, root, page)
  {
    hide NoBlock, PathOf;
    XStepsOk(page, 1);
    XStepsOk(page, 2);
  }

  lemma FewerTrans(rs: seq<Frames.Region>, a: seq<nat>, b: seq<nat>, c: seq<nat>)
    requires FewerFree(rs, a, b) && FewerFree(rs, b, c)
    ensures FewerFree(rs, a, c)
  {
    hide Frames.FrameFree;
  }

  lemma LeafSame(mem: Tables, mem': Tables, root: nat, page: nat)
    requires SameLeaves(X86, mem, mem', root) && Plain(X86, page)
    ensures Leaf(X86, mem', root, PathOf(page)) == Leaf(X86, mem, root, PathOf(page))
    ensures Translation(X86, mem', root, page) == Translation(X86, mem, root, page)
  {
    hide Leaf, PathOf, PathOk, Addr, Present;
  }

  /** A page's entry is zero exactly when the page has no translation. */
  lemma LeafState(mem: Tables, root: nat, page: nat)
    requires LeavesClean(mem, root) && Plain(X86, page)
    ensures Leaf(X86, mem, root, PathOf(page)) == 0 <==> Translation(X86, mem, root, page).None?
  {
    hide Leaf, PathOf, PathOk, Addr;
    NotTableZero(X86);
  }

  lemma TopIs(mem: Tables, root: nat, page: nat)
    requires TopTables(mem, root) && Plain(X86, page)
    ensures NoBlock(X86, mem, root, [], PathOf(page)[0])
  {
    hide NoBlock, PathOf;
    XStepsOk(page, 0);
  }

  /** The entry at one level: empty, leading on, or a huge page. */
  lemma EntryDecides(mem: Tables, root: nat, page: nat, k: nat, t: nat)
    requires k < 3 && Plain(X86, page) && TopTables(mem, root) && Walk(X86, mem, root, Steps(page, k)) == Some(t)
    ensures !Present(EntryAt(mem, t, PathOf(page)[k])) ==> Leaf(X86, mem, root, PathOf(page)) == 0
    ensures Present(EntryAt(mem, t, PathOf(page)[k])) ==>
      Walk(X86, mem, root, Steps(page, k + 1)).Some? || Huge(mem, root, page)
  {
    hide Walk, Addr, Present, Leaf, PathOf, EntryAt;
    var p, i := Steps(page, k), PathOf(page)[k];
    XStepsOk(page, k);
    TopIs(mem, root, page);
    WalkStep(X86, mem, root, p, i);
    assert k == 0 ==> p == [];
    if !Present(EntryAt(mem, t, i)) { NoWalkNoLeaf(X86, mem, root, page, k + 1); }
  }

  /** Writing the last-level entry of a page. */
  lemma XPutLeaf(mem: Tables, root: nat, rs: seq<Frames.Region>, bitmap: seq<nat>, page: nat, t: nat, e: nat)
    requires PoolOk(X86, mem, root, rs, bitmap) && SelfMap(mem, root) && TopTables(mem, root) && LeavesClean(mem, root)
    requires Plain(X86, page) && Walk(X86, mem, root, Steps(page, 3)) == Some(t) && (e == 0 || Present(e))
    ensures t in mem && PathOf(page)[3] < |mem[t]|
    ensures var mem' := SetEntry(mem, t, PathOf(page)[3], e);
      && PoolOk(X86, mem', root, rs, bitmap) && SelfMap(mem', root) && TopTables(mem', root) && LeavesClean(mem', root)
      && LeafSet(X86, mem, mem', root, PathOf(page), e)
      && (NoBlocks(X86, mem, root) ==> NoBlocks(X86, mem', root))
  {
    hide Walk, PathOf, FreeOutside, Unshared, LeafSet, SelfMap, TopTables, LeavesClean, Present, NoBlocks;
    var p, i := Steps(page, 3), PathOf(page)[3];
    XStepsOk(page, 3);
    TreeTable(X86, mem, root, p);
    assert CanSet(X86, mem, root, p, i);
    SetPool(X86, mem, root, rs, bitmap, p, i, e);
    SetTop(mem, root, p, i, e);
    if NoBlocks(X86, mem, root) { SetBlocks(X86, mem, root, p, i, e); }
    SetLeaves(X86, mem, root, p, i, e);
    assert p + [i] == PathOf(page);
    CleanSet(mem, WithLeaf(X86, mem, root, p, i, e), root, PathOf(page), e);
  }
}
