/**
 Four-level page-table trees in physical memory, for both architectures of
 src/memory/paging. A `path` is the list of table indices on the way down; `Walk`
 follows it through table entries.
 */
module PageTree {
  import opened Common
  import opened Arith
  import opened Bits

  datatype Arch = Arm | X86

  const ENTRY_COUNT: nat := 512
  const PAGE: nat := 4096

  /** The recursive slot of the x86 top-level table. */
  const RECURSIVE: nat := 511

  /** Physical memory, as far as it holds tables: 512 entries per frame. */
  type Tables = map<nat, seq<nat>>

  // ---------------------------------------------------------------- entries

  predicate Present(e: nat) { TestBit(e, 0) }

  /** A present entry that points to a table: on Arm bit 1 says so, on x86 a clear bit 7. */
  predicate IsTable(arch: Arch, e: nat) {
    Present(e) && if arch.Arm? then TestBit(e, 1) else !TestBit(e, 7)
  }

  /** One past the highest address bit of an entry. */
  function AddrBits(arch: Arch): nat { if arch.Arm? then 48 else 52 }

  /** The address bits of an entry, from bit 12 up. */
  function Addr(arch: Arch, e: nat): nat {
    e % Pow2(AddrBits(arch)) / Pow2(12) * PAGE
  }

  /** Frames an entry can hold. */
  predicate Framed(arch: Arch, f: nat) { f % PAGE == 0 && f < Pow2(AddrBits(arch)) }

  /** a | bits, for a list of bit positions. */
  function OrBits(a: nat, bits: seq<nat>): nat {
    if bits == [] then a else SetBit(OrBits(a, bits[1..]), bits[0])
  }

  /** Bit positions outside the address field. */
  predicate FlagBits(arch: Arch, bits: seq<nat>) {
    forall b <- bits :: b < 12 || b >= AddrBits(arch)
  }

  lemma {:induction false} OrBitsTest(a: nat, bits: seq<nat>, k: nat)
    ensures TestBit(OrBits(a, bits), k) <==> k in bits || TestBit(a, k)
  {
    if bits != [] {
      OrBitsTest(a, bits[1..], k);
      SetBitTest(OrBits(a, bits[1..]), bits[0], k);
    }
  }

  lemma SetBitKeepsAddr(arch: Arch, e: nat, j: nat)
    requires j < 12 || j >= AddrBits(arch)
    ensures Addr(arch, SetBit(e, j)) == Addr(arch, e)
  {
    hide SetBit, Pow2;
    var n := AddrBits(arch);
    if j >= n {
      SetBitBelow(e, j, n);
    } else {
      SetBitAbove(e, j, 12);
      AddrAlt(arch, e);
      AddrAlt(arch, SetBit(e, j));
    }
  }

  /** The address field cut from above first. */
  lemma AddrAlt(arch: Arch, e: nat)
    ensures Addr(arch, e) == e / Pow2(12) % Pow2(AddrBits(arch) - 12) * PAGE
  {
    hide Pow2;
    Pow2Sum(12, AddrBits(arch) - 12);
    ModThenDiv(e, Pow2(12), Pow2(AddrBits(arch) - 12));
  }

  lemma {:induction false} Pow2Sum(k: nat, m: nat)
    ensures Pow2(k + m) == Pow2(k) * Pow2(m)
  {
    if k > 0 {
      Pow2Sum(k - 1, m);
      assert 2 * Pow2(k - 1) * Pow2(m) == 2 * (Pow2(k - 1) * Pow2(m));
    }
  }

  lemma Pow2Values()
    ensures Pow2(12) == PAGE && Pow2(48) == 0x1_0000_0000_0000 && Pow2(52) == 0x10_0000_0000_0000
  {
    Pow2Small();
    Pow2Sum(12, 12);
    Pow2Sum(24, 24);
    Pow2Sum(48, 4);
  }

  lemma Pow2Small()
    ensures Pow2(4) == 16 && Pow2(12) == PAGE
  {
    Pow2Sum(4, 4);
    Pow2Sum(4, 8);
  }

  lemma FlagBitsRest(arch: Arch, bits: seq<nat>)
    requires FlagBits(arch, bits) && bits != []
    ensures FlagBits(arch, bits[1..]) && (bits[0] < 12 || bits[0] >= AddrBits(arch))
  {
    assert bits[0] in bits;
    forall b <- bits[1..] ensures b in bits { }
  }

  /** An entry made from a frame and flag bits holds that frame. */
  lemma {:induction false} EntryAddr(arch: Arch, f: nat, bits: seq<nat>)
    requires Framed(arch, f) && FlagBits(arch, bits)
    ensures Addr(arch, OrBits(f, bits)) == f
  {
    hide SetBit, Pow2;
    if bits == [] {
      Pow2Values();
    } else {
      FlagBitsRest(arch, bits);
      EntryAddr(arch, f, bits[1..]);
      SetBitKeepsAddr(arch, OrBits(f, bits[1..]), bits[0]);
    }
  }

  // ---------------------------------------------------------------- walking

  /** Indices in range; on x86 the recursive slot leads nowhere new. */
  predicate PathOk(arch: Arch, p: seq<nat>) {
    && (forall i :: 0 <= i < |p| ==> p[i] < ENTRY_COUNT)
    && (arch.X86? && |p| > 0 ==> p[0] != RECURSIVE)
  }

  function EntryAt(mem: Tables, t: nat, i: nat): nat {
    if t in mem && i < |mem[t]| then mem[t][i] else 0
  }

  function Follow(arch: Arch, mem: Tables, t: nat, i: nat): Option<nat> {
    var e := EntryAt(mem, t, i);
    if IsTable(arch, e) then Some(Addr(arch, e)) else None
  }

  /** The table reached from `root` along `p`. */
  function Walk(arch: Arch, mem: Tables, root: nat, p: seq<nat>): Option<nat> {
    if p == [] then Some(root)
    else
      var t := Walk(arch, mem, root, p[..|p| - 1]);
      if t.None? then None else Follow(arch, mem, t.value, p[|p| - 1])
  }

  /** The last-level entry for a full path, 0 if the walk ends early. */
  function Leaf(arch: Arch, mem: Tables, root: nat, p: seq<nat>): nat
    requires |p| == 4
  {
    var t := Walk(arch, mem, root, p[..3]);
    if t.None? then 0 else EntryAt(mem, t.value, p[3])
  }

  /** `t` is a table with 512 entries at a frame an entry can hold. */
  predicate TableOk(arch: Arch, mem: Tables, t: nat) {
    t in mem && |mem[t]| == ENTRY_COUNT && Framed(arch, t)
  }

  /** No table is reached along two paths. */
  ghost predicate Unshared(arch: Arch, mem: Tables, root: nat) {
    forall p: seq<nat>, q: seq<nat> ::
      (PathOk(arch, p) && PathOk(arch, q) && |p| <= 3 && |q| <= 3
       && Walk(arch, mem, root, p).Some? && Walk(arch, mem, root, p) == Walk(arch, mem, root, q)) ==> p == q
  }

  /** Every table the walk reaches is a whole table, and none is reached twice. */
  ghost predicate TreeOk(arch: Arch, mem: Tables, root: nat) {
    && Unshared(arch, mem, root)
    && (forall p: seq<nat> :: PathOk(arch, p) && |p| <= 3 && Walk(arch, mem, root, p).Some? ==>
          TableOk(arch, mem, Walk(arch, mem, root, p).value))
  }

  /** A present entry above the last level points to a table. */
  ghost predicate NoBlock(arch: Arch, mem: Tables, root: nat, p: seq<nat>, i: nat) {
    var t := Walk(arch, mem, root, p);
    t.Some? && Present(EntryAt(mem, t.value, i)) ==> IsTable(arch, EntryAt(mem, t.value, i))
  }

  ghost predicate NoBlocks(arch: Arch, mem: Tables, root: nat) {
    forall p: seq<nat>, i: nat :: PathOk(arch, p) && |p| < 3 && PathOk(arch, p + [i]) ==> NoBlock(arch, mem, root, p, i)
  }

  /** `f` is not a table of the tree. */
  ghost predicate Outside(arch: Arch, mem: Tables, root: nat, f: nat) {
    forall p: seq<nat> :: PathOk(arch, p) && |p| <= 3 ==> Walk(arch, mem, root, p) != Some(f)
  }

  // ---------------------------------------------------------------- updates

  function ZeroTable(): (t: seq<nat>)
    ensures |t| == ENTRY_COUNT
  {
    seq(ENTRY_COUNT, _ => 0)
  }

  /** The loop of zero, the same on both architectures: every entry is cleared. */
  method Zeroed(table: seq<nat>) returns (t: seq<nat>)
    requires |table| == ENTRY_COUNT
    ensures t == ZeroTable()
  {
    t := table;
    var k := 0;
    while k < ENTRY_COUNT
      invariant 0 <= k <= ENTRY_COUNT == |t|
      invariant forall j :: 0 <= j < k ==> t[j] == 0
    {
      t := t[k := 0];
      k := k + 1;
    }
  }

  function SetEntry(mem: Tables, t: nat, i: nat, e: nat): Tables
    requires t in mem && i < |mem[t]|
  {
    var s: seq<nat> := mem[t][i := e];
    mem[t := s]
  }

  /** Memory after linking the zeroed table `f` into entry `i` of table `t`. */
  function LinkTable(mem: Tables, t: nat, i: nat, e: nat, f: nat): Tables
    requires t in mem && i < |mem[t]|
  {
    SetEntry(mem, t, i, e)[f := ZeroTable()]
  }

  lemma WalkStep(arch: Arch, mem: Tables, root: nat, p: seq<nat>, i: nat)
    ensures Walk(arch, mem, root, p + [i]) ==
            var t := Walk(arch, mem, root, p); if t.None? then None else Follow(arch, mem, t.value, i)
  {
    assert (p + [i])[..|p|] == p;
  }

  lemma PathPrefix(arch: Arch, q: seq<nat>)
    requires PathOk(arch, q) && q != []
    ensures PathOk(arch, q[..|q| - 1]) && q[|q| - 1] < ENTRY_COUNT && q[..|q| - 1] + [q[|q| - 1]] == q
  {
  }

  /** Entry `i` of the table at the end of `p` holds no table, and `f` is a frame outside the tree. */
  ghost predicate CanLink(arch: Arch, mem: Tables, root: nat, p: seq<nat>, i: nat, e: nat, f: nat) {
    && TreeOk(arch, mem, root) && Outside(arch, mem, root, f) && Framed(arch, f)
    && PathOk(arch, p + [i]) && PathOk(arch, p) && |p| < 3 && Walk(arch, mem, root, p).Some?
    && TableOk(arch, mem, Walk(arch, mem, root, p).value) && i < ENTRY_COUNT
    && !IsTable(arch, EntryAt(mem, Walk(arch, mem, root, p).value, i))
    && IsTable(arch, e) && Addr(arch, e) == f
  }

  ghost function Linked(arch: Arch, mem: Tables, root: nat, p: seq<nat>, i: nat, e: nat, f: nat): Tables
    requires CanLink(arch, mem, root, p, i, e, f)
  {
    LinkTable(mem, Walk(arch, mem, root, p).value, i, e, f)
  }

  /** One step of the walk after linking. */
  lemma LinkFollow(arch: Arch, mem: Tables, root: nat, p: seq<nat>, i: nat, e: nat, f: nat, r: seq<nat>, j: nat)
    requires CanLink(arch, mem, root, p, i, e, f)
    requires PathOk(arch, r) && |r| <= 3 && j < ENTRY_COUNT
    ensures !IsTable(arch, EntryAt(Linked(arch, mem, root, p, i, e, f), f, j))
    ensures Walk(arch, mem, root, r).Some? ==>
              Follow(arch, Linked(arch, mem, root, p, i, e, f), Walk(arch, mem, root, r).value, j) ==
              if r == p && j == i then Some(f) else Follow(arch, mem, Walk(arch, mem, root, r).value, j)
  {
    hide Addr, Walk;
    var t := Walk(arch, mem, root, p).value;
    NotTableZero(arch);
    if Walk(arch, mem, root, r).Some? {
      var u := Walk(arch, mem, root, r).value;
      assert u != f;
      assert u == t ==> r == p;
    }
  }

  lemma NotTableZero(arch: Arch)
    ensures !Present(0) && !IsTable(arch, 0)
  {
  }

  /** Linking a fresh table reaches exactly one new table and changes no other walk. */
  lemma {:induction false} LinkWalk(arch: Arch, mem: Tables, root: nat, p: seq<nat>, i: nat, e: nat, f: nat, q: seq<nat>)
    requires CanLink(arch, mem, root, p, i, e, f)
    requires PathOk(arch, q) && |q| <= 3
    ensures Walk(arch, Linked(arch, mem, root, p, i, e, f), root, q) ==
            if q == p + [i] then Some(f) else Walk(arch, mem, root, q)
    decreases |q|
  {
    hide Addr, IsTable, Present, TreeOk, Outside, Follow, Linked, TableOk;
    if q != [] {
      var r, j := q[..|q| - 1], q[|q| - 1];
      PathPrefix(arch, q);
      LinkWalk(arch, mem, root, p, i, e, f, r);
      LinkFollow(arch, mem, root, p, i, e, f, r, j);
      FreshFollow(arch, mem, root, p, i, e, f, j);
      WalkStep(arch, mem, root, p, i);
      AppendSame(p, i, r, j);
    }
  }

  lemma AppendSame(p: seq<nat>, i: nat, r: seq<nat>, j: nat)
    ensures p + [i] == r + [j] <==> p == r && i == j
  {
    assert (p + [i])[..|p|] == p && (r + [j])[..|r|] == r;
    assert (p + [i])[|p|] == i && (r + [j])[|r|] == j;
    assert p + [i] == r + [j] ==> |p| + 1 == |r| + 1;
  }

  /** Nothing hangs below a table just linked, or below the entry it went into. */
  lemma FreshFollow(arch: Arch, mem: Tables, root: nat, p: seq<nat>, i: nat, e: nat, f: nat, j: nat)
    requires CanLink(arch, mem, root, p, i, e, f) && j < ENTRY_COUNT
    ensures Follow(arch, Linked(arch, mem, root, p, i, e, f), f, j) == None
    ensures Follow(arch, mem, Walk(arch, mem, root, p).value, i) == None
  {
    hide Addr, Walk, TreeOk;
    NotTableZero(arch);
  }

  /** The tree stays whole and unshared. */
  lemma LinkTree(arch: Arch, mem: Tables, root: nat, p: seq<nat>, i: nat, e: nat, f: nat)
    requires CanLink(arch, mem, root, p, i, e, f)
    ensures TreeOk(arch, Linked(arch, mem, root, p, i, e, f), root)
  {
    hide Addr, IsTable, Present, Follow, Framed;
    var mem' := Linked(arch, mem, root, p, i, e, f);
    forall q: seq<nat> | PathOk(arch, q) && |q| <= 3
      ensures Walk(arch, mem', root, q) == if q == p + [i] then Some(f) else Walk(arch, mem, root, q)
    {
      LinkWalk(arch, mem, root, p, i, e, f, q);
    }
  }

  /** The entry of a table, after linking. */
  lemma LinkEntry(arch: Arch, mem: Tables, root: nat, p: seq<nat>, i: nat, e: nat, f: nat, r: seq<nat>, j: nat)
    requires CanLink(arch, mem, root, p, i, e, f)
    requires PathOk(arch, r) && |r| <= 3 && j < ENTRY_COUNT && Walk(arch, mem, root, r).Some?
    ensures EntryAt(Linked(arch, mem, root, p, i, e, f), Walk(arch, mem, root, r).value, j) ==
            if r == p && j == i then e else EntryAt(mem, Walk(arch, mem, root, r).value, j)
  {
    hide Addr, Walk, IsTable, Present;
    var u, t := Walk(arch, mem, root, r).value, Walk(arch, mem, root, p).value;
    assert u != f;
    assert u == t ==> r == p;
  }

  /** No translation changes when a fresh table is linked. */
  lemma LinkLeaf(arch: Arch, mem: Tables, root: nat, p: seq<nat>, i: nat, e: nat, f: nat, q: seq<nat>)
    requires CanLink(arch, mem, root, p, i, e, f) && PathOk(arch, q) && |q| == 4
    ensures Leaf(arch, Linked(arch, mem, root, p, i, e, f), root, q) == Leaf(arch, mem, root, q)
  {
    hide Walk, Addr, IsTable, Present, TreeOk, Outside, TableOk, LinkTable;
    var r := q[..3];
    PathPrefix(arch, q);
    LinkWalk(arch, mem, root, p, i, e, f, r);
    if r == p + [i] {
      WalkStep(arch, mem, root, p, i);
      FreshFollow(arch, mem, root, p, i, e, f, 0);
      FreshEntry(arch, mem, root, p, i, e, f, q[3]);
    } else if Walk(arch, mem, root, r).Some? {
      LinkEntry(arch, mem, root, p, i, e, f, r, q[3]);
    }
  }

  lemma FreshEntry(arch: Arch, mem: Tables, root: nat, p: seq<nat>, i: nat, e: nat, f: nat, j: nat)
    requires CanLink(arch, mem, root, p, i, e, f) && j < ENTRY_COUNT
    ensures EntryAt(Linked(arch, mem, root, p, i, e, f), f, j) == 0
  {
    hide Addr, Walk, IsTable, Present, TreeOk;
  }

  lemma LinkBlocks(arch: Arch, mem: Tables, root: nat, p: seq<nat>, i: nat, e: nat, f: nat)
    requires CanLink(arch, mem, root, p, i, e, f) && NoBlocks(arch, mem, root)
    ensures NoBlocks(arch, Linked(arch, mem, root, p, i, e, f), root)
  {
    hide Walk, Addr, TreeOk, Outside, TableOk, Linked, LinkTable, EntryAt, Present, IsTable;
    var mem' := Linked(arch, mem, root, p, i, e, f);
    forall r: seq<nat>, j: nat | PathOk(arch, r) && |r| < 3 && PathOk(arch, r + [j])
      ensures NoBlock(arch, mem', root, r, j)
    {
      assert (r + [j])[|r|] == j;
      LinkWalk(arch, mem, root, p, i, e, f, r);
      NotTableZero(arch);
      FreshEntry(arch, mem, root, p, i, e, f, j);
      if r != p + [i] && Walk(arch, mem, root, r).Some? {
        LinkEntry(arch, mem, root, p, i, e, f, r, j);
        assert NoBlock(arch, mem, root, r, j);
      }
    }
  }

  lemma LinkOutside(arch: Arch, mem: Tables, root: nat, p: seq<nat>, i: nat, e: nat, f: nat, g: nat)
    requires CanLink(arch, mem, root, p, i, e, f) && Outside(arch, mem, root, g) && g != f
    ensures Outside(arch, Linked(arch, mem, root, p, i, e, f), root, g)
  {
    hide CanLink, Walk, Linked;
    forall q: seq<nat> | PathOk(arch, q) && |q| <= 3
      ensures Walk(arch, Linked(arch, mem, root, p, i, e, f), root, q) != Some(g)
    {
      LinkWalk(arch, mem, root, p, i, e, f, q);
    }
  }

  // ---------------------------------------------------------------- last-level entries

  /** `p` leads to a last-level table with an entry `i`. */
  ghost predicate CanSet(arch: Arch, mem: Tables, root: nat, p: seq<nat>, i: nat) {
    && TreeOk(arch, mem, root) && PathOk(arch, p) && |p| == 3 && Walk(arch, mem, root, p).Some?
    && TableOk(arch, mem, Walk(arch, mem, root, p).value) && i < ENTRY_COUNT
  }

  ghost function WithLeaf(arch: Arch, mem: Tables, root: nat, p: seq<nat>, i: nat, e: nat): Tables
    requires CanSet(arch, mem, root, p, i)
  {
    SetEntry(mem, Walk(arch, mem, root, p).value, i, e)
  }

  lemma SetEntryAt(arch: Arch, mem: Tables, root: nat, p: seq<nat>, i: nat, e: nat, r: seq<nat>, j: nat)
    requires CanSet(arch, mem, root, p, i)
    requires PathOk(arch, r) && |r| <= 3 && j < ENTRY_COUNT && Walk(arch, mem, root, r).Some?
    ensures EntryAt(WithLeaf(arch, mem, root, p, i, e), Walk(arch, mem, root, r).value, j) ==
            if r == p && j == i then e else EntryAt(mem, Walk(arch, mem, root, r).value, j)
  {
    hide Addr, Walk, IsTable, Present;
    var u, t := Walk(arch, mem, root, r).value, Walk(arch, mem, root, p).value;
    assert u == t ==> r == p;
  }

  lemma {:induction false} SetWalk(arch: Arch, mem: Tables, root: nat, p: seq<nat>, i: nat, e: nat, q: seq<nat>)
    requires CanSet(arch, mem, root, p, i) && PathOk(arch, q) && |q| <= 3
    ensures Walk(arch, WithLeaf(arch, mem, root, p, i, e), root, q) == Walk(arch, mem, root, q)
    decreases |q|
  {
    hide Addr, IsTable, Present, TreeOk, TableOk, WithLeaf, EntryAt;
    if q != [] {
      var r, j := q[..|q| - 1], q[|q| - 1];
      PathPrefix(arch, q);
      SetWalk(arch, mem, root, p, i, e, r);
      if Walk(arch, mem, root, r).Some? {
        SetEntryAt(arch, mem, root, p, i, e, r, j);
      }
    }
  }

  /** Writing a last-level entry changes that one translation and no table. */
  lemma SetLeaf(arch: Arch, mem: Tables, root: nat, p: seq<nat>, i: nat, e: nat, q: seq<nat>)
    requires CanSet(arch, mem, root, p, i) && PathOk(arch, q) && |q| == 4
    ensures Leaf(arch, WithLeaf(arch, mem, root, p, i, e), root, q) ==
            if q == p + [i] then e else Leaf(arch, mem, root, q)
  {
    hide Addr, IsTable, Present, TreeOk, TableOk, WithLeaf, EntryAt, Walk;
    var r := q[..3];
    PathPrefix(arch, q);
    SetWalk(arch, mem, root, p, i, e, r);
    AppendSame(p, i, r, q[3]);
    if Walk(arch, mem, root, r).Some? {
      SetEntryAt(arch, mem, root, p, i, e, r, q[3]);
    }
  }

  lemma SetTree(arch: Arch, mem: Tables, root: nat, p: seq<nat>, i: nat, e: nat)
    requires CanSet(arch, mem, root, p, i)
    ensures TreeOk(arch, WithLeaf(arch, mem, root, p, i, e), root)
  {
    hide Addr, IsTable, Present, Follow, Framed, Walk;
    var mem' := WithLeaf(arch, mem, root, p, i, e);
    forall q: seq<nat> | PathOk(arch, q) && |q| <= 3
      ensures Walk(arch, mem', root, q) == Walk(arch, mem, root, q)
    {
      SetWalk(arch, mem, root, p, i, e, q);
    }
  }

  lemma SetBlocks(arch: Arch, mem: Tables, root: nat, p: seq<nat>, i: nat, e: nat)
    requires CanSet(arch, mem, root, p, i) && NoBlocks(arch, mem, root)
    ensures NoBlocks(arch, WithLeaf(arch, mem, root, p, i, e), root)
  {
    hide Walk, Addr, TreeOk, TableOk, WithLeaf, EntryAt, Present, IsTable;
    var mem' := WithLeaf(arch, mem, root, p, i, e);
    forall r: seq<nat>, j: nat | PathOk(arch, r) && |r| < 3 && PathOk(arch, r + [j])
      ensures NoBlock(arch, mem', root, r, j)
    {
      assert (r + [j])[|r|] == j;
      SetWalk(arch, mem, root, p, i, e, r);
      if Walk(arch, mem, root, r).Some? {
        SetEntryAt(arch, mem, root, p, i, e, r, j);
        assert NoBlock(arch, mem, root, r, j);
      }
    }
  }

  lemma SetOutside(arch: Arch, mem: Tables, root: nat, p: seq<nat>, i: nat, e: nat, g: nat)
    requires CanSet(arch, mem, root, p, i) && Outside(arch, mem, root, g)
    ensures Outside(arch, WithLeaf(arch, mem, root, p, i, e), root, g)
  {
    hide CanSet, Walk, WithLeaf;
    forall q: seq<nat> | PathOk(arch, q) && |q| <= 3
      ensures Walk(arch, WithLeaf(arch, mem, root, p, i, e), root, q) != Some(g)
    {
      SetWalk(arch, mem, root, p, i, e, q);
    }
  }

  // ---------------------------------------------------------------- virtual addresses

  /** Address bits 39..47, 30..38, 21..29 and 12..20. */
  function PathOf(va: nat): (p: seq<nat>)
    ensures |p| == 4
  {
    [va / 0x80_0000_0000 % 512, va / 0x4000_0000 % 512, va / 0x20_0000 % 512, va / 0x1000 % 512]
  }

  /** The page an address lies on: address bits 12..47. */
  function PageKey(va: nat): nat { va / 0x1000 % 0x10_0000_0000 }

  /** Two addresses have the same path exactly when they agree in bits 12..47. */
  lemma SamePath(a: nat, b: nat)
    ensures PathOf(a) == PathOf(b) <==> PageKey(a) == PageKey(b)
  {
    hide PathOf, PageKey;
    KeyDigits(a);
    KeyDigits(b);
    var p, q := PathOf(a), PathOf(b);
    if PageKey(a) == PageKey(b) {
      assert p == [p[0], p[1], p[2], p[3]] && q == [q[0], q[1], q[2], q[3]];
    }
  }

  lemma KeyDigits(va: nat)
    ensures var p := PathOf(va);
      PageKey(va) == ((p[0] * 512 + p[1]) * 512 + p[2]) * 512 + p[3]
      && p[0] < 512 && p[1] < 512 && p[2] < 512 && p[3] < 512
  {
    var k := va / 0x1000;
    Shifts(va, k);
    Digits(k);
  }

  lemma Shifts(va: nat, k: nat)
    requires k == va / 0x1000
    ensures va / 0x20_0000 == k / 512 && va / 0x4000_0000 == k / 0x4_0000 && va / 0x80_0000_0000 == k / 0x800_0000
  {
    ModThenDiv(va, 0x1000, 512);
    ModThenDiv(va, 0x1000, 0x4_0000);
    ModThenDiv(va, 0x1000, 0x800_0000);
  }

  lemma Digits(k: nat)
    ensures k % 0x10_0000_0000 ==
      ((k / 0x800_0000 % 512 * 512 + k / 0x4_0000 % 512) * 512 + k / 512 % 512) * 512 + k % 512
  {
    var a, b, c := k / 512, k / 0x4_0000, k / 0x800_0000;
    ModThenDiv(k, 512, 0x800_0000);
    ModThenDiv(k, 512, 512);
    ModThenDiv(k, 512, 0x4_0000);
    ModThenDiv(a, 512, 0x4_0000);
    ModThenDiv(a, 512, 512);
    ModThenDiv(b, 512, 512);
  }
}
