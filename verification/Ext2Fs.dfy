/**
 A mounted ext2 file system over the block cache, with the allocator of
 src/fs/ext2/alloc.c. The cache errors the C code checks for cannot occur here:
 every block number is in range and the cache is calm, which is asserted at each
 access.
 */
module Ext2Core {
  import opened Common
  import opened Arith
  import opened Bits
  import opened BlockCaching
  import opened Ext2Layout

  const U16: nat := 0x1_0000
  const U32: nat := 0x1_0000_0000

  /** The mutable counters of one kind: bg_free_*_count per group and s_free_*_count. */
  datatype Ledger = Ledger(counts: seq<nat>, total: nat)

  /** Group counts are the zero bits plus the drift left by double frees, modulo the
      width of the counters; the superblock's count is their sum. */
  ghost predicate Tally(zeros: seq<nat>, ledger: Ledger, drift: seq<nat>) {
    && |ledger.counts| == |drift| == |zeros|
    && (forall g :: 0 <= g < |zeros| ==> ledger.counts[g] == Wrap16(zeros[g] + drift[g]))
    && ledger.total == Wrap32(Sum(zeros) + Sum(drift))
  }

  /** Values as a 16-bit group count and as the 32-bit superblock count hold them. */
  function Wrap16(a: nat): nat { a % U16 }

  function Wrap32(a: nat): nat { a % U32 }

  /** The counters after one allocation from group `g`. */
  function Debit(ledger: Ledger, g: nat): Ledger
    requires g < |ledger.counts| && ledger.counts[g] > 0
  {
    Ledger(MinusOneAt(ledger.counts, g), Wrap32(ledger.total + U32 - 1))
  }

  /** The counters after one free in group `g`. */
  function Credit(ledger: Ledger, g: nat): Ledger
    requires g < |ledger.counts|
  {
    Ledger(BumpAt(ledger.counts, g), Wrap32(ledger.total + 1))
  }

  /** A u16 group count after one free. */
  function BumpAt(counts: seq<nat>, g: nat): seq<nat>
    requires g < |counts|
  {
    counts[g := Wrap16(counts[g] + 1)]
  }

  function PlusOneAt(counts: seq<nat>, g: nat): seq<nat>
    requires g < |counts|
  {
    counts[g := counts[g] + 1]
  }

  function MinusOneAt(counts: seq<nat>, g: nat): seq<nat>
    requires g < |counts| && counts[g] > 0
  {
    counts[g := counts[g] - 1]
  }

  lemma Wrap16Plus(a: nat)
    ensures Wrap16(a + 1) == Wrap16(Wrap16(a) + 1)
  {
    var q, r := a / 0x1_0000, a % 0x1_0000;
    assert a + 1 == q * 0x1_0000 + (r + 1);
  }

  lemma Wrap16Minus(a: nat)
    requires a >= 1 && Wrap16(a) != 0
    ensures Wrap16(a - 1) == Wrap16(a) - 1
  {
    var q, r := a / 0x1_0000, a % 0x1_0000;
    assert a - 1 == q * 0x1_0000 + (r - 1);
  }

  lemma Wrap32Plus(a: nat)
    ensures Wrap32(a + 1) == Wrap32(Wrap32(a) + 1)
  {
    var q, r := a / 0x1_0000_0000, a % 0x1_0000_0000;
    assert a + 1 == q * 0x1_0000_0000 + (r + 1);
  }

  lemma Wrap32Minus(a: nat)
    requires a >= 1
    ensures Wrap32(a - 1) == Wrap32(Wrap32(a) + U32 - 1)
  {
    var q, r := a / 0x1_0000_0000, a % 0x1_0000_0000;
    assert a - 1 == q * 0x1_0000_0000 + (r - 1);
  }

  lemma WrapStep(a: nat)
    ensures Wrap16(a + 1) == Wrap16(Wrap16(a) + 1) && Wrap32(a + 1) == Wrap32(Wrap32(a) + 1)
    ensures a >= 1 && Wrap16(a) != 0 ==> Wrap16(a - 1) == Wrap16(a) - 1
    ensures a >= 1 ==> Wrap32(a - 1) == Wrap32(Wrap32(a) + U32 - 1)
  {
    hide Wrap16, Wrap32;
    Wrap16Plus(a);
    Wrap32Plus(a);
    if a >= 1 {
      if Wrap16(a) != 0 { Wrap16Minus(a); }
      Wrap32Minus(a);
    }
  }

  lemma TallyAlloc(zeros: seq<nat>, ledger: Ledger, drift: seq<nat>, g: nat)
    requires Tally(zeros, ledger, drift) && g < |zeros| && zeros[g] > 0 && ledger.counts[g] != 0
    ensures Tally(MinusOneAt(zeros, g), Debit(ledger, g), drift)
  {
    hide Wrap16, Wrap32, Sum;
    SumUpdate(zeros, g, zeros[g] - 1);
    WrapStep(zeros[g] + drift[g]);
    WrapStep(Sum(zeros) + Sum(drift));
  }

  lemma TallyFree(zeros: seq<nat>, ledger: Ledger, drift: seq<nat>, g: nat)
    requires Tally(zeros, ledger, drift) && g < |zeros|
    ensures Tally(PlusOneAt(zeros, g), Credit(ledger, g), drift)
  {
    hide Wrap16, Wrap32, Sum;
    SumUpdate(zeros, g, zeros[g] + 1);
    WrapStep(zeros[g] + drift[g]);
    WrapStep(Sum(zeros) + Sum(drift));
  }

  lemma TallyDoubleFree(zeros: seq<nat>, ledger: Ledger, drift: seq<nat>, g: nat)
    requires Tally(zeros, ledger, drift) && g < |zeros|
    ensures Tally(zeros, Credit(ledger, g), PlusOneAt(drift, g))
  {
    hide Wrap16, Wrap32, Sum;
    SumUpdate(drift, g, drift[g] + 1);
    WrapStep(zeros[g] + drift[g]);
    WrapStep(Sum(zeros) + Sum(drift));
  }

  /** One kind's counters agree with its bitmaps. */
  ghost predicate LedgerOk(geo: Geometry, vol: seq<Block>, kind: Kind, ledger: Ledger, drift: seq<nat>) {
    VolumeOk(geo, vol) && Tally(ZerosPerGroup(geo, vol, kind), ledger, drift)
  }

  lemma AllocLedger(geo: Geometry, vol: seq<Block>, kind: Kind, g: nat, bit: nat, ledger: Ledger, drift: seq<nat>)
    requires LedgerOk(geo, vol, kind, ledger, drift) && g < |geo.groups| && bit < PerGroup(geo, kind)
    requires FreeBit(geo, vol, kind, g, bit) && ledger.counts[g] != 0
    ensures LedgerOk(geo, WriteBit(geo, vol, kind, g, bit, true), kind, Debit(ledger, g), drift)
  {
    hide Tally, VolumeOk, FreeBit, GroupZeros, WriteBit;
    WriteBitZeros(geo, vol, kind, g, bit, true);
    WriteBitZerosPerGroup(geo, vol, kind, g, bit, true, kind);
    TallyAlloc(ZerosPerGroup(geo, vol, kind), ledger, drift, g);
  }

  /** Freeing a used bit keeps the drift; freeing a free one adds exactly one to it. */
  lemma FreeLedger(geo: Geometry, vol: seq<Block>, kind: Kind, g: nat, bit: nat, ledger: Ledger, drift: seq<nat>)
    requires LedgerOk(geo, vol, kind, ledger, drift) && g < |geo.groups| && bit < PerGroup(geo, kind)
    ensures LedgerOk(geo, WriteBit(geo, vol, kind, g, bit, false), kind, Credit(ledger, g),
                     if FreeBit(geo, vol, kind, g, bit) then PlusOneAt(drift, g) else drift)
  {
    hide Tally, VolumeOk, FreeBit, GroupZeros, WriteBit;
    WriteBitZeros(geo, vol, kind, g, bit, false);
    WriteBitZerosPerGroup(geo, vol, kind, g, bit, false, kind);
    var z := ZerosPerGroup(geo, vol, kind);
    if FreeBit(geo, vol, kind, g, bit) {
      assert z[g := z[g]] == z;
      TallyDoubleFree(z, ledger, drift, g);
    } else {
      TallyFree(z, ledger, drift, g);
    }
  }

  lemma OtherLedger(geo: Geometry, vol: seq<Block>, kind: Kind, g: nat, bit: nat, used: bool,
                    k': Kind, ledger: Ledger, drift: seq<nat>)
    requires LedgerOk(geo, vol, k', ledger, drift) && g < |geo.groups| && bit < PerGroup(geo, kind)
    requires k' != kind
    ensures LedgerOk(geo, WriteBit(geo, vol, kind, g, bit, used), k', ledger, drift)
  {
    WriteBitZerosPerGroup(geo, vol, kind, g, bit, used, k');
  }

  predicate IsBitmap(geo: Geometry, b: nat) {
    exists g :: 0 <= g < |geo.groups| && (geo.groups[g].blockBitmap == b || geo.groups[g].inodeBitmap == b)
  }

  lemma DataWriteKeepsBitmaps(geo: Geometry, vol: seq<Block>, b: nat, data: Block)
    requires VolumeOk(geo, vol) && b < |vol| && |data| == geo.blockSize && !IsBitmap(geo, b)
    ensures VolumeOk(geo, vol[b := data])
    ensures forall kind: Kind, g: nat :: g < |geo.groups| ==>
              BitmapBlock(geo, kind, g) != b &&
              vol[b := data][BitmapBlock(geo, kind, g)] == vol[BitmapBlock(geo, kind, g)]
  {
  }

  lemma DataWriteKeepsBooks(geo: Geometry, vol: seq<Block>, b: nat, data: Block)
    requires VolumeOk(geo, vol) && b < |vol| && |data| == geo.blockSize && !IsBitmap(geo, b)
    ensures VolumeOk(geo, vol[b := data])
    ensures forall kind: Kind :: ZerosPerGroup(geo, vol[b := data], kind) == ZerosPerGroup(geo, vol, kind)
    ensures forall kind: Kind, n: nat :: IsFree(geo, vol[b := data], kind, n) <==> IsFree(geo, vol, kind, n)
  {
    DataWriteKeepsBitmaps(geo, vol, b, data);
    forall kind: Kind
      ensures ZerosPerGroup(geo, vol[b := data], kind) == ZerosPerGroup(geo, vol, kind)
    {
    }
  }

  lemma DataWriteLedger(geo: Geometry, vol: seq<Block>, b: nat, data: Block, kind: Kind, ledger: Ledger, drift: seq<nat>)
    requires LedgerOk(geo, vol, kind, ledger, drift)
    requires b < |vol| && |data| == geo.blockSize && !IsBitmap(geo, b)
    ensures LedgerOk(geo, vol[b := data], kind, ledger, drift)
  {
    hide Tally, IsBitmap;
    DataWriteKeepsBooks(geo, vol, b, data);
  }

  /** The first `n` bits of group `g` are in use. */
  ghost predicate FullBelow(geo: Geometry, vol: seq<Block>, kind: Kind, g: nat, n: nat)
  {
    && VolumeOk(geo, vol) && g < |geo.groups| && n <= PerGroup(geo, kind)
    && forall bit :: 0 <= bit < n ==> !FreeBit(geo, vol, kind, g, bit)
  }

  /** The allocator passes over group `g`. */
  ghost predicate Exhausted(geo: Geometry, vol: seq<Block>, kind: Kind, ledger: Ledger, g: nat)
  {
    (g < |ledger.counts| && ledger.counts[g] == 0) || FullBelow(geo, vol, kind, g, PerGroup(geo, kind))
  }

  /** Too few double frees so far for a group count to wrap around. */
  ghost predicate NoWrap(geo: Geometry, kind: Kind, drift: seq<nat>) {
    forall g :: 0 <= g < |drift| ==> PerGroup(geo, kind) + drift[g] < U16
  }

  ghost predicate NoneFree(geo: Geometry, vol: seq<Block>, kind: Kind)
  {
    VolumeOk(geo, vol) && forall m: nat :: !IsFree(geo, vol, kind, m)
  }

  /** From `vol` to `vol'`, `n` was free, its bit is now set and no other number's status changed. */
  ghost predicate Allocated(geo: Geometry, vol: seq<Block>, vol': seq<Block>, kind: Kind, n: nat)
  {
    && VolumeOk(geo, vol)
    && IsFree(geo, vol, kind, n)
    && vol' == WriteBit(geo, vol, kind, GroupOf(geo, kind, n), BitOf(geo, kind, n), true)
    && VolumeOk(geo, vol')
    && forall k': Kind, m: nat ::
         IsFree(geo, vol', k', m) <==> ((k', m) != (kind, n) && IsFree(geo, vol, k', m))
  }

  /** Every smaller free number (every free number, on failure) is in a group whose count reads zero. */
  ghost predicate FirstFit(geo: Geometry, vol: seq<Block>, kind: Kind, ledger: Ledger, r: Result<nat>)
  {
    && VolumeOk(geo, vol) && |ledger.counts| == |geo.groups|
    && forall m: nat :: IsFree(geo, vol, kind, m) && (r.Err? || m < r.value) ==>
      ledger.counts[GroupOf(geo, kind, m)] == 0
  }

  /** Blocks other than bitmaps are the same in both volumes. */
  ghost predicate SameData(geo: Geometry, vol: seq<Block>, vol': seq<Block>) {
    |vol| == |vol'| && forall c :: 0 <= c < |vol| && !IsBitmap(geo, c) ==> vol'[c] == vol[c]
  }

  lemma AllocatedFrame(geo: Geometry, vol: seq<Block>, vol': seq<Block>, kind: Kind, n: nat)
    requires Allocated(geo, vol, vol', kind, n)
    ensures SameData(geo, vol, vol')
  {
    hide GeometryOk, WellSized, FreeBit;
    BitmapIsBitmap(geo, vol, kind, n);
  }

  lemma BitmapIsBitmap(geo: Geometry, vol: seq<Block>, kind: Kind, n: nat)
    requires VolumeOk(geo, vol) && n >= Base(geo, kind) && GroupOf(geo, kind, n) < |geo.groups|
    ensures IsBitmap(geo, BitmapBlock(geo, kind, GroupOf(geo, kind, n)))
    ensures BitmapBlock(geo, kind, GroupOf(geo, kind, n)) < |vol|
    ensures BitOf(geo, kind, n) < 8 * |vol[BitmapBlock(geo, kind, GroupOf(geo, kind, n))]|
  {
  }

  lemma NumberOrder(geo: Geometry, kind: Kind, m: nat, n: nat)
    requires PerGroup(geo, kind) > 0 && Base(geo, kind) <= m < n
    ensures GroupOf(geo, kind, m) <= GroupOf(geo, kind, n)
    ensures GroupOf(geo, kind, m) == GroupOf(geo, kind, n) ==> BitOf(geo, kind, m) < BitOf(geo, kind, n)
  {
    var d := PerGroup(geo, kind);
    var a, b := GroupOf(geo, kind, m), GroupOf(geo, kind, n);
    assert m - Base(geo, kind) == a * d + BitOf(geo, kind, m);
    assert n - Base(geo, kind) == b * d + BitOf(geo, kind, n);
    assert (a - b) * d == a * d - b * d;
    MulAtLeast(a - b, d);
  }

  /** A group count that has not wrapped is nonzero while a number of the group is free. */
  lemma CountNonzero(geo: Geometry, vol: seq<Block>, kind: Kind, ledger: Ledger, drift: seq<nat>, m: nat)
    requires LedgerOk(geo, vol, kind, ledger, drift) && IsFree(geo, vol, kind, m)
    requires PerGroup(geo, kind) + drift[GroupOf(geo, kind, m)] < U16
    ensures ledger.counts[GroupOf(geo, kind, m)] != 0
  {
    hide Tally;
    var g := GroupOf(geo, kind, m);
    var bm := vol[BitmapBlock(geo, kind, g)];
    SomeZeroBit(bm, PerGroup(geo, kind), BitOf(geo, kind, m));
    assert ZerosPerGroup(geo, vol, kind)[g] == Zeros(bm, PerGroup(geo, kind));
    TallyNonzero(ZerosPerGroup(geo, vol, kind), ledger, drift, g);
  }

  lemma TallyNonzero(zeros: seq<nat>, ledger: Ledger, drift: seq<nat>, g: nat)
    requires Tally(zeros, ledger, drift) && g < |zeros| && zeros[g] > 0 && zeros[g] + drift[g] < U16
    ensures ledger.counts[g] != 0
  {
  }

  lemma SomeZeroBit(bm: Block, n: nat, i: nat)
    requires i < n <= 8 * |bm| && !BitAt(bm, i)
    ensures Zeros(bm, n) > 0
  {
    ZerosIsZero(bm, n);
  }

  lemma AllocEffect(geo: Geometry, vol: seq<Block>, kind: Kind, ledger: Ledger, drift: seq<nat>, g: nat, bit: nat)
    requires LedgerOk(geo, vol, kind, ledger, drift) && g < |geo.groups| && bit < PerGroup(geo, kind)
    requires FreeBit(geo, vol, kind, g, bit) && FullBelow(geo, vol, kind, g, bit)
    requires forall h :: 0 <= h < g ==> Exhausted(geo, vol, kind, ledger, h)
    ensures var n := NumberOf(geo, kind, g, bit);
            && Allocated(geo, vol, WriteBit(geo, vol, kind, g, bit, true), kind, n)
            && FirstFit(geo, vol, kind, ledger, Ok(n))
            && !NoneFree(geo, vol, kind)
  {
    var n := NumberOf(geo, kind, g, bit);
    NumberingInverse(geo, kind, g, bit, n);
    TakenEffect(geo, vol, WriteBit(geo, vol, kind, g, bit, true), kind, n);
    forall m: nat | IsFree(geo, vol, kind, m) && m < n
      ensures ledger.counts[GroupOf(geo, kind, m)] == 0
    {
      NumberOrder(geo, kind, m, n);
      if GroupOf(geo, kind, m) < g {
        assert Exhausted(geo, vol, kind, ledger, GroupOf(geo, kind, m));
        NumberingInverse(geo, kind, g, bit, m);
      }
    }
  }

  lemma TakenEffect(geo: Geometry, vol: seq<Block>, vol': seq<Block>, kind: Kind, n: nat)
    requires VolumeOk(geo, vol) && IsFree(geo, vol, kind, n)
    requires vol' == WriteBit(geo, vol, kind, GroupOf(geo, kind, n), BitOf(geo, kind, n), true)
    ensures Allocated(geo, vol, vol', kind, n)
  {
    hide WriteBit, FreeBit, WellSized;
    WriteBitFree(geo, vol, kind, n, true, kind, n);
    forall k': Kind, m: nat
      ensures IsFree(geo, vol', k', m) <==> ((k', m) != (kind, n) && IsFree(geo, vol, k', m))
    {
      WriteBitFree(geo, vol, kind, n, true, k', m);
    }
  }

  /** Numbers the free routines accept. */
  predicate Exists(geo: Geometry, kind: Kind, n: nat) {
    && Base(geo, kind) <= n < Limit(geo, kind)
    && PerGroup(geo, kind) > 0 && GroupOf(geo, kind, n) < |geo.groups|
  }

  /** The numbers ext2_free_block and ext2_free_inode refuse. */
  predicate NoSuchNumber(geo: Geometry, kind: Kind, n: nat)
    requires geo.blocksPerGroup > 0 && geo.inodesPerGroup > 0
  {
    if kind.Blocks? then n < geo.firstDataBlock || n >= geo.blocksCount || (n - geo.firstDataBlock) / geo.blocksPerGroup >= |geo.groups|
    else n == 0 || n > geo.inodesCount || (n - 1) / geo.inodesPerGroup >= |geo.groups|
  }

  lemma RefusedExactly(geo: Geometry, kind: Kind, n: nat)
    requires geo.blocksPerGroup > 0 && geo.inodesPerGroup > 0
    ensures NoSuchNumber(geo, kind, n) <==> !Exists(geo, kind, n)
  {
  }

  lemma GroupsNotEmpty(geo: Geometry, vol: seq<Block>)
    requires VolumeOk(geo, vol)
    ensures geo.blocksPerGroup > 0 && geo.inodesPerGroup > 0 && forall kind: Kind :: PerGroup(geo, kind) > 0
  {
    assert PerGroup(geo, Blocks) > 0 && PerGroup(geo, Inodes) > 0;
  }

  /** From `vol` to `vol'` the bit of `n` was cleared and no other number's status changed. */
  ghost predicate Freed(geo: Geometry, vol: seq<Block>, vol': seq<Block>, kind: Kind, n: nat) {
    && VolumeOk(geo, vol) && n >= Base(geo, kind) && GroupOf(geo, kind, n) < |geo.groups|
    && vol' == WriteBit(geo, vol, kind, GroupOf(geo, kind, n), BitOf(geo, kind, n), false)
    && VolumeOk(geo, vol')
    && forall k': Kind, m: nat ::
         IsFree(geo, vol', k', m) <==> ((k', m) == (kind, n) || IsFree(geo, vol, k', m))
  }

  /** Clearing a clear bit leaves the volume as it was. */
  lemma DoubleFree(geo: Geometry, vol: seq<Block>, kind: Kind, n: nat)
    requires VolumeOk(geo, vol) && n >= Base(geo, kind) && GroupOf(geo, kind, n) < |geo.groups|
    ensures IsFree(geo, vol, kind, n) ==>
              WriteBit(geo, vol, kind, GroupOf(geo, kind, n), BitOf(geo, kind, n), false) == vol
  {
    var b := BitmapBlock(geo, kind, GroupOf(geo, kind, n));
    if IsFree(geo, vol, kind, n) {
      ClearSame(vol[b], BitOf(geo, kind, n));
      assert vol[b := vol[b]] == vol;
    }
  }

  lemma LedgerFacts(geo: Geometry, vol: seq<Block>, kind: Kind, ledger: Ledger, drift: seq<nat>, n: nat)
    requires LedgerOk(geo, vol, kind, ledger, drift) && n >= Base(geo, kind)
    ensures VolumeOk(geo, vol) && PerGroup(geo, kind) > 0 && |ledger.counts| == |drift| == |geo.groups|
    ensures BitOf(geo, kind, n) < PerGroup(geo, kind)
  {
  }

  lemma FreedEffect(geo: Geometry, vol: seq<Block>, vol': seq<Block>, kind: Kind, n: nat)
    requires VolumeOk(geo, vol) && n >= Base(geo, kind) && GroupOf(geo, kind, n) < |geo.groups|
    requires vol' == WriteBit(geo, vol, kind, GroupOf(geo, kind, n), BitOf(geo, kind, n), false)
    ensures Freed(geo, vol, vol', kind, n)
  {
    hide WriteBit, FreeBit, WellSized;
    WriteBitFree(geo, vol, kind, n, false, kind, n);
    forall k': Kind, m: nat
      ensures IsFree(geo, vol', k', m) <==> ((k', m) == (kind, n) || IsFree(geo, vol, k', m))
    {
      WriteBitFree(geo, vol, kind, n, false, k', m);
    }
  }

  lemma AllocFailure(geo: Geometry, vol: seq<Block>, kind: Kind, ledger: Ledger, drift: seq<nat>)
    requires LedgerOk(geo, vol, kind, ledger, drift)
    requires forall h :: 0 <= h < |geo.groups| ==> Exhausted(geo, vol, kind, ledger, h)
    ensures FirstFit(geo, vol, kind, ledger, Err(NoMemory))
    ensures NoWrap(geo, kind, drift) ==> NoneFree(geo, vol, kind)
  {
    forall m: nat | IsFree(geo, vol, kind, m)
      ensures ledger.counts[GroupOf(geo, kind, m)] == 0
    {
      assert Exhausted(geo, vol, kind, ledger, GroupOf(geo, kind, m));
      NumberingInverse(geo, kind, 0, 0, m);
    }
    if NoWrap(geo, kind, drift) {
      forall m: nat ensures !IsFree(geo, vol, kind, m) {
        if IsFree(geo, vol, kind, m) { CountNonzero(geo, vol, kind, ledger, drift, m); }
      }
    }
  }

  // ---------------------------------------------------------------- whole runs

  datatype AllocOp = Get(kind: Kind) | Put(kind: Kind, n: nat)

  /** One call: an allocation, a free, or a failure that changes nothing. */
  ghost predicate Churned(geo: Geometry, vol: seq<Block>, vol': seq<Block>, op: AllocOp, r: Result<nat>) {
    && VolumeOk(geo, vol) && VolumeOk(geo, vol')
    && match op
    case Get(kind) => if r.Ok? then Allocated(geo, vol, vol', kind, r.value) else vol' == vol
    case Put(kind, n) =>
      && r == (if Exists(geo, kind, n) then Ok(n) else Err(Invalid))
      && if r.Ok? then Freed(geo, vol, vol', kind, n) else vol' == vol
  }

  /** Call `k` handed out number `n`; call `k` freed it. */
  predicate HandsOut(ops: seq<AllocOp>, rs: seq<Result<nat>>, k: nat, kind: Kind, n: nat)
    requires k < |ops| && k < |rs|
  {
    ops[k] == Get(kind) && rs[k] == Ok(n)
  }

  predicate Frees(ops: seq<AllocOp>, rs: seq<Result<nat>>, k: nat, kind: Kind, n: nat)
    requires k < |ops| && k < |rs|
  {
    ops[k] == Put(kind, n) && rs[k].Ok?
  }

  /** Whether `n` is free just before call `k`, told from the initial volume and the results. */
  ghost predicate FreeAt(geo: Geometry, vol: seq<Block>, ops: seq<AllocOp>, rs: seq<Result<nat>>, k: nat, kind: Kind, n: nat)
    requires k <= |ops| && k <= |rs|
  {
    if k == 0 then VolumeOk(geo, vol) && IsFree(geo, vol, kind, n)
    else if HandsOut(ops, rs, k - 1, kind, n) then false
    else Frees(ops, rs, k - 1, kind, n) || FreeAt(geo, vol, ops, rs, k - 1, kind, n)
  }

  /** Call `k` freed a number of group `g` that was free already. */
  ghost predicate FreesTwice(geo: Geometry, vol: seq<Block>, ops: seq<AllocOp>, rs: seq<Result<nat>>, k: nat, kind: Kind, g: nat)
    requires k < |ops| && k < |rs|
  {
    && ops[k].Put? && ops[k].kind == kind && rs[k].Ok? && Exists(geo, kind, ops[k].n)
    && GroupOf(geo, kind, ops[k].n) == g && FreeAt(geo, vol, ops, rs, k, kind, ops[k].n)
  }

  /** The double frees of a run, in one group. */
  ghost function DoubleFrees(geo: Geometry, vol: seq<Block>, ops: seq<AllocOp>, rs: seq<Result<nat>>, k: nat, kind: Kind, g: nat): nat
    requires k <= |ops| && k <= |rs|
  {
    if k == 0 then 0
    else DoubleFrees(geo, vol, ops, rs, k - 1, kind, g) + if FreesTwice(geo, vol, ops, rs, k - 1, kind, g) then 1 else 0
  }

  /** The volume is where the first `k` results leave it. */
  ghost predicate VolumeAt(geo: Geometry, vol0: seq<Block>, vol: seq<Block>, ops: seq<AllocOp>, rs: seq<Result<nat>>, k: nat) {
    && k <= |ops| && k <= |rs| && VolumeOk(geo, vol)
    && forall kind: Kind, n: nat :: IsFree(geo, vol, kind, n) <==> FreeAt(geo, vol0, ops, rs, k, kind, n)
  }

  /** The drift has grown by exactly the double frees. */
  ghost predicate DriftAt(geo: Geometry, vol0: seq<Block>, ops: seq<AllocOp>, rs: seq<Result<nat>>, k: nat, kind: Kind,
                          drift0: seq<nat>, drift: seq<nat>) {
    && k <= |ops| && k <= |rs| && |drift| == |drift0|
    && forall g :: 0 <= g < |drift| ==> drift[g] == drift0[g] + DoubleFrees(geo, vol0, ops, rs, k, kind, g)
  }

  /** No count of the kind has wrapped just before call `k`. */
  ghost predicate NoWrapAt(geo: Geometry, vol0: seq<Block>, ops: seq<AllocOp>, rs: seq<Result<nat>>, k: nat, kind: Kind, drift0: seq<nat>)
    requires k <= |ops| && k <= |rs|
  {
    forall g :: 0 <= g < |drift0| ==> PerGroup(geo, kind) + drift0[g] + DoubleFrees(geo, vol0, ops, rs, k, kind, g) < U16
  }

  /** Result `k` is right: a number handed out was free, an allocation failed only with nothing free
      (unless counts had wrapped by then), and a free is refused exactly for numbers that do not exist. */
  ghost predicate ResultOk(geo: Geometry, vol0: seq<Block>, ops: seq<AllocOp>, rs: seq<Result<nat>>, k: nat, drift0: seq<nat>)
    requires k < |ops| && k < |rs|
  {
    match ops[k]
    case Get(kind) =>
      if rs[k].Ok? then FreeAt(geo, vol0, ops, rs, k, kind, rs[k].value)
      else rs[k] == Err(NoMemory) && (NoWrapAt(geo, vol0, ops, rs, k, kind, drift0) ==> forall n: nat :: !FreeAt(geo, vol0, ops, rs, k, kind, n))
    case Put(kind, n) => rs[k] == if Exists(geo, kind, n) then Ok(n) else Err(Invalid)
  }

  /** What one call does to the drift of `kind`. */
  ghost predicate DriftStep(geo: Geometry, vol: seq<Block>, op: AllocOp, r: Result<nat>, kind: Kind, drift: seq<nat>, drift': seq<nat>) {
    && |drift'| == |drift|
    && forall g :: 0 <= g < |drift| ==> drift'[g] == drift[g] + if DriftsAt(geo, vol, op, r, kind, g) then 1 else 0
  }

  ghost predicate DriftsAt(geo: Geometry, vol: seq<Block>, op: AllocOp, r: Result<nat>, kind: Kind, g: nat) {
    && op.Put? && op.kind == kind && r.Ok? && Exists(geo, kind, op.n) && GroupOf(geo, kind, op.n) == g
    && VolumeOk(geo, vol) && IsFree(geo, vol, kind, op.n)
  }

  /** The past does not depend on later calls. */
  lemma {:induction false} FreeAtPrefix(geo: Geometry, vol: seq<Block>, ops: seq<AllocOp>, rs: seq<Result<nat>>, r: Result<nat>, k: nat,
                                        kind: Kind, n: nat)
    requires k <= |rs| <= |ops|
    ensures FreeAt(geo, vol, ops, rs + [r], k, kind, n) <==> FreeAt(geo, vol, ops, rs, k, kind, n)
  {
    hide VolumeOk, IsFree;
    if k > 0 {
      FreeAtPrefix(geo, vol, ops, rs, r, k - 1, kind, n);
      assert (rs + [r])[k - 1] == rs[k - 1];
    }
  }

  lemma {:induction false} DoubleFreesPrefix(geo: Geometry, vol: seq<Block>, ops: seq<AllocOp>, rs: seq<Result<nat>>, r: Result<nat>, k: nat,
                                             kind: Kind, g: nat)
    requires k <= |rs| <= |ops|
    ensures DoubleFrees(geo, vol, ops, rs + [r], k, kind, g) == DoubleFrees(geo, vol, ops, rs, k, kind, g)
  {
    hide FreeAt, Exists;
    if k > 0 {
      DoubleFreesPrefix(geo, vol, ops, rs, r, k - 1, kind, g);
      assert (rs + [r])[k - 1] == rs[k - 1];
      if ops[k - 1].Put? { FreeAtPrefix(geo, vol, ops, rs, r, k - 1, kind, ops[k - 1].n); }
    }
  }

  lemma VolumeStart(geo: Geometry, vol: seq<Block>, ops: seq<AllocOp>)
    requires VolumeOk(geo, vol)
    ensures VolumeAt(geo, vol, vol, ops, [], 0)
  {
    hide VolumeOk, IsFree;
  }

  lemma VolumeStep(geo: Geometry, vol0: seq<Block>, vol: seq<Block>, vol': seq<Block>, ops: seq<AllocOp>, rs: seq<Result<nat>>,
                   r: Result<nat>, k: nat)
    requires k < |ops| && |rs| == k && VolumeAt(geo, vol0, vol, ops, rs, k) && Churned(geo, vol, vol', ops[k], r)
    ensures VolumeAt(geo, vol0, vol', ops, rs + [r], k + 1)
  {
    hide VolumeOk, IsFree, WriteBit, FreeAt;
    var rs' := rs + [r];
    forall kind: Kind, n: nat
      ensures IsFree(geo, vol', kind, n) <==> FreeAt(geo, vol0, ops, rs', k + 1, kind, n)
    {
      FreeAtPrefix(geo, vol0, ops, rs, r, k, kind, n);
      FreeAtStep(geo, vol0, ops, rs', k, kind, n);
      assert rs'[k] == r;
    }
  }

  lemma FreeAtStep(geo: Geometry, vol0: seq<Block>, ops: seq<AllocOp>, rs: seq<Result<nat>>, k: nat, kind: Kind, n: nat)
    requires k < |ops| && k < |rs|
    ensures FreeAt(geo, vol0, ops, rs, k + 1, kind, n) <==>
      !HandsOut(ops, rs, k, kind, n) && (Frees(ops, rs, k, kind, n) || FreeAt(geo, vol0, ops, rs, k, kind, n))
  {
    hide VolumeOk, IsFree;
  }

  lemma DriftRun(geo: Geometry, vol0: seq<Block>, vol: seq<Block>, ops: seq<AllocOp>, rs: seq<Result<nat>>, r: Result<nat>, k: nat,
                 kind: Kind, drift0: seq<nat>, drift: seq<nat>, drift': seq<nat>)
    requires k < |ops| && |rs| == k && VolumeAt(geo, vol0, vol, ops, rs, k)
    requires DriftAt(geo, vol0, ops, rs, k, kind, drift0, drift) && DriftStep(geo, vol, ops[k], r, kind, drift, drift')
    ensures DriftAt(geo, vol0, ops, rs + [r], k + 1, kind, drift0, drift')
  {
    hide VolumeOk, IsFree, FreeAt, Exists;
    var rs' := rs + [r];
    assert rs'[k] == r;
    forall g | 0 <= g < |drift'| ensures drift'[g] == drift0[g] + DoubleFrees(geo, vol0, ops, rs', k + 1, kind, g) {
      DoubleFreesPrefix(geo, vol0, ops, rs, r, k, kind, g);
      if ops[k].Put? { FreeAtPrefix(geo, vol0, ops, rs, r, k, kind, ops[k].n); }
    }
  }

  /** An earlier result stays right as the run goes on. */
  lemma ResultStays(geo: Geometry, vol0: seq<Block>, ops: seq<AllocOp>, rs: seq<Result<nat>>, r: Result<nat>, k: nat, drift0: seq<nat>)
    requires k < |rs| <= |ops| && ResultOk(geo, vol0, ops, rs, k, drift0)
    ensures ResultOk(geo, vol0, ops, rs + [r], k, drift0)
  {
    hide VolumeOk, IsFree, FreeAt, Exists, DoubleFrees;
    assert (rs + [r])[k] == rs[k];
    if ops[k].Get? {
      forall g | 0 <= g < |drift0|
        ensures DoubleFrees(geo, vol0, ops, rs + [r], k, ops[k].kind, g) == DoubleFrees(geo, vol0, ops, rs, k, ops[k].kind, g)
      {
        DoubleFreesPrefix(geo, vol0, ops, rs, r, k, ops[k].kind, g);
      }
      forall n: nat ensures FreeAt(geo, vol0, ops, rs + [r], k, ops[k].kind, n) <==> FreeAt(geo, vol0, ops, rs, k, ops[k].kind, n) {
        FreeAtPrefix(geo, vol0, ops, rs, r, k, ops[k].kind, n);
      }
    }
  }

  lemma ResultNow(geo: Geometry, vol0: seq<Block>, vol: seq<Block>, vol': seq<Block>, ops: seq<AllocOp>, rs: seq<Result<nat>>,
                  r: Result<nat>, k: nat, drift0: seq<nat>, drift: seq<nat>)
    requires k < |ops| && |rs| == k && VolumeAt(geo, vol0, vol, ops, rs, k) && Churned(geo, vol, vol', ops[k], r)
    requires DriftAt(geo, vol0, ops, rs, k, ops[k].kind, drift0, drift)
    requires ops[k].Get? && r.Err? ==> r.error == NoMemory && (NoWrap(geo, ops[k].kind, drift) ==> NoneFree(geo, vol, ops[k].kind))
    ensures ResultOk(geo, vol0, ops, rs + [r], k, drift0)
  {
    hide VolumeOk, IsFree, FreeAt, Exists, WriteBit, DoubleFrees;
    assert (rs + [r])[k] == r;
    if ops[k].Get? {
      forall g | 0 <= g < |drift0|
        ensures DoubleFrees(geo, vol0, ops, rs + [r], k, ops[k].kind, g) == DoubleFrees(geo, vol0, ops, rs, k, ops[k].kind, g)
      {
        DoubleFreesPrefix(geo, vol0, ops, rs, r, k, ops[k].kind, g);
      }
      forall n: nat ensures FreeAt(geo, vol0, ops, rs + [r], k, ops[k].kind, n) <==> IsFree(geo, vol, ops[k].kind, n) {
        FreeAtPrefix(geo, vol0, ops, rs, r, k, ops[k].kind, n);
      }
    }
  }

  /** A number handed out twice was freed, successfully, in between. */
  lemma {:induction false} FreedBetween(geo: Geometry, vol0: seq<Block>, ops: seq<AllocOp>, rs: seq<Result<nat>>, i: nat, j: nat,
                                        kind: Kind, n: nat)
    requires i < j <= |rs| <= |ops| && HandsOut(ops, rs, i, kind, n) && FreeAt(geo, vol0, ops, rs, j, kind, n)
    ensures exists k :: i < k < j && Frees(ops, rs, k, kind, n)
    decreases j
  {
    hide VolumeOk, IsFree, FreeAt;
    FreeAtStep(geo, vol0, ops, rs, j - 1, kind, n);
    if !(i < j - 1 && Frees(ops, rs, j - 1, kind, n)) && i < j - 1 {
      FreedBetween(geo, vol0, ops, rs, i, j - 1, kind, n);
    }
  }

  /** A run without double frees that starts without drift ends without drift, so the counts are the
      zero bits and the superblock's count is their sum. */
  lemma BooksBalance(geo: Geometry, vol0: seq<Block>, vol: seq<Block>, ops: seq<AllocOp>, rs: seq<Result<nat>>, kind: Kind,
                     ledger: Ledger, drift: seq<nat>)
    requires |rs| == |ops| && LedgerOk(geo, vol, kind, ledger, drift)
    requires DriftAt(geo, vol0, ops, rs, |ops|, kind, NoDrift(geo), drift)
    requires forall k, g: nat :: 0 <= k < |ops| ==> !FreesTwice(geo, vol0, ops, rs, k, kind, g)
    ensures drift == NoDrift(geo) && |ledger.counts| == |geo.groups|
    ensures forall g :: 0 <= g < |geo.groups| ==> ledger.counts[g] == Wrap16(ZerosPerGroup(geo, vol, kind)[g])
    ensures ledger.total == Wrap32(Sum(ZerosPerGroup(geo, vol, kind)))
  {
    hide VolumeOk, FreesTwice, ZerosPerGroup, Sum;
    forall g | 0 <= g < |drift| ensures drift[g] == 0 { NoneTwice(geo, vol0, ops, rs, |ops|, kind, g); }
    NoDriftSum(drift);
  }

  lemma {:induction false} NoneTwice(geo: Geometry, vol0: seq<Block>, ops: seq<AllocOp>, rs: seq<Result<nat>>, k: nat, kind: Kind, g: nat)
    requires k <= |ops| == |rs|
    requires forall j :: 0 <= j < |ops| ==> !FreesTwice(geo, vol0, ops, rs, j, kind, g)
    ensures DoubleFrees(geo, vol0, ops, rs, k, kind, g) == 0
  {
    hide FreesTwice;
    if k > 0 { NoneTwice(geo, vol0, ops, rs, k - 1, kind, g); }
  }

  lemma {:induction false} NoDriftSum(drift: seq<nat>)
    requires forall g :: 0 <= g < |drift| ==> drift[g] == 0
    ensures Sum(drift) == 0
  {
    if drift != [] { NoDriftSum(drift[..|drift| - 1]); }
  }

  ghost function NoDrift(geo: Geometry): seq<nat> { seq(|geo.groups|, _ => 0) }

  class Ext2Fs {
    const geo: Geometry
    const cache: BlockCache
    var blocks: Ledger
    var inodes: Ledger
    var dirty: bool

    /** The volume as the cache presents it. */
    ghost var vol: seq<Block>

    /** Double frees so far, per group. */
    ghost var blockDrift: seq<nat>
    ghost var inodeDrift: seq<nat>

    /** Mount a consistent volume: descriptors and superblock already agree with the bitmaps. */
    constructor (g: Geometry, c: BlockCache, bl: Ledger, il: Ledger)
      requires c.Valid() && c.Calm() && c.blockSize == g.blockSize
      requires LedgerOk(g, c.View(), Blocks, bl, NoDrift(g)) && LedgerOk(g, c.View(), Inodes, il, NoDrift(g))
      ensures Valid() && geo == g && cache == c && vol == c.View()
      ensures blocks == bl && inodes == il && blockDrift == NoDrift(g) && inodeDrift == NoDrift(g)
    {
      hide LedgerOk;
      geo, cache, blocks, inodes, dirty := g, c, bl, il, false;
      vol, blockDrift, inodeDrift := c.View(), NoDrift(g), NoDrift(g);
    }

    /** The cache is in a calm state and stands for `vol`. */
    ghost predicate Synced()
      reads this`vol, cache, cache.slots, cache.device
    {
      cache.Valid() && cache.Calm() && cache.blockSize == geo.blockSize && cache.View() == vol
    }

    /** Counters agree with the bitmaps. */
    ghost predicate Books()
      reads this
    {
      LedgerOk(geo, vol, Blocks, blocks, blockDrift) && LedgerOk(geo, vol, Inodes, inodes, inodeDrift)
    }

    ghost predicate Valid()
      reads this, cache, cache.slots, cache.device
    {
      Synced() && Books()
    }

    function LedgerFor(kind: Kind): Ledger
      reads this
    {
      if kind.Blocks? then blocks else inodes
    }

    ghost function DriftFor(kind: Kind): seq<nat>
      reads this
    {
      if kind.Blocks? then blockDrift else inodeDrift
    }

    method SetLedger(kind: Kind, ledger: Ledger, ghost drift: seq<nat>)
      modifies this`blocks, this`inodes, this`dirty, this`blockDrift, this`inodeDrift
      ensures blocks == (if kind.Blocks? then ledger else old(blocks))
      ensures inodes == (if kind.Blocks? then old(inodes) else ledger)
      ensures blockDrift == (if kind.Blocks? then drift else old(blockDrift))
      ensures inodeDrift == (if kind.Blocks? then old(inodeDrift) else drift)
      ensures dirty
    {
      if kind.Blocks? {
        blocks, blockDrift := ledger, drift;
      } else {
        inodes, inodeDrift := ledger, drift;
      }
      dirty := true;
    }

    /** block_cache_read of a block the volume has; its error returns cannot occur. */
    method ReadBlock(b: nat) returns (data: Block)
      requires Synced() && b < |vol|
      modifies cache, cache.slots, cache.device
      ensures Synced() && data == vol[b]
    {
      var r := cache.Read(b);
      assert r.Ok?;
      data := r.value;
    }

    /** block_cache_write of a block the volume has; its error returns cannot occur. */
    method WriteBlock(b: nat, data: Block)
      requires Synced() && b < |vol| && |data| == geo.blockSize
      modifies this`vol, cache, cache.slots, cache.device
      ensures Synced() && vol == old(vol)[b := data]
    {
      var r := cache.Write(b, data);
      assert r.Ok?;
      vol := vol[b := data];
    }

    /** Write a block that is not a bitmap: the books still balance. */
    method WriteData(b: nat, data: Block)
      requires Valid() && b < |vol| && |data| == geo.blockSize && !IsBitmap(geo, b)
      modifies this`vol, cache, cache.slots, cache.device
      ensures Valid() && vol == old(vol)[b := data]
    {
      hide Synced, LedgerOk, IsBitmap;
      DataWriteLedger(geo, vol, b, data, Blocks, blocks, blockDrift);
      DataWriteLedger(geo, vol, b, data, Inodes, inodes, inodeDrift);
      WriteBlock(b, data);
    }

    /** Write back a bitmap in which one bit was set or cleared. */
    method StoreBit(kind: Kind, g: nat, bit: nat, used: bool, bitmap: Block)
      requires Valid() && g < |geo.groups| && bit < PerGroup(geo, kind)
      requires bitmap == vol[BitmapBlock(geo, kind, g)]
      modifies this`vol, cache, cache.slots, cache.device
      ensures Synced() && vol == WriteBit(geo, old(vol), kind, g, bit, used)
    {
      hide Synced;
      WriteBlock(BitmapBlock(geo, kind, g), if used then WithBit(bitmap, bit) else WithoutBit(bitmap, bit));
    }

    /** Mark a free bit used and decrement both counters. */
    method TakeBit(kind: Kind, g: nat, bit: nat, bitmap: Block)
      requires Valid() && g < |geo.groups| && bit < PerGroup(geo, kind)
      requires bitmap == vol[BitmapBlock(geo, kind, g)]
      requires FreeBit(geo, vol, kind, g, bit)
      requires g < |LedgerFor(kind).counts| && LedgerFor(kind).counts[g] != 0
      modifies this, cache, cache.slots, cache.device
      ensures Valid() && vol == WriteBit(geo, old(vol), kind, g, bit, true)
      ensures LedgerFor(kind) == Debit(old(LedgerFor(kind)), g) && dirty
      ensures blockDrift == old(blockDrift) && inodeDrift == old(inodeDrift)
    {
      hide Synced, LedgerOk, WriteBit, FreeBit;
      ghost var k' := if kind.Blocks? then Inodes else Blocks;
      AllocLedger(geo, vol, kind, g, bit, LedgerFor(kind), DriftFor(kind));
      OtherLedger(geo, vol, kind, g, bit, true, k', LedgerFor(k'), DriftFor(k'));
      StoreBit(kind, g, bit, true, bitmap);
      SetLedger(kind, Debit(LedgerFor(kind), g), DriftFor(kind));
    }

    /** One turn of the loop in ext2_alloc_block and ext2_alloc_inode. */
    method TryGroup(kind: Kind, g: nat) returns (r: Option<nat>)
      requires Valid() && g < |geo.groups|
      modifies this, cache, cache.slots, cache.device
      ensures Valid() && blockDrift == old(blockDrift) && inodeDrift == old(inodeDrift)
      ensures r.None? ==>
        && vol == old(vol) && blocks == old(blocks) && inodes == old(inodes)
        && Exhausted(geo, vol, kind, LedgerFor(kind), g)
      ensures r.Some? ==>
        && r.value < PerGroup(geo, kind)
        && old(FreeBit(geo, vol, kind, g, r.value))
        && FullBelow(geo, old(vol), kind, g, r.value)
        && vol == WriteBit(geo, old(vol), kind, g, r.value, true)
        && old(LedgerFor(kind)).counts[g] != 0 && LedgerFor(kind) == Debit(old(LedgerFor(kind)), g) && dirty
    {
      hide Synced;
      if LedgerFor(kind).counts[g] == 0 { return None; }
      var bitmap := ReadBlock(BitmapBlock(geo, kind, g));
      var bit := FindFirstZeroBit(bitmap);
      if bit < 0 || bit >= PerGroup(geo, kind) { return None; }
      TakeBit(kind, g, bit, bitmap);
      r := Some(bit);
    }

    /** ext2_alloc_block and ext2_alloc_inode: take the first free number of the first group
        whose count is not zero. Failure leaves everything alone and means that every group
        is full or shows a zero count. */
    method Alloc(kind: Kind) returns (r: Result<nat>)
      requires Valid()
      modifies this, cache, cache.slots, cache.device
      ensures Valid() && blockDrift == old(blockDrift) && inodeDrift == old(inodeDrift)
      ensures r.Err? ==> r.error == NoMemory && vol == old(vol) && blocks == old(blocks) && inodes == old(inodes)
      ensures r.Ok? ==> Allocated(geo, old(vol), vol, kind, r.value)
      ensures r.Ok? ==> BitTaken(geo, old(vol), vol, kind, r.value) && dirty
      ensures FirstFit(geo, old(vol), kind, old(LedgerFor(kind)), r)
      ensures NoWrap(geo, kind, DriftFor(kind)) ==> (r.Err? <==> NoneFree(geo, old(vol), kind))
    {
      hide Synced, LedgerOk, Allocated, FirstFit, Exhausted, NoneFree, NoWrap, BitTaken;
      var g := 0;
      while g < |geo.groups|
        invariant 0 <= g <= |geo.groups|
        invariant Valid() && vol == old(vol) && blocks == old(blocks) && inodes == old(inodes)
        invariant blockDrift == old(blockDrift) && inodeDrift == old(inodeDrift)
        invariant forall h :: 0 <= h < g ==> Exhausted(geo, vol, kind, LedgerFor(kind), h)
      {
        ghost var v0, l0 := vol, LedgerFor(kind);
        var bit := TryGroup(kind, g);
        if bit.Some? {
          AllocEffect(geo, v0, kind, l0, DriftFor(kind), g, bit.value);
          WriteBitRaw(geo, v0, kind, g, bit.value);
          r := Ok(NumberOf(geo, kind, g, bit.value));
          return;
        }
        g := g + 1;
      }
      AllocFailure(geo, vol, kind, LedgerFor(kind), DriftFor(kind));
      r := Err(NoMemory);
    }

    /** ext2_free_block and ext2_free_inode: clear the bit and bump both counters, whether or
        not the bit was set. A double free changes no bitmap and adds exactly one to the
        drift of its group. */
    method Free(kind: Kind, n: nat) returns (r: Result<()>)
      requires Valid()
      modifies this, cache, cache.slots, cache.device
      ensures Valid()
      ensures r == if Exists(geo, kind, n) then Ok(()) else Err(Invalid)
      ensures r.Err? ==> vol == old(vol) && blocks == old(blocks) && inodes == old(inodes)
      ensures r.Err? ==> blockDrift == old(blockDrift) && inodeDrift == old(inodeDrift)
      ensures geo.blocksPerGroup > 0 && geo.inodesPerGroup > 0 && (r.Err? <==> NoSuchNumber(geo, kind, n))
      ensures r.Ok? ==> BitCleared(geo, old(vol), vol, kind, n) && dirty
      ensures r.Ok? ==> Freed(geo, old(vol), vol, kind, n)
      ensures r.Ok? && old(IsFree(geo, vol, kind, n)) ==>
        && vol == old(vol)
        && DriftFor(kind) == PlusOneAt(old(DriftFor(kind)), GroupOf(geo, kind, n))
      ensures r.Ok? && !old(IsFree(geo, vol, kind, n)) ==> DriftFor(kind) == old(DriftFor(kind))
      ensures kind.Blocks? ==> inodes == old(inodes) && inodeDrift == old(inodeDrift)
      ensures kind.Inodes? ==> blocks == old(blocks) && blockDrift == old(blockDrift)
    {
      hide Synced, FreeBit, BitCleared, NoSuchNumber, Freed, WriteBit, LedgerOk, GroupOf, BitOf, NumberOf, VolumeOk;
      DriftShape(geo, vol, kind, LedgerFor(kind), DriftFor(kind));
      GroupsNotEmpty(geo, vol);
      RefusedExactly(geo, kind, n);
      if n < Base(geo, kind) || n >= Limit(geo, kind) { return Err(Invalid); }
      var g := GroupOf(geo, kind, n);
      if g >= |geo.groups| { return Err(Invalid); }
      var bit := BitOf(geo, kind, n);
      DoubleFree(geo, vol, kind, n);
      NumberingInverse(geo, kind, 0, 0, n);
      WriteBitRaw(geo, vol, kind, g, bit);
      ClearAndCredit(kind, g, bit, n);
      r := Ok(());
    }

    method ClearAndCredit(kind: Kind, g: nat, bit: nat, ghost n: nat)
      requires Valid() && n >= Base(geo, kind) && g < |geo.groups|
      requires g == GroupOf(geo, kind, n) && bit == BitOf(geo, kind, n)
      modifies this, cache, cache.slots, cache.device
      ensures Valid() && Freed(geo, old(vol), vol, kind, n) && vol == WriteBit(geo, old(vol), kind, g, bit, false)
      ensures LedgerFor(kind) == Credit(old(LedgerFor(kind)), g) && dirty
      ensures DriftFor(kind) ==
        if old(IsFree(geo, vol, kind, n)) then PlusOneAt(old(DriftFor(kind)), g) else old(DriftFor(kind))
      ensures kind.Blocks? ==> inodes == old(inodes) && inodeDrift == old(inodeDrift)
      ensures kind.Inodes? ==> blocks == old(blocks) && blockDrift == old(blockDrift)
    {
      hide Synced, LedgerOk, WriteBit, FreeBit, Freed;
      LedgerFacts(geo, vol, kind, LedgerFor(kind), DriftFor(kind), n);
      ghost var k' := if kind.Blocks? then Inodes else Blocks;
      FreeLedger(geo, vol, kind, g, bit, LedgerFor(kind), DriftFor(kind));
      OtherLedger(geo, vol, kind, g, bit, false, k', LedgerFor(k'), DriftFor(k'));
      var bitmap := ReadBlock(BitmapBlock(geo, kind, g));
      FreedEffect(geo, vol, WriteBit(geo, vol, kind, g, bit, false), kind, n);
      ghost var drift := if FreeBit(geo, vol, kind, g, bit) then PlusOneAt(DriftFor(kind), g) else DriftFor(kind);
      StoreBit(kind, g, bit, false, bitmap);
      SetLedger(kind, Credit(LedgerFor(kind), g), drift);
    }

    /** Any run of allocations and frees. The results tell exactly which numbers are free at any
        point; every result is right; and the drift of every group has grown by exactly the number of
        frees of a number that was free already. */
    method Churn(ops: seq<AllocOp>) returns (rs: seq<Result<nat>>)
      requires Valid()
      modifies this, cache, cache.slots, cache.device
      ensures Valid() && |rs| == |ops| && VolumeAt(geo, old(vol), vol, ops, rs, |ops|)
      ensures DriftAt(geo, old(vol), ops, rs, |ops|, Blocks, old(blockDrift), blockDrift)
      ensures DriftAt(geo, old(vol), ops, rs, |ops|, Inodes, old(inodeDrift), inodeDrift)
      ensures forall k :: 0 <= k < |ops| ==> ResultOk(geo, old(vol), ops, rs, k, old(DriftFor(ops[k].kind)))
    {
      hide Synced, LedgerOk, VolumeOk, FreeAt, VolumeAt, DriftAt, DriftStep, Churned, ResultOk, NoneFree, NoWrap;
      rs := [];
      var k := 0;
      ghost var v0 := vol;
      RunStart(geo, vol, ops, blocks, blockDrift, inodes, inodeDrift);
      while k < |ops|
        invariant 0 <= k <= |ops| && |rs| == k && Valid() && VolumeAt(geo, v0, vol, ops, rs, k)
        invariant DriftAt(geo, v0, ops, rs, k, Blocks, old(blockDrift), blockDrift)
        invariant DriftAt(geo, v0, ops, rs, k, Inodes, old(inodeDrift), inodeDrift)
        invariant forall j :: 0 <= j < k ==> ResultOk(geo, v0, ops, rs, j, old(DriftFor(ops[j].kind)))
      {
        ghost var v1, bd, id := vol, blockDrift, inodeDrift;
        var r := AllocOrFree(ops[k]);
        VolumeStep(geo, v0, v1, vol, ops, rs, r, k);
        DriftRun(geo, v0, v1, ops, rs, r, k, Blocks, old(blockDrift), bd, blockDrift);
        DriftRun(geo, v0, v1, ops, rs, r, k, Inodes, old(inodeDrift), id, inodeDrift);
        ResultNow(geo, v0, v1, vol, ops, rs, r, k, old(DriftFor(ops[k].kind)), if ops[k].kind.Blocks? then bd else id);
        forall j | 0 <= j < k ensures ResultOk(geo, v0, ops, rs + [r], j, old(DriftFor(ops[j].kind))) {
          ResultStays(geo, v0, ops, rs, r, j, old(DriftFor(ops[j].kind)));
        }
        rs := rs + [r];
        k := k + 1;
      }
    }

    method AllocOrFree(op: AllocOp) returns (r: Result<nat>)
      requires Valid()
      modifies this, cache, cache.slots, cache.device
      ensures Valid() && Churned(geo, old(vol), vol, op, r)
      ensures DriftStep(geo, old(vol), op, r, Blocks, old(blockDrift), blockDrift)
      ensures DriftStep(geo, old(vol), op, r, Inodes, old(inodeDrift), inodeDrift)
      ensures op.Get? && r.Err? ==> r.error == NoMemory && (NoWrap(geo, op.kind, old(DriftFor(op.kind))) ==> NoneFree(geo, old(vol), op.kind))
    {
      hide Synced, Tally, VolumeOk, Allocated, Freed, FirstFit, IsFree, NoneFree, NoWrap;
      match op
      case Get(kind) =>
        r := Alloc(kind);
      case Put(kind, n) =>
        ghost var v0 := vol;
        DriftShape(geo, vol, kind, LedgerFor(kind), DriftFor(kind));
        var e := Free(kind, n);
        r := if e.Ok? then Ok(n) else Err(e.error);
    }
  }

  lemma DriftShape(geo: Geometry, vol: seq<Block>, kind: Kind, ledger: Ledger, drift: seq<nat>)
    requires LedgerOk(geo, vol, kind, ledger, drift)
    ensures VolumeOk(geo, vol) && |drift| == |geo.groups|
  {
    hide VolumeOk;
  }

  lemma RunStart(geo: Geometry, vol: seq<Block>, ops: seq<AllocOp>, bl: Ledger, bd: seq<nat>, il: Ledger, id: seq<nat>)
    requires LedgerOk(geo, vol, Blocks, bl, bd) && LedgerOk(geo, vol, Inodes, il, id)
    ensures VolumeAt(geo, vol, vol, ops, [], 0)
    ensures DriftAt(geo, vol, ops, [], 0, Blocks, bd, bd) && DriftAt(geo, vol, ops, [], 0, Inodes, id, id)
  {
    hide VolumeOk, Tally, VolumeAt;
    VolumeStart(geo, vol, ops);
  }
}
