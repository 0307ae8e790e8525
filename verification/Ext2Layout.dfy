/**
 An ext2 volume as an array of blocks: block groups, allocation bitmaps and the
 numbering shared by src/fs/ext2/alloc.c and src/fs/ext2/superblock.c.

 Blocks and inodes are allocated by the same code with other constants, so most
 definitions take a `Kind`.
 */
module Ext2Layout {
  import opened Common
  import opened Arith
  import opened Bits

  datatype Kind = Blocks | Inodes

  datatype Group = Group(blockBitmap: nat, inodeBitmap: nat, inodeTable: nat)

  /** The fields of the superblock and the group descriptors that never change after mount. */
  datatype Geometry = Geometry(
    blockSize: nat,
    firstDataBlock: nat,
    blocksCount: nat,
    blocksPerGroup: nat,
    inodesCount: nat,
    inodesPerGroup: nat,
    inodeSize: nat,
    groups: seq<Group>)

  function Base(geo: Geometry, kind: Kind): nat {
    if kind.Blocks? then geo.firstDataBlock else 1
  }

  function PerGroup(geo: Geometry, kind: Kind): nat {
    if kind.Blocks? then geo.blocksPerGroup else geo.inodesPerGroup
  }

  /** First number past the ones that exist. */
  function Limit(geo: Geometry, kind: Kind): nat {
    if kind.Blocks? then geo.blocksCount else geo.inodesCount + 1
  }

  function BitmapBlock(geo: Geometry, kind: Kind, g: nat): nat
    requires g < |geo.groups|
  {
    if kind.Blocks? then geo.groups[g].blockBitmap else geo.groups[g].inodeBitmap
  }

  // ---------------------------------------------------------------- numbering

  function NumberOf(geo: Geometry, kind: Kind, g: nat, bit: nat): nat {
    Base(geo, kind) + g * PerGroup(geo, kind) + bit
  }

  /** ext2_get_block_group and ext2_get_inode_group. */
  function GroupOf(geo: Geometry, kind: Kind, n: nat): nat
    requires PerGroup(geo, kind) > 0 && n >= Base(geo, kind)
  {
    (n - Base(geo, kind)) / PerGroup(geo, kind)
  }

  function BitOf(geo: Geometry, kind: Kind, n: nat): nat
    requires PerGroup(geo, kind) > 0 && n >= Base(geo, kind)
  {
    (n - Base(geo, kind)) % PerGroup(geo, kind)
  }

  /** The allocator's numbering and the group lookup invert each other. */
  lemma NumberingInverse(geo: Geometry, kind: Kind, g: nat, bit: nat, n: nat)
    requires bit < PerGroup(geo, kind)
    ensures var m := NumberOf(geo, kind, g, bit);
            GroupOf(geo, kind, m) == g && BitOf(geo, kind, m) == bit
            && m == if kind.Blocks? then geo.firstDataBlock + g * geo.blocksPerGroup + bit else g * geo.inodesPerGroup + bit + 1
    ensures n >= Base(geo, kind) ==>
              && BitOf(geo, kind, n) < PerGroup(geo, kind)
              && NumberOf(geo, kind, GroupOf(geo, kind, n), BitOf(geo, kind, n)) == n
  {
    DivModUnique(g, bit, PerGroup(geo, kind));
  }

  // ---------------------------------------------------------------- bitmaps

  ghost predicate WellSized(geo: Geometry, vol: seq<Block>) {
    forall b :: 0 <= b < |vol| ==> |vol[b]| == geo.blockSize
  }

  /** Geometry that the code relies on: groups fit their bitmap, bitmap blocks are
      distinct blocks of the volume, and the last number fits. */
  ghost predicate GeometryOk(geo: Geometry, numBlocks: nat) {
    && 0 < geo.blockSize <= 0x1_0000
    && geo.blockSize % 4 == 0
    && geo.blocksCount <= numBlocks <= 0x1_0000_0000
    && (forall kind: Kind :: 0 < PerGroup(geo, kind) <= 8 * geo.blockSize)
    && (forall kind: Kind, g: nat :: g < |geo.groups| ==> BitmapBlock(geo, kind, g) < numBlocks)
    && (forall k1: Kind, g1: nat, k2: Kind, g2: nat ::
          (g1 < |geo.groups| && g2 < |geo.groups| && BitmapBlock(geo, k1, g1) == BitmapBlock(geo, k2, g2))
          ==> k1 == k2 && g1 == g2)
  }

  ghost predicate VolumeOk(geo: Geometry, vol: seq<Block>) {
    GeometryOk(geo, |vol|) && WellSized(geo, vol)
  }

  /** Bit `bit` of group `g` is zero. */
  ghost predicate FreeBit(geo: Geometry, vol: seq<Block>, kind: Kind, g: nat, bit: nat)
    requires VolumeOk(geo, vol) && g < |geo.groups| && bit < PerGroup(geo, kind)
  {
    !BitAt(vol[BitmapBlock(geo, kind, g)], bit)
  }

  /** Block or inode number `n` is free. */
  ghost predicate IsFree(geo: Geometry, vol: seq<Block>, kind: Kind, n: nat)
    requires VolumeOk(geo, vol)
  {
    && n >= Base(geo, kind)
    && GroupOf(geo, kind, n) < |geo.groups|
    && FreeBit(geo, vol, kind, GroupOf(geo, kind, n), BitOf(geo, kind, n))
  }

  /** The volume after setting or clearing one bitmap bit. */
  function WriteBit(geo: Geometry, vol: seq<Block>, kind: Kind, g: nat, bit: nat, used: bool): (r: seq<Block>)
    requires g < |geo.groups| && BitmapBlock(geo, kind, g) < |vol|
    requires bit < 8 * |vol[BitmapBlock(geo, kind, g)]|
    ensures |r| == |vol|
    ensures forall b :: 0 <= b < |vol| && b != BitmapBlock(geo, kind, g) ==> r[b] == vol[b]
  {
    var b := BitmapBlock(geo, kind, g);
    vol[b := if used then WithBit(vol[b], bit) else WithoutBit(vol[b], bit)]
  }

  /** Number `n` is bit `bit` of group `g`: blocks count from the first data block, inodes from 1. */
  predicate Numbered(geo: Geometry, kind: Kind, g: nat, bit: nat, n: nat) {
    if kind.Blocks? then bit < geo.blocksPerGroup && n == geo.firstDataBlock + g * geo.blocksPerGroup + bit
    else bit < geo.inodesPerGroup && n == g * geo.inodesPerGroup + bit + 1
  }

  /** The bitmap byte that holds bit `bit` of group `g`, and the digit of the bit in it. */
  predicate BitmapByte(geo: Geometry, vol: seq<Block>, kind: Kind, g: nat, bit: nat, m: nat, x: nat, digit: nat) {
    && g < |geo.groups| && m == (if kind.Blocks? then geo.groups[g].blockBitmap else geo.groups[g].inodeBitmap)
    && m < |vol| && bit / 8 < |vol[m]| && x == vol[m][bit / 8] as nat && digit == x / Pow2(bit % 8) % 2
  }

  function WithByte(b: Block, i: nat, v: nat): Block
    requires i < |b| && v < 256
  {
    b[i := v]
  }

  /** Number `n` of the kind was free in `vol` and is taken in `vol'`: in the bitmap's bytes, its bit
      went from 0 to 1 and nothing else changed. */
  ghost predicate BitTaken(geo: Geometry, vol: seq<Block>, vol': seq<Block>, kind: Kind, n: nat) {
    exists g: nat, bit: nat, m: nat, x: nat ::
      && Numbered(geo, kind, g, bit, n) && BitmapByte(geo, vol, kind, g, bit, m, x, 0)
      && x + Pow2(bit % 8) < 256 && vol' == vol[m := WithByte(vol[m], bit / 8, x + Pow2(bit % 8))]
  }

  /** Its bit is 0 in `vol'`, and nothing else changed. */
  ghost predicate BitCleared(geo: Geometry, vol: seq<Block>, vol': seq<Block>, kind: Kind, n: nat) {
    exists g: nat, bit: nat, m: nat, x: nat, digit: nat ::
      && Numbered(geo, kind, g, bit, n) && BitmapByte(geo, vol, kind, g, bit, m, x, digit)
      && if digit == 0 then vol' == vol
         else x - Pow2(bit % 8) >= 0 && vol' == vol[m := WithByte(vol[m], bit / 8, x - Pow2(bit % 8))]
  }

  lemma WriteBitRaw(geo: Geometry, vol: seq<Block>, kind: Kind, g: nat, bit: nat)
    requires VolumeOk(geo, vol) && g < |geo.groups| && bit < PerGroup(geo, kind)
    ensures FreeBit(geo, vol, kind, g, bit) ==> BitTaken(geo, vol, WriteBit(geo, vol, kind, g, bit, true), kind, NumberOf(geo, kind, g, bit))
    ensures BitCleared(geo, vol, WriteBit(geo, vol, kind, g, bit, false), kind, NumberOf(geo, kind, g, bit))
  {
    hide TestBit, SetBit, ClearBit, Pow2;
    var m := BitmapBlock(geo, kind, g);
    var x := vol[m][bit / 8] as nat;
    var digit := x / Pow2(bit % 8) % 2;
    BitIsDigit(x, bit % 8);
    assert Numbered(geo, kind, g, bit, NumberOf(geo, kind, g, bit)) && BitmapByte(geo, vol, kind, g, bit, m, x, digit);
    if FreeBit(geo, vol, kind, g, bit) {
      ByteRange();
      WordBounds(x, bit % 8, 8);
      assert vol[m := WithBit(vol[m], bit)] == vol[m := WithByte(vol[m], bit / 8, x + Pow2(bit % 8))];
      ClearSame(vol[m], bit);
      assert vol[m := vol[m]] == vol;
    } else {
      assert vol[m := WithoutBit(vol[m], bit)] == vol[m := WithByte(vol[m], bit / 8, x - Pow2(bit % 8))];
    }
  }

  lemma WriteBitEffect(geo: Geometry, vol: seq<Block>, kind: Kind, g: nat, bit: nat, used: bool,
                       k': Kind, g': nat, bit': nat)
    requires VolumeOk(geo, vol) && g < |geo.groups| && bit < PerGroup(geo, kind)
    requires g' < |geo.groups| && bit' < PerGroup(geo, k')
    ensures VolumeOk(geo, WriteBit(geo, vol, kind, g, bit, used))
    ensures FreeBit(geo, WriteBit(geo, vol, kind, g, bit, used), k', g', bit') <==>
            if (k', g', bit') == (kind, g, bit) then !used else FreeBit(geo, vol, k', g', bit')
  {
    if (k', g') == (kind, g) && bit' != bit {
      OtherBits(vol[BitmapBlock(geo, kind, g)], bit, bit');
    }
  }

  /** Setting or clearing the bit of number `n` changes the status of `n` only. */
  lemma WriteBitFree(geo: Geometry, vol: seq<Block>, kind: Kind, n: nat, used: bool, k': Kind, m: nat)
    requires VolumeOk(geo, vol) && n >= Base(geo, kind) && GroupOf(geo, kind, n) < |geo.groups|
    ensures var vol' := WriteBit(geo, vol, kind, GroupOf(geo, kind, n), BitOf(geo, kind, n), used);
            VolumeOk(geo, vol') &&
            (IsFree(geo, vol', k', m) <==> if (k', m) == (kind, n) then !used else IsFree(geo, vol, k', m))
  {
    var g, bit := GroupOf(geo, kind, n), BitOf(geo, kind, n);
    NumberingInverse(geo, kind, g, bit, n);
    WriteBitEffect(geo, vol, kind, g, bit, used, kind, g, bit);
    if m >= Base(geo, k') && GroupOf(geo, k', m) < |geo.groups| {
      NumberingInverse(geo, k', GroupOf(geo, k', m), BitOf(geo, k', m), m);
      WriteBitEffect(geo, vol, kind, g, bit, used, k', GroupOf(geo, k', m), BitOf(geo, k', m));
    }
  }

  // ---------------------------------------------------------------- counting

  function GroupZeros(geo: Geometry, vol: seq<Block>, kind: Kind, g: nat): nat
    requires g < |geo.groups| && BitmapBlock(geo, kind, g) < |vol|
    requires PerGroup(geo, kind) <= 8 * |vol[BitmapBlock(geo, kind, g)]|
  {
    Zeros(vol[BitmapBlock(geo, kind, g)], PerGroup(geo, kind))
  }

  function Sum(s: seq<nat>): nat {
    if s == [] then 0 else Sum(s[..|s| - 1]) + s[|s| - 1]
  }

  lemma {:induction false} SumUpdate(s: seq<nat>, i: nat, x: nat)
    requires i < |s|
    ensures Sum(s[i := x]) == Sum(s) - s[i] + x
  {
    if i < |s| - 1 {
      SumUpdate(s[..|s| - 1], i, x);
      assert s[i := x][..|s| - 1] == s[..|s| - 1][i := x];
    } else {
      assert s[i := x][..|s| - 1] == s[..|s| - 1];
    }
  }

  ghost function ZerosPerGroup(geo: Geometry, vol: seq<Block>, kind: Kind): (z: seq<nat>)
    requires VolumeOk(geo, vol)
    ensures |z| == |geo.groups|
    ensures forall g :: 0 <= g < |z| ==> z[g] == GroupZeros(geo, vol, kind, g)
  {
    seq(|geo.groups|, g requires 0 <= g < |geo.groups| => GroupZeros(geo, vol, kind, g))
  }

  /** Writing one bit moves one group's count of zeros by at most one. */
  lemma WriteBitZeros(geo: Geometry, vol: seq<Block>, kind: Kind, g: nat, bit: nat, used: bool)
    requires VolumeOk(geo, vol) && g < |geo.groups| && bit < PerGroup(geo, kind)
    ensures var vol' := WriteBit(geo, vol, kind, g, bit, used);
            && VolumeOk(geo, vol')
            && GroupZeros(geo, vol', kind, g) == GroupZeros(geo, vol, kind, g)
                 + (if FreeBit(geo, vol, kind, g, bit) then (if used then -1 else 0) else (if used then 0 else 1))
  {
    WriteBitEffect(geo, vol, kind, g, bit, used, kind, g, bit);
    ZerosAfterSet(vol[BitmapBlock(geo, kind, g)], bit, PerGroup(geo, kind));
    ZerosAfterClear(vol[BitmapBlock(geo, kind, g)], bit, PerGroup(geo, kind));
  }

  lemma WriteBitZerosPerGroup(geo: Geometry, vol: seq<Block>, kind: Kind, g: nat, bit: nat, used: bool, k': Kind)
    requires VolumeOk(geo, vol) && g < |geo.groups| && bit < PerGroup(geo, kind)
    ensures var vol' := WriteBit(geo, vol, kind, g, bit, used);
            && VolumeOk(geo, vol')
            && ZerosPerGroup(geo, vol', k') ==
                 if k' == kind then ZerosPerGroup(geo, vol, k')[g := GroupZeros(geo, vol', kind, g)]
                 else ZerosPerGroup(geo, vol, k')
  {
    var vol' := WriteBit(geo, vol, kind, g, bit, used);
    var z := ZerosPerGroup(geo, vol, k');
    forall h | 0 <= h < |geo.groups| && (k', h) != (kind, g)
      ensures GroupZeros(geo, vol', k', h) == z[h]
    {
      assert BitmapBlock(geo, k', h) != BitmapBlock(geo, kind, g);
    }
    var want := if k' == kind then z[g := GroupZeros(geo, vol', kind, g)] else z;
    assert ZerosPerGroup(geo, vol', k') == want;
  }
}
