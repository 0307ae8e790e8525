/** The inode table: ext2_read_inode and ext2_write_inode of src/fs/ext2/inode.c on raw inode bytes. */
module Ext2Inodes {
  import opened Common
  import opened Arith
  import opened Ext2Layout
  import opened Ext2Core
  import opened Ext2Files
  import opened Ext2Writing

  const INODE_BYTES: nat := 128

  /** s_inode_size, with the revision-0 default. */
  function InodeSize(geo: Geometry): (n: nat)
    ensures n > 0
  {
    if geo.inodeSize == 0 then INODE_BYTES else geo.inodeSize
  }

  function InodesPerBlock(geo: Geometry): nat { geo.blockSize / InodeSize(geo) }

  /** Numbers the two operations accept. */
  predicate InodeExists(geo: Geometry, ino: nat) {
    0 < ino <= geo.inodesCount && geo.inodesPerGroup > 0 && GroupOf(geo, Inodes, ino) < |geo.groups|
  }

  /** Block `k` of the inode table of group `g`. */
  function TableBlock(geo: Geometry, g: nat, k: nat): nat
    requires g < |geo.groups|
  {
    geo.groups[g].inodeTable + k
  }

  function InodeBlock(geo: Geometry, ino: nat): nat
    requires InodeExists(geo, ino) && InodesPerBlock(geo) > 0
  {
    TableBlock(geo, GroupOf(geo, Inodes, ino), FileBlock(InodesPerBlock(geo), BitOf(geo, Inodes, ino)))
  }

  function InodeOffset(geo: Geometry, ino: nat): nat
    requires InodeExists(geo, ino) && InodesPerBlock(geo) > 0
  {
    BlockOffset(InodesPerBlock(geo), BitOf(geo, Inodes, ino)) * InodeSize(geo)
  }

  /** Inodes fit their block; table blocks exist, are not bitmaps and are shared by no two groups. */
  ghost predicate TablesOk(geo: Geometry, vol: seq<Block>) {
    && VolumeOk(geo, vol) && INODE_BYTES <= InodeSize(geo) <= geo.blockSize
    && (forall ino: nat :: InodeExists(geo, ino) ==> TableOk(geo, vol, ino))
    && InodesPerBlock(geo) > 0
    && (forall a: nat, b: nat :: SharedBlock(geo, a, b) ==> GroupOf(geo, Inodes, a) == GroupOf(geo, Inodes, b))
  }

  ghost predicate SharedBlock(geo: Geometry, a: nat, b: nat)
    requires InodesPerBlock(geo) > 0
  {
    InodeExists(geo, a) && InodeExists(geo, b) && InodeBlock(geo, a) == InodeBlock(geo, b)
  }

  ghost predicate TableOk(geo: Geometry, vol: seq<Block>, ino: nat)
    requires InodeExists(geo, ino)
  {
    InodesPerBlock(geo) > 0 && InodeBlock(geo, ino) < |vol| && !IsBitmap(geo, InodeBlock(geo, ino))
  }

  /** The inode slot lies inside its block. */
  lemma SlotFits(geo: Geometry, vol: seq<Block>, ino: nat)
    requires TablesOk(geo, vol) && InodeExists(geo, ino)
    ensures InodesPerBlock(geo) > 0 && InodeBlock(geo, ino) < |vol| && !IsBitmap(geo, InodeBlock(geo, ino))
    ensures |vol[InodeBlock(geo, ino)]| == geo.blockSize && SlotReadable(geo, vol, ino)
    ensures InodeOffset(geo, ino) + INODE_BYTES <= geo.blockSize
  {
    hide GeometryOk, IsBitmap, InodeBlock, BlockOffset, BitOf, SharedBlock;
    assert TableOk(geo, vol, ino);
    var d, n, k := InodeSize(geo), InodesPerBlock(geo), BlockOffset(InodesPerBlock(geo), BitOf(geo, Inodes, ino));
    SlotBelow(geo.blockSize, d, n, k);
  }

  lemma SlotBelow(bs: nat, d: nat, n: nat, k: nat)
    requires d > 0 && n == bs / d && k < n
    ensures k * d + d <= bs
  {
    assert bs == n * d + bs % d;
    assert (n - k - 1) * d == n * d - k * d - d;
    MulAtLeast(n - k - 1, d);
  }

  /** Two inodes in one block occupy disjoint slots. */
  lemma SlotsDisjoint(geo: Geometry, vol: seq<Block>, a: nat, b: nat)
    requires TablesOk(geo, vol) && InodeExists(geo, a) && InodeExists(geo, b) && a != b
    requires InodeBlock(geo, a) == InodeBlock(geo, b)
    ensures InodeOffset(geo, a) + INODE_BYTES <= InodeOffset(geo, b) || InodeOffset(geo, b) + INODE_BYTES <= InodeOffset(geo, a)
  {
    hide VolumeOk, IsBitmap, TableOk;
    assert SharedBlock(geo, a, b);
    var ia, ib := BitOf(geo, Inodes, a), BitOf(geo, Inodes, b);
    SameSlotSameIndex(geo, a, b);
    var n, d := InodesPerBlock(geo), InodeSize(geo);
    SlotsApart(BlockOffset(n, ia), BlockOffset(n, ib), d);
  }

  lemma SlotsApart(j: nat, k: nat, d: nat)
    requires j != k
    ensures j * d + d <= k * d || k * d + d <= j * d
  {
    assert (k - j) * d == k * d - j * d;
    MulAtLeast(k - j, d);
  }

  lemma SameSlotSameIndex(geo: Geometry, a: nat, b: nat)
    requires InodeExists(geo, a) && InodeExists(geo, b) && InodesPerBlock(geo) > 0
    requires a != b && GroupOf(geo, Inodes, a) == GroupOf(geo, Inodes, b) && InodeBlock(geo, a) == InodeBlock(geo, b)
    ensures BlockOffset(InodesPerBlock(geo), BitOf(geo, Inodes, a)) != BlockOffset(InodesPerBlock(geo), BitOf(geo, Inodes, b))
  {
    hide InodesPerBlock, BitOf, GroupOf, NumberOf, FileBlock, BlockOffset;
    var n := InodesPerBlock(geo);
    NumberingInverse(geo, Inodes, 0, 0, a);
    NumberingInverse(geo, Inodes, 0, 0, b);
    var x, y := BitOf(geo, Inodes, a), BitOf(geo, Inodes, b);
    if BlockOffset(n, x) == BlockOffset(n, y) { SameIndex(n, x, y); }
  }

  lemma SameIndex(n: nat, x: nat, y: nat)
    requires n > 0 && FileBlock(n, x) == FileBlock(n, y) && BlockOffset(n, x) == BlockOffset(n, y)
    ensures x == y
  {
    DivModSame(x, y, n);
  }

  ghost predicate SlotReadable(geo: Geometry, vol: seq<Block>, ino: nat) {
    && InodeExists(geo, ino) && InodesPerBlock(geo) > 0 && InodeBlock(geo, ino) < |vol|
    && InodeOffset(geo, ino) + INODE_BYTES <= |vol[InodeBlock(geo, ino)]|
  }

  /** The bytes of inode `ino` on the volume. */
  function InodeBytes(geo: Geometry, vol: seq<Block>, ino: nat): (raw: seq<byte>)
    requires SlotReadable(geo, vol, ino)
    ensures |raw| == INODE_BYTES
  {
    vol[InodeBlock(geo, ino)][InodeOffset(geo, ino)..InodeOffset(geo, ino) + INODE_BYTES]
  }

  /** Where the bytes of inode `ino` are, in raw arithmetic: the tables hold inodes in order, as many to a
      block as fit whole. */
  lemma InodeAddress(geo: Geometry, vol: seq<Block>, ino: nat)
    requires SlotReadable(geo, vol, ino)
    ensures geo.inodesPerGroup > 0 && ino > 0
    ensures var size := if geo.inodeSize == 0 then 128 else geo.inodeSize;
      var per, index, group := geo.blockSize / size, (ino - 1) % geo.inodesPerGroup, (ino - 1) / geo.inodesPerGroup;
      && per > 0 && group < |geo.groups|
      && var b, off := geo.groups[group].inodeTable + index / per, index % per * size;
         b < |vol| && 0 <= off && off + 128 <= |vol[b]| && InodeBytes(geo, vol, ino) == vol[b][off..off + 128]
  {
  }

  /** If a block holds a whole number of inodes, the inodes of a group are one run of bytes. */
  lemma InodeStride(bs: nat, size: nat, index: nat)
    requires size > 0 && bs % size == 0 && bs / size > 0
    ensures var per := bs / size; index / per * bs + index % per * size == index * size
  {
    var per := bs / size;
    var q, r := index / per, index % per;
    assert bs == per * size && index == q * per + r;
    assert q * (per * size) == q * per * size;
    assert (q * per + r) * size == q * per * size + r * size;
  }

  lemma InodeRefused(geo: Geometry, vol: seq<Block>, ino: nat)
    requires TablesOk(geo, vol)
    ensures geo.inodesPerGroup > 0 && geo.blocksPerGroup > 0 && (NoSuchNumber(geo, Inodes, ino) <==> !InodeExists(geo, ino))
  {
    hide TableOk, SharedBlock, InodesPerBlock;
    GroupsNotEmpty(geo, vol);
    RefusedExactly(geo, Inodes, ino);
  }

  /** ext2_read_inode */
  method ReadInode(fs: Ext2Fs, ino: nat) returns (r: Result<seq<byte>>)
    requires fs.Valid() && TablesOk(fs.geo, fs.vol)
    modifies fs.cache, fs.cache.slots, fs.cache.device
    ensures fs.Valid()
    ensures fs.geo.inodesPerGroup > 0 && fs.geo.blocksPerGroup > 0
    ensures if NoSuchNumber(fs.geo, Inodes, ino) then r == Err(Invalid) else r.Ok?
    ensures r.Ok? <==> InodeExists(fs.geo, ino)
    ensures r.Ok? ==> SlotReadable(fs.geo, fs.vol, ino) && r.value == InodeBytes(fs.geo, fs.vol, ino)
  {
    hide Ext2Fs.Synced, LedgerOk, TablesOk, InodeBlock, InodeOffset;
    InodeRefused(fs.geo, fs.vol, ino);
    if !InodeExists(fs.geo, ino) { return Err(Invalid); }
    SlotFits(fs.geo, fs.vol, ino);
    var block := fs.ReadBlock(InodeBlock(fs.geo, ino));
    var off := InodeOffset(fs.geo, ino);
    r := Ok(block[off..off + INODE_BYTES]);
  }

  /** ext2_write_inode: a read-modify-write of the table block. The inode reads back as written,
      every other inode reads as before, and no other block changes. */
  method WriteInode(fs: Ext2Fs, ino: nat, raw: seq<byte>) returns (r: Result<()>)
    requires fs.Valid() && TablesOk(fs.geo, fs.vol) && |raw| == INODE_BYTES
    modifies fs`vol, fs`dirty, fs.cache, fs.cache.slots, fs.cache.device
    ensures fs.Valid() && TablesOk(fs.geo, fs.vol)
    ensures fs.geo.inodesPerGroup > 0 && fs.geo.blocksPerGroup > 0
    ensures r == if NoSuchNumber(fs.geo, Inodes, ino) then Err(Invalid) else Ok(())
    ensures r.Ok? <==> InodeExists(fs.geo, ino)
    ensures r.Err? ==> fs.vol == old(fs.vol)
    ensures r.Ok? ==> InodeStored(fs.geo, old(fs.vol), fs.vol, ino, raw) && fs.dirty
  {
    hide Ext2Fs.Synced, LedgerOk, TablesOk, InodeBlock, InodeOffset, InodeStored, IsBitmap, InodesPerBlock;
    InodeRefused(fs.geo, fs.vol, ino);
    if !InodeExists(fs.geo, ino) { return Err(Invalid); }
    SlotFits(fs.geo, fs.vol, ino);
    StoreInode(fs.geo, fs.vol, ino, raw);
    var block := fs.ReadBlock(InodeBlock(fs.geo, ino));
    fs.WriteData(InodeBlock(fs.geo, ino), Patch(block, InodeOffset(fs.geo, ino), raw));
    fs.dirty := true;
    r := Ok(());
  }

  /** The inode now reads as `raw`; nothing else moved. */
  ghost predicate InodeStored(geo: Geometry, vol: seq<Block>, vol': seq<Block>, ino: nat, raw: seq<byte>) {
    && SlotReadable(geo, vol', ino) && InodeBytes(geo, vol', ino) == raw
    && (forall other: nat :: other != ino && InodeExists(geo, other) ==>
          SlotReadable(geo, vol, other) && SlotReadable(geo, vol', other) && InodeBytes(geo, vol', other) == InodeBytes(geo, vol, other))
    && |vol| == |vol'| && (forall c :: 0 <= c < |vol| && c != InodeBlock(geo, ino) ==> vol'[c] == vol[c])
    && var b, off := InodeBlock(geo, ino), InodeOffset(geo, ino);
       |vol'[b]| == |vol[b]| && forall i :: 0 <= i < |vol[b]| && (i < off || i >= off + INODE_BYTES) ==> vol'[b][i] == vol[b][i]
  }

  lemma StoreInode(geo: Geometry, vol: seq<Block>, ino: nat, raw: seq<byte>)
    requires TablesOk(geo, vol) && InodeExists(geo, ino) && |raw| == INODE_BYTES && SlotReadable(geo, vol, ino)
    ensures var b := InodeBlock(geo, ino);
            var vol' := vol[b := Patch(vol[b], InodeOffset(geo, ino), raw)];
            TablesOk(geo, vol') && InodeStored(geo, vol, vol', ino, raw)
  {
    hide TablesOk, InodeBlock, InodeOffset, InodesPerBlock, IsBitmap;
    SlotFits(geo, vol, ino);
    var b := InodeBlock(geo, ino);
    var data := Patch(vol[b], InodeOffset(geo, ino), raw);
    var vol' := vol[b := data];
    TablesStay(geo, vol, b, data);
    assert InodeBytes(geo, vol', ino) == raw;
    forall other: nat | other != ino && InodeExists(geo, other)
      ensures SlotReadable(geo, vol, other) && SlotReadable(geo, vol', other) && InodeBytes(geo, vol', other) == InodeBytes(geo, vol, other)
    {
      SlotFits(geo, vol, other);
      if InodeBlock(geo, other) == b { SlotsDisjoint(geo, vol, ino, other); }
      assert InodeBytes(geo, vol', other) == InodeBytes(geo, vol, other);
    }
  }

  lemma TablesStay(geo: Geometry, vol: seq<Block>, b: nat, data: Block)
    requires TablesOk(geo, vol) && b < |vol| && |data| == geo.blockSize && !IsBitmap(geo, b)
    ensures TablesOk(geo, vol[b := data])
  {
    hide IsBitmap, InodeBlock, GeometryOk, InodesPerBlock, SharedBlock, TableOk;
    SameTables(geo, vol, vol[b := data]);
  }

  /** The layout of the tables does not depend on what the blocks hold. */
  lemma SameTables(geo: Geometry, vol: seq<Block>, vol': seq<Block>)
    requires TablesOk(geo, vol) && VolumeOk(geo, vol') && |vol'| == |vol|
    ensures TablesOk(geo, vol')
  {
    hide VolumeOk, IsBitmap, InodeBlock, InodesPerBlock, SharedBlock;
    forall ino: nat | InodeExists(geo, ino) ensures TableOk(geo, vol', ino) {
      assert TableOk(geo, vol, ino);
    }
  }
}
