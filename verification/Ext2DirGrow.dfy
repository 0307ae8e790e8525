/**
 ext2_add_dir_entry of src/fs/ext2/dir.c as a whole: the first record with room is split; the
 first hole on the way gets a block of its own. The directory's inode is a copy in memory, and
 only a growing size makes the code write it back.
 */
module Ext2DirGrowth {
  import opened Common
  import opened Arith
  import opened Ext2Layout
  import opened Ext2Core
  import opened Ext2BlockMap
  import opened Ext2Files
  import opened Ext2Writing
  import opened Ext2Dirs

  /** Block `i` is now `b`, holding `data`; every other block of the directory is as before. */
  ghost predicate BlockLinked(geo: Geometry, vol: seq<Block>, ib: seq<nat>, vol': seq<Block>, ib': seq<nat>, i: nat, b: nat, data: Block) {
    && |ib| == |ib'| == NPTR
    && Mapped(geo, vol, ib, i) == 0 && Mapped(geo, vol', ib', i) == b && 0 < b < |vol'| && vol'[b] == data
    && (forall j: nat :: j != i ==> SameBlock(geo, vol, ib, vol', ib', j))
  }

  ghost predicate SameBlock(geo: Geometry, vol: seq<Block>, ib: seq<nat>, vol': seq<Block>, ib': seq<nat>, j: nat)
    requires |ib| == |ib'| == NPTR
  {
    var b := Mapped(geo, vol, ib, j);
    Mapped(geo, vol', ib', j) == b && (b != 0 ==> b < |vol| == |vol'| && vol'[b] == vol[b])
  }

  /** Linking a block and filling it whole. */
  lemma LinkThenFill(geo: Geometry, v0: seq<Block>, ib: seq<nat>, v1: seq<Block>, v2: seq<Block>, ib2: seq<nat>, i: nat, b: nat, data: Block)
    requires PlaceOf(PointersPerBlock(geo), i).Some? && |data| == geo.blockSize > 0
    requires Linking(geo, v0, ib, v1, v2, ib2, PlaceOf(PointersPerBlock(geo), i).value, b)
    requires |ib| == |ib2| == NPTR && Mapped(geo, v0, ib, i) == 0 && Mapped(geo, v2, ib2, i) == b
    ensures 0 < b < |v2| && !IsBitmap(geo, b)
    ensures MapOk(geo, v2[b := data], ib2) && BlockLinked(geo, v0, ib, v2[b := data], ib2, i, b, data)
  {
    hide MapOk, Mapped, Linking, IsBitmap;
    LinkingMaps(geo, v0, ib, v1, v2, ib2, PlaceOf(PointersPerBlock(geo), i).value, b);
    DataInRange(geo, v2, ib2, i);
    StoreBlock(geo, v2, ib2, i, data);
    DataBlockAlone(geo, v2, ib2, i);
    var v3 := v2[b := data];
    forall j: nat | j != i ensures SameBlock(geo, v0, ib, v3, ib2, j) {
      OtherBlockLinked(geo, v0, ib, v1, v2, ib2, i, b, j);
    }
  }

  lemma LinkingMaps(geo: Geometry, v0: seq<Block>, ib: seq<nat>, v1: seq<Block>, v2: seq<Block>, ib2: seq<nat>, q: Place, b: nat)
    requires Linking(geo, v0, ib, v1, v2, ib2, q, b)
    ensures MapOk(geo, v0, ib) && MapOk(geo, v2, ib2) && b != 0
  {
    hide MapOk, Allocated, PointerSet, At;
  }

  lemma OtherBlockLinked(geo: Geometry, v0: seq<Block>, ib: seq<nat>, v1: seq<Block>, v2: seq<Block>, ib2: seq<nat>, i: nat, b: nat, j: nat)
    requires PlaceOf(PointersPerBlock(geo), i).Some? && j != i && |ib| == |ib2| == NPTR
    requires Linking(geo, v0, ib, v1, v2, ib2, PlaceOf(PointersPerBlock(geo), i).value, b)
    ensures SameBlock(geo, v0, ib, v2, ib2, j)
  {
    hide Linking, At;
    var a := PointersPerBlock(geo);
    if PlaceOf(a, j).Some? {
      var p := PlaceOf(a, j).value;
      if PlaceOf(a, j) == PlaceOf(a, i) { PlaceOfInjective(a, i, j); }
      LinkedPlaces(geo, v0, ib, v1, v2, ib2, PlaceOf(a, i).value, b, p);
      if At(v2, ib2, p) != 0 { LinkedBlockSame(geo, v0, ib, v1, v2, ib2, PlaceOf(a, i).value, b, p); }
    }
  }

  /** The data of a new directory block: one record takes it all. */
  ghost predicate OneRecord(data: Block, name: seq<byte>, ino: nat, fileType: byte) {
    Tiled(data, 0, |data|) && Records(data, 0, |data|) == [Rec(ino, |data|, fileType, name)]
  }

  /** Where an entry at the start of block `i` ends, in 32 bits. */
  function EntryEnd(bs: nat, i: nat, nameLen: nat): nat { (Pos(bs, i, 0) + Round4(HEADER + nameLen)) % U32 }

  /** The size of the directory after an entry went to the start of block `i`. */
  function NewSize(size: nat, bs: nat, i: nat, nameLen: nat): nat {
    if EntryEnd(bs, i, nameLen) > size then EntryEnd(bs, i, nameLen) else size
  }

  /** The map gained the pointer of block `i` and perhaps the indirect block, nothing else. */
  ghost predicate Extended(geo: Geometry, vol: seq<Block>, ib: seq<nat>, vol': seq<Block>, ib': seq<nat>, i: nat) {
    && |ib| == |ib'| == NPTR && PlaceOf(PointersPerBlock(geo), i).Some? && Grown(geo, vol, ib, vol', ib')
    && forall p: Place :: p != Ind && p != PlaceOf(PointersPerBlock(geo), i).value ==> At(vol', ib', p) == At(vol, ib, p)
  }

  lemma LinkExtends(geo: Geometry, v0: seq<Block>, ib: seq<nat>, v1: seq<Block>, v2: seq<Block>, ib2: seq<nat>, i: nat, b: nat, data: Block)
    requires PlaceOf(PointersPerBlock(geo), i).Some? && |data| == geo.blockSize > 0
    requires Linking(geo, v0, ib, v1, v2, ib2, PlaceOf(PointersPerBlock(geo), i).value, b)
    requires |ib| == |ib2| == NPTR && Mapped(geo, v2, ib2, i) == b < |v2|
    ensures Extended(geo, v0, ib, v2[b := data], ib2, i)
  {
    hide MapOk, Linking, IsBitmap, IsFree, VolumeOk, At, PlaceOf, Unreached;
    var q := PlaceOf(PointersPerBlock(geo), i).value;
    LinkingMaps(geo, v0, ib, v1, v2, ib2, q, b);
    LinkGrows(geo, v0, ib, v1, v2, ib2, q, b);
    StoreBlock(geo, v2, ib2, i, data);
    var v3 := v2[b := data];
    forall p: Place
      ensures p != Ind && p != q ==> At(v3, ib2, p) == At(v0, ib, p)
      ensures At(v3, ib2, p) == At(v2, ib2, p)
    {
      LinkedPlaces(geo, v0, ib, v1, v2, ib2, q, b, p);
    }
    forall c | 0 <= c < |v0| && !IsBitmap(geo, c) && (c == 0 || Unreached(v3, ib2, c)) ensures v3[c] == v0[c] {
      if c != 0 { UnreachedSame(v2, v3, ib2, c, q); }
    }
  }

  lemma UnreachedSame(vol: seq<Block>, vol': seq<Block>, ib: seq<nat>, c: nat, q: Place)
    requires |ib| == NPTR && Unreached(vol', ib, c) && forall p: Place :: At(vol', ib, p) == At(vol, ib, p)
    ensures Unreached(vol, ib, c) && At(vol, ib, q) != c
  {
    hide At;
    assert At(vol', ib, q) != c;
  }

  /** Too few blocks are free to fill hole `i`: one is needed, two if the indirect block is missing. */
  ghost predicate NoRoom(geo: Geometry, vol: seq<Block>, ib: seq<nat>, i: nat)
    requires |ib| == NPTR
  {
    if i >= NDIR && ib[12] == 0 then AtMostOneFree(geo, vol) else NoneFree(geo, vol, Blocks)
  }

  /** Why hole `i` cannot be filled: it lies past the indirect range, or blocks ran out. */
  ghost predicate CannotFill(geo: Geometry, vol: seq<Block>, ib: seq<nat>, i: nat, drift: seq<nat>, e: Error)
    requires |ib| == NPTR
  {
    || (e == Invalid && i >= NDIR + PointersPerBlock(geo))
    || (e == NoMemory && (NoWrap(geo, Blocks, drift) ==> NoRoom(geo, vol, ib, i)))
  }

  /** The branch for a hole. If linking fails the block stays allocated and unused. */
  method FreshBlock(fs: Ext2Fs, inode: Inode, i: nat, name: seq<byte>, ino: nat, fileType: byte, guard: byte)
    returns (r: Result<()>, saved: bool, ghost b: nat)
    requires fs.Valid() && MapOk(fs.geo, fs.vol, inode.block) && |inode.block| == NPTR && 0 < fs.geo.blockSize < 0x1_0000
    requires |name| < 256 && ino < U32 && Round4(HEADER + |name|) <= fs.geo.blockSize
    requires Mapped(fs.geo, fs.vol, inode.block, i) == 0 && PlaceOf(PointersPerBlock(fs.geo), i).Some?
    modifies fs, inode`block, inode`size, fs.cache, fs.cache.slots, fs.cache.device
    ensures fs.Valid() && |inode.block| == NPTR && MapOk(fs.geo, fs.vol, inode.block)
    ensures r.Err? ==> inode.block == old(inode.block) && inode.size == old(inode.size) && !saved
    ensures r.Err? ==> fs.vol == old(fs.vol) || Allocated(fs.geo, old(fs.vol), fs.vol, Blocks, b)
    ensures r.Err? ==> CannotFill(fs.geo, old(fs.vol), inode.block, i, fs.blockDrift, r.error)
    ensures fs.blockDrift == old(fs.blockDrift)
    ensures r.Ok? ==>
      && 0 < b < |fs.vol| && OneRecord(fs.vol[b], name, ino, fileType)
      && BlockLinked(fs.geo, old(fs.vol), old(inode.block), fs.vol, inode.block, i, b, fs.vol[b])
      && Patched(old(inode.block), inode.block, i) && i < NDIR + PointersPerBlock(fs.geo)
      && inode.size == NewSize(old(inode.size), fs.geo.blockSize, i, |name|)
      && Extended(fs.geo, old(fs.vol), old(inode.block), fs.vol, inode.block, i)
    ensures r.Ok? ==> (saved <==> EntryEnd(fs.geo.blockSize, i, |name|) > old(inode.size))
  {
    hide Ext2Fs.Synced, LedgerOk, MapOk, Allocated, PointerSet, At, FirstFit, Usable, Unreached, VolumeOk, IsFree, PlaceOf, Mapped,
      IsBitmap, Tiled, Records, EntryEnd, Linking, BlockLinked, Extended, Round4, NoneFree, NoWrap, AtMostOneFree;
    saved, b := false, 0;
    ghost var v0, ib := fs.vol, inode.block;
    var n := fs.Alloc(Blocks);
    if n.Err? {
      if NoWrap(fs.geo, Blocks, fs.blockDrift) { NoneIsFew(fs.geo, v0); }
      return Err(n.error), saved, b;
    }
    b := n.value;
    AllocKeepsMap(fs.geo, v0, ib, fs.vol, b);
    AllocatedExists(fs.geo, v0, fs.vol, ib, b);
    ghost var v1 := fs.vol;
    var e := SetBlockNum(fs, inode, i, n.value);
    if e.Err? {
      if e.error == NoMemory && NoWrap(fs.geo, Blocks, fs.blockDrift) { LastOne(fs.geo, v0, v1, b); }
      return Err(e.error), saved, b;
    }
    LinkedHere(fs.geo, v0, ib, v1, fs.vol, inode.block, i, b);
    PatchedBy(fs.geo, v1, ib, fs.vol, inode.block, i, b);
    var bs := fs.geo.blockSize;
    var buf := new byte[bs + 1](k => if k < bs then 0 else guard);
    EmptyHeader(buf[..]);
    FillFresh(buf, bs, name, ino, fileType);
    ghost var data := buf[..bs];
    FillFreshOk(buf[..], bs, name, ino, fileType);
    LinkThenFill(fs.geo, v0, ib, v1, fs.vol, inode.block, i, b, data);
    LinkExtends(fs.geo, v0, ib, v1, fs.vol, inode.block, i, b, data);
    fs.WriteData(n.value, buf[..bs]);
    if EntryEnd(bs, i, |name|) > inode.size {
      inode.size := EntryEnd(bs, i, |name|);
      saved := true;
    }
    r := Ok(());
  }

  lemma EmptyHeader(b: seq<byte>)
    requires |b| > HEADER && forall k :: 0 <= k < |b| - 1 ==> b[k] == 0
    ensures RecLenAt(b, 0) == 0
  {
  }

  lemma FillFreshOk(b: seq<byte>, bs: nat, name: seq<byte>, ino: nat, fileType: byte)
    requires |b| == bs + 1 && Tiled(b, 0, bs) && Records(b, 0, bs) == [Rec(ino, bs, fileType, name)]
    ensures OneRecord(b[..bs], name, ino, fileType)
  {
    hide Tiled, Records;
    TiledLocal(b, b[..bs], 0, bs);
  }

  /** The inode's own pointers differ at most in the pointer of `i` or in the indirect pointer. */
  ghost predicate Patched(ib: seq<nat>, ib': seq<nat>, i: nat) {
    && |ib| == |ib'| == NPTR
    && (forall k :: 0 <= k < 14 && k != 12 && !(k == i < NDIR) ==> ib'[k] == ib[k])
    && (ib'[12] != ib[12] ==> ib[12] == 0 && i >= NDIR)
  }

  lemma PatchedBy(geo: Geometry, vol: seq<Block>, ib: seq<nat>, vol': seq<Block>, ib': seq<nat>, i: nat, b: nat)
    requires PlaceOf(PointersPerBlock(geo), i).Some?
    requires PointerSet(geo, vol, ib, vol', ib', PlaceOf(PointersPerBlock(geo), i).value, b)
    ensures Patched(ib, ib', i)
  {
    hide VolumeOk, IsFree, IsBitmap, Cell;
    assert At(vol', ib', Dbl) == At(vol, ib, Dbl);
    forall k | 0 <= k < NDIR && k != i ensures ib'[k] == ib[k] {
      assert At(vol', ib', Direct(k)) == At(vol, ib, Direct(k));
    }
  }

  // ---------------------------------------------------------------- the whole call

  /** Where the entry went, or why it went nowhere: no record has room, or the hole `i` could not be
      filled, with the block `lost` on the way or without. */
  datatype Outcome = Split(block: nat, at: nat) | Fresh(i: nat, b: nat) | Leak(i: nat, lost: nat) | Refused(i: nat) | Full

  /** The blocks the loop looks at: at least one. */
  function Looked(size: nat, bs: nat): nat
    requires bs > 0
  {
    if NumBlocks(size, bs) == 0 then 1 else NumBlocks(size, bs)
  }

  /** Every block before `k` is there and has no room. */
  ghost predicate FullBefore(geo: Geometry, vol: seq<Block>, ib: seq<nat>, k: nat, nameLen: nat)
    requires |ib| == NPTR
  {
    forall j :: 0 <= j < k ==> BlockFull(vol, Mapped(geo, vol, ib, j), nameLen)
  }

  /** ext2_add_dir_entry. The first block with room gets the entry: a record of it is split, or, if
      the block is a hole, a new block is linked. Only the latter touches the inode, and the inode is
      written back exactly when its size grew. */
  method AddDirEntry(fs: Ext2Fs, inode: Inode, name: seq<byte>, ino: nat, fileType: byte, guard: byte)
    returns (r: Result<()>, saved: bool, ghost o: Outcome)
    requires fs.Valid() && MapOk(fs.geo, fs.vol, inode.block) && |inode.block| == NPTR && 0 < fs.geo.blockSize < 0x1_0000
    requires |name| < 256 && ino < U32 && Round4(HEADER + |name|) <= fs.geo.blockSize
    requires DirOk(fs.geo, fs.vol, inode.block, Looked(inode.size, fs.geo.blockSize))
    requires PlaceOf(PointersPerBlock(fs.geo), Looked(inode.size, fs.geo.blockSize) - 1).Some?
    modifies fs, inode`block, inode`size, fs.cache, fs.cache.slots, fs.cache.device
    ensures fs.Valid() && |inode.block| == NPTR
    ensures r.Ok? <==> o.Split? || o.Fresh?
    ensures o.Split? ==> EntryAdded(fs.geo, old(fs.vol), old(inode.block), fs.vol, Looked(old(inode.size), fs.geo.blockSize),
                                    o.block, o.at, name, ino, fileType, guard)
                         && FullBefore(fs.geo, old(fs.vol), old(inode.block), o.block, |name|)
    ensures o.Fresh? ==>
      && o.i < Looked(old(inode.size), fs.geo.blockSize) && 0 < o.b < |fs.vol| && OneRecord(fs.vol[o.b], name, ino, fileType)
      && BlockLinked(fs.geo, old(fs.vol), old(inode.block), fs.vol, inode.block, o.i, o.b, fs.vol[o.b])
      && Patched(old(inode.block), inode.block, o.i) && o.i < NDIR + PointersPerBlock(fs.geo)
      && MapOk(fs.geo, fs.vol, inode.block)
      && FullBefore(fs.geo, old(fs.vol), old(inode.block), o.i, |name|)
      && inode.size == NewSize(old(inode.size), fs.geo.blockSize, o.i, |name|)
      && (saved <==> EntryEnd(fs.geo.blockSize, o.i, |name|) > old(inode.size))
      && Extended(fs.geo, old(fs.vol), old(inode.block), fs.vol, inode.block, o.i)
    ensures !o.Fresh? ==> !saved && inode.block == old(inode.block) && inode.size == old(inode.size)
    ensures o.Leak? ==> Allocated(fs.geo, old(fs.vol), fs.vol, Blocks, o.lost)
    ensures o.Leak? || o.Refused? ==>
      && r.Err? && o.i < Looked(old(inode.size), fs.geo.blockSize) && old(Mapped(fs.geo, fs.vol, inode.block, o.i)) == 0
      && FullBefore(fs.geo, old(fs.vol), old(inode.block), o.i, |name|)
      && CannotFill(fs.geo, old(fs.vol), old(inode.block), o.i, fs.blockDrift, r.error)
    ensures o.Full? ==> r == Err(NoMemory)
    ensures o.Full? ==> FullBefore(fs.geo, old(fs.vol), old(inode.block), Looked(old(inode.size), fs.geo.blockSize), |name|)
    ensures o.Refused? || o.Full? ==> fs.vol == old(fs.vol)
    ensures fs.blockDrift == old(fs.blockDrift)
  {
    hide Ext2Fs.Synced, LedgerOk, MapOk, Tiled, NumBlocks, At, PlaceOf, Ext2Dirs.Split, SplitSite, BlockFull, Records, RoomIn, IsBitmap,
      Allocated, BlockLinked, OneRecord, Patched, Extended, Round4, EntryEnd, CannotFill, FullBefore, EntryAdded;
    var bs := fs.geo.blockSize;
    var n := Looked(inode.size, bs);
    var buf := new byte[bs + 1](_ => guard);
    saved, o := false, Full;
    var k := 0;
    NoneBefore(fs.geo, fs.vol, inode.block, |name|);
    while k < n
      invariant 0 <= k <= n && fs.Valid() && fs.vol == old(fs.vol) && buf[bs] == guard && fresh(buf)
      invariant inode.block == old(inode.block) && inode.size == old(inode.size) && fs.blockDrift == old(fs.blockDrift)
      invariant FullBefore(fs.geo, fs.vol, inode.block, k, |name|)
    {
      InMap(PointersPerBlock(fs.geo), k, n - 1);
      var b := GetBlockNum(fs, inode, k);
      if b.value == 0 {
        ghost var linked;
        r, saved, linked := FreshBlock(fs, inode, k, name, ino, fileType, guard);
        o := if r.Ok? then Fresh(k, linked) else if fs.vol == old(fs.vol) then Refused(k) else Leak(k, linked);
        return;
      }
      assert BlockTiled(fs.vol, Mapped(fs.geo, fs.vol, inode.block, k));
      DataInRange(fs.geo, fs.vol, inode.block, k);
      var block := fs.ReadBlock(b.value);
      CopyBytes(buf, 0, block);
      assert buf[..] == block + [guard];
      GuardedTiling(block, guard, |name|);
      var done, at := InsertInBlock(buf, bs, name, ino, fileType);
      if done {
        o := Split(k, at);
        fs.WriteData(b.value, buf[..bs]);
        SplitIn(fs.geo, old(fs.vol), inode.block, fs.vol, n, k, at, name, ino, fileType, guard);
        return Ok(()), saved, o;
      }
      FullBlock(fs.vol, b.value, guard, |name|);
      OneMoreFull(fs.geo, fs.vol, inode.block, k, |name|);
      k := k + 1;
    }
    r := Err(NoMemory);
  }

  lemma SplitIn(geo: Geometry, vol: seq<Block>, ib: seq<nat>, vol': seq<Block>, n: nat, k: nat, at: nat,
                name: seq<byte>, ino: nat, fileType: byte, guard: byte)
    requires |ib| == NPTR && k < n && 0 < Mapped(geo, vol, ib, k) < |vol|
    requires var b := Mapped(geo, vol, ib, k);
      && SplitSite(vol[b] + [guard], |vol[b]|, at, name, ino)
      && vol' == vol[b := Ext2Dirs.Split(vol[b] + [guard], at, name, ino, fileType)[..|vol[b]|]]
    ensures EntryAdded(geo, vol, ib, vol', n, k, at, name, ino, fileType, guard)
  {
    hide Mapped, Ext2Dirs.Split, SplitSite;
  }

  lemma NoneBefore(geo: Geometry, vol: seq<Block>, ib: seq<nat>, nameLen: nat)
    requires |ib| == NPTR
    ensures FullBefore(geo, vol, ib, 0, nameLen)
  {
  }

  lemma OneMoreFull(geo: Geometry, vol: seq<Block>, ib: seq<nat>, k: nat, nameLen: nat)
    requires |ib| == NPTR && FullBefore(geo, vol, ib, k, nameLen) && BlockFull(vol, Mapped(geo, vol, ib, k), nameLen)
    ensures FullBefore(geo, vol, ib, k + 1, nameLen)
  {
    hide BlockFull, Mapped;
  }

  lemma InMap(a: nat, k: nat, m: nat)
    requires k <= m && PlaceOf(a, m).Some?
    ensures PlaceOf(a, k).Some?
  {
    if PlaceOf(a, k).None? { PastTheMap(a, k, m); }
  }

  // ---------------------------------------------------------------- lookups afterwards

  lemma SameRecords(geo: Geometry, vol: seq<Block>, ib: seq<nat>, vol': seq<Block>, ib': seq<nat>, j: nat)
    requires |ib| == |ib'| == NPTR && SameBlock(geo, vol, ib, vol', ib', j) && BlockTiled(vol, Mapped(geo, vol, ib, j))
    ensures BlockTiled(vol', Mapped(geo, vol', ib', j))
    ensures BlockRecords(vol', Mapped(geo, vol', ib', j)) == BlockRecords(vol, Mapped(geo, vol, ib, j))
  {
    hide Mapped, Tiled, Records;
  }

  /** After a block was linked, seen through the inode in memory: a name that was absent finds the
      new inode and every other name finds what it found before. */
  lemma LookupAfterLink(geo: Geometry, vol: seq<Block>, ib: seq<nat>, vol': seq<Block>, ib': seq<nat>, n: nat, i: nat, b: nat,
                        name: seq<byte>, ino: nat, fileType: byte, other: seq<byte>)
    requires |ib| == |ib'| == NPTR && DirOk(geo, vol, ib, n) && i < n && ino != 0 && 0 < b < |vol'|
    requires BlockLinked(geo, vol, ib, vol', ib', i, b, vol'[b]) && OneRecord(vol'[b], name, ino, fileType)
    ensures DirOk(geo, vol', ib', n)
    ensures other != name ==> FindName(DirRecords(geo, vol', ib', n), other) == FindName(DirRecords(geo, vol, ib, n), other)
    ensures FindName(DirRecords(geo, vol, ib, n), name) == None ==> FindName(DirRecords(geo, vol', ib', n), name) == Some(ino)
  {
    hide Mapped, Tiled, Records, FindName, DirRecords, BlockRecords;
    forall k | 0 <= k < n
      ensures BlockTiled(vol', Mapped(geo, vol', ib', k))
      ensures k != i ==> BlockRecords(vol', Mapped(geo, vol', ib', k)) == BlockRecords(vol, Mapped(geo, vol, ib, k))
    {
      assert BlockTiled(vol, Mapped(geo, vol, ib, k));
      if k != i { SameRecords(geo, vol, ib, vol', ib', k); }
    }
    FreshRecords(vol, vol', b, name, ino, fileType, other);
    FreshRecords(vol, vol', b, name, ino, fileType, name);
    if other != name { SameLookups(geo, vol, ib, vol', ib', n, i, other, ino, false); }
    if FindName(DirRecords(geo, vol, ib, n), name) == None { SameLookups(geo, vol, ib, vol', ib', n, i, name, ino, true); }
  }

  lemma FreshRecords(vol: seq<Block>, vol': seq<Block>, b: nat, name: seq<byte>, ino: nat, fileType: byte, other: seq<byte>)
    requires 0 < b < |vol'| && OneRecord(vol'[b], name, ino, fileType) && ino != 0
    ensures BlockTiled(vol', b) && BlockTiled(vol, 0)
    ensures FindName(BlockRecords(vol', b), other) == if other == name then Some(ino) else None
    ensures FindName(BlockRecords(vol, 0), other) == None
  {
    hide Tiled, Records;
    var rs := BlockRecords(vol', b);
    assert rs[1..] == [];
  }

  // ---------------------------------------------------------------- what reaches the disk

  /** What a lookup finds through an inode with this size and these pointers. */
  ghost function Seen(geo: Geometry, vol: seq<Block>, ib: seq<nat>, size: nat, name: seq<byte>): Option<nat>
    requires |ib| == NPTR && geo.blockSize > 0 && DirOk(geo, vol, ib, Looked(size, geo.blockSize))
  {
    FindName(DirRecords(geo, vol, ib, NumBlocks(size, geo.blockSize)), name)
  }

  /** The inode is written back. */
  predicate Grows(size: nat, bs: nat, i: nat, nameLen: nat) { EntryEnd(bs, i, nameLen) > size }

  /** An entry that needs a block for hole `i` will be found through the inode on disk: either the
      inode is written back, or the pointer goes into an indirect block that the inode on disk
      already has. */
  predicate Survives(size: nat, bs: nat, ib: seq<nat>, i: nat, nameLen: nat)
    requires |ib| == NPTR
  {
    Grows(size, bs, i, nameLen) || (i >= NDIR && ib[12] != 0)
  }

  /** A size that grows for a block the code can link counts exactly the blocks that were looked at:
      such blocks lie far below the point where 32-bit sums wrap. */
  lemma GrownBlocks(size: nat, bs: nat, i: nat, nameLen: nat)
    requires 0 < bs < 0x1_0000 && size < U32 && i < Looked(size, bs) && Round4(HEADER + nameLen) <= bs && Grows(size, bs, i, nameLen)
    requires i < NDIR + bs / 4
    ensures NumBlocks(EntryEnd(bs, i, nameLen), bs) == Looked(size, bs) == i + 1
  {
    hide Round4, Pos, Looked, NumBlocks;
    var req := Round4(HEADER + nameLen);
    assert req > 0 by { RoundPositive(nameLen); }
    LastBlock(size, bs, i);
    FarFromWrap(bs, i, req);
    var x := i * bs;
    assert Pos(bs, i, 0) == x by { PosIs(bs, i); }
    assert x + req < U32;
    BlocksUpTo(bs, i, req);
    if i > 0 { BlocksCover(size, bs, i, req); } else { FirstBlock(size, bs, req); }
  }

  lemma FarFromWrap(bs: nat, i: nat, req: nat)
    requires 0 < req <= bs < 0x1_0000 && i < NDIR + bs / 4
    ensures i * bs + req + bs - 1 < U32
  {
    MulMono(i, 0x5000, bs);
  }

  lemma RoundPositive(nameLen: nat)
    ensures Round4(HEADER + nameLen) > 0
  {
  }

  lemma PosIs(bs: nat, i: nat)
    ensures Pos(bs, i, 0) == i * bs
  {
  }

  /** A block the loop looks at starts inside the size, or is the first. */
  lemma LastBlock(size: nat, bs: nat, i: nat)
    requires 0 < bs < 0x1_0000 && size < U32 && i < Looked(size, bs)
    ensures i > 0 ==> i * bs < size
  {
    if i > 0 {
      var s := (size + bs - 1) % U32;
      assert s == (s / bs) * bs + s % bs;
      MulMono(i + 1, s / bs, bs);
      assert (i + 1) * bs == i * bs + bs;
    }
  }

  /** A size that ends inside block `i` counts `i + 1` blocks, or wraps to none. */
  lemma BlocksUpTo(bs: nat, i: nat, req: nat)
    requires 0 < req <= bs < 0x1_0000 && i * bs + req < U32
    ensures NumBlocks(i * bs + req, bs) == if i * bs + req + bs - 1 < U32 then i + 1 else 0
  {
    var s := i * bs + req + bs - 1;
    if s < U32 {
      assert s == (i + 1) * bs + (req - 1);
      DivModUnique(i + 1, req - 1, bs);
    } else {
      assert s % U32 == s - U32 && 0 <= s - U32 < bs;
      DivModUnique(0, s - U32, bs);
    }
  }

  lemma BlocksCover(size: nat, bs: nat, i: nat, req: nat)
    requires 0 < i && 0 < req <= bs < 0x1_0000 && size < U32 && i * bs < size < i * bs + req && i < Looked(size, bs)
    ensures Looked(size, bs) == i + 1
  {
    BlocksUpTo(bs, i, size - i * bs);
  }

  lemma FirstBlock(size: nat, bs: nat, req: nat)
    requires 0 < req <= bs < 0x1_0000 && size < req
    ensures Looked(size, bs) == 1
  {
    if size == 0 { DivModUnique(0, bs - 1, bs); } else { BlocksUpTo(bs, 0, size); }
  }

  /** The inode's pointers are what they were. */
  predicate SamePointers(ib: seq<nat>, ib': seq<nat>) {
    |ib| == |ib'| && forall k :: 0 <= k < 14 && k < |ib| ==> ib'[k] == ib[k]
  }

  /** Whether the inode's own pointers changed can be told beforehand. */
  lemma PointersKept(geo: Geometry, vol: seq<Block>, ib: seq<nat>, vol': seq<Block>, ib': seq<nat>, i: nat, b: nat)
    requires |ib| == |ib'| == NPTR && 0 < b < |vol'| && BlockLinked(geo, vol, ib, vol', ib', i, b, vol'[b])
    requires Patched(ib, ib', i) && i < NDIR + PointersPerBlock(geo)
    ensures SamePointers(ib, ib') <==> i >= NDIR && ib[12] != 0
  {
  }

  /** Through an inode that was not written back, the map is what it was. */
  lemma StaleMap(geo: Geometry, vol: seq<Block>, ib: seq<nat>, vol': seq<Block>, ib': seq<nat>, i: nat, b: nat, j: nat)
    requires |ib| == |ib'| == NPTR && 0 < b < |vol'| && BlockLinked(geo, vol, ib, vol', ib', i, b, vol'[b])
    requires Patched(ib, ib', i) && i < NDIR + PointersPerBlock(geo) && !SamePointers(ib, ib')
    ensures SameBlock(geo, vol, ib, vol', ib, j)
  {
    assert j != i ==> SameBlock(geo, vol, ib, vol', ib', j);
  }

  /** A hole was given a block holding the one record `name`. */
  ghost predicate HoleFilled(geo: Geometry, vol: seq<Block>, ib: seq<nat>, vol': seq<Block>, ib': seq<nat>, size: nat, i: nat, b: nat,
                             name: seq<byte>, ino: nat, fileType: byte) {
    && |ib| == |ib'| == NPTR && 0 < geo.blockSize < 0x1_0000 && size < U32 && i < Looked(size, geo.blockSize)
    && Round4(HEADER + |name|) <= geo.blockSize && DirOk(geo, vol, ib, Looked(size, geo.blockSize))
    && 0 < b < |vol'| && BlockLinked(geo, vol, ib, vol', ib', i, b, vol'[b]) && OneRecord(vol'[b], name, ino, fileType)
    && Patched(ib, ib', i) && i < NDIR + PointersPerBlock(geo)
  }

  /** The entry of a filled hole, seen through the size and pointers that are on disk afterwards:
      it is found if and only if `Survives`, which the caller can tell from the inode before the
      call. Otherwise the entry is lost and its block stays allocated. Every other name is found as
      before. */
  lemma SurvivesExactly(geo: Geometry, vol: seq<Block>, ib: seq<nat>, vol': seq<Block>, ib': seq<nat>, size: nat, i: nat, b: nat,
                        name: seq<byte>, ino: nat, fileType: byte, other: seq<byte>)
    requires HoleFilled(geo, vol, ib, vol', ib', size, i, b, name, ino, fileType) && ino != 0
    ensures var bs := geo.blockSize;
      var grows, size' := Grows(size, bs, i, |name|), NewSize(size, bs, i, |name|);
      var disk := if grows then ib' else ib;
      && DirOk(geo, vol', disk, Looked(size', bs))
      && (Seen(geo, vol, ib, size, name) == None ==>
            Seen(geo, vol', disk, size', name) == if Survives(size, bs, ib, i, |name|) then Some(ino) else None)
      && (other != name ==> Seen(geo, vol', disk, size', other) == Seen(geo, vol, ib, size, other))
  {
    hide Mapped, Tiled, Records, FindName, DirRecords, BlockRecords, BlockLinked, OneRecord, Patched, SameBlock, Looked, NumBlocks, EntryEnd,
      Round4;
    if Grows(size, geo.blockSize, i, |name|) {
      GrownSeen(geo, vol, ib, vol', ib', size, i, b, name, ino, fileType, other);
    } else {
      PointersKept(geo, vol, ib, vol', ib', i, b);
      if SamePointers(ib, ib') {
        SharedSeen(geo, vol, ib, vol', ib', size, i, b, name, ino, fileType, other);
      } else {
        StaleSeen(geo, vol, ib, vol', ib', size, i, b, name, ino, fileType, name);
        StaleSeen(geo, vol, ib, vol', ib', size, i, b, name, ino, fileType, other);
      }
    }
  }

  lemma LookedIs(size: nat, bs: nat)
    requires bs > 0
    ensures Looked(size, bs) == if NumBlocks(size, bs) == 0 then 1 else NumBlocks(size, bs)
  {
  }

  lemma NoRecords(geo: Geometry, vol: seq<Block>, ib: seq<nat>, n: nat, name: seq<byte>)
    requires |ib| == NPTR && DirOk(geo, vol, ib, n) && (n > 0 ==> n == 1 && Mapped(geo, vol, ib, 0) == 0)
    ensures FindName(DirRecords(geo, vol, ib, n), name) == None
  {
    hide Mapped;
  }

  /** The size grew and the inode was written back. */
  lemma GrownSeen(geo: Geometry, vol: seq<Block>, ib: seq<nat>, vol': seq<Block>, ib': seq<nat>, size: nat, i: nat, b: nat,
                  name: seq<byte>, ino: nat, fileType: byte, other: seq<byte>)
    requires HoleFilled(geo, vol, ib, vol', ib', size, i, b, name, ino, fileType) && ino != 0 && Grows(size, geo.blockSize, i, |name|)
    ensures var n := NumBlocks(EntryEnd(geo.blockSize, i, |name|), geo.blockSize);
      && DirOk(geo, vol', ib', Looked(EntryEnd(geo.blockSize, i, |name|), geo.blockSize))
      && (Seen(geo, vol, ib, size, name) == None ==> FindName(DirRecords(geo, vol', ib', n), name) == Some(ino))
      && (other != name ==> FindName(DirRecords(geo, vol', ib', n), other) == Seen(geo, vol, ib, size, other))
  {
    hide Mapped, Tiled, Records, FindName, DirRecords, BlockRecords, BlockLinked, OneRecord, Patched, SameBlock, Looked, NumBlocks, EntryEnd,
      Round4;
    var bs := geo.blockSize;
    var e := EntryEnd(bs, i, |name|);
    GrownBlocks(size, bs, i, |name|);
    LookedIs(size, bs);
    LookedIs(e, bs);
    var n := Looked(size, bs);
    LookupAfterLink(geo, vol, ib, vol', ib', n, i, b, name, ino, fileType, other);
    if NumBlocks(size, bs) == 0 { HoleAtStart(geo, vol, ib, vol', ib', i, b, name, other); }
  }

  lemma HoleAtStart(geo: Geometry, vol: seq<Block>, ib: seq<nat>, vol': seq<Block>, ib': seq<nat>, i: nat, b: nat, name: seq<byte>, other: seq<byte>)
    requires |ib| == |ib'| == NPTR && i == 0 && 0 < b < |vol'| && BlockLinked(geo, vol, ib, vol', ib', i, b, vol'[b])
    requires DirOk(geo, vol, ib, 1)
    ensures FindName(DirRecords(geo, vol, ib, 1), name) == None == FindName(DirRecords(geo, vol, ib, 0), name)
    ensures FindName(DirRecords(geo, vol, ib, 1), other) == None == FindName(DirRecords(geo, vol, ib, 0), other)
  {
    hide Mapped, FindName, DirRecords;
    NoRecords(geo, vol, ib, 1, name);
    NoRecords(geo, vol, ib, 1, other);
    NoRecords(geo, vol, ib, 0, name);
    NoRecords(geo, vol, ib, 0, other);
  }

  /** The pointer went into an indirect block that was there. */
  lemma SharedSeen(geo: Geometry, vol: seq<Block>, ib: seq<nat>, vol': seq<Block>, ib': seq<nat>, size: nat, i: nat, b: nat,
                   name: seq<byte>, ino: nat, fileType: byte, other: seq<byte>)
    requires HoleFilled(geo, vol, ib, vol', ib', size, i, b, name, ino, fileType) && ino != 0 && SamePointers(ib, ib') && i >= NDIR
    ensures DirOk(geo, vol', ib, Looked(size, geo.blockSize))
    ensures Seen(geo, vol, ib, size, name) == None ==> Seen(geo, vol', ib, size, name) == Some(ino)
    ensures other != name ==> Seen(geo, vol', ib, size, other) == Seen(geo, vol, ib, size, other)
  {
    hide Mapped, Tiled, Records, FindName, DirRecords, BlockRecords, BlockLinked, OneRecord, Patched, SameBlock, Looked, NumBlocks, EntryEnd,
      Round4;
    var n := Looked(size, geo.blockSize);
    LookedIs(size, geo.blockSize);
    LookupAfterLink(geo, vol, ib, vol', ib', n, i, b, name, ino, fileType, other);
    StaleSame(geo, vol', ib, ib', n);
  }

  /** The pointer is only in the inode in memory. */
  lemma StaleSeen(geo: Geometry, vol: seq<Block>, ib: seq<nat>, vol': seq<Block>, ib': seq<nat>, size: nat, i: nat, b: nat,
                  name: seq<byte>, ino: nat, fileType: byte, other: seq<byte>)
    requires HoleFilled(geo, vol, ib, vol', ib', size, i, b, name, ino, fileType) && !SamePointers(ib, ib')
    ensures DirOk(geo, vol', ib, Looked(size, geo.blockSize))
    ensures Seen(geo, vol', ib, size, other) == Seen(geo, vol, ib, size, other)
  {
    hide Mapped, Tiled, Records, FindName, DirRecords, BlockRecords, BlockLinked, OneRecord, Patched, SameBlock, Looked, NumBlocks, EntryEnd,
      Round4;
    var n := Looked(size, geo.blockSize);
    LookedIs(size, geo.blockSize);
    forall k | 0 <= k < n
      ensures BlockTiled(vol', Mapped(geo, vol', ib, k))
      ensures BlockRecords(vol', Mapped(geo, vol', ib, k)) == BlockRecords(vol, Mapped(geo, vol, ib, k))
    {
      assert BlockTiled(vol, Mapped(geo, vol, ib, k));
      StaleMap(geo, vol, ib, vol', ib', i, b, k);
      SameRecords(geo, vol, ib, vol', ib, k);
    }
    var m := NumBlocks(size, geo.blockSize);
    SameLookups(geo, vol, ib, vol', ib, m, m, other, ino, false);
  }

  lemma {:induction false} StaleSame(geo: Geometry, vol: seq<Block>, ib: seq<nat>, ib': seq<nat>, n: nat)
    requires |ib| == |ib'| == NPTR && SamePointers(ib, ib') && DirOk(geo, vol, ib', n)
    ensures DirOk(geo, vol, ib, n) && DirRecords(geo, vol, ib, n) == DirRecords(geo, vol, ib', n)
    decreases n
  {
    hide Tiled, BlockRecords, PlaceOf;
    forall k: nat ensures Mapped(geo, vol, ib, k) == Mapped(geo, vol, ib', k) { }
    if n > 0 { StaleSame(geo, vol, ib, ib', n - 1); }
  }
}
