/**
 ext2_lookup and ext2_add_dir_entry of src/fs/ext2/dir.c by the directory's inode number: the inode is
 read out of the inode table and only sometimes written back, so a later lookup sees what the
 table's bytes say, not what the call had in memory.
 */
module Ext2Names {
  import Bits
  import opened Common
  import opened Ext2Layout
  import opened Ext2Core
  import opened Ext2BlockMap
  import opened Ext2Files
  import opened Ext2Writing
  import opened Ext2Dirs
  import opened Ext2DirGrowth
  import opened Ext2Inodes

  // ---------------------------------------------------------------- the inode's bytes

  /** i_size, i_blocks and i_block, counted in words of the 128 bytes of an inode. */
  const SIZE_WORD: nat := 1
  const SECTORS_WORD: nat := 7
  const BLOCK_WORD: nat := 10

  /** The high nibble of i_mode says directory. */
  predicate IsDir(raw: seq<byte>)
    requires |raw| == INODE_BYTES
  {
    raw[1] / 16 == 4
  }

  function SizeOf(raw: seq<byte>): (size: nat)
    requires |raw| == INODE_BYTES
    ensures size < U32
  {
    Ptr(raw, SIZE_WORD)
  }

  function SectorsOf(raw: seq<byte>): nat
    requires |raw| == INODE_BYTES
  {
    Ptr(raw, SECTORS_WORD)
  }

  function PointersOf(raw: seq<byte>): (ib: seq<nat>)
    requires |raw| == INODE_BYTES
    ensures |ib| == NPTR
  {
    seq<nat>(NPTR, k requires 0 <= k < NPTR => Ptr(raw, BLOCK_WORD + k))
  }

  /** Words `w`, `w + 1`, ... replaced by `vs`. */
  function PutPtrs(raw: seq<byte>, w: nat, vs: seq<nat>): (r: seq<byte>)
    requires 4 * (w + |vs|) <= |raw| && forall k :: 0 <= k < |vs| ==> vs[k] < U32
    ensures |r| == |raw|
  {
    if vs == [] then raw else PutPtr(PutPtrs(raw, w, vs[..|vs| - 1]), w + |vs| - 1, vs[|vs| - 1])
  }

  lemma {:induction false} PutPtrsGet(raw: seq<byte>, w: nat, vs: seq<nat>, k: nat)
    requires 4 * (w + |vs|) <= |raw| && forall k :: 0 <= k < |vs| ==> vs[k] < U32
    requires 4 * k + 4 <= |raw|
    ensures Ptr(PutPtrs(raw, w, vs), k) == if w <= k < w + |vs| then vs[k - w] else Ptr(raw, k)
    decreases |vs|
  {
    hide Ptr, PutPtr;
    if vs != [] {
      var m := |vs| - 1;
      PutPtrGet(PutPtrs(raw, w, vs[..m]), w + m, vs[m], k);
      PutPtrsGet(raw, w, vs[..m], k);
    }
  }

  lemma {:induction false} PutPtrsByte(raw: seq<byte>, w: nat, vs: seq<nat>, k: nat)
    requires 4 * (w + |vs|) <= |raw| && forall k :: 0 <= k < |vs| ==> vs[k] < U32
    requires k < |raw| && !(4 * w <= k < 4 * (w + |vs|))
    ensures PutPtrs(raw, w, vs)[k] == raw[k]
    decreases |vs|
  {
    hide Le32;
    if vs != [] { PutPtrsByte(raw, w, vs[..|vs| - 1], k); }
  }

  /** The inode with a new size and new pointers. */
  function Encoded(raw: seq<byte>, size: nat, ib: seq<nat>): (r: seq<byte>)
    requires |raw| == INODE_BYTES && size < U32 && |ib| == NPTR && forall k :: 0 <= k < NPTR ==> ib[k] < U32
    ensures |r| == INODE_BYTES
  {
    PutPtrs(PutPtr(raw, SIZE_WORD, size), BLOCK_WORD, ib)
  }

  /** What was encoded is read back, and no other byte of the inode changed. */
  lemma EncodedReads(raw: seq<byte>, size: nat, ib: seq<nat>)
    requires |raw| == INODE_BYTES && size < U32 && |ib| == NPTR && forall k :: 0 <= k < NPTR ==> ib[k] < U32
    ensures SizeOf(Encoded(raw, size, ib)) == size && PointersOf(Encoded(raw, size, ib)) == ib
    ensures IsDir(Encoded(raw, size, ib)) <==> IsDir(raw)
    ensures forall k :: 0 <= k < INODE_BYTES && !(4 <= k < 8) && !(40 <= k < 100) ==> Encoded(raw, size, ib)[k] == raw[k]
  {
    hide Ptr, PutPtr, PutPtrs;
    var s := PutPtr(raw, SIZE_WORD, size);
    var r := Encoded(raw, size, ib);
    PutPtrsGet(s, BLOCK_WORD, ib, SIZE_WORD);
    PutPtrGet(raw, SIZE_WORD, size, SIZE_WORD);
    forall k | 0 <= k < NPTR ensures Ptr(r, BLOCK_WORD + k) == ib[k] { PutPtrsGet(s, BLOCK_WORD, ib, BLOCK_WORD + k); }
    forall k | 0 <= k < INODE_BYTES && !(4 <= k < 8) && !(40 <= k < 100) ensures r[k] == raw[k] {
      PutPtrsByte(s, BLOCK_WORD, ib, k);
      PutPtrByte(raw, SIZE_WORD, size, k);
    }
    assert r[1] == raw[1];
  }

  lemma PutPtrByte(raw: seq<byte>, j: nat, v: nat, k: nat)
    requires 4 * j + 4 <= |raw| && v < U32 && k < |raw| && !(4 * j <= k < 4 * j + 4)
    ensures PutPtr(raw, j, v)[k] == raw[k]
  {
    hide Le32;
  }

  // ---------------------------------------------------------------- directories on the volume

  /** A directory with this size and these pointers; block `c`, where its inode lives, is apart from it. */
  ghost predicate Sound(geo: Geometry, vol: seq<Block>, ib: seq<nat>, size: nat, c: nat) {
    && MapOk(geo, vol, ib) && |ib| == NPTR && 0 < geo.blockSize < 0x1_0000 && size < U32
    && DirOk(geo, vol, ib, Looked(size, geo.blockSize))
    && PlaceOf(PointersPerBlock(geo), Looked(size, geo.blockSize) - 1).Some?
    && Usable(geo, vol, c) && Unreached(vol, ib, c)
  }

  /** Inode `d` is a directory, by the bytes of the inode table. */
  ghost predicate Directory(geo: Geometry, vol: seq<Block>, d: nat) {
    && TablesOk(geo, vol) && SlotReadable(geo, vol, d)
    && var raw := InodeBytes(geo, vol, d);
       IsDir(raw) && Sound(geo, vol, PointersOf(raw), SizeOf(raw), InodeBlock(geo, d))
  }

  /** What a lookup in directory `d` finds, by the bytes of the inode table. */
  ghost function Entry(geo: Geometry, vol: seq<Block>, d: nat, name: seq<byte>): Option<nat>
    requires Directory(geo, vol, d)
  {
    var raw := InodeBytes(geo, vol, d);
    Seen(geo, vol, PointersOf(raw), SizeOf(raw), name)
  }

  /** ext2_lookup */
  method LookupEntry(fs: Ext2Fs, d: nat, name: seq<byte>) returns (r: Result<nat>)
    requires fs.Valid() && TablesOk(fs.geo, fs.vol)
    requires SlotReadable(fs.geo, fs.vol, d) && IsDir(InodeBytes(fs.geo, fs.vol, d)) ==> Directory(fs.geo, fs.vol, d)
    modifies fs.cache, fs.cache.slots, fs.cache.device
    ensures fs.Valid()
    ensures !InodeExists(fs.geo, d) ==> r == Err(Invalid)
    ensures InodeExists(fs.geo, d) ==> SlotReadable(fs.geo, fs.vol, d)
    ensures InodeExists(fs.geo, d) && !IsDir(InodeBytes(fs.geo, fs.vol, d)) ==> r == Err(Invalid)
    ensures InodeExists(fs.geo, d) && IsDir(InodeBytes(fs.geo, fs.vol, d)) ==>
              var found := Entry(fs.geo, fs.vol, d, name); r == if found.Some? then Ok(found.value) else Err(NotFound)
  {
    hide Ext2Fs.Synced, LedgerOk, MapOk, TablesOk, InodeBytes, InodeExists, FindName, DirRecords, SlotReadable, SizeOf, PointersOf, IsDir, NumBlocks;
    var raw := ReadInode(fs, d);
    if raw.Err? { return Err(raw.error); }
    if !IsDir(raw.value) { return Err(Invalid); }
    var inode := new Inode(SizeOf(raw.value), SectorsOf(raw.value), PointersOf(raw.value));
    LookedIs(inode.size, fs.geo.blockSize);
    r := LookupDir(fs, inode, name);
  }

  // ---------------------------------------------------------------- what the calls leave alone

  /** A block in use that the map does not reach keeps its contents while the map grows, and stays
      unreached. */
  lemma ApartStays(geo: Geometry, vol: seq<Block>, ib: seq<nat>, vol': seq<Block>, ib': seq<nat>, c: nat)
    requires MapOk(geo, vol, ib) && MapOk(geo, vol', ib') && |ib| == |ib'| == NPTR && Grown(geo, vol, ib, vol', ib')
    requires Usable(geo, vol, c) && Unreached(vol, ib, c)
    ensures c < |vol| == |vol'| && vol'[c] == vol[c] && Usable(geo, vol', c) && Unreached(vol', ib', c)
  {
    hide At, IsFree, IsBitmap, VolumeOk, Unshared;
    assert At(vol, ib, Direct(NDIR)) != c;
    forall p: Place ensures At(vol', ib', p) != c {
      if At(vol, ib, p) == 0 && At(vol', ib', p) != 0 { assert IsFree(geo, vol, Blocks, At(vol', ib', p)); }
    }
  }

  /** Through pointers that were not written back, every place is as through the new pointers or as
      before. */
  lemma StalePlaces(geo: Geometry, vol: seq<Block>, ib: seq<nat>, vol': seq<Block>, ib': seq<nat>, i: nat)
    requires Extended(geo, vol, ib, vol', ib', i) && Patched(ib, ib', i) && i < NDIR + PointersPerBlock(geo)
    ensures SamePointers(ib, ib') ==> forall p: Place :: At(vol', ib, p) == At(vol', ib', p)
    ensures !SamePointers(ib, ib') ==> forall p: Place :: At(vol', ib, p) == At(vol, ib, p)
  {
    hide Grown, Cell;
    forall p: Place
      ensures SamePointers(ib, ib') ==> At(vol', ib, p) == At(vol', ib', p)
      ensures !SamePointers(ib, ib') ==> At(vol', ib, p) == At(vol, ib, p)
    {
      StalePlace(geo, vol, ib, vol', ib', i, p);
    }
  }

  lemma StalePlace(geo: Geometry, vol: seq<Block>, ib: seq<nat>, vol': seq<Block>, ib': seq<nat>, i: nat, p: Place)
    requires Extended(geo, vol, ib, vol', ib', i) && Patched(ib, ib', i) && i < NDIR + PointersPerBlock(geo)
    ensures SamePointers(ib, ib') ==> At(vol', ib, p) == At(vol', ib', p)
    ensures !SamePointers(ib, ib') ==> At(vol', ib, p) == At(vol, ib, p)
  {
    hide Grown, Cell;
    assert forall j: nat :: Cell(vol, 0, j) == 0 == Cell(vol', 0, j) by { NoBlockNoCell(vol); NoBlockNoCell(vol'); }
    assert p.IndAt? || p.DblAt? || p.DblLeaf? ==>
      p == PlaceOf(PointersPerBlock(geo), i).value || At(vol', ib', p) == At(vol, ib, p);
  }

  lemma NoBlockNoCell(vol: seq<Block>)
    ensures forall j: nat :: Cell(vol, 0, j) == 0
  {
  }

  /** The old pointers stay well formed after the map grew in memory. */
  lemma StaleMapOk(geo: Geometry, vol: seq<Block>, ib: seq<nat>, vol': seq<Block>, ib': seq<nat>, i: nat, c: nat)
    requires Extended(geo, vol, ib, vol', ib', i) && Patched(ib, ib', i) && i < NDIR + PointersPerBlock(geo)
    requires MapOk(geo, vol, ib) && MapOk(geo, vol', ib') && Usable(geo, vol, c) && Unreached(vol, ib, c) && Unreached(vol', ib', c)
    ensures MapOk(geo, vol', ib) && Unreached(vol', ib, c)
  {
    hide At, IsFree, IsBitmap, VolumeOk, PlaceOf, Patched, SamePointers;
    StalePlaces(geo, vol, ib, vol', ib', i);
  }

  /** Writing the block where the inode lives changes nothing in the directory. */
  lemma WriteApart(geo: Geometry, vol: seq<Block>, ib: seq<nat>, size: nat, c: nat, data: Block, vol': seq<Block>)
    requires Sound(geo, vol, ib, size, c) && |data| == geo.blockSize && vol' == vol[c := data]
    ensures Sound(geo, vol', ib, size, c)
    ensures forall name :: Seen(geo, vol', ib, size, name) == Seen(geo, vol, ib, size, name)
  {
    hide At, IsFree, IsBitmap, VolumeOk, PlaceOf, FindName, DirRecords, BlockRecords, Tiled, NumBlocks, Looked, Unreached, MapOk;
    WriteApartMap(geo, vol, ib, c, data, vol');
    var n := Looked(size, geo.blockSize);
    SameDirectory(geo, vol, ib, vol', ib, n);
    LookedIs(size, geo.blockSize);
    SameDirectory(geo, vol, ib, vol', ib, NumBlocks(size, geo.blockSize));
  }

  lemma WriteApartMap(geo: Geometry, vol: seq<Block>, ib: seq<nat>, c: nat, data: Block, vol': seq<Block>)
    requires MapOk(geo, vol, ib) && |ib| == NPTR && Usable(geo, vol, c) && Unreached(vol, ib, c) && |data| == geo.blockSize && c < |vol| && vol' == vol[c := data]
    ensures MapOk(geo, vol', ib) && VolumeOk(geo, vol') && Usable(geo, vol', c) && Unreached(vol', ib, c)
    ensures forall j: nat :: SameBlock(geo, vol, ib, vol', ib, j)
  {
    hide At, IsFree, IsBitmap, VolumeOk, PlaceOf;
    DataWriteKeepsBooks(geo, vol, c, data);
    NotATable(vol, ib, c);
    forall p: Place ensures At(vol', ib, p) == At(vol, ib, p) { WriteNonTable(vol, ib, c, data, p); }
    forall n: nat ensures IsFree(geo, vol', Blocks, n) <==> IsFree(geo, vol, Blocks, n) { }
    SamePlacesOk(geo, vol, ib, vol', c);
    forall j: nat ensures SameBlock(geo, vol, ib, vol', ib, j) {
      if Mapped(geo, vol, ib, j) != 0 { assert Usable(geo, vol, At(vol, ib, PlaceOf(PointersPerBlock(geo), j).value)); }
    }
  }

  lemma SamePlacesOk(geo: Geometry, vol: seq<Block>, ib: seq<nat>, vol': seq<Block>, c: nat)
    requires MapOk(geo, vol, ib) && SameFree(geo, vol, vol') && forall p: Place :: At(vol', ib, p) == At(vol, ib, p)
    requires Usable(geo, vol, c) && Unreached(vol, ib, c)
    ensures MapOk(geo, vol', ib) && Usable(geo, vol', c) && Unreached(vol', ib, c)
  {
    hide At, IsFree, IsBitmap, VolumeOk;
  }

  /** Blocks that are the same hold the same records. */
  lemma {:induction false} SameDirectory(geo: Geometry, vol: seq<Block>, ib: seq<nat>, vol': seq<Block>, ib': seq<nat>, n: nat)
    requires |ib| == |ib'| == NPTR && DirOk(geo, vol, ib, n) && forall j: nat :: SameBlock(geo, vol, ib, vol', ib', j)
    ensures DirOk(geo, vol', ib', n) && DirRecords(geo, vol', ib', n) == DirRecords(geo, vol, ib, n)
    decreases n
  {
    hide Mapped, Tiled, BlockRecords, BlockTiled, SameBlock;
    forall j | 0 <= j < n ensures BlockTiled(vol', Mapped(geo, vol', ib', j)) {
      assert BlockTiled(vol, Mapped(geo, vol, ib, j));
      SameRecords(geo, vol, ib, vol', ib', j);
    }
    if n > 0 {
      SameDirectory(geo, vol, ib, vol', ib', n - 1);
      SameRecords(geo, vol, ib, vol', ib', n - 1);
    }
  }

  /** Taking a block changes nothing in the directory. */
  lemma AllocApart(geo: Geometry, vol: seq<Block>, ib: seq<nat>, size: nat, c: nat, vol': seq<Block>, b: nat)
    requires Sound(geo, vol, ib, size, c) && Allocated(geo, vol, vol', Blocks, b)
    ensures Sound(geo, vol', ib, size, c) && |vol'| == |vol| && vol'[c] == vol[c]
    ensures forall name :: Seen(geo, vol', ib, size, name) == Seen(geo, vol, ib, size, name)
  {
    hide At, IsFree, IsBitmap, VolumeOk, PlaceOf, FindName, DirRecords, BlockRecords, Tiled, NumBlocks, Looked, Unreached, MapOk;
    AllocApartMap(geo, vol, ib, c, vol', b);
    var n := Looked(size, geo.blockSize);
    SameDirectory(geo, vol, ib, vol', ib, n);
    LookedIs(size, geo.blockSize);
    SameDirectory(geo, vol, ib, vol', ib, NumBlocks(size, geo.blockSize));
  }

  lemma AllocApartMap(geo: Geometry, vol: seq<Block>, ib: seq<nat>, c: nat, vol': seq<Block>, b: nat)
    requires MapOk(geo, vol, ib) && |ib| == NPTR && Usable(geo, vol, c) && Unreached(vol, ib, c) && Allocated(geo, vol, vol', Blocks, b)
    ensures MapOk(geo, vol', ib) && VolumeOk(geo, vol') && Usable(geo, vol', c) && Unreached(vol', ib, c)
    ensures |vol'| == |vol| && vol'[c] == vol[c]
    ensures forall j: nat :: SameBlock(geo, vol, ib, vol', ib, j)
  {
    hide At, IsFree, IsBitmap, VolumeOk, PlaceOf;
    AllocKeepsMap(geo, vol, ib, vol', b);
    forall j: nat ensures SameBlock(geo, vol, ib, vol', ib, j) {
      if Mapped(geo, vol, ib, j) != 0 { assert Usable(geo, vol, At(vol, ib, PlaceOf(PointersPerBlock(geo), j).value)); }
    }
  }

  /** After a hole was filled, the directory through the size and pointers on disk. */
  lemma FreshSound(geo: Geometry, vol: seq<Block>, ib: seq<nat>, vol': seq<Block>, ib': seq<nat>, size: nat, i: nat, b: nat,
                   name: seq<byte>, ino: nat, fileType: byte, c: nat)
    requires Sound(geo, vol, ib, size, c) && HoleFilled(geo, vol, ib, vol', ib', size, i, b, name, ino, fileType) && ino != 0
    requires Extended(geo, vol, ib, vol', ib', i) && MapOk(geo, vol', ib')
    ensures |vol'| == |vol| && vol'[c] == vol[c]
    ensures Sound(geo, vol', if Grows(size, geo.blockSize, i, |name|) then ib' else ib, NewSize(size, geo.blockSize, i, |name|), c)
  {
    hide At, IsFree, IsBitmap, VolumeOk, PlaceOf, NumBlocks, Looked, Unreached, MapOk, BlockLinked, OneRecord, DirOk, Patched, Grown,
      EntryEnd, Round4, Seen, SameBlock, Usable, Survives;
    ApartStays(geo, vol, ib, vol', ib', c);
    SurvivesExactly(geo, vol, ib, vol', ib', size, i, b, name, ino, fileType, name);
    if Grows(size, geo.blockSize, i, |name|) {
      GrownBlocks(size, geo.blockSize, i, |name|);
      LookedIs(EntryEnd(geo.blockSize, i, |name|), geo.blockSize);
      EntryEndFits(geo.blockSize, i, |name|);
    } else {
      StaleMapOk(geo, vol, ib, vol', ib', i, c);
    }
  }

  lemma EntryEndFits(bs: nat, i: nat, nameLen: nat)
    ensures EntryEnd(bs, i, nameLen) < U32
  {
  }

  /** After a record was split: the entry is found if and only if the size counts its block. */
  lemma SplitSeen(geo: Geometry, vol: seq<Block>, ib: seq<nat>, vol': seq<Block>, size: nat, k: nat, at: nat,
                  name: seq<byte>, ino: nat, fileType: byte, guard: byte, c: nat, other: seq<byte>)
    requires Sound(geo, vol, ib, size, c) && ino != 0
    requires EntryAdded(geo, vol, ib, vol', Looked(size, geo.blockSize), k, at, name, ino, fileType, guard)
    requires NoSpill(vol[Mapped(geo, vol, ib, k)], guard, at, |name|)
    ensures |vol'| == |vol| && vol'[c] == vol[c] && Sound(geo, vol', ib, size, c)
    ensures Seen(geo, vol, ib, size, name) == None ==>
      Seen(geo, vol', ib, size, name) == if k < NumBlocks(size, geo.blockSize) then Some(ino) else None
    ensures other != name ==> Seen(geo, vol', ib, size, other) == Seen(geo, vol, ib, size, other)
  {
    hide At, IsFree, IsBitmap, VolumeOk, PlaceOf, NumBlocks, Looked, Unreached, MapOk, FindName, DirRecords, Tiled, Records, NoSpill,
      Ext2Dirs.Split, SplitSite, Mapped, Usable;
    var n := Looked(size, geo.blockSize);
    LookupAfterAdd(geo, vol, ib, vol', n, k, at, name, ino, fileType, guard, other);
    LookedIs(size, geo.blockSize);
    var b := Mapped(geo, vol, ib, k);
    SplitApart(geo, vol, ib, k, c, vol'[b]);
    if NumBlocks(size, geo.blockSize) == 0 {
      NoRecords(geo, vol, ib, 0, other);
      NoRecords(geo, vol', ib, 0, other);
      NoRecords(geo, vol', ib, 0, name);
    }
  }

  lemma SplitApart(geo: Geometry, vol: seq<Block>, ib: seq<nat>, k: nat, c: nat, data: Block)
    requires MapOk(geo, vol, ib) && |ib| == NPTR && 0 < Mapped(geo, vol, ib, k) < |vol| && Usable(geo, vol, c) && Unreached(vol, ib, c)
    requires MapOk(geo, vol[Mapped(geo, vol, ib, k) := data], ib) && geo.blockSize > 0
    ensures var vol' := vol[Mapped(geo, vol, ib, k) := data];
            vol'[c] == vol[c] && VolumeOk(geo, vol') && Usable(geo, vol', c) && Unreached(vol', ib, c)
  {
    hide At, IsFree, IsBitmap, GeometryOk, PlaceOf;
    var b := Mapped(geo, vol, ib, k);
    var vol' := vol[b := data];
    assert |data| == geo.blockSize by { assert vol'[b] == data; }
    StoreBlock(geo, vol, ib, k, data);
  }

  // ---------------------------------------------------------------- the NUL behind a new name

  /** The bytes of block `b` and the guard, with the byte the NUL will fall on already zero. */
  ghost function Struck(vol: seq<Block>, b: nat, at: nat, nameLen: nat, guard: byte): (c: seq<byte>)
    requires b < |vol| && at + HEADER <= |vol[b]| && at + RecLenAt(vol[b] + [guard], at) <= |vol[b]|
    ensures |c| == |vol[b]| + 1
  {
    Nulled(vol[b] + [guard], at, nameLen)
  }

  /** The NUL falls on a record behind the split one. */
  ghost predicate NulHits(block: Block, guard: byte, at: nat, nameLen: nat)
    requires at + HEADER <= |block|
  {
    Spills(block + [guard], at, nameLen) && at + RecLenAt(block + [guard], at) < |block|
  }

  lemma SiteBounds(block: Block, guard: byte, at: nat, name: seq<byte>, ino: nat)
    requires SplitSite(block + [guard], |block|, at, name, ino)
    ensures at + HEADER <= |block| && at + RecLenAt(block + [guard], at) <= |block|
  {
    hide Tiled, Round4;
  }

  /** Adding the entry to the struck volume is adding it to the volume, and there no NUL does harm. */
  lemma StruckAdded(geo: Geometry, vol: seq<Block>, ib: seq<nat>, vol': seq<Block>, n: nat, k: nat, at: nat,
                    name: seq<byte>, ino: nat, fileType: byte, guard: byte, v: seq<Block>, c: seq<byte>)
    requires MapOk(geo, vol, ib) && |ib| == NPTR && geo.blockSize > 0 && DirOk(geo, vol, ib, n)
    requires EntryAdded(geo, vol, ib, vol', n, k, at, name, ino, fileType, guard)
    requires var b := Mapped(geo, vol, ib, k);
      && at + HEADER <= |vol[b]| && at + RecLenAt(vol[b] + [guard], at) <= |vol[b]|
      && c == Struck(vol, b, at, |name|, guard) && v == vol[b := c[..|vol[b]|]]
    ensures MapOk(geo, v, ib) && DirOk(geo, v, ib, n) && Mapped(geo, v, ib, k) == Mapped(geo, vol, ib, k)
    ensures forall j :: 0 <= j < n && j != k ==> BlockRecords(v, Mapped(geo, v, ib, j)) == BlockRecords(vol, Mapped(geo, vol, ib, j))
    ensures var b := Mapped(geo, vol, ib, k); var m := |vol[b]|;
      EntryAdded(geo, v, ib, vol', n, k, at, name, ino, fileType, c[m]) && NoSpill(v[b], c[m], at, |name|)
  {
    hide MapOk, Mapped, Tiled, Records, Ext2Dirs.Split, SplitSite, Spills, IsBitmap, BlockRecords;
    var b := Mapped(geo, vol, ib, k);
    var old0, m := vol[b] + [guard], |vol[b]|;
    DataInRange(geo, vol, ib, k);
    NulledSplit(old0, m, at, name, ino, fileType);
    assert c == c[..m] + [c[m]];
    StruckTiled(old0, m, at, name, ino);
    TiledLocal(c, c[..m], 0, m);
    OtherBlocksSame(geo, vol, ib, v, n, k, c[..m]);
  }

  lemma StruckTiled(b: seq<byte>, bs: nat, at: nat, name: seq<byte>, ino: nat)
    requires SplitSite(b, bs, at, name, ino)
    ensures at + HEADER <= |b| && at + RecLenAt(b, at) < |b| && Tiled(b, 0, bs) && Tiled(Nulled(b, at, |name|), 0, bs)
  {
    hide Records, Round4, Word;
    SplitSiteTiles(b, bs, at, name, ino);
    NulledRecords(b, bs, at + RecLenAt(b, at));
  }

  /** The records of a directory, around one block. */
  lemma {:induction false} AroundBlock(geo: Geometry, vol: seq<Block>, v: seq<Block>, ib: seq<nat>, n: nat, k: nat) returns (p: seq<Rec>, q: seq<Rec>)
    requires |ib| == NPTR && DirOk(geo, vol, ib, n) && DirOk(geo, v, ib, n) && k < n
    requires forall j :: 0 <= j < n && j != k ==> BlockRecords(v, Mapped(geo, v, ib, j)) == BlockRecords(vol, Mapped(geo, vol, ib, j))
    ensures DirRecords(geo, vol, ib, n) == p + BlockRecords(vol, Mapped(geo, vol, ib, k)) + q
    ensures DirRecords(geo, v, ib, n) == p + BlockRecords(v, Mapped(geo, v, ib, k)) + q
    decreases n
  {
    hide Mapped, BlockRecords, BlockTiled;
    if k == n - 1 {
      SameBefore(geo, vol, v, ib, n - 1);
      p, q := DirRecords(geo, vol, ib, n - 1), [];
    } else {
      p, q := AroundBlock(geo, vol, v, ib, n - 1, k);
      q := q + BlockRecords(vol, Mapped(geo, vol, ib, n - 1));
    }
  }

  lemma {:induction false} SameBefore(geo: Geometry, vol: seq<Block>, v: seq<Block>, ib: seq<nat>, n: nat)
    requires |ib| == NPTR && DirOk(geo, vol, ib, n) && DirOk(geo, v, ib, n)
    requires forall j :: 0 <= j < n ==> BlockRecords(v, Mapped(geo, v, ib, j)) == BlockRecords(vol, Mapped(geo, vol, ib, j))
    ensures DirRecords(geo, v, ib, n) == DirRecords(geo, vol, ib, n)
    decreases n
  {
    hide Mapped, BlockRecords, BlockTiled;
    if n > 0 { SameBefore(geo, vol, v, ib, n - 1); }
  }

  /** Between two lists of records the one record `r` lost the low byte of its inode number. */
  ghost predicate OneCut(rs: seq<Rec>, rs': seq<Rec>, r: Rec) {
    exists p: seq<Rec>, q: seq<Rec> :: rs == p + [r] + q && rs' == p + [Cut(r)] + q
  }

  /** The records of the struck block. */
  lemma StruckRecords(block: Block, guard: byte, at: nat, name: seq<byte>, ino: nat)
    returns (p: seq<Rec>, q: seq<Rec>)
    requires SplitSite(block + [guard], |block|, at, name, ino)
    requires at + HEADER <= |block| && at + RecLenAt(block + [guard], at) <= |block|
    ensures var c := Nulled(block + [guard], at, |name|)[..|block|];
      var end := at + RecLenAt(block + [guard], at);
      && Tiled(block, 0, |block|) && Tiled(c, 0, |block|)
      && (!NulHits(block, guard, at, |name|) ==> c == block)
      && (NulHits(block, guard, at, |name|) ==>
            && end + HEADER <= |block| && end + HEADER + NameLenAt(block, end) <= |block|
            && Records(block, 0, |block|) == p + [RecAt(block, end)] + q && Records(c, 0, |block|) == p + [Cut(RecAt(block, end))] + q)
  {
    hide Tiled, Records, Round4, Word, Spills, RecAt;
    var b, m := block + [guard], |block|;
    var end := at + RecLenAt(b, at);
    SplitSiteTiles(b, m, at, name, ino);
    NulledRecords(b, m, end);
    StruckTiled(b, m, at, name, ino);
    TiledLocal(b, block, 0, m);
    var c := Nulled(b, at, |name|);
    TiledLocal(c, c[..m], 0, m);
    p, q := [], [];
    if NulHits(block, guard, at, |name|) {
      p, q := Records(b, 0, end), Records(b, end + RecLenAt(b, end), m);
      FitsInside(b, end, m);
      RecLocal(b, block, end, m);
    } else {
      assert c[..m] == block;
    }
  }

  lemma FitsInside(b: seq<byte>, off: nat, to: nat)
    requires Fits(b, off, to)
    ensures off + HEADER + NameLenAt(b, off) <= to <= |b|
  {
  }

  // ---------------------------------------------------------------- adding an entry

  /** The first block without a record that has room for the name is the hole `i`. */
  ghost predicate FirstHole(geo: Geometry, vol: seq<Block>, d: nat, i: nat, nameLen: nat)
    requires Directory(geo, vol, d)
  {
    var ib, size := PointersOf(InodeBytes(geo, vol, d)), SizeOf(InodeBytes(geo, vol, d));
    i < Looked(size, geo.blockSize) && Mapped(geo, vol, ib, i) == 0 && FullBefore(geo, vol, ib, i, nameLen)
  }

  /** The entry added for hole `i` will be found. */
  ghost predicate HoleShows(geo: Geometry, vol: seq<Block>, d: nat, i: nat, nameLen: nat)
    requires Directory(geo, vol, d)
  {
    Survives(SizeOf(InodeBytes(geo, vol, d)), geo.blockSize, PointersOf(InodeBytes(geo, vol, d)), i, nameLen)
  }

  /** Why that hole cannot be filled. */
  ghost predicate HoleRefused(geo: Geometry, vol: seq<Block>, d: nat, i: nat, drift: seq<nat>, e: Error)
    requires Directory(geo, vol, d)
  {
    CannotFill(geo, vol, PointersOf(InodeBytes(geo, vol, d)), i, drift, e)
  }

  /** Every block of the directory is there and none has room. */
  ghost predicate AllFull(geo: Geometry, vol: seq<Block>, d: nat, nameLen: nat)
    requires Directory(geo, vol, d)
  {
    FullBefore(geo, vol, PointersOf(InodeBytes(geo, vol, d)), Looked(SizeOf(InodeBytes(geo, vol, d)), geo.blockSize), nameLen)
  }

  /** A record of block `k` has room, and none before it has. */
  ghost predicate SplitAt(geo: Geometry, vol: seq<Block>, d: nat, k: nat, at: nat, name: seq<byte>, ino: nat, guard: byte)
    requires Directory(geo, vol, d)
  {
    var ib, size := PointersOf(InodeBytes(geo, vol, d)), SizeOf(InodeBytes(geo, vol, d));
    var b := Mapped(geo, vol, ib, k);
    && k < Looked(size, geo.blockSize) && 0 < b < |vol| && FullBefore(geo, vol, ib, k, |name|)
    && SplitSite(vol[b] + [guard], |vol[b]|, at, name, ino)
  }

  /** The size counts block `k`. */
  ghost predicate Counted(geo: Geometry, vol: seq<Block>, d: nat, k: nat)
    requires Directory(geo, vol, d)
  {
    k < NumBlocks(SizeOf(InodeBytes(geo, vol, d)), geo.blockSize)
  }

  /** Lookups before and after: the name, absent before, is found if and only if `shows`; every other
      name is found as before. */
  ghost predicate Added(geo: Geometry, vol: seq<Block>, vol': seq<Block>, d: nat, name: seq<byte>, ino: nat, shows: bool) {
    && Directory(geo, vol, d) && Directory(geo, vol', d)
    && (Entry(geo, vol, d, name) == None ==> Entry(geo, vol', d, name) == if shows then Some(ino) else None)
    && forall other :: other != name ==> Entry(geo, vol', d, other) == Entry(geo, vol, d, other)
  }

  /** The block of directory `d` that is split, its bytes and the byte behind its buffer. */
  ghost function BlockOf(geo: Geometry, vol: seq<Block>, d: nat, k: nat): nat
    requires Directory(geo, vol, d)
  {
    Mapped(geo, vol, PointersOf(InodeBytes(geo, vol, d)), k)
  }

  ghost function RecordsOf(geo: Geometry, vol: seq<Block>, d: nat): seq<Rec>
    requires Directory(geo, vol, d)
  {
    var ib, size := PointersOf(InodeBytes(geo, vol, d)), SizeOf(InodeBytes(geo, vol, d));
    LookedIs(size, geo.blockSize);
    DirRecords(geo, vol, ib, NumBlocks(size, geo.blockSize))
  }

  /** Directory `d` after a record of block `k` was split for the name, told through the volume `v` in
      which only the byte under the NUL is already zero. From `v` on, the name is added and nothing
      else changes. `v` is the old volume unless the NUL hits a record; then it differs from it in
      the low byte of that record's inode number. */
  ghost predicate SplitDone(geo: Geometry, vol: seq<Block>, v: seq<Block>, vol': seq<Block>, d: nat, k: nat, at: nat,
                            name: seq<byte>, ino: nat, guard: byte)
    requires Directory(geo, vol, d)
  {
    var b := BlockOf(geo, vol, d, k);
    && b < |vol| && at + HEADER <= |vol[b]|
    && Added(geo, v, vol', d, name, ino, Counted(geo, vol, d, k))
    && (Entry(geo, vol, d, name) == None ==> Entry(geo, v, d, name) == None)
    && (!NulHits(vol[b], guard, at, |name|) ==> v == vol)
    && (!Counted(geo, vol, d, k) ==> RecordsOf(geo, vol, d) == RecordsOf(geo, v, d) == [])
    && (NulHits(vol[b], guard, at, |name|) && Counted(geo, vol, d, k) ==>
          var end := at + RecLenAt(vol[b] + [guard], at);
          && end + HEADER <= |vol[b]| && end + HEADER + NameLenAt(vol[b], end) <= |vol[b]|
          && OneCut(RecordsOf(geo, vol, d), RecordsOf(geo, v, d), RecAt(vol[b], end)))
  }

  /** Every lookup is as before. */
  ghost predicate Kept(geo: Geometry, vol: seq<Block>, vol': seq<Block>, d: nat) {
    && Directory(geo, vol, d) && Directory(geo, vol', d)
    && forall name :: Entry(geo, vol', d, name) == Entry(geo, vol, d, name)
  }

  /** Inode `d` in both volumes, when its table block is the same. */
  lemma SameInode(geo: Geometry, vol: seq<Block>, vol': seq<Block>, d: nat)
    requires TablesOk(geo, vol) && SlotReadable(geo, vol, d) && VolumeOk(geo, vol') && |vol'| == |vol|
    requires vol'[InodeBlock(geo, d)] == vol[InodeBlock(geo, d)]
    ensures TablesOk(geo, vol') && SlotReadable(geo, vol', d) && InodeBytes(geo, vol', d) == InodeBytes(geo, vol, d)
  {
    hide TablesOk, VolumeOk, InodeBlock, InodeOffset, InodesPerBlock, InodeExists;
    SameTables(geo, vol, vol');
  }

  lemma SoundVolume(geo: Geometry, vol: seq<Block>, ib: seq<nat>, size: nat, c: nat)
    requires Sound(geo, vol, ib, size, c)
    ensures VolumeOk(geo, vol) && c < |vol| && |vol[c]| == geo.blockSize && forall k :: 0 <= k < NPTR ==> ib[k] < U32
  {
    hide At, IsFree, IsBitmap, Unreached, Unshared, DirOk, Looked, PlaceOf, GeometryOk;
  }

  /** Only the count of free blocks changed. */
  lemma LeakKeeps(geo: Geometry, vol: seq<Block>, vol': seq<Block>, d: nat, b: nat)
    requires Directory(geo, vol, d) && Allocated(geo, vol, vol', Blocks, b)
    ensures Kept(geo, vol, vol', d)
  {
    hide TablesOk, InodeExists, InodesPerBlock, InodeOffset, InodeBlock, InodeBytes, Sound, Seen, Allocated, IsDir, SizeOf, PointersOf;
    var raw := InodeBytes(geo, vol, d);
    var c := InodeBlock(geo, d);
    AllocApart(geo, vol, PointersOf(raw), SizeOf(raw), c, vol', b);
    SoundVolume(geo, vol', PointersOf(raw), SizeOf(raw), c);
    SameInode(geo, vol, vol', d);
  }

  /** The struck volume, in between. */
  lemma StruckSeen(geo: Geometry, vol: seq<Block>, ib: seq<nat>, vol': seq<Block>, size: nat, k: nat, at: nat,
                   name: seq<byte>, ino: nat, fileType: byte, guard: byte, c: nat) returns (v: seq<Block>, guard2: byte)
    requires Sound(geo, vol, ib, size, c) && ino != 0
    requires EntryAdded(geo, vol, ib, vol', Looked(size, geo.blockSize), k, at, name, ino, fileType, guard)
    ensures Sound(geo, v, ib, size, c) && |v| == |vol| && v[c] == vol[c]
    ensures EntryAdded(geo, v, ib, vol', Looked(size, geo.blockSize), k, at, name, ino, fileType, guard2)
    ensures NoSpill(v[Mapped(geo, v, ib, k)], guard2, at, |name|)
    ensures var b, n := Mapped(geo, vol, ib, k), NumBlocks(size, geo.blockSize);
      && at + HEADER <= |vol[b]| && (!NulHits(vol[b], guard, at, |name|) ==> v == vol)
      && DirOk(geo, vol, ib, n) && DirOk(geo, v, ib, n)
      && (NulHits(vol[b], guard, at, |name|) && k < n ==>
            var end := at + RecLenAt(vol[b] + [guard], at);
            && end + HEADER <= |vol[b]| && end + HEADER + NameLenAt(vol[b], end) <= |vol[b]|
            && OneCut(DirRecords(geo, vol, ib, n), DirRecords(geo, v, ib, n), RecAt(vol[b], end)))
  {
    hide At, IsFree, IsBitmap, VolumeOk, PlaceOf, NumBlocks, Looked, Unreached, MapOk, DirRecords, Tiled, Records, NoSpill, RecAt,
      Ext2Dirs.Split, SplitSite, Mapped, Usable, NulHits, Nulled, OneCut, BlockRecords;
    var b, l := Mapped(geo, vol, ib, k), Looked(size, geo.blockSize);
    SiteBounds(vol[b], guard, at, name, ino);
    var s := Struck(vol, b, at, |name|, guard);
    v, guard2 := vol[b := s[..|vol[b]|]], s[|vol[b]|];
    StruckAdded(geo, vol, ib, vol', l, k, at, name, ino, fileType, guard, v, s);
    SplitApart(geo, vol, ib, k, c, v[b]);
    LookedIs(size, geo.blockSize);
    var p, q := StruckRecords(vol[b], guard, at, name, ino);
    if NulHits(vol[b], guard, at, |name|) && k < NumBlocks(size, geo.blockSize) {
      var p1, q1 := AroundBlock(geo, vol, v, ib, l, k);
      StruckCut(vol, v, b, RecAt(vol[b], at + RecLenAt(vol[b] + [guard], at)), p, q, p1, q1, DirRecords(geo, vol, ib, l), DirRecords(geo, v, ib, l));
    }
  }

  lemma StruckCut(vol: seq<Block>, v: seq<Block>, b: nat, r: Rec, p: seq<Rec>, q: seq<Rec>, p1: seq<Rec>, q1: seq<Rec>, rs: seq<Rec>, rs': seq<Rec>)
    requires 0 < b < |vol| == |v| && BlockTiled(vol, b) && BlockTiled(v, b)
    requires Records(vol[b], 0, |vol[b]|) == p + [r] + q && Records(v[b], 0, |v[b]|) == p + [Cut(r)] + q
    requires rs == p1 + BlockRecords(vol, b) + q1 && rs' == p1 + BlockRecords(v, b) + q1
    ensures OneCut(rs, rs', r)
  {
    hide Tiled, Records, Cut;
    assert rs == (p1 + p) + [r] + (q + q1) && rs' == (p1 + p) + [Cut(r)] + (q + q1);
  }

  /** An entry split off a record, through the inode table. */
  lemma SplitAdds(geo: Geometry, vol: seq<Block>, vol': seq<Block>, d: nat, k: nat, at: nat, name: seq<byte>, ino: nat, fileType: byte, guard: byte)
    returns (v: seq<Block>)
    requires Directory(geo, vol, d) && ino != 0
    requires var raw := InodeBytes(geo, vol, d);
      EntryAdded(geo, vol, PointersOf(raw), vol', Looked(SizeOf(raw), geo.blockSize), k, at, name, ino, fileType, guard)
    ensures SplitDone(geo, vol, v, vol', d, k, at, name, ino, guard)
  {
    hide TablesOk, InodeExists, InodesPerBlock, InodeOffset, InodeBlock, InodeBytes, Sound, EntryAdded, IsDir, SizeOf, PointersOf,
      Mapped, NoSpill, Looked, NumBlocks, OneCut, NulHits, RecAt, DirRecords, FindName, Added;
    var raw := InodeBytes(geo, vol, d);
    var c := InodeBlock(geo, d);
    var ib, size := PointersOf(raw), SizeOf(raw);
    SoundShape(geo, vol, ib, size, c);
    SoundVolume(geo, vol, ib, size, c);
    SplitInside(geo, vol, ib, vol', size, k, at, name, ino, fileType, guard);
    var guard2;
    v, guard2 := StruckSeen(geo, vol, ib, vol', size, k, at, name, ino, fileType, guard, c);
    SoundShape(geo, v, ib, size, c);
    SoundVolume(geo, v, ib, size, c);
    SameInode(geo, vol, v, d);
    PlainSplitAdds(geo, v, vol', d, k, at, name, ino, fileType, guard2);
    LookedIs(size, geo.blockSize);
    NoBlocksNoRecords(geo, vol, v, ib);
    if NulHits(vol[Mapped(geo, vol, ib, k)], guard, at, |name|) && k < NumBlocks(size, geo.blockSize) {
      var b := Mapped(geo, vol, ib, k);
      OneCutNone(RecordsOf(geo, vol, d), RecordsOf(geo, v, d), RecAt(vol[b], at + RecLenAt(vol[b] + [guard], at)), name);
    }
  }

  /** At most one live record has the name. */
  ghost predicate Unique(rs: seq<Rec>, name: seq<byte>) {
    forall i, j :: 0 <= i < j < |rs| ==> !(Live(rs[i], name) && Live(rs[j], name))
  }

  predicate Live(r: Rec, name: seq<byte>) { r.inode != 0 && r.name == name }

  lemma {:induction false} NoneLive(rs: seq<Rec>, name: seq<byte>)
    requires forall i :: 0 <= i < |rs| ==> !Live(rs[i], name)
    ensures FindName(rs, name) == None
  {
    if rs != [] { NoneLive(rs[1..], name); }
  }

  /** The NUL falls on the record `r` of block `k`. */
  ghost predicate HitAt(geo: Geometry, vol: seq<Block>, d: nat, k: nat, at: nat, nameLen: nat, guard: byte, r: Rec)
    requires Directory(geo, vol, d)
  {
    var b := BlockOf(geo, vol, d, k);
    && b < |vol| && at + HEADER <= |vol[b]| && NulHits(vol[b], guard, at, nameLen)
    && var end := at + RecLenAt(vol[b] + [guard], at);
       end + HEADER <= |vol[b]| && end + HEADER + NameLenAt(vol[b], end) <= |vol[b]| && r == RecAt(vol[b], end)
  }

  /** Lookups when the NUL has hit the record `r`: the new name is found, every name but that of `r` as
      before; the name of `r` leads to the inode number without its low byte, or nowhere if that
      leaves zero. */
  lemma SpillLookups(geo: Geometry, vol: seq<Block>, v: seq<Block>, vol': seq<Block>, d: nat, k: nat, at: nat,
                     name: seq<byte>, ino: nat, guard: byte, r: Rec, other: seq<byte>)
    requires Directory(geo, vol, d) && SplitDone(geo, vol, v, vol', d, k, at, name, ino, guard) && Counted(geo, vol, d, k)
    requires HitAt(geo, vol, d, k, at, |name|, guard, r)
    ensures Directory(geo, vol', d)
    ensures Entry(geo, vol, d, name) == None ==> Entry(geo, vol', d, name) == Some(ino)
    ensures other != name && (other != r.name || r.inode == 0) ==> Entry(geo, vol', d, other) == Entry(geo, vol, d, other)
    ensures r.name != name && r.inode != 0 && Unique(RecordsOf(geo, vol, d), r.name) ==>
      && Entry(geo, vol, d, r.name) == Some(r.inode)
      && Entry(geo, vol', d, r.name) == if r.inode < 256 then None else Some(r.inode / 256 * 256)
  {
    hide Directory, Entry, RecordsOf, FindName, Spills, RecAt, BlockOf, Counted, Unique;
    var rs, rs' := RecordsOf(geo, vol, d), RecordsOf(geo, v, d);
    EntryIs(geo, vol, d, other);
    EntryIs(geo, v, d, other);
    EntryIs(geo, vol, d, r.name);
    EntryIs(geo, v, d, r.name);
    var p: seq<Rec>, q: seq<Rec> :| rs == p + [r] + q && rs' == p + [Cut(r)] + q;
    CutLookups(p, r, q, other);
    CutLookups(p, r, q, r.name);
    if r.inode != 0 && Unique(rs, r.name) { UniqueAround(p, r, q); }
  }

  lemma EntryIs(geo: Geometry, vol: seq<Block>, d: nat, name: seq<byte>)
    requires Directory(geo, vol, d)
    ensures Entry(geo, vol, d, name) == FindName(RecordsOf(geo, vol, d), name)
  {
    hide TablesOk, SlotReadable, InodeBytes, MapOk, DirRecords, FindName, NumBlocks, Looked, SizeOf, PointersOf, IsDir, Unreached, Usable;
  }

  lemma UniqueAround(p: seq<Rec>, r: Rec, q: seq<Rec>)
    requires r.inode != 0 && Unique(p + [r] + q, r.name)
    ensures FindName(p, r.name) == None && FindName(q, r.name) == None && FindName(p + [r] + q, r.name) == Some(r.inode)
  {
    hide FindName;
    var rs := p + [r] + q;
    assert rs[|p|] == r && Live(r, r.name);
    forall i | 0 <= i < |p| ensures !Live(p[i], r.name) { assert rs[i] == p[i]; }
    forall i | 0 <= i < |q| ensures !Live(q[i], r.name) { assert rs[|p| + 1 + i] == q[i]; }
    NoneLive(p, r.name);
    NoneLive(q, r.name);
    FindConcat(p + [r], q, r.name);
    FindConcat(p, [r], r.name);
    FindSingle(r, r.name);
  }

  lemma OneCutNone(rs: seq<Rec>, rs': seq<Rec>, r: Rec, name: seq<byte>)
    requires OneCut(rs, rs', r)
    ensures FindName(rs, name) == None ==> FindName(rs', name) == None
  {
    var p: seq<Rec>, q: seq<Rec> :| rs == p + [r] + q && rs' == p + [Cut(r)] + q;
    CutLookups(p, r, q, name);
  }

  lemma NoBlocksNoRecords(geo: Geometry, vol: seq<Block>, v: seq<Block>, ib: seq<nat>)
    requires |ib| == NPTR
    ensures DirOk(geo, vol, ib, 0) && DirOk(geo, v, ib, 0) && DirRecords(geo, vol, ib, 0) == DirRecords(geo, v, ib, 0) == []
  {
  }

  lemma SplitInside(geo: Geometry, vol: seq<Block>, ib: seq<nat>, vol': seq<Block>, size: nat, k: nat, at: nat,
                    name: seq<byte>, ino: nat, fileType: byte, guard: byte)
    requires geo.blockSize > 0 && EntryAdded(geo, vol, ib, vol', Looked(size, geo.blockSize), k, at, name, ino, fileType, guard)
    ensures k < Looked(size, geo.blockSize) && Mapped(geo, vol, ib, k) < |vol|
  {
    hide Mapped, Looked, SplitSite, Ext2Dirs.Split;
  }

  /** The case in which the NUL does no harm. */
  lemma PlainSplitAdds(geo: Geometry, vol: seq<Block>, vol': seq<Block>, d: nat, k: nat, at: nat, name: seq<byte>, ino: nat, fileType: byte, guard: byte)
    requires Directory(geo, vol, d) && ino != 0
    requires var raw := InodeBytes(geo, vol, d);
      && EntryAdded(geo, vol, PointersOf(raw), vol', Looked(SizeOf(raw), geo.blockSize), k, at, name, ino, fileType, guard)
      && NoSpill(vol[Mapped(geo, vol, PointersOf(raw), k)], guard, at, |name|)
    ensures Added(geo, vol, vol', d, name, ino, Counted(geo, vol, d, k))
  {
    hide TablesOk, InodeExists, InodesPerBlock, InodeOffset, InodeBlock, InodeBytes, Sound, Seen, EntryAdded, IsDir, SizeOf, PointersOf,
      Mapped, NoSpill, Looked, NumBlocks;
    var raw := InodeBytes(geo, vol, d);
    var c := InodeBlock(geo, d);
    var ib, size := PointersOf(raw), SizeOf(raw);
    SplitSeen(geo, vol, ib, vol', size, k, at, name, ino, fileType, guard, c, name);
    SoundVolume(geo, vol', ib, size, c);
    SameInode(geo, vol, vol', d);
    forall other | other != name ensures Entry(geo, vol', d, other) == Entry(geo, vol, d, other) {
      SplitSeen(geo, vol, ib, vol', size, k, at, name, ino, fileType, guard, c, other);
    }
  }

  /** A filled hole whose inode is not written back. */
  lemma FreshAddsStale(geo: Geometry, vol: seq<Block>, vol': seq<Block>, ib': seq<nat>, d: nat, i: nat, b: nat,
                       name: seq<byte>, ino: nat, fileType: byte)
    requires Directory(geo, vol, d) && ino != 0 && MapOk(geo, vol', ib')
    requires var raw := InodeBytes(geo, vol, d);
      && HoleFilled(geo, vol, PointersOf(raw), vol', ib', SizeOf(raw), i, b, name, ino, fileType)
      && Extended(geo, vol, PointersOf(raw), vol', ib', i) && !Grows(SizeOf(raw), geo.blockSize, i, |name|)
    ensures Added(geo, vol, vol', d, name, ino, HoleShows(geo, vol, d, i, |name|))
  {
    hide TablesOk, InodeExists, InodesPerBlock, InodeOffset, InodeBlock, InodeBytes, Sound, Seen, MapOk, HoleFilled, Extended, IsDir, SizeOf,
      PointersOf, Looked, NumBlocks, Survives, EntryEnd;
    var raw := InodeBytes(geo, vol, d);
    var c := InodeBlock(geo, d);
    var ib, size := PointersOf(raw), SizeOf(raw);
    FreshSound(geo, vol, ib, vol', ib', size, i, b, name, ino, fileType, c);
    SoundVolume(geo, vol', ib, size, c);
    SameInode(geo, vol, vol', d);
    SoundShape(geo, vol, ib, size, c);
    SoundShape(geo, vol', ib, size, c);
    forall other
      ensures other != name ==> Entry(geo, vol', d, other) == Entry(geo, vol, d, other)
      ensures Entry(geo, vol, d, name) == None ==> Entry(geo, vol', d, name) == if HoleShows(geo, vol, d, i, |name|) then Some(ino) else None
    {
      SurvivesExactly(geo, vol, ib, vol', ib', size, i, b, name, ino, fileType, other);
    }
  }

  lemma SoundShape(geo: Geometry, vol: seq<Block>, ib: seq<nat>, size: nat, c: nat)
    requires Sound(geo, vol, ib, size, c)
    ensures |ib| == NPTR && geo.blockSize > 0 && DirOk(geo, vol, ib, Looked(size, geo.blockSize))
  {
    hide MapOk, Looked, PlaceOf, Usable, Unreached, DirOk;
  }

  /** A filled hole whose inode is written back. */
  lemma FreshAddsSaved(geo: Geometry, vol: seq<Block>, vol': seq<Block>, ib': seq<nat>, vol'': seq<Block>, d: nat, i: nat, b: nat,
                       name: seq<byte>, ino: nat, fileType: byte)
    requires Directory(geo, vol, d) && ino != 0 && MapOk(geo, vol', ib') && |ib'| == NPTR && forall k :: 0 <= k < NPTR ==> ib'[k] < U32
    requires var raw := InodeBytes(geo, vol, d);
      && HoleFilled(geo, vol, PointersOf(raw), vol', ib', SizeOf(raw), i, b, name, ino, fileType)
      && Extended(geo, vol, PointersOf(raw), vol', ib', i) && Grows(SizeOf(raw), geo.blockSize, i, |name|)
      && TablesOk(geo, vol'') && EntryEnd(geo.blockSize, i, |name|) < U32
      && InodeStored(geo, vol', vol'', d, Encoded(raw, EntryEnd(geo.blockSize, i, |name|), ib'))
    ensures Added(geo, vol, vol'', d, name, ino, HoleShows(geo, vol, d, i, |name|))
  {
    hide TablesOk, InodeExists, InodesPerBlock, InodeOffset, InodeBlock, InodeBytes, Sound, Seen, MapOk, HoleFilled, Extended, IsDir, SizeOf,
      PointersOf, Looked, NumBlocks, EntryEnd, Encoded;
    var raw := InodeBytes(geo, vol, d);
    var c := InodeBlock(geo, d);
    var ib, size, e := PointersOf(raw), SizeOf(raw), EntryEnd(geo.blockSize, i, |name|);
    FreshSound(geo, vol, ib, vol', ib', size, i, b, name, ino, fileType, c);
    EncodedReads(raw, e, ib');
    StoredApart(geo, vol', vol'', ib', e, d, Encoded(raw, e, ib'));
    SoundShape(geo, vol, ib, size, c);
    SoundShape(geo, vol', ib', e, c);
    forall other
      ensures other != name ==> Entry(geo, vol'', d, other) == Entry(geo, vol, d, other)
      ensures Entry(geo, vol, d, name) == None ==> Entry(geo, vol'', d, name) == if HoleShows(geo, vol, d, i, |name|) then Some(ino) else None
    {
      SurvivesExactly(geo, vol, ib, vol', ib', size, i, b, name, ino, fileType, other);
    }
  }

  /** Storing the inode of a directory leaves the directory as it is. */
  lemma StoredApart(geo: Geometry, vol: seq<Block>, vol': seq<Block>, ib: seq<nat>, size: nat, d: nat, raw: seq<byte>)
    requires TablesOk(geo, vol') && InodeStored(geo, vol, vol', d, raw) && SlotReadable(geo, vol', d)
    requires Sound(geo, vol, ib, size, InodeBlock(geo, d))
    ensures Sound(geo, vol', ib, size, InodeBlock(geo, d))
    ensures forall name :: Seen(geo, vol', ib, size, name) == Seen(geo, vol, ib, size, name)
  {
    hide InodeExists, InodesPerBlock, InodeOffset, InodeBlock, InodeBytes, Sound, Seen, TableOk, SharedBlock, GeometryOk, IsBitmap;
    var c := InodeBlock(geo, d);
    SoundVolume(geo, vol, ib, size, c);
    assert vol' == vol[c := vol'[c]];
    WriteApart(geo, vol, ib, size, c, vol'[c], vol');
  }

  /** ext2_add_dir_entry by inode number. What later lookups find is read off the inode and the
      blocks before the call: an entry put into a hole is found exactly if `HoleShows`, an entry
      split off a record exactly if the size counts its block. A call that fails changes no lookup. */
  method AddEntry(fs: Ext2Fs, d: nat, name: seq<byte>, ino: nat, fileType: byte, guard: byte)
    returns (r: Result<()>, ghost o: Ext2DirGrowth.Outcome, ghost v: seq<Block>)
    requires fs.Valid() && TablesOk(fs.geo, fs.vol) && (InodeExists(fs.geo, d) ==> Directory(fs.geo, fs.vol, d))
    requires |name| < 256 && ino < U32 && Round4(HEADER + |name|) <= fs.geo.blockSize
    modifies fs, fs.cache, fs.cache.slots, fs.cache.device
    ensures fs.Valid()
    ensures !InodeExists(fs.geo, d) ==> r == Err(Invalid) && fs.vol == old(fs.vol)
    ensures r.Ok? <==> o.Split? || o.Fresh?
    ensures InodeExists(fs.geo, d) && r.Err? ==> Kept(fs.geo, old(fs.vol), fs.vol, d)
    ensures o.Fresh? ==> Directory(fs.geo, old(fs.vol), d) && FirstHole(fs.geo, old(fs.vol), d, o.i, |name|)
    ensures o.Fresh? && ino != 0 ==>
      Added(fs.geo, old(fs.vol), fs.vol, d, name, ino, HoleShows(fs.geo, old(fs.vol), d, o.i, |name|))
    ensures o.Split? ==> Directory(fs.geo, old(fs.vol), d) && SplitAt(fs.geo, old(fs.vol), d, o.block, o.at, name, ino, guard)
    ensures o.Split? && ino != 0 ==> SplitDone(fs.geo, old(fs.vol), v, fs.vol, d, o.block, o.at, name, ino, guard)
    ensures InodeExists(fs.geo, d) && o.Full? ==> r == Err(NoMemory) && AllFull(fs.geo, old(fs.vol), d, |name|)
    ensures o.Refused? || o.Leak? ==> r.Err? && Directory(fs.geo, old(fs.vol), d) && FirstHole(fs.geo, old(fs.vol), d, o.i, |name|)
    ensures o.Refused? || o.Leak? ==> HoleRefused(fs.geo, old(fs.vol), d, o.i, old(fs.blockDrift), r.error)
  {
    hide Ext2Fs.Synced, LedgerOk, MapOk, TablesOk, InodeExists, InodesPerBlock, InodeOffset, InodeBlock, InodeBytes, IsDir, SizeOf, SectorsOf,
      PointersOf, Looked, NumBlocks, EntryEnd, Encoded, BlockLinked, OneRecord, Patched, Extended, DirOk, Added, Kept, FullBefore, Mapped,
      SplitAt, EntryAdded, SplitDone, CannotFill, Ext2Dirs.Split, Allocated, InodeStored, Usable, Unreached, PlaceOf, Round4, SlotReadable, Survives;
    o := Full;
    v := fs.vol;
    ghost var v0 := fs.vol;
    var raw := ReadInode(fs, d);
    if raw.Err? { return Err(raw.error), o, v; }
    var inode := new Inode(SizeOf(raw.value), SectorsOf(raw.value), PointersOf(raw.value));
    var saved;
    r, saved, o := AddDirEntry(fs, inode, name, ino, fileType, guard);
    ghost var v1, ib := fs.vol, inode.block;
    if o.Fresh? { FreshFacts(fs.geo, v0, PointersOf(raw.value), v1, ib, SizeOf(raw.value), o.i, o.b, name, ino, fileType); }
    if saved {
      var _ := WriteInode(fs, d, Encoded(raw.value, inode.size, inode.block));
      if ino != 0 { FreshAddsSaved(fs.geo, v0, v1, ib, fs.vol, d, o.i, o.b, name, ino, fileType); }
    } else {
      match o {
        case Fresh(i, b) => if ino != 0 { FreshAddsStale(fs.geo, v0, v1, ib, d, i, b, name, ino, fileType); }
        case Split(k, at) =>
          SplitWhere(fs.geo, v0, v1, d, k, at, name, ino, fileType, guard);
          if ino != 0 { v := SplitAdds(fs.geo, v0, v1, d, k, at, name, ino, fileType, guard); }
        case Leak(_, lost) => LeakKeeps(fs.geo, v0, v1, d, lost);
        case _ => NothingKeeps(fs.geo, v0, d);
      }
    }
  }

  lemma FreshFacts(geo: Geometry, vol: seq<Block>, ib: seq<nat>, vol': seq<Block>, ib': seq<nat>, size: nat, i: nat, b: nat,
                   name: seq<byte>, ino: nat, fileType: byte)
    requires TablesOk(geo, vol) && HoleFilled(geo, vol, ib, vol', ib', size, i, b, name, ino, fileType)
    requires Extended(geo, vol, ib, vol', ib', i) && MapOk(geo, vol', ib')
    ensures Mapped(geo, vol, ib, i) == 0 && TablesOk(geo, vol') && EntryEnd(geo.blockSize, i, |name|) < U32
    ensures forall k :: 0 <= k < NPTR ==> ib'[k] < U32
  {
    hide TablesOk, Mapped, Looked, DirOk, OneRecord, Patched, At, Unreached, VolumeOk, IsFree, IsBitmap, PlaceOf, Unshared;
    SameTables(geo, vol, vol');
  }

  lemma SplitWhere(geo: Geometry, vol: seq<Block>, vol': seq<Block>, d: nat, k: nat, at: nat, name: seq<byte>, ino: nat, fileType: byte, guard: byte)
    requires Directory(geo, vol, d)
    requires var raw := InodeBytes(geo, vol, d);
      && EntryAdded(geo, vol, PointersOf(raw), vol', Looked(SizeOf(raw), geo.blockSize), k, at, name, ino, fileType, guard)
      && FullBefore(geo, vol, PointersOf(raw), k, |name|)
    ensures SplitAt(geo, vol, d, k, at, name, ino, guard)
  {
    hide TablesOk, InodeExists, InodesPerBlock, InodeOffset, InodeBlock, InodeBytes, Sound, IsDir, SizeOf, PointersOf, Mapped, Looked, SplitSite,
      Ext2Dirs.Split, FullBefore;
  }

  lemma NothingKeeps(geo: Geometry, vol: seq<Block>, d: nat)
    requires Directory(geo, vol, d)
    ensures Kept(geo, vol, vol, d)
  {
    hide Directory, Entry;
  }

  // ---------------------------------------------------------------- an entry that is lost

  /** A volume of five blocks: two bitmaps, a table of one inode, and one free block. The inode is a
      directory whose size is one block and which has no block. */
  function SparseGeo(): Geometry { Geometry(128, 0, 5, 5, 1, 1, 128, [Group(1, 2, 3)]) }

  function SparseInode(): (raw: seq<byte>)
    ensures |raw| == INODE_BYTES
  {
    seq(INODE_BYTES, i => if i == 1 then 0x40 else if i == 4 then 128 else 0)
  }

  function SparseBitmap(): (b: Block)
    ensures |b| == 128
  {
    seq(128, i => if i == 0 then 15 else 0)
  }

  function SparseVolume(): seq<Block> { [ZeroBlock(128), SparseBitmap(), ZeroBlock(128), SparseInode(), ZeroBlock(128)] }

  lemma SparseVolumeOk()
    ensures VolumeOk(SparseGeo(), SparseVolume())
  {
    hide ZeroBlock, SparseBitmap, SparseInode;
  }

  lemma SparseFree(n: nat)
    requires VolumeOk(SparseGeo(), SparseVolume())
    ensures IsFree(SparseGeo(), SparseVolume(), Blocks, n) <==> n == 4
  {
    hide VolumeOk, ZeroBlock, SparseInode;
    LowBits();
  }

  lemma LowBits()
    ensures Bits.TestBit(15, 0) && Bits.TestBit(15, 1) && Bits.TestBit(15, 2) && Bits.TestBit(15, 3) && !Bits.TestBit(15, 4)
  {
    assert 15 / 2 == 7 && 7 / 2 == 3 && 3 / 2 == 1 && 1 / 2 == 0;
    assert Bits.TestBit(7, 0) && Bits.TestBit(3, 0) && Bits.TestBit(1, 0) && !Bits.TestBit(0, 0);
    assert Bits.TestBit(7, 1) && Bits.TestBit(3, 1) && !Bits.TestBit(1, 1);
    assert Bits.TestBit(7, 2) && !Bits.TestBit(3, 2);
  }

  lemma SparseTables()
    ensures TablesOk(SparseGeo(), SparseVolume()) && SlotReadable(SparseGeo(), SparseVolume(), 1)
    ensures InodeBlock(SparseGeo(), 1) == 3 && InodeBytes(SparseGeo(), SparseVolume(), 1) == SparseInode()
  {
    hide ZeroBlock, SparseBitmap, SparseInode, VolumeOk;
    SparseVolumeOk();
  }

  lemma SparseWords()
    ensures IsDir(SparseInode()) && SizeOf(SparseInode()) == 128
    ensures forall k :: 0 <= k < NPTR ==> PointersOf(SparseInode())[k] == 0
  {
    forall k | 0 <= k < NPTR ensures PointersOf(SparseInode())[k] == 0 {
      assert Ptr(SparseInode(), BLOCK_WORD + k) == 0;
    }
  }

  lemma NothingMapped(vol: seq<Block>, ib: seq<nat>, p: Place)
    requires |ib| == NPTR && forall k :: 0 <= k < NPTR ==> ib[k] == 0
    ensures At(vol, ib, p) == 0
  {
  }

  lemma SparseMapOk(ib: seq<nat>)
    requires |ib| == NPTR && forall k :: 0 <= k < NPTR ==> ib[k] == 0
    ensures MapOk(SparseGeo(), SparseVolume(), ib)
    ensures Usable(SparseGeo(), SparseVolume(), 3) && Unreached(SparseVolume(), ib, 3)
  {
    hide VolumeOk, IsFree, At, ZeroBlock, SparseBitmap, SparseInode;
    SparseVolumeOk();
    forall n: nat ensures IsFree(SparseGeo(), SparseVolume(), Blocks, n) <==> n == 4 { SparseFree(n); }
    forall p: Place ensures At(SparseVolume(), ib, p) == 0 { NothingMapped(SparseVolume(), ib, p); }
  }

  lemma SparseSound(ib: seq<nat>)
    requires |ib| == NPTR && forall k :: 0 <= k < NPTR ==> ib[k] == 0
    ensures Sound(SparseGeo(), SparseVolume(), ib, 128, 3) && Looked(128, 128) == NumBlocks(128, 128) == 1
    ensures Mapped(SparseGeo(), SparseVolume(), ib, 0) == 0
  {
    hide MapOk, Usable, Unreached, ZeroBlock, SparseBitmap, SparseInode;
    SparseMapOk(ib);
    assert Looked(128, 128) == NumBlocks(128, 128) == 1;
    NothingMapped(SparseVolume(), ib, Direct(0));
  }

  /** The state is sound, its first hole is block 0, and no entry put there will be found. */
  lemma LostEntry(name: seq<byte>)
    requires Round4(HEADER + |name|) <= 128
    ensures var geo, vol := SparseGeo(), SparseVolume();
      && Directory(geo, vol, 1) && FirstHole(geo, vol, 1, 0, |name|) && !HoleShows(geo, vol, 1, 0, |name|)
      && Entry(geo, vol, 1, name) == None && !AllFull(geo, vol, 1, |name|)
      && (forall k, at, ino, guard :: !SplitAt(geo, vol, 1, k, at, name, ino, guard))
      && (forall i, drift, e :: NoWrap(geo, Blocks, drift) && FirstHole(geo, vol, 1, i, |name|) ==> !HoleRefused(geo, vol, 1, i, drift, e))
  {
    hide TablesOk, SlotReadable, InodeBlock, InodeBytes, SizeOf, PointersOf, IsDir, Sound, SparseInode, SparseBitmap, ZeroBlock, Round4,
      NumBlocks, Looked, Mapped, FindName, DirRecords, NoWrap, IsFree, VolumeOk, SplitSite;
    var geo, vol := SparseGeo(), SparseVolume();
    SparseTables();
    SparseWords();
    var ib := PointersOf(SparseInode());
    SparseSound(ib);
    SoundShape(geo, vol, ib, 128, 3);
    NoRecords(geo, vol, ib, 1, name);
    SparseVolumeOk();
    SparseFree(4);
    SmallEntry(|name|);
  }

  lemma SmallEntry(nameLen: nat)
    requires Round4(HEADER + nameLen) <= 128
    ensures EntryEnd(128, 0, nameLen) <= 128
  {
    hide Round4;
  }

  /** It happens: on that volume, as long as no counter has wrapped, adding an entry succeeds and the
      next lookup does not find it. */
  method LoseEntry(fs: Ext2Fs, name: seq<byte>, ino: nat, fileType: byte, guard: byte) returns (added: Result<()>, found: Result<nat>)
    requires fs.Valid() && fs.geo == SparseGeo() && fs.vol == SparseVolume() && NoWrap(fs.geo, Blocks, fs.blockDrift)
    requires Round4(HEADER + |name|) <= 128 && 0 < ino < U32
    modifies fs, fs.cache, fs.cache.slots, fs.cache.device
    ensures added.Ok? && found == Err(NotFound)
  {
    hide Ext2Fs.Synced, LedgerOk, SparseInode, SparseBitmap, ZeroBlock, Round4, Directory, Entry, FirstHole, HoleShows, AllFull, SplitAt,
      HoleRefused, NoWrap, TablesOk, InodeBytes, IsDir, SplitDone, SparseVolume;
    SparseTables();
    LostEntry(name);
    ShortName(|name|);
    ghost var o, v;
    added, o, v := AddEntry(fs, 1, name, ino, fileType, guard);
    assert o.Fresh?;
    HoleIsZero(o, |name|);
    DirectoryTables(fs.geo, fs.vol, 1);
    found := LookupEntry(fs, 1, name);
  }

  lemma DirectoryTables(geo: Geometry, vol: seq<Block>, d: nat)
    requires Directory(geo, vol, d)
    ensures TablesOk(geo, vol) && SlotReadable(geo, vol, d) && IsDir(InodeBytes(geo, vol, d))
  {
    hide TablesOk, InodeBytes, IsDir, Sound, InodeExists, InodesPerBlock, InodeOffset, InodeBlock;
  }

  lemma ShortName(nameLen: nat)
    requires Round4(HEADER + nameLen) <= 128
    ensures nameLen < 256 && InodeExists(SparseGeo(), 1)
  {
  }

  lemma HoleIsZero(o: Ext2DirGrowth.Outcome, nameLen: nat)
    requires Directory(SparseGeo(), SparseVolume(), 1)
    requires o.Fresh? ==> FirstHole(SparseGeo(), SparseVolume(), 1, o.i, nameLen)
    ensures o.Fresh? ==> o.i == 0
  {
    hide Directory, SparseVolume, Mapped, Looked, PointersOf;
    SparseTables();
    SparseWords();
    SparseSound(PointersOf(SparseInode()));
  }
}
