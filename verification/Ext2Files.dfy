/**
 Inodes and file contents: ext2_get_block_num and ext2_set_block_num of
 src/fs/ext2/inode.c and ext2_read_file of src/fs/ext2/file.c.
 */
module Ext2Files {
  import opened Common
  import opened Arith
  import opened Ext2Layout
  import opened Ext2Core
  import opened Ext2BlockMap

  /** The inode fields these operations use. */
  class Inode {
    var size: nat
    var sectors: nat
    var block: seq<nat>

    constructor (size: nat, sectors: nat, block: seq<nat>)
      ensures this.size == size && this.sectors == sectors && this.block == block
    {
      this.size, this.sectors, this.block := size, sectors, block;
    }
  }

  function PointersPerBlock(geo: Geometry): nat { geo.blockSize / 4 }

  /** What the map says about file block `fb`. */
  function Lookup(geo: Geometry, vol: seq<Block>, ib: seq<nat>, fb: nat): Result<nat>
    requires |ib| == NPTR
  {
    var place := PlaceOf(PointersPerBlock(geo), fb);
    if place.Some? then Ok(At(vol, ib, place.value)) else Err(Invalid)
  }

  lemma TableInRange(geo: Geometry, vol: seq<Block>, ib: seq<nat>, p: Place, j: nat)
    requires MapOk(geo, vol, ib) && At(vol, ib, p) != 0 && j < PointersPerBlock(geo)
    ensures At(vol, ib, p) < |vol| && |vol[At(vol, ib, p)]| == geo.blockSize && 4 * j + 4 <= geo.blockSize
  {
    hide IsFree, IsBitmap, At, Unshared;
    assert Usable(geo, vol, At(vol, ib, p));
  }

  /** The pointer stored in cell `j` of the table that place `p` points to. */
  method ReadCell(fs: Ext2Fs, ib: seq<nat>, ghost p: Place, t: nat, j: nat) returns (v: nat)
    requires fs.Valid() && MapOk(fs.geo, fs.vol, ib) && j < PointersPerBlock(fs.geo)
    requires t == At(fs.vol, ib, p) && t != 0
    modifies fs.cache, fs.cache.slots, fs.cache.device
    ensures fs.Valid() && v == Cell(fs.vol, t, j)
  {
    hide Ext2Fs.Synced, LedgerOk, MapOk, At;
    TableInRange(fs.geo, fs.vol, ib, p, j);
    var table := fs.ReadBlock(t);
    v := Ptr(table, j);
  }

  /** Pointers that a doubly indirect block leads to, and where pointer `x` of them lies. */
  function Square(a: nat): nat { a * a }

  function Row(a: nat, x: nat): nat
    requires a > 0
  {
    x / a
  }

  function Column(a: nat, x: nat): nat
    requires a > 0
  {
    x % a
  }

  /** ext2_get_block_num */
  method GetBlockNum(fs: Ext2Fs, inode: Inode, fb: nat) returns (r: Result<nat>)
    requires fs.Valid() && MapOk(fs.geo, fs.vol, inode.block)
    modifies fs.cache, fs.cache.slots, fs.cache.device
    ensures fs.Valid()
    ensures r == Lookup(fs.geo, fs.vol, inode.block, fb)
  {
    hide Ext2Fs.Synced, LedgerOk, Cell, MapOk, VolumeOk, Lookup, PlaceOf, Square, Row, Column;
    MapShape(fs.geo, fs.vol, inode.block);
    LookupIs(fs.geo, fs.vol, inode.block, fb);
    var a := fs.geo.blockSize / 4;
    if fb < 12 { return Ok(inode.block[fb]); }
    var rest := fb - 12;
    if rest < a {
      if inode.block[12] == 0 { CellOfNone(fs.vol, rest); return Ok(0); }
      var v := ReadCell(fs, inode.block, Ind, inode.block[12], rest);
      return Ok(v);
    }
    rest := rest - a;
    if rest < Square(a) {
      DivBelow(rest, a);
      var i, j := Row(a, rest), Column(a, rest);
      if inode.block[13] == 0 { CellOfNone(fs.vol, i); CellOfNone(fs.vol, j); return Ok(0); }
      var t := ReadCell(fs, inode.block, Dbl, inode.block[13], i);
      if t == 0 { CellOfNone(fs.vol, j); return Ok(0); }
      var v := ReadCell(fs, inode.block, DblAt(i), t, j);
      return Ok(v);
    }
    r := Err(Invalid);
  }

  lemma LookupIs(geo: Geometry, vol: seq<Block>, ib: seq<nat>, fb: nat)
    requires |ib| == NPTR
    ensures var a := geo.blockSize / 4;
      && (fb < 12 ==> Lookup(geo, vol, ib, fb) == Ok(ib[fb]))
      && (12 <= fb && fb - 12 < a ==> Lookup(geo, vol, ib, fb) == Ok(Cell(vol, ib[12], fb - 12)))
      && (fb - 12 >= a && fb - 12 - a < Square(a) && a > 0 ==>
            Lookup(geo, vol, ib, fb) == Ok(Cell(vol, Cell(vol, ib[13], Row(a, fb - 12 - a)), Column(a, fb - 12 - a))))
      && (fb - 12 >= a && fb - 12 - a >= Square(a) ==> Lookup(geo, vol, ib, fb) == Err(Invalid))
  {
    hide Cell;
  }

  lemma CellOfNone(vol: seq<Block>, j: nat)
    ensures Cell(vol, 0, j) == 0
  {
  }

  lemma DivBelow(x: nat, a: nat)
    requires x < Square(a)
    ensures a > 0 && Row(a, x) < a && Column(a, x) < a
  {
    var q := x / a;
    assert x == q * a + x % a;
    assert (q - a) * a == q * a - a * a;
    MulAtLeast(q - a, a);
  }

  // ---------------------------------------------------------------- setting a pointer

  /** `vol'` is `vol` except for bitmaps and block `b`. */
  ghost predicate OnlyBlock(geo: Geometry, vol: seq<Block>, vol': seq<Block>, b: nat) {
    |vol| == |vol'| && forall c :: 0 <= c < |vol| && c != b && !IsBitmap(geo, c) ==> vol'[c] == vol[c]
  }

  /** Blocks only ever move from free to used. */
  ghost predicate FreeShrinks(geo: Geometry, vol: seq<Block>, vol': seq<Block>) {
    && VolumeOk(geo, vol) && VolumeOk(geo, vol')
    && forall n: nat :: IsFree(geo, vol', Blocks, n) ==> IsFree(geo, vol, Blocks, n)
  }

  /** A block that was free, is now the zeroed indirect block, and nothing else moved. */
  ghost predicate IndInstalled(geo: Geometry, vol: seq<Block>, ib: seq<nat>, vol': seq<Block>, ib': seq<nat>) {
    && |ib| == |ib'| == NPTR
    && VolumeOk(geo, vol) && IsFree(geo, vol, Blocks, ib'[12])
    && ib' == ib[12 := ib'[12]]
    && Relinked(vol, ib, vol', ib', Ind, ib'[12])
    && OnlyBlock(geo, vol, vol', ib'[12])
    && FreeShrinks(geo, vol, vol')
  }

  lemma InstallIndOk(geo: Geometry, vol: seq<Block>, ib: seq<nat>, vol1: seq<Block>, n: nat)
    requires MapOk(geo, vol, ib) && ib[12] == 0 && Allocated(geo, vol, vol1, Blocks, n)
    ensures 0 < n < |vol1| && !IsBitmap(geo, n)
    ensures MapOk(geo, vol1[n := ZeroBlock(geo.blockSize)], ib[12 := n])
    ensures IndInstalled(geo, vol, ib, vol1[n := ZeroBlock(geo.blockSize)], ib[12 := n])
  {
    hide FreeBit, WriteBit, IsBitmap, IsFree, GeometryOk, WellSized, At;
    AllocKeepsMap(geo, vol, ib, vol1, n);
    var vol', ib' := vol1[n := ZeroBlock(geo.blockSize)], ib[12 := n];
    DataWriteKeepsBooks(geo, vol1, n, ZeroBlock(geo.blockSize));
    NotATable(vol1, ib, n);
    forall p: Place
      ensures At(vol', ib', p) == if p == Ind then n else At(vol1, ib, p)
    {
      InstallInd(vol1, ib, n, geo.blockSize, p);
    }
    BlocksFit(geo, vol1);
    RelinkedOk(geo, vol1, ib, vol', ib', Ind, n);
  }

  lemma NotATable(vol: seq<Block>, ib: seq<nat>, b: nat)
    requires |ib| == NPTR && Unreached(vol, ib, b)
    ensures !IsTable(vol, ib, b)
  {
    assert At(vol, ib, Ind) != b && At(vol, ib, Dbl) != b;
    forall j: nat ensures Cell(vol, ib[13], j) != b { assert At(vol, ib, DblAt(j)) != b; }
  }

  /** Give the inode an indirect block if it has none. */
  method EnsureInd(fs: Ext2Fs, inode: Inode) returns (r: Result<()>)
    requires fs.Valid() && MapOk(fs.geo, fs.vol, inode.block)
    modifies fs, inode`block, fs.cache, fs.cache.slots, fs.cache.device
    ensures fs.Valid() && MapOk(fs.geo, fs.vol, inode.block)
    ensures r.Err? ==> r.error == NoMemory && fs.vol == old(fs.vol) && inode.block == old(inode.block)
    ensures r.Err? ==> inode.block[12] == 0
    ensures r.Err? && NoWrap(fs.geo, Blocks, fs.blockDrift) ==> NoneFree(fs.geo, fs.vol, Blocks)
    ensures r.Ok? ==> inode.block[12] != 0
    ensures r.Ok? && old(inode.block)[12] != 0 ==> fs.vol == old(fs.vol) && inode.block == old(inode.block)
    ensures r.Ok? && old(inode.block)[12] == 0 ==>
      IndInstalled(fs.geo, old(fs.vol), old(inode.block), fs.vol, inode.block)
    ensures fs.blockDrift == old(fs.blockDrift) && fs.inodeDrift == old(fs.inodeDrift)
  {
    hide Ext2Fs.Synced, LedgerOk, Allocated, FirstFit, IndInstalled, Unshared, Usable, FreeOk, VolumeOk, IsBitmap, At, NoneFree, NoWrap;
    if inode.block[12] != 0 { return Ok(()); }
    ghost var vol, ib := fs.vol, inode.block;
    var n := fs.Alloc(Blocks);
    if n.Err? { return Err(n.error); }
    InstallIndOk(fs.geo, vol, ib, fs.vol, n.value);
    fs.WriteData(n.value, ZeroBlock(fs.geo.blockSize));
    inode.block := inode.block[12 := n.value];
    r := Ok(());
  }

  /** The pointer at `q` became `b`; at most the indirect block was allocated on the way. */
  ghost predicate PointerSet(geo: Geometry, vol: seq<Block>, ib: seq<nat>, vol': seq<Block>, ib': seq<nat>, q: Place, b: nat) {
    && |ib| == |ib'| == NPTR
    && (forall p: Place :: p != Ind ==> At(vol', ib', p) == if p == q then b else At(vol, ib, p))
    && (At(vol', ib', Ind) != At(vol, ib, Ind) ==>
          At(vol, ib, Ind) == 0 && q.IndAt? && VolumeOk(geo, vol) && IsFree(geo, vol, Blocks, At(vol', ib', Ind)))
    && (q.Direct? ==> vol' == vol)
    && OnlyBlock(geo, vol, vol', ib'[12])
    && FreeShrinks(geo, vol, vol')
  }

  lemma SetDirect(geo: Geometry, vol: seq<Block>, ib: seq<nat>, i: nat, b: nat)
    requires MapOk(geo, vol, ib) && i < NDIR && b < U32
    ensures PointerSet(geo, vol, ib, vol, ib[i := b], Direct(i), b)
    ensures b != 0 && Usable(geo, vol, b) && Unreached(vol, ib, b) ==> MapOk(geo, vol, ib[i := b])
  {
    hide IsFree, IsBitmap, VolumeOk, Unshared, Cell;
    assert Relinked(vol, ib, vol, ib[i := b], Direct(i), b);
    if b != 0 && Usable(geo, vol, b) && Unreached(vol, ib, b) {
      RelinkedOk(geo, vol, ib, vol, ib[i := b], Direct(i), b);
    }
  }

  lemma SetIndCell(geo: Geometry, vol: seq<Block>, ib: seq<nat>, j: nat, b: nat)
    requires MapOk(geo, vol, ib) && ib[12] != 0 && j < PointersPerBlock(geo) && b < U32
    ensures ib[12] < |vol| && |vol[ib[12]]| == geo.blockSize && 4 * j + 4 <= geo.blockSize && !IsBitmap(geo, ib[12])
    ensures var vol' := vol[ib[12] := PutPtr(vol[ib[12]], j, b)];
            && Relinked(vol, ib, vol', ib, IndAt(j), b)
            && SameFree(geo, vol, vol')
            && (b != 0 && Usable(geo, vol, b) && Unreached(vol, ib, b) ==> MapOk(geo, vol', ib))
  {
    hide IsFree, IsBitmap, VolumeOk, Cell, Ptr, PutPtr;
    assert At(vol, ib, Ind) == ib[12];
    TableInRange(geo, vol, ib, Ind, j);
    assert Usable(geo, vol, ib[12]);
    var vol' := vol[ib[12] := PutPtr(vol[ib[12]], j, b)];
    DataWriteKeepsBooks(geo, vol, ib[12], PutPtr(vol[ib[12]], j, b));
    forall p: Place
      ensures At(vol', ib, p) == if p == IndAt(j) then b else At(vol, ib, p)
    {
      WriteIndCell(vol, ib, j, b, p);
    }
    if b != 0 && Usable(geo, vol, b) && Unreached(vol, ib, b) {
      RelinkedOk(geo, vol, ib, vol', ib, IndAt(j), b);
    }
  }

  /** Store a pointer in the indirect block the inode already has. */
  method PutIndCell(fs: Ext2Fs, inode: Inode, j: nat, b: nat)
    requires fs.Valid() && MapOk(fs.geo, fs.vol, inode.block) && inode.block[12] != 0
    requires j < PointersPerBlock(fs.geo) && b < U32
    modifies fs`vol, fs.cache, fs.cache.slots, fs.cache.device
    ensures fs.Valid() && SameFree(fs.geo, old(fs.vol), fs.vol)
    ensures Relinked(old(fs.vol), inode.block, fs.vol, inode.block, IndAt(j), b)
    ensures OnlyBlock(fs.geo, old(fs.vol), fs.vol, inode.block[12])
    ensures b != 0 && old(Usable(fs.geo, fs.vol, b)) && Unreached(old(fs.vol), inode.block, b) ==>
              MapOk(fs.geo, fs.vol, inode.block)
  {
    hide Ext2Fs.Synced, LedgerOk, MapOk, At, Ptr, PutPtr, IsBitmap, IsFree;
    SetIndCell(fs.geo, fs.vol, inode.block, j, b);
    var table := fs.ReadBlock(inode.block[12]);
    fs.WriteData(inode.block[12], PutPtr(table, j, b));
  }

  /** Allocating the indirect block first and storing the pointer then is one pointer update. */
  lemma SetThroughInd(geo: Geometry, vol: seq<Block>, ib: seq<nat>, vol1: seq<Block>, ib': seq<nat>, vol': seq<Block>, j: nat, b: nat)
    requires MapOk(geo, vol, ib) && |ib'| == NPTR
    requires if ib[12] != 0 then vol1 == vol && ib' == ib else IndInstalled(geo, vol, ib, vol1, ib')
    requires Relinked(vol1, ib', vol', ib', IndAt(j), b) && SameFree(geo, vol1, vol') && OnlyBlock(geo, vol1, vol', ib'[12])
    ensures PointerSet(geo, vol, ib, vol', ib', IndAt(j), b)
  {
    hide IsFree, IsBitmap, Unshared, Cell, VolumeOk, FreeOk, Usable;
    assert At(vol, ib, Ind) == ib[12] && At(vol', ib', Ind) == ib'[12];
  }

  /** A block in use that nothing reached stays so while the indirect block is allocated. */
  lemma FreshAfterInd(geo: Geometry, vol: seq<Block>, ib: seq<nat>, vol1: seq<Block>, ib': seq<nat>, b: nat)
    requires |ib| == NPTR && IndInstalled(geo, vol, ib, vol1, ib') && Usable(geo, vol, b) && Unreached(vol, ib, b)
    ensures Usable(geo, vol1, b) && Unreached(vol1, ib', b)
  {
    hide IsFree, IsBitmap, Unshared, Cell, VolumeOk, FreeOk, At;
  }

  /** ext2_set_block_num. On success the pointer of `fb` is `b` and every other file block,
      doubly indirect ones included, keeps its pointer. Doubly indirect blocks are refused. */
  method SetBlockNum(fs: Ext2Fs, inode: Inode, fb: nat, b: nat) returns (r: Result<()>)
    requires fs.Valid() && MapOk(fs.geo, fs.vol, inode.block) && b < U32
    modifies fs, inode`block, fs.cache, fs.cache.slots, fs.cache.device
    ensures fs.Valid() && |inode.block| == NPTR
    ensures fs.blockDrift == old(fs.blockDrift) && fs.inodeDrift == old(fs.inodeDrift)
    ensures r.Err? ==> fs.vol == old(fs.vol) && inode.block == old(inode.block)
    ensures fb >= NDIR + PointersPerBlock(fs.geo) <==> r == Err(Invalid)
    ensures r.Err? ==> r.error == Invalid || r.error == NoMemory
    ensures r == Err(NoMemory) ==> fb >= NDIR && inode.block[12] == 0
    ensures r == Err(NoMemory) && NoWrap(fs.geo, Blocks, fs.blockDrift) ==> NoneFree(fs.geo, fs.vol, Blocks)
    ensures r.Ok? ==>
      && PlaceOf(PointersPerBlock(fs.geo), fb).Some?
      && PointerSet(fs.geo, old(fs.vol), old(inode.block), fs.vol, inode.block, PlaceOf(PointersPerBlock(fs.geo), fb).value, b)
    ensures r.Ok? && b != 0 && old(Usable(fs.geo, fs.vol, b)) && old(Unreached(fs.vol, inode.block, b)) ==>
      MapOk(fs.geo, fs.vol, inode.block)
  {
    hide Ext2Fs.Synced, LedgerOk, MapOk, At, IndInstalled, PointerSet, Relinked, OnlyBlock, Usable, Unreached, SameFree, NoneFree, NoWrap;
    MapShape(fs.geo, fs.vol, inode.block);
    var a := fs.geo.blockSize / 4;
    ghost var vol, ib := fs.vol, inode.block;
    if fb < 12 {
      SetDirect(fs.geo, vol, ib, fb, b);
      inode.block := inode.block[fb := b];
      return Ok(());
    }
    if fb - 12 < a {
      var e := EnsureInd(fs, inode);
      MapShape(fs.geo, fs.vol, inode.block);
      if e.Err? { return e; }
      ghost var vol1 := fs.vol;
      if ib[12] == 0 && Usable(fs.geo, vol, b) && Unreached(vol, ib, b) {
        FreshAfterInd(fs.geo, vol, ib, vol1, inode.block, b);
      }
      PutIndCell(fs, inode, fb - 12, b);
      SetThroughInd(fs.geo, vol, ib, vol1, inode.block, fs.vol, fb - 12, b);
      return Ok(());
    }
    r := Err(Invalid);
  }

  lemma MapShape(geo: Geometry, vol: seq<Block>, ib: seq<nat>)
    requires MapOk(geo, vol, ib)
    ensures |ib| == NPTR && VolumeOk(geo, vol)
  {
  }

  // ---------------------------------------------------------------- file contents

  /** The block holding file block `fb`, or 0. */
  function Mapped(geo: Geometry, vol: seq<Block>, ib: seq<nat>, fb: nat): nat
    requires |ib| == NPTR
  {
    var place := PlaceOf(PointersPerBlock(geo), fb);
    if place.Some? then At(vol, ib, place.value) else 0
  }

  /** Byte `k` of block `b`; block 0 is a hole. */
  function BlockByte(vol: seq<Block>, b: nat, k: nat): byte {
    if 0 < b < |vol| && k < |vol[b]| then vol[b][k] else 0
  }

  function FileBlock(bs: nat, x: nat): nat
    requires bs > 0
  {
    x / bs
  }

  function BlockOffset(bs: nat, x: nat): (k: nat)
    requires bs > 0
    ensures k < bs
  {
    x % bs
  }

  /** The byte a reader finds at position `x`, ignoring the file size. */
  function ByteAt(geo: Geometry, vol: seq<Block>, ib: seq<nat>, x: nat): byte
    requires |ib| == NPTR && geo.blockSize > 0
  {
    BlockByte(vol, Mapped(geo, vol, ib, FileBlock(geo.blockSize, x)), BlockOffset(geo.blockSize, x))
  }

  /** The four bytes at `o` of block `b`, lowest first; a missing block reads as zeros. */
  function PointerAt(vol: seq<Block>, b: nat, o: nat): nat {
    if 0 < b < |vol| && o + 4 <= |vol[b]| then
      (vol[b][o] as nat) + 0x100 * (vol[b][o + 1] as nat) + 0x1_0000 * (vol[b][o + 2] as nat) + 0x100_0000 * (vol[b][o + 3] as nat)
    else 0
  }

  /** The on-disk format of a file, in raw bytes: where the byte at position `x` of file block `fb` is
      found. `j` and `k` are the cells of the pointer blocks on the way. */
  lemma DiskFormat(geo: Geometry, vol: seq<Block>, ib: seq<nat>, x: nat, fb: nat, j: nat, k: nat)
    requires |ib| == NPTR && geo.blockSize > 0 && fb == x / geo.blockSize
    ensures var off, a := x % geo.blockSize, geo.blockSize / 4;
      && (fb < 12 ==> ByteAt(geo, vol, ib, x) == BlockByte(vol, ib[fb], off))
      && (j < a && fb == 12 + j ==> ByteAt(geo, vol, ib, x) == BlockByte(vol, PointerAt(vol, ib[12], 4 * j), off))
      && (j < a && k < a && fb == 12 + a + j * a + k ==>
            ByteAt(geo, vol, ib, x) == BlockByte(vol, PointerAt(vol, PointerAt(vol, ib[13], 4 * j), 4 * k), off))
      && (fb >= 12 + a + a * a ==> ByteAt(geo, vol, ib, x) == 0)
  {
    hide PlaceOf, Cell, PointerAt;
    PlaceOfIs(geo.blockSize / 4, fb, j, k);
    CellIs(vol, ib[12], j);
    CellIs(vol, ib[13], j);
    CellIs(vol, PointerAt(vol, ib[13], 4 * j), k);
  }

  lemma CellIs(vol: seq<Block>, b: nat, j: nat)
    ensures Cell(vol, b, j) == PointerAt(vol, b, 4 * j)
  {
  }

  /** The partial-map reading of ext2_set_block_num. */
  lemma PartialMap(geo: Geometry, vol: seq<Block>, ib: seq<nat>, vol': seq<Block>, ib': seq<nat>, fb: nat, b: nat, fb': nat)
    requires PlaceOf(PointersPerBlock(geo), fb).Some?
    requires PointerSet(geo, vol, ib, vol', ib', PlaceOf(PointersPerBlock(geo), fb).value, b)
    ensures Lookup(geo, vol', ib', fb) == Ok(b)
    ensures fb' != fb ==> Lookup(geo, vol', ib', fb') == Lookup(geo, vol, ib, fb')
  {
    hide VolumeOk, IsFree, IsBitmap, At;
    var a := PointersPerBlock(geo);
    if fb' != fb && PlaceOf(a, fb') == PlaceOf(a, fb) { PlaceOfInjective(a, fb, fb'); }
  }

  /** The position of byte `off` of file block `fb`. */
  function Pos(bs: nat, fb: nat, off: nat): nat { fb * bs + off }

  /** The `n` bytes of the file from position `x` on. */
  function Contents(geo: Geometry, vol: seq<Block>, ib: seq<nat>, x: nat, n: nat): (s: seq<byte>)
    requires |ib| == NPTR && geo.blockSize > 0
    ensures |s| == n
    ensures forall i :: 0 <= i < n ==> s[i] == ByteAt(geo, vol, ib, x + i)
  {
    seq<byte>(n, i requires 0 <= i < n => ByteAt(geo, vol, ib, x + i))
  }

  lemma ByteInBlock(geo: Geometry, vol: seq<Block>, ib: seq<nat>, fb: nat, k: nat)
    requires |ib| == NPTR && k < geo.blockSize
    ensures ByteAt(geo, vol, ib, Pos(geo.blockSize, fb, k)) == BlockByte(vol, Mapped(geo, vol, ib, fb), k)
  {
    hide Mapped;
    DivModUnique(fb, k, geo.blockSize);
  }

  lemma DataInRange(geo: Geometry, vol: seq<Block>, ib: seq<nat>, fb: nat)
    requires MapOk(geo, vol, ib) && Mapped(geo, vol, ib, fb) != 0
    ensures var b := Mapped(geo, vol, ib, fb);
            0 < b < |vol| && |vol[b]| == geo.blockSize && !IsBitmap(geo, b)
  {
    hide IsFree, IsBitmap, At, Unshared;
    assert Usable(geo, vol, At(vol, ib, PlaceOf(PointersPerBlock(geo), fb).value));
  }

  /** Within one block, the file's bytes are a slice of the block, or zeros for a hole. */
  lemma ChunkContents(geo: Geometry, vol: seq<Block>, ib: seq<nat>, fb: nat, off: nat, n: nat)
    requires MapOk(geo, vol, ib) && geo.blockSize > 0 && off + n <= geo.blockSize
    ensures var b := Mapped(geo, vol, ib, fb);
            && (b != 0 ==> b < |vol| && |vol[b]| == geo.blockSize)
            && Contents(geo, vol, ib, Pos(geo.blockSize, fb, off), n) ==
                 if b == 0 then ZeroBlock(n) else vol[b][off..off + n]
  {
    hide MapOk, Mapped, ByteAt;
    MapShape(geo, vol, ib);
    var b := Mapped(geo, vol, ib, fb);
    if b != 0 { DataInRange(geo, vol, ib, fb); }
    var want := if b == 0 then ZeroBlock(n) else vol[b][off..off + n];
    var s := Contents(geo, vol, ib, Pos(geo.blockSize, fb, off), n);
    forall i | 0 <= i < n
      ensures s[i] == want[i]
    {
      ByteInBlock(geo, vol, ib, fb, off + i);
      assert Pos(geo.blockSize, fb, off) + i == Pos(geo.blockSize, fb, off + i);
    }
  }

  /** One turn of the loop in ext2_read_file. */
  method ReadChunk(fs: Ext2Fs, inode: Inode, fb: nat, off: nat, n: nat) returns (r: Result<seq<byte>>)
    requires fs.Valid() && MapOk(fs.geo, fs.vol, inode.block) && |inode.block| == NPTR
    requires 0 < n && off + n <= fs.geo.blockSize
    modifies fs.cache, fs.cache.slots, fs.cache.device
    ensures fs.Valid()
    ensures r == if PlaceOf(PointersPerBlock(fs.geo), fb).None? then Err(Invalid)
                 else Ok(Contents(fs.geo, fs.vol, inode.block, Pos(fs.geo.blockSize, fb, off), n))
  {
    hide Ext2Fs.Synced, LedgerOk, MapOk, At, Contents;
    var b := GetBlockNum(fs, inode, fb);
    if b.Err? { return Err(b.error); }
    ChunkContents(fs.geo, fs.vol, inode.block, fb, off, n);
    if b.value == 0 {
      r := Ok(ZeroBlock(n));
    } else {
      var data := fs.ReadBlock(b.value);
      r := Ok(data[off..off + n]);
    }
  }

  lemma PosSplit(bs: nat, x: nat, n: nat)
    requires bs > 0 && 0 < n && BlockOffset(bs, x) + n <= bs
    ensures Pos(bs, FileBlock(bs, x), BlockOffset(bs, x)) == x && FileBlock(bs, x + n - 1) == FileBlock(bs, x)
  {
    assert x == (x / bs) * bs + x % bs;
    DivModUnique(x / bs, x % bs + n - 1, bs);
  }

  lemma ContentsAppend(geo: Geometry, vol: seq<Block>, ib: seq<nat>, x: nat, m: nat, k: nat)
    requires |ib| == NPTR && geo.blockSize > 0
    ensures Contents(geo, vol, ib, x, m) + Contents(geo, vol, ib, x + m, k) == Contents(geo, vol, ib, x, m + k)
  {
    hide ByteAt;
    var s := Contents(geo, vol, ib, x, m) + Contents(geo, vol, ib, x + m, k);
    forall i | 0 <= i < m + k
      ensures s[i] == ByteAt(geo, vol, ib, x + i)
    {
      if i >= m { assert s[i] == Contents(geo, vol, ib, x + m, k)[i - m]; }
    }
  }

  /** File blocks past the doubly indirect ones have no place, and neither has any later block. */
  lemma PastTheMap(a: nat, fb: nat, fb': nat)
    requires fb <= fb' && PlaceOf(a, fb).None?
    ensures PlaceOf(a, fb').None?
  {
  }

  lemma FileBlockMonotone(bs: nat, x: nat, y: nat)
    requires bs > 0 && x <= y
    ensures FileBlock(bs, x) <= FileBlock(bs, y)
  {
    var p, q := x / bs, y / bs;
    assert x == p * bs + x % bs && y == q * bs + y % bs;
    assert (p - q) * bs == p * bs - q * bs;
    MulAtLeast(p - q, bs);
  }

  /** The last position of the range lies past every block the map can hold. */
  predicate EndsPastMap(geo: Geometry, offset: nat, n: nat)
    requires geo.blockSize > 0
  {
    n > 0 && PlaceOf(PointersPerBlock(geo), FileBlock(geo.blockSize, offset + n - 1)).None?
  }

  /** The block of the byte before position `end` is not one of the map's. */
  predicate LastBlockPastMap(geo: Geometry, end: nat)
    requires geo.blockSize > 0
  {
    var a := geo.blockSize / 4;
    end > 0 && (end - 1) / geo.blockSize >= 12 + a + a * a
  }

  lemma PastMapIs(geo: Geometry, offset: nat, n: nat)
    requires geo.blockSize > 0 && n > 0
    ensures EndsPastMap(geo, offset, n) <==> LastBlockPastMap(geo, offset + n)
  {
  }

  /** ext2_read_file: the bytes of the file from `offset` on, as many as asked for but none past the
      file size, holes reading as zeros. It fails exactly when the last of them lies past the map,
      that is, past twelve direct blocks, `a` indirect and `a * a` doubly indirect ones. */
  method ReadFile(fs: Ext2Fs, inode: Inode, offset: nat, size: nat) returns (r: Result<seq<byte>>)
    requires fs.Valid() && MapOk(fs.geo, fs.vol, inode.block) && |inode.block| == NPTR && fs.geo.blockSize > 0
    modifies fs.cache, fs.cache.slots, fs.cache.device
    ensures fs.Valid()
    ensures r.Ok? ==> |r.value| <= size && (|r.value| > 0 ==> offset + |r.value| <= inode.size)
    ensures r.Ok? ==> |r.value| == size || offset + |r.value| >= inode.size
    ensures r.Ok? ==> forall i :: 0 <= i < |r.value| ==> r.value[i] == ByteAt(fs.geo, fs.vol, inode.block, offset + i)
    ensures r.Err? <==> offset < inode.size && size > 0 && LastBlockPastMap(fs.geo, Min(offset + size, inode.size))
    ensures r.Err? ==> r.error == Invalid
  {
    hide Ext2Fs.Synced, LedgerOk, MapOk, Contents, PlaceOf, FileBlock, BlockOffset, Pos, LastBlockPastMap, ByteAt;
    var n := if offset >= inode.size then 0 else if offset + size > inode.size then inode.size - offset else size;
    if n > 0 { PastMapIs(fs.geo, offset, n); }
    var bs, out, done := fs.geo.blockSize, [], 0;
    while done < n
      invariant 0 <= done <= n && fs.Valid()
      invariant out == Contents(fs.geo, fs.vol, inode.block, offset, done)
      invariant !EndsPastMap(fs.geo, offset, done)
    {
      var x := offset + done;
      var len := Min(bs - BlockOffset(bs, x), n - done);
      PosSplit(bs, x, len);
      var c := ReadChunk(fs, inode, FileBlock(bs, x), BlockOffset(bs, x), len);
      if c.Err? {
        FileBlockMonotone(bs, x, offset + n - 1);
        PastTheMap(PointersPerBlock(fs.geo), FileBlock(bs, x), FileBlock(bs, offset + n - 1));
        return Err(c.error);
      }
      ContentsAppend(fs.geo, fs.vol, inode.block, offset, done, len);
      out, done := out + c.value, done + len;
    }
    r := Ok(out);
  }
}
