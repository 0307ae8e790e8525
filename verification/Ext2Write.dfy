/** ext2_write_file of src/fs/ext2/file.c, and what it promises about later reads. */
module Ext2Writing {
  import opened Common
  import opened Arith
  import opened Bits
  import opened Ext2Layout
  import opened Ext2Core
  import opened Ext2BlockMap
  import opened Ext2Files

  // ---------------------------------------------------------------- what a write does

  /** The written range reads back as `data`. */
  ghost predicate Written(geo: Geometry, vol': seq<Block>, ib': seq<nat>, x: nat, data: seq<byte>)
    requires |ib'| == NPTR && geo.blockSize > 0
  {
    forall y :: x <= y < x + |data| ==>
      && Mapped(geo, vol', ib', FileBlock(geo.blockSize, y)) != 0
      && ByteAt(geo, vol', ib', y) == data[y - x]
  }

  /** Outside the range: bytes of mapped blocks stay; a hole stays a hole unless the range
      touches its block, in which case the byte is whatever the freshly allocated block held. */
  ghost predicate KeptAt(geo: Geometry, vol: seq<Block>, ib: seq<nat>, vol': seq<Block>, ib': seq<nat>,
                         x: nat, n: nat, y: nat)
    requires |ib| == |ib'| == NPTR && geo.blockSize > 0
  {
    var fb := FileBlock(geo.blockSize, y);
    var b, b' := Mapped(geo, vol, ib, fb), Mapped(geo, vol', ib', fb);
    && (b != 0 ==> ByteAt(geo, vol', ib', y) == ByteAt(geo, vol, ib, y))
    && (b' != b ==> n > 0 && FileBlock(geo.blockSize, x) <= fb <= FileBlock(geo.blockSize, x + n - 1))
    && (b == 0 && b' != 0 ==> ByteAt(geo, vol', ib', y) == BlockByte(vol, b', BlockOffset(geo.blockSize, y)))
  }

  ghost predicate Kept(geo: Geometry, vol: seq<Block>, ib: seq<nat>, vol': seq<Block>, ib': seq<nat>, x: nat, n: nat)
    requires |ib| == |ib'| == NPTR && geo.blockSize > 0
  {
    forall y: nat :: !(x <= y < x + n) ==> KeptAt(geo, vol, ib, vol', ib', x, n, y)
  }

  /** The map only grows, by blocks that were free, and no block outside it changes. */
  ghost predicate Grown(geo: Geometry, vol: seq<Block>, ib: seq<nat>, vol': seq<Block>, ib': seq<nat>)
    requires |ib| == |ib'| == NPTR
  {
    && FreeShrinks(geo, vol, vol') && |vol| == |vol'|
    && (forall p: Place :: At(vol, ib, p) != 0 ==> At(vol', ib', p) == At(vol, ib, p))
    && (forall p: Place :: At(vol, ib, p) == 0 && At(vol', ib', p) != 0 ==> IsFree(geo, vol, Blocks, At(vol', ib', p)))
    && (forall c :: 0 <= c < |vol| && !IsBitmap(geo, c) && (c == 0 || Unreached(vol', ib', c)) ==> vol'[c] == vol[c])
  }

  ghost predicate Wrote(geo: Geometry, vol: seq<Block>, ib: seq<nat>, vol': seq<Block>, ib': seq<nat>, x: nat, data: seq<byte>) {
    && |ib| == |ib'| == NPTR && geo.blockSize > 0
    && Written(geo, vol', ib', x, data)
    && Kept(geo, vol, ib, vol', ib', x, |data|)
    && Grown(geo, vol, ib, vol', ib')
  }

  // ---------------------------------------------------------------- composition

  /** A pointer that is set keeps its value as the map grows. */
  lemma GrownMapped(geo: Geometry, vol: seq<Block>, ib: seq<nat>, vol': seq<Block>, ib': seq<nat>, fb: nat)
    requires |ib| == |ib'| == NPTR && Grown(geo, vol, ib, vol', ib')
    ensures Mapped(geo, vol, ib, fb) != 0 ==> Mapped(geo, vol', ib', fb) == Mapped(geo, vol, ib, fb)
    ensures Mapped(geo, vol, ib, fb) == 0 && Mapped(geo, vol', ib', fb) != 0 ==>
              VolumeOk(geo, vol) && IsFree(geo, vol, Blocks, Mapped(geo, vol', ib', fb))
  {
    hide At, IsFree, IsBitmap, VolumeOk, PlaceOf;
  }

  /** Free blocks are reached from nowhere. */
  lemma FreeUnreached(geo: Geometry, vol: seq<Block>, ib: seq<nat>, c: nat)
    requires MapOk(geo, vol, ib) && IsFree(geo, vol, Blocks, c)
    ensures Unreached(vol, ib, c) && 0 < c < |vol| && !IsBitmap(geo, c)
  {
    hide At, IsFree, IsBitmap, Unshared;
    BlocksFit(geo, vol);
  }

  lemma GrownTrans(geo: Geometry, v0: seq<Block>, i0: seq<nat>, v1: seq<Block>, i1: seq<nat>, v2: seq<Block>, i2: seq<nat>)
    requires |i0| == |i1| == |i2| == NPTR
    requires Grown(geo, v0, i0, v1, i1) && Grown(geo, v1, i1, v2, i2)
    ensures Grown(geo, v0, i0, v2, i2)
  {
    hide At, IsFree, IsBitmap, VolumeOk;
    forall c | 0 <= c < |v0| && !IsBitmap(geo, c) && (c == 0 || Unreached(v2, i2, c))
      ensures v2[c] == v0[c]
    {
      if c != 0 {
        forall p: Place ensures At(v1, i1, p) != c { assert At(v2, i2, p) != c; }
      }
    }
  }

  lemma KeptTrans(geo: Geometry, v0: seq<Block>, i0: seq<nat>, v1: seq<Block>, i1: seq<nat>, v2: seq<Block>, i2: seq<nat>,
                  x: nat, m: nat, n: nat, y: nat)
    requires |i0| == |i1| == |i2| == NPTR && geo.blockSize > 0 && MapOk(geo, v1, i1)
    requires Grown(geo, v0, i0, v1, i1) && Grown(geo, v1, i1, v2, i2)
    requires KeptAt(geo, v0, i0, v1, i1, x, m, y) && KeptAt(geo, v1, i1, v2, i2, x + m, n, y)
    ensures KeptAt(geo, v0, i0, v2, i2, x, m + n, y)
  {
    hide MapOk, At, IsFree, IsBitmap, VolumeOk, Mapped, FileBlock, BlockOffset;
    var fb := FileBlock(geo.blockSize, y);
    GrownMapped(geo, v0, i0, v1, i1, fb);
    GrownMapped(geo, v1, i1, v2, i2, fb);
    if m > 0 { FileBlockMonotone(geo.blockSize, x + m - 1, x + m + n - 1); }
    FileBlockMonotone(geo.blockSize, x, x + m);
    var b2 := Mapped(geo, v2, i2, fb);
    if Mapped(geo, v1, i1, fb) == 0 && b2 != 0 {
      FreeUnreached(geo, v1, i1, b2);
      assert v1[b2] == v0[b2];
    }
  }

  /** Writing `a` and then `b` right after it is writing `a + b`. */
  lemma WroteTrans(geo: Geometry, v0: seq<Block>, i0: seq<nat>, v1: seq<Block>, i1: seq<nat>, v2: seq<Block>, i2: seq<nat>,
                   x: nat, a: seq<byte>, b: seq<byte>)
    requires MapOk(geo, v1, i1)
    requires Wrote(geo, v0, i0, v1, i1, x, a) && Wrote(geo, v1, i1, v2, i2, x + |a|, b)
    ensures Wrote(geo, v0, i0, v2, i2, x, a + b)
  {
    hide MapOk, KeptAt, Grown, Mapped, ByteAt, FileBlock;
    GrownTrans(geo, v0, i0, v1, i1, v2, i2);
    forall y: nat | !(x <= y < x + |a + b|)
      ensures KeptAt(geo, v0, i0, v2, i2, x, |a + b|, y)
    {
      KeptTrans(geo, v0, i0, v1, i1, v2, i2, x, |a|, |b|, y);
    }
    forall y | x <= y < x + |a + b|
      ensures Mapped(geo, v2, i2, FileBlock(geo.blockSize, y)) != 0 && ByteAt(geo, v2, i2, y) == (a + b)[y - x]
    {
      if y < x + |a| { FirstPartStays(geo, v1, i1, v2, i2, x + |a|, |b|, y); }
    }
  }

  lemma FirstPartStays(geo: Geometry, v1: seq<Block>, i1: seq<nat>, v2: seq<Block>, i2: seq<nat>, x: nat, n: nat, y: nat)
    requires |i1| == |i2| == NPTR && geo.blockSize > 0 && Grown(geo, v1, i1, v2, i2)
    requires KeptAt(geo, v1, i1, v2, i2, x, n, y) && Mapped(geo, v1, i1, FileBlock(geo.blockSize, y)) != 0
    ensures Mapped(geo, v2, i2, FileBlock(geo.blockSize, y)) != 0
    ensures ByteAt(geo, v2, i2, y) == ByteAt(geo, v1, i1, y)
  {
    hide Grown, ByteAt, Mapped, FileBlock, BlockOffset;
    GrownMapped(geo, v1, i1, v2, i2, FileBlock(geo.blockSize, y));
  }

  // ---------------------------------------------------------------- one block

  /** The buffer after copying `chunk` to offset `off`. */
  function Patch(block: Block, off: nat, chunk: seq<byte>): (r: Block)
    requires off + |chunk| <= |block|
    ensures |r| == |block|
    ensures forall k :: 0 <= k < |r| ==> r[k] == if off <= k < off + |chunk| then chunk[k - off] else block[k]
  {
    block[..off] + chunk + block[off + |chunk|..]
  }

  /** The data block of `fb` is no table and belongs to no other file block. */
  lemma DataBlockAlone(geo: Geometry, vol: seq<Block>, ib: seq<nat>, fb: nat)
    requires MapOk(geo, vol, ib) && Mapped(geo, vol, ib, fb) != 0
    ensures !IsTable(vol, ib, Mapped(geo, vol, ib, fb))
    ensures forall fb': nat :: fb' != fb ==> Mapped(geo, vol, ib, fb') != Mapped(geo, vol, ib, fb)
  {
    hide VolumeOk, FreeOk, Usable, Cell;
    var a := PointersPerBlock(geo);
    var q := PlaceOf(a, fb).value;
    var b := At(vol, ib, q);
    assert At(vol, ib, Ind) != b && At(vol, ib, Dbl) != b;
    forall j: nat ensures Cell(vol, ib[13], j) != b { assert At(vol, ib, DblAt(j)) != b; }
    forall fb': nat | fb' != fb ensures Mapped(geo, vol, ib, fb') != b {
      if PlaceOf(a, fb').Some? && At(vol, ib, PlaceOf(a, fb').value) == b { PlaceOfInjective(a, fb, fb'); }
    }
  }

  /** Overwriting the data block of `fb` changes the bytes of that file block only. */
  lemma StoreBlock(geo: Geometry, vol: seq<Block>, ib: seq<nat>, fb: nat, data: Block)
    requires MapOk(geo, vol, ib) && geo.blockSize > 0 && Mapped(geo, vol, ib, fb) != 0 && |data| == geo.blockSize
    requires Mapped(geo, vol, ib, fb) < |vol|
    ensures var vol' := vol[Mapped(geo, vol, ib, fb) := data];
            && MapOk(geo, vol', ib) && SameFree(geo, vol, vol')
            && (forall p: Place :: At(vol', ib, p) == At(vol, ib, p))
            && (forall fb': nat :: Mapped(geo, vol', ib, fb') == Mapped(geo, vol, ib, fb'))
  {
    hide IsFree, IsBitmap, GeometryOk, At, PlaceOf;
    var b := Mapped(geo, vol, ib, fb);
    var vol' := vol[b := data];
    DataInRange(geo, vol, ib, fb);
    DataBlockAlone(geo, vol, ib, fb);
    DataWriteKeepsBooks(geo, vol, b, data);
    forall p: Place
      ensures At(vol', ib, p) == At(vol, ib, p)
    {
      WriteNonTable(vol, ib, b, data, p);
    }
    SamePlacesOk(geo, vol, vol', ib);
  }

  lemma SamePlacesOk(geo: Geometry, vol: seq<Block>, vol': seq<Block>, ib: seq<nat>)
    requires MapOk(geo, vol, ib) && SameFree(geo, vol, vol')
    requires forall p: Place :: At(vol', ib, p) == At(vol, ib, p)
    ensures MapOk(geo, vol', ib)
  {
    hide VolumeOk, IsFree, IsBitmap, At;
  }

  lemma StoreBlockBytes(geo: Geometry, vol: seq<Block>, ib: seq<nat>, fb: nat, data: Block, y: nat)
    requires MapOk(geo, vol, ib) && geo.blockSize > 0 && Mapped(geo, vol, ib, fb) != 0 && |data| == geo.blockSize
    requires Mapped(geo, vol, ib, fb) < |vol|
    ensures ByteAt(geo, vol[Mapped(geo, vol, ib, fb) := data], ib, y) ==
            if FileBlock(geo.blockSize, y) == fb then data[BlockOffset(geo.blockSize, y)] else ByteAt(geo, vol, ib, y)
  {
    hide MapOk, Mapped, FileBlock, BlockOffset;
    MapShape(geo, vol, ib);
    StoreBlock(geo, vol, ib, fb, data);
    DataBlockAlone(geo, vol, ib, fb);
  }

  /** A range inside one block, seen from positions and from the block. */
  lemma RangeInBlock(bs: nat, fb: nat, off: nat, n: nat, y: nat)
    requires bs > 0 && off + n <= bs
    ensures Pos(bs, fb, off) <= y < Pos(bs, fb, off) + n <==>
              FileBlock(bs, y) == fb && off <= BlockOffset(bs, y) < off + n
    ensures FileBlock(bs, y) == fb ==> y - Pos(bs, fb, off) == BlockOffset(bs, y) - off
  {
    assert y == (y / bs) * bs + y % bs;
    if Pos(bs, fb, off) <= y < Pos(bs, fb, off) + n {
      DivModUnique(fb, off + (y - Pos(bs, fb, off)), bs);
    }
  }

  lemma PosInBlock(bs: nat, fb: nat, off: nat, n: nat)
    requires 0 < n && off + n <= bs
    ensures FileBlock(bs, Pos(bs, fb, off)) == fb && FileBlock(bs, Pos(bs, fb, off) + n - 1) == fb
  {
    DivModUnique(fb, off, bs);
    DivModUnique(fb, off + n - 1, bs);
  }

  /** Patching the data block of a mapped file block writes the chunk and keeps the rest. */
  lemma OverwriteChunk(geo: Geometry, vol: seq<Block>, ib: seq<nat>, fb: nat, off: nat, chunk: seq<byte>)
    requires MapOk(geo, vol, ib) && geo.blockSize > 0 && off + |chunk| <= geo.blockSize
    requires Mapped(geo, vol, ib, fb) != 0
    ensures var b := Mapped(geo, vol, ib, fb);
            && b < |vol| && |vol[b]| == geo.blockSize && !IsBitmap(geo, b)
            && MapOk(geo, vol[b := Patch(vol[b], off, chunk)], ib)
            && Wrote(geo, vol, ib, vol[b := Patch(vol[b], off, chunk)], ib, Pos(geo.blockSize, fb, off), chunk)
  {
    hide MapOk, Mapped, FileBlock, BlockOffset, Pos, At, IsBitmap, IsFree, VolumeOk, ByteAt;
    MapShape(geo, vol, ib);
    DataInRange(geo, vol, ib, fb);
    var b := Mapped(geo, vol, ib, fb);
    var data := Patch(vol[b], off, chunk);
    var vol' := vol[b := data];
    StoreBlock(geo, vol, ib, fb, data);
    var x := Pos(geo.blockSize, fb, off);
    forall y: nat
      ensures x <= y < x + |chunk| ==> ByteAt(geo, vol', ib, y) == chunk[y - x] && FileBlock(geo.blockSize, y) == fb
      ensures !(x <= y < x + |chunk|) ==> ByteAt(geo, vol', ib, y) == ByteAt(geo, vol, ib, y)
    {
      PatchedByte(geo, vol, ib, fb, off, chunk, y);
    }
    DataIsReached(geo, vol', ib, fb);
  }

  lemma DataIsReached(geo: Geometry, vol: seq<Block>, ib: seq<nat>, fb: nat)
    requires |ib| == NPTR && Mapped(geo, vol, ib, fb) != 0
    ensures !Unreached(vol, ib, Mapped(geo, vol, ib, fb))
  {
    assert At(vol, ib, PlaceOf(PointersPerBlock(geo), fb).value) == Mapped(geo, vol, ib, fb);
  }

  lemma PatchedByte(geo: Geometry, vol: seq<Block>, ib: seq<nat>, fb: nat, off: nat, chunk: seq<byte>, y: nat)
    requires MapOk(geo, vol, ib) && geo.blockSize > 0 && off + |chunk| <= geo.blockSize
    requires Mapped(geo, vol, ib, fb) != 0 && Mapped(geo, vol, ib, fb) < |vol|
    requires |vol[Mapped(geo, vol, ib, fb)]| == geo.blockSize
    ensures var b, x := Mapped(geo, vol, ib, fb), Pos(geo.blockSize, fb, off);
            var vol' := vol[b := Patch(vol[b], off, chunk)];
            if x <= y < x + |chunk| then ByteAt(geo, vol', ib, y) == chunk[y - x] && FileBlock(geo.blockSize, y) == fb
            else ByteAt(geo, vol', ib, y) == ByteAt(geo, vol, ib, y)
  {
    hide MapOk, Mapped, FileBlock, BlockOffset, Pos;
    MapShape(geo, vol, ib);
    var b := Mapped(geo, vol, ib, fb);
    RangeInBlock(geo.blockSize, fb, off, |chunk|, y);
    StoreBlockBytes(geo, vol, ib, fb, Patch(vol[b], off, chunk), y);
  }

  // ---------------------------------------------------------------- linking a new block

  /** v0 --allocate n--> v1 --store n in the map--> v2, for an unmapped file block. */
  ghost predicate Linking(geo: Geometry, v0: seq<Block>, ib: seq<nat>, v1: seq<Block>, v2: seq<Block>, ib2: seq<nat>, q: Place, n: nat) {
    && MapOk(geo, v0, ib) && MapOk(geo, v2, ib2) && (q.Direct? || q.IndAt?) && At(v0, ib, q) == 0 && n != 0
    && Allocated(geo, v0, v1, Blocks, n)
    && PointerSet(geo, v1, ib, v2, ib2, q, n)
  }

  /** Every block reached in the end, except the indirect block, still holds what it held. */
  lemma LinkedBlockSame(geo: Geometry, v0: seq<Block>, ib: seq<nat>, v1: seq<Block>, v2: seq<Block>, ib2: seq<nat>, q: Place, n: nat, p: Place)
    requires Linking(geo, v0, ib, v1, v2, ib2, q, n) && p != Ind && At(v2, ib2, p) != 0
    ensures At(v2, ib2, p) < |v0| == |v2| && v2[At(v2, ib2, p)] == v0[At(v2, ib2, p)]
  {
    hide IsFree, IsBitmap, VolumeOk, Cell;
    AllocatedFrame(geo, v0, v1, Blocks, n);
    assert At(v2, ib2, Ind) == ib2[12];
    assert Usable(geo, v2, At(v2, ib2, p));
  }

  lemma LinkedPlaces(geo: Geometry, v0: seq<Block>, ib: seq<nat>, v1: seq<Block>, v2: seq<Block>, ib2: seq<nat>, q: Place, n: nat, p: Place)
    requires Linking(geo, v0, ib, v1, v2, ib2, q, n)
    ensures At(v0, ib, p) != 0 ==> At(v2, ib2, p) == At(v0, ib, p)
    ensures At(v0, ib, p) == 0 && At(v2, ib2, p) != 0 ==> IsFree(geo, v0, Blocks, At(v2, ib2, p))
    ensures p != Ind && p != q ==> At(v2, ib2, p) == At(v0, ib, p)
    ensures At(v2, ib2, q) == n
  {
    hide IsFree, IsBitmap, VolumeOk, At, Unshared, Usable;
    AllocKeepsMap(geo, v0, ib, v1, n);
  }

  lemma LinkedFrame(geo: Geometry, v0: seq<Block>, ib: seq<nat>, v1: seq<Block>, v2: seq<Block>, ib2: seq<nat>, q: Place, n: nat, c: nat)
    requires Linking(geo, v0, ib, v1, v2, ib2, q, n) && c < |v0|
    requires !IsBitmap(geo, c) && (c == 0 || Unreached(v2, ib2, c))
    ensures |v0| == |v2| && v2[c] == v0[c]
  {
    hide IsFree, IsBitmap, VolumeOk, Unshared, Usable;
    AllocatedFrame(geo, v0, v1, Blocks, n);
    assert At(v2, ib2, Ind) == ib2[12];
    assert At(v2, ib2, q) == n;
  }

  lemma LinkGrows(geo: Geometry, v0: seq<Block>, ib: seq<nat>, v1: seq<Block>, v2: seq<Block>, ib2: seq<nat>, q: Place, n: nat)
    requires Linking(geo, v0, ib, v1, v2, ib2, q, n)
    ensures |ib| == |ib2| == NPTR && Grown(geo, v0, ib, v2, ib2)
  {
    hide IsFree, IsBitmap, VolumeOk, Unshared, Usable, At, Unreached;
    AllocatedFrame(geo, v0, v1, Blocks, n);
    forall p: Place
      ensures At(v0, ib, p) != 0 ==> At(v2, ib2, p) == At(v0, ib, p)
      ensures At(v0, ib, p) == 0 && At(v2, ib2, p) != 0 ==> IsFree(geo, v0, Blocks, At(v2, ib2, p))
    {
      LinkedPlaces(geo, v0, ib, v1, v2, ib2, q, n, p);
    }
    forall c | 0 <= c < |v0| && !IsBitmap(geo, c) && (c == 0 || Unreached(v2, ib2, c))
      ensures v2[c] == v0[c]
    {
      LinkedFrame(geo, v0, ib, v1, v2, ib2, q, n, c);
    }
  }

  /** Linking maps `fb` to the new block with its old contents and changes no other file block. */
  lemma LinkKeeps(geo: Geometry, v0: seq<Block>, ib: seq<nat>, v1: seq<Block>, v2: seq<Block>, ib2: seq<nat>, fb: nat, n: nat, fb': nat, k: nat)
    requires PlaceOf(PointersPerBlock(geo), fb).Some?
    requires Linking(geo, v0, ib, v1, v2, ib2, PlaceOf(PointersPerBlock(geo), fb).value, n)
    ensures |ib| == |ib2| == NPTR && Mapped(geo, v2, ib2, fb) == n != 0
    ensures fb' != fb ==> Mapped(geo, v2, ib2, fb') == Mapped(geo, v0, ib, fb')
    ensures BlockByte(v2, Mapped(geo, v2, ib2, fb'), k) == BlockByte(v0, Mapped(geo, v2, ib2, fb'), k)
  {
    hide IsFree, IsBitmap, VolumeOk, Unshared, Usable, At;
    var a := PointersPerBlock(geo);
    var q := PlaceOf(a, fb).value;
    LinkedPlaces(geo, v0, ib, v1, v2, ib2, q, n, q);
    if PlaceOf(a, fb').Some? {
      var p := PlaceOf(a, fb').value;
      if p == q { PlaceOfInjective(a, fb, fb'); }
      LinkedPlaces(geo, v0, ib, v1, v2, ib2, q, n, p);
      if At(v2, ib2, p) != 0 { LinkedBlockSame(geo, v0, ib, v1, v2, ib2, q, n, p); }
    }
  }

  /** Linking a block and then writing into it is one write, seen from the state before. */
  lemma LinkThenWrite(geo: Geometry, v0: seq<Block>, ib: seq<nat>, v1: seq<Block>, v2: seq<Block>, ib2: seq<nat>,
                      v3: seq<Block>, fb: nat, n: nat, off: nat, chunk: seq<byte>)
    requires geo.blockSize > 0 && 0 < |chunk| && off + |chunk| <= geo.blockSize && PlaceOf(PointersPerBlock(geo), fb).Some?
    requires Linking(geo, v0, ib, v1, v2, ib2, PlaceOf(PointersPerBlock(geo), fb).value, n)
    requires Wrote(geo, v2, ib2, v3, ib2, Pos(geo.blockSize, fb, off), chunk)
    ensures Wrote(geo, v0, ib, v3, ib2, Pos(geo.blockSize, fb, off), chunk)
  {
    hide Linking, Grown, Mapped, FileBlock, BlockOffset, Pos, PlaceOf, Written;
    LinkGrows(geo, v0, ib, v1, v2, ib2, PlaceOf(PointersPerBlock(geo), fb).value, n);
    GrownTrans(geo, v0, ib, v2, ib2, v3, ib2);
    PosInBlock(geo.blockSize, fb, off, |chunk|);
    var x := Pos(geo.blockSize, fb, off);
    forall y: nat | !(x <= y < x + |chunk|)
      ensures KeptAt(geo, v0, ib, v3, ib2, x, |chunk|, y)
    {
      var fb' := FileBlock(geo.blockSize, y);
      LinkKeeps(geo, v0, ib, v1, v2, ib2, fb, n, fb', BlockOffset(geo.blockSize, y));
      GrownMapped(geo, v2, ib2, v3, ib2, fb');
      GrownMapped(geo, v0, ib, v2, ib2, fb');
      assert KeptAt(geo, v2, ib2, v3, ib2, x, |chunk|, y);
    }
  }

  // ---------------------------------------------------------------- the operations

  lemma FreeHasBit(geo: Geometry, vol: seq<Block>, n: nat)
    requires VolumeOk(geo, vol) && IsFree(geo, vol, Blocks, n)
    ensures n >= Base(geo, Blocks) && GroupOf(geo, Blocks, n) < |geo.groups| && BitOf(geo, Blocks, n) < PerGroup(geo, Blocks)
    ensures FreeBit(geo, vol, Blocks, GroupOf(geo, Blocks, n), BitOf(geo, Blocks, n))
  {
  }

  /** Giving back a block just allocated restores the volume bit for bit. */
  lemma AllocThenFree(geo: Geometry, v0: seq<Block>, v1: seq<Block>, v2: seq<Block>, n: nat)
    requires Allocated(geo, v0, v1, Blocks, n) && Freed(geo, v1, v2, Blocks, n)
    ensures v2 == v0
  {
    hide IsBitmap, WellSized, IsFree;
    BitmapIsBitmap(geo, v0, Blocks, n);
    assert FreeBit(geo, v0, Blocks, GroupOf(geo, Blocks, n), BitOf(geo, Blocks, n)) by { FreeHasBit(geo, v0, n); }
    var b, bit := BitmapBlock(geo, Blocks, GroupOf(geo, Blocks, n)), BitOf(geo, Blocks, n);
    ClearAfterSet(v0[b], bit);
    assert v2 == v0[b := v0[b]];
  }

  lemma AllocatedExists(geo: Geometry, v0: seq<Block>, v1: seq<Block>, ib: seq<nat>, n: nat)
    requires MapOk(geo, v0, ib) && Allocated(geo, v0, v1, Blocks, n)
    ensures Exists(geo, Blocks, n) && VolumeOk(geo, v1) && !IsFree(geo, v1, Blocks, n)
    ensures n < U32
  {
    hide IsBitmap, FreeBit, WellSized, WriteBit, Unshared, At, Usable;
    BlocksFit(geo, v0);
  }

  /** Undo of an allocation whose block could not be linked. */
  method GiveBack(fs: Ext2Fs, ghost v0: seq<Block>, ghost ib: seq<nat>, n: nat)
    requires fs.Valid() && MapOk(fs.geo, v0, ib) && Allocated(fs.geo, v0, fs.vol, Blocks, n)
    modifies fs, fs.cache, fs.cache.slots, fs.cache.device
    ensures fs.Valid() && fs.vol == v0
    ensures fs.blockDrift == old(fs.blockDrift) && fs.inodeDrift == old(fs.inodeDrift)
  {
    hide Ext2Fs.Synced, LedgerOk, MapOk, Allocated, Freed;
    AllocatedExists(fs.geo, v0, fs.vol, ib, n);
    ghost var v1 := fs.vol;
    var _ := fs.Free(Blocks, n);
    AllocThenFree(fs.geo, v0, v1, fs.vol, n);
  }

  /** At most one block is free. */
  ghost predicate AtMostOneFree(geo: Geometry, vol: seq<Block>) {
    VolumeOk(geo, vol) && forall m: nat, n: nat :: IsFree(geo, vol, Blocks, m) && IsFree(geo, vol, Blocks, n) ==> m == n
  }

  lemma NoneIsFew(geo: Geometry, vol: seq<Block>)
    requires NoneFree(geo, vol, Blocks)
    ensures AtMostOneFree(geo, vol)
  {
    hide VolumeOk, IsFree;
  }

  /** If nothing is free once `n` is taken, `n` was all there was. */
  lemma LastOne(geo: Geometry, v0: seq<Block>, v1: seq<Block>, n: nat)
    requires Allocated(geo, v0, v1, Blocks, n) && NoneFree(geo, v1, Blocks)
    ensures AtMostOneFree(geo, v0)
  {
    hide VolumeOk, IsFree, WriteBit;
    forall m: nat ensures IsFree(geo, v0, Blocks, m) ==> m == n { assert !IsFree(geo, v1, Blocks, m); }
  }

  /** Find or allocate the block of `fb`. */
  method MapBlock(fs: Ext2Fs, inode: Inode, fb: nat) returns (r: Result<nat>, ghost v1: seq<Block>)
    requires fs.Valid() && MapOk(fs.geo, fs.vol, inode.block) && |inode.block| == NPTR
    modifies fs, inode`block, inode`sectors, fs.cache, fs.cache.slots, fs.cache.device
    ensures fs.Valid() && |inode.block| == NPTR && MapOk(fs.geo, fs.vol, inode.block)
    ensures fs.blockDrift == old(fs.blockDrift) && fs.inodeDrift == old(fs.inodeDrift)
    ensures r.Err? ==> fs.vol == old(fs.vol) && inode.block == old(inode.block) && inode.sectors == old(inode.sectors)
    ensures r == Err(Invalid) ==> fb >= NDIR + PointersPerBlock(fs.geo) && old(Mapped(fs.geo, fs.vol, inode.block, fb)) == 0
    ensures r.Err? ==> r.error == Invalid || r.error == NoMemory
    ensures r == Err(NoMemory) && NoWrap(fs.geo, Blocks, fs.blockDrift) ==> AtMostOneFree(fs.geo, fs.vol)
    ensures r.Ok? ==>
      inode.sectors == old(inode.sectors) + if old(Mapped(fs.geo, fs.vol, inode.block, fb)) == 0 then fs.geo.blockSize / 512 else 0
    ensures r.Ok? ==> PlaceOf(PointersPerBlock(fs.geo), fb).Some?
    ensures r.Ok? ==> r.value == Mapped(fs.geo, fs.vol, inode.block, fb) != 0
    ensures r.Ok? && old(Mapped(fs.geo, fs.vol, inode.block, fb)) != 0 ==>
      fs.vol == old(fs.vol) && inode.block == old(inode.block)
    ensures r.Ok? && old(Mapped(fs.geo, fs.vol, inode.block, fb)) == 0 ==>
      Linking(fs.geo, old(fs.vol), old(inode.block), v1, fs.vol, inode.block,
              PlaceOf(PointersPerBlock(fs.geo), fb).value, r.value)
  {
    hide Ext2Fs.Synced, LedgerOk, MapOk, Allocated, PointerSet, At, FirstFit, Usable, Unreached, VolumeOk, IsFree, NoneFree, NoWrap, AtMostOneFree;
    v1 := fs.vol;
    var b := GetBlockNum(fs, inode, fb);
    if b.Err? { return Err(b.error), v1; }
    if b.value != 0 { return b, v1; }
    ghost var v0, ib := fs.vol, inode.block;
    var n := fs.Alloc(Blocks);
    if n.Err? {
      if NoWrap(fs.geo, Blocks, fs.blockDrift) { NoneIsFew(fs.geo, v0); }
      return Err(n.error), v1;
    }
    AllocKeepsMap(fs.geo, v0, ib, fs.vol, n.value);
    AllocatedExists(fs.geo, v0, fs.vol, ib, n.value);
    v1 := fs.vol;
    var e := SetBlockNum(fs, inode, fb, n.value);
    if e.Err? {
      if e.error == NoMemory && NoWrap(fs.geo, Blocks, fs.blockDrift) { LastOne(fs.geo, v0, v1, n.value); }
      GiveBack(fs, v0, ib, n.value);
      return Err(e.error), v1;
    }
    inode.sectors := inode.sectors + fs.geo.blockSize / 512;
    LinkedHere(fs.geo, v0, ib, v1, fs.vol, inode.block, fb, n.value);
    r := Ok(n.value);
  }

  lemma LinkedHere(geo: Geometry, v0: seq<Block>, ib: seq<nat>, v1: seq<Block>, v2: seq<Block>, ib2: seq<nat>, fb: nat, n: nat)
    requires PlaceOf(PointersPerBlock(geo), fb).Some? && fb < NDIR + PointersPerBlock(geo)
    requires MapOk(geo, v0, ib) && MapOk(geo, v2, ib2) && Mapped(geo, v0, ib, fb) == 0 && n != 0
    requires Allocated(geo, v0, v1, Blocks, n)
    requires PointerSet(geo, v1, ib, v2, ib2, PlaceOf(PointersPerBlock(geo), fb).value, n)
    ensures Linking(geo, v0, ib, v1, v2, ib2, PlaceOf(PointersPerBlock(geo), fb).value, n)
    ensures Mapped(geo, v2, ib2, fb) == n
  {
    hide MapOk, Allocated, At, VolumeOk, IsFree, IsBitmap;
  }

  /** One turn of the loop in ext2_write_file. `buffer` is the block buffer left by the
      previous turn; it is read from disk only for a partial block. */
  method WriteChunk(fs: Ext2Fs, inode: Inode, fb: nat, off: nat, chunk: seq<byte>, buffer: Block)
    returns (r: Result<()>, buffer': Block)
    requires fs.Valid() && MapOk(fs.geo, fs.vol, inode.block) && |inode.block| == NPTR
    requires |buffer| == fs.geo.blockSize > 0 && 0 < |chunk| && off + |chunk| <= fs.geo.blockSize
    modifies fs, inode`block, inode`sectors, fs.cache, fs.cache.slots, fs.cache.device
    ensures fs.Valid() && |inode.block| == NPTR && MapOk(fs.geo, fs.vol, inode.block) && |buffer'| == |buffer|
    ensures fs.blockDrift == old(fs.blockDrift) && fs.inodeDrift == old(fs.inodeDrift)
    ensures r.Err? ==> fs.vol == old(fs.vol) && inode.block == old(inode.block) && inode.sectors == old(inode.sectors)
    ensures r == Err(Invalid) ==> fb >= NDIR + PointersPerBlock(fs.geo) && old(Mapped(fs.geo, fs.vol, inode.block, fb)) == 0
    ensures r.Err? ==> r.error == Invalid || r.error == NoMemory
    ensures r == Err(NoMemory) && NoWrap(fs.geo, Blocks, fs.blockDrift) ==> AtMostOneFree(fs.geo, fs.vol)
    ensures r.Ok? ==>
      inode.sectors == old(inode.sectors) + if old(Mapped(fs.geo, fs.vol, inode.block, fb)) == 0 then fs.geo.blockSize / 512 else 0
    ensures r.Ok? ==> Wrote(fs.geo, old(fs.vol), old(inode.block), fs.vol, inode.block, Pos(fs.geo.blockSize, fb, off), chunk)
  {
    hide Ext2Fs.Synced, LedgerOk, MapOk, Linking, Mapped, PlaceOf, Wrote, Pos, IsBitmap, VolumeOk, NoWrap, AtMostOneFree;
    buffer' := buffer;
    ghost var v0, ib := fs.vol, inode.block;
    var b, v1 := MapBlock(fs, inode, fb);
    if b.Err? { return Err(b.error), buffer'; }
    ghost var v2 := fs.vol;
    OverwriteChunk(fs.geo, v2, inode.block, fb, off, chunk);
    if off != 0 || |chunk| != fs.geo.blockSize {
      buffer' := fs.ReadBlock(b.value);
    }
    buffer' := Patch(buffer', off, chunk);
    assert buffer' == Patch(v2[b.value], off, chunk);
    fs.WriteData(b.value, buffer');
    if Mapped(fs.geo, v0, ib, fb) == 0 {
      LinkThenWrite(fs.geo, v0, ib, v1, v2, inode.block, fs.vol, fb, b.value, off, chunk);
    }
    r := Ok(());
  }

  lemma WroteNothing(geo: Geometry, vol: seq<Block>, ib: seq<nat>, x: nat)
    requires |ib| == NPTR && geo.blockSize > 0 && VolumeOk(geo, vol)
    ensures Wrote(geo, vol, ib, vol, ib, x, [])
  {
    hide Mapped, ByteAt, At, IsFree, VolumeOk;
  }

  /** The file blocks below `n` that have gained a block. */
  ghost function NewBlocks(geo: Geometry, vol: seq<Block>, ib: seq<nat>, vol': seq<Block>, ib': seq<nat>, n: nat): nat
    requires |ib| == |ib'| == NPTR
  {
    if n == 0 then 0
    else
      NewBlocks(geo, vol, ib, vol', ib', n - 1) +
      if Mapped(geo, vol, ib, n - 1) == 0 && Mapped(geo, vol', ib', n - 1) != 0 then 1 else 0
  }

  /** Sectors of 512 bytes in `n` blocks. */
  function SectorsIn(bs: nat, n: nat): nat { bs / 512 * n }

  lemma SectorsStep(bs: nat, n: nat)
    ensures SectorsIn(bs, 0) == 0 && SectorsIn(bs, n + 1) == SectorsIn(bs, n) + bs / 512
  {
  }

  lemma {:induction false} NoNewBlocks(geo: Geometry, vol: seq<Block>, ib: seq<nat>, n: nat)
    requires |ib| == NPTR
    ensures NewBlocks(geo, vol, ib, vol, ib, n) == 0
  {
    hide Mapped;
    if n > 0 { NoNewBlocks(geo, vol, ib, n - 1); }
  }

  /** Only file block `fb` may have gained a block from the second state to the third. */
  lemma {:induction false} OneNewBlock(geo: Geometry, v0: seq<Block>, i0: seq<nat>, v1: seq<Block>, i1: seq<nat>, v2: seq<Block>, i2: seq<nat>,
                                       fb: nat, n: nat)
    requires |i0| == |i1| == |i2| == NPTR && Mapped(geo, v2, i2, fb) != 0
    requires Mapped(geo, v0, i0, fb) != 0 ==> Mapped(geo, v1, i1, fb) != 0
    requires forall j: nat :: j != fb ==> Mapped(geo, v2, i2, j) == Mapped(geo, v1, i1, j)
    ensures NewBlocks(geo, v0, i0, v2, i2, n) ==
            NewBlocks(geo, v0, i0, v1, i1, n) + if fb < n && Mapped(geo, v1, i1, fb) == 0 then 1 else 0
  {
    hide Mapped;
    if n > 0 { OneNewBlock(geo, v0, i0, v1, i1, v2, i2, fb, n - 1); }
  }

  lemma CountChunk(geo: Geometry, v0: seq<Block>, i0: seq<nat>, v1: seq<Block>, i1: seq<nat>, v2: seq<Block>, i2: seq<nat>,
                   x: nat, before: seq<byte>, fb: nat, off: nat, chunk: seq<byte>, n: nat)
    requires Wrote(geo, v0, i0, v1, i1, x, before) && Wrote(geo, v1, i1, v2, i2, Pos(geo.blockSize, fb, off), chunk)
    requires 0 < |chunk| && off + |chunk| <= geo.blockSize && fb < n
    ensures NewBlocks(geo, v0, i0, v2, i2, n) == NewBlocks(geo, v0, i0, v1, i1, n) + if Mapped(geo, v1, i1, fb) == 0 then 1 else 0
  {
    hide At, ByteAt, BlockByte, VolumeOk, IsBitmap, NewBlocks, PlaceOf, IsFree, Unreached;
    var bs, y := geo.blockSize, Pos(geo.blockSize, fb, off);
    InBlock(bs, fb, off);
    InBlock(bs, fb, off + |chunk| - 1);
    assert FileBlock(bs, y) == fb && FileBlock(bs, y + |chunk| - 1) == fb;
    assert Mapped(geo, v2, i2, fb) != 0;
    forall j: nat | j != fb ensures Mapped(geo, v2, i2, j) == Mapped(geo, v1, i1, j) {
      InBlock(bs, j, 0);
      if y <= Pos(bs, j, 0) < y + |chunk| {
        InBlock(bs, fb, Pos(bs, j, 0) - Pos(bs, fb, 0));
      }
      assert KeptAt(geo, v1, i1, v2, i2, y, |chunk|, Pos(bs, j, 0));
    }
    OneNewBlock(geo, v0, i0, v1, i1, v2, i2, fb, n);
  }

  lemma InBlock(bs: nat, fb: nat, off: nat)
    requires off < bs
    ensures FileBlock(bs, Pos(bs, fb, off)) == fb
  {
    DivModUnique(fb, off, bs);
  }

  /** ext2_write_file. The first `done` bytes are written, all of them on success; a failed call
      has written a prefix and leaves the size alone. File block numbers must fit 32 bits, and the
      size field keeps only the low 32 bits of the new size. */
  method WriteFile(fs: Ext2Fs, inode: Inode, offset: nat, data: seq<byte>) returns (r: Result<nat>, ghost done: nat)
    requires fs.Valid() && MapOk(fs.geo, fs.vol, inode.block) && |inode.block| == NPTR && fs.geo.blockSize > 0
    requires offset + |data| <= U32 * fs.geo.blockSize
    modifies fs, inode, fs.cache, fs.cache.slots, fs.cache.device
    ensures fs.Valid() && |inode.block| == NPTR && MapOk(fs.geo, fs.vol, inode.block)
    ensures fs.blockDrift == old(fs.blockDrift) && fs.inodeDrift == old(fs.inodeDrift)
    ensures done <= |data|
    ensures Wrote(fs.geo, old(fs.vol), old(inode.block), fs.vol, inode.block, offset, data[..done])
    ensures r.Ok? ==> r.value == done == |data| && fs.dirty
    ensures r.Ok? ==> inode.size == if offset + |data| > old(inode.size) then (offset + |data|) % U32 else old(inode.size)
    ensures r.Err? ==> inode.size == old(inode.size) && done < |data| && (r.error == Invalid || r.error == NoMemory)
    ensures r == Err(NoMemory) && NoWrap(fs.geo, Blocks, fs.blockDrift) ==> AtMostOneFree(fs.geo, fs.vol)
    ensures r == Err(Invalid) ==> FileBlock(fs.geo.blockSize, offset + |data| - 1) >= NDIR + PointersPerBlock(fs.geo)
    ensures inode.sectors == old(inode.sectors) + SectorsIn(fs.geo.blockSize,
      NewBlocks(fs.geo, old(fs.vol), old(inode.block), fs.vol, inode.block, FileBlock(fs.geo.blockSize, offset + |data|) + 1))
  {
    hide Ext2Fs.Synced, LedgerOk, MapOk, Mapped, Wrote, FileBlock, BlockOffset, Pos, PlaceOf, NoWrap, AtMostOneFree, NewBlocks, SectorsIn;
    var bs := fs.geo.blockSize;
    var buffer := ZeroBlock(bs);
    var x := offset;
    done := 0;
    ghost var v0, i0, blocks := fs.vol, inode.block, FileBlock(bs, offset + |data|) + 1;
    MapShape(fs.geo, fs.vol, inode.block);
    WroteNothing(fs.geo, v0, i0, offset);
    NoNewBlocks(fs.geo, v0, i0, blocks);
    SectorsStep(bs, 0);
    while x < offset + |data|
      invariant x == offset + done && done <= |data| && |buffer| == bs
      invariant fs.Valid() && |inode.block| == NPTR && MapOk(fs.geo, fs.vol, inode.block)
      invariant inode.size == old(inode.size)
      invariant fs.blockDrift == old(fs.blockDrift) && fs.inodeDrift == old(fs.inodeDrift)
      invariant Wrote(fs.geo, v0, i0, fs.vol, inode.block, offset, data[..done])
      invariant inode.sectors == old(inode.sectors) + SectorsIn(bs, NewBlocks(fs.geo, v0, i0, fs.vol, inode.block, blocks))
    {
      var len := Min(bs - BlockOffset(bs, x), offset + |data| - x);
      var chunk := data[x - offset..x - offset + len];
      PosSplit(bs, x, len);
      ghost var v1, i1 := fs.vol, inode.block;
      var e;
      e, buffer := WriteChunk(fs, inode, FileBlock(bs, x), BlockOffset(bs, x), chunk, buffer);
      if e.Err? {
        FileBlockMonotone(bs, x, offset + |data| - 1);
        return Err(e.error), done;
      }
      WroteTrans(fs.geo, v0, i0, v1, i1, fs.vol, inode.block, offset, data[..done], chunk);
      FileBlockMonotone(bs, x, offset + |data|);
      SectorsStep(bs, NewBlocks(fs.geo, v0, i0, v1, i1, blocks));
      CountChunk(fs.geo, v0, i0, v1, i1, fs.vol, inode.block, offset, data[..done], FileBlock(bs, x), BlockOffset(bs, x), chunk, blocks);
      assert data[..done] + chunk == data[..done + len];
      x, done := x + len, done + len;
    }
    if x > inode.size { inode.size := x % U32; }
    fs.dirty := true;
    assert data[..done] == data;
    r := Ok(|data|);
  }

  /** What a reader sees after a write, byte by byte: the data inside the range; outside it, the
      old byte of every block that was mapped and zero for every block that is still a hole. */
  lemma ReadAfterWrite(geo: Geometry, vol: seq<Block>, ib: seq<nat>, vol': seq<Block>, ib': seq<nat>, x: nat, data: seq<byte>,
                       z: nat, n: nat, i: nat)
    requires Wrote(geo, vol, ib, vol', ib', x, data) && i < n
    ensures var y := z + i;
            var fb := FileBlock(geo.blockSize, y);
            var got := Contents(geo, vol', ib', z, n)[i];
            && (x <= y < x + |data| ==> got == data[y - x])
            && (!(x <= y < x + |data|) && Mapped(geo, vol, ib, fb) != 0 ==> got == Contents(geo, vol, ib, z, n)[i])
            && (!(x <= y < x + |data|) && Mapped(geo, vol', ib', fb) == 0 ==> got == 0)
  {
    hide Mapped, FileBlock, BlockOffset, Grown;
    assert !(x <= z + i < x + |data|) ==> KeptAt(geo, vol, ib, vol', ib', x, |data|, z + i);
  }

  /** Writing and then reading the same range gives back the data, if and only if the size field could
      hold where the range ends. */
  method WriteThenRead(fs: Ext2Fs, inode: Inode, offset: nat, data: seq<byte>) returns (w: Result<nat>, r: Result<seq<byte>>)
    requires fs.Valid() && MapOk(fs.geo, fs.vol, inode.block) && |inode.block| == NPTR && fs.geo.blockSize > 0
    requires offset + |data| <= U32 * fs.geo.blockSize
    modifies fs, inode, fs.cache, fs.cache.slots, fs.cache.device
    ensures w.Ok? && |data| > 0 ==> (r == Ok(data) <==> offset + |data| < U32 || offset + |data| <= old(inode.size))
  {
    hide Ext2Fs.Synced, LedgerOk, MapOk, Mapped, Wrote, NoWrap, AtMostOneFree, NewBlocks, SectorsIn, ByteAt, LastBlockPastMap;
    ghost var v0, i0, done := fs.vol, inode.block, 0;
    w, done := WriteFile(fs, inode, offset, data);
    assert w.Ok? ==> data[..done] == data;
    r := ReadFile(fs, inode, offset, |data|);
    if w.Ok? && |data| > 0 {
      WrittenReads(fs.geo, v0, i0, fs.vol, inode.block, offset, data);
      if offset + |data| < U32 || offset + |data| <= old(inode.size) {
        assert Min(offset + |data|, inode.size) == offset + |data|;
        assert r.Ok? && |r.value| == |data|;
        assert r.value == data;
      } else {
        assert inode.size < offset + |data|;
        assert r.Ok? ==> |r.value| < |data|;
      }
    }
  }

  lemma WrittenReads(geo: Geometry, vol: seq<Block>, ib: seq<nat>, vol': seq<Block>, ib': seq<nat>, x: nat, data: seq<byte>)
    requires Wrote(geo, vol, ib, vol', ib', x, data) && |data| > 0
    ensures !LastBlockPastMap(geo, x + |data|)
    ensures forall i :: 0 <= i < |data| ==> ByteAt(geo, vol', ib', x + i) == data[i]
  {
    hide Kept, Grown, ByteAt, PlaceOf, LastBlockPastMap;
    assert Mapped(geo, vol', ib', FileBlock(geo.blockSize, x + |data| - 1)) != 0;
    PastMapIs(geo, x, |data|);
    forall i | 0 <= i < |data| ensures ByteAt(geo, vol', ib', x + i) == data[i] { assert x <= x + i < x + |data|; }
  }

  /** Blocks that belong to another file or to metadata never change. */
  lemma OthersUntouched(geo: Geometry, vol: seq<Block>, ib: seq<nat>, vol': seq<Block>, ib': seq<nat>, x: nat, data: seq<byte>, c: nat)
    requires Wrote(geo, vol, ib, vol', ib', x, data) && MapOk(geo, vol, ib)
    requires Usable(geo, vol, c) && Unreached(vol, ib, c)
    ensures c < |vol'| && vol'[c] == vol[c]
  {
    hide At, IsFree, IsBitmap, VolumeOk, Written, Kept, Unshared;
    forall p: Place ensures At(vol', ib', p) != c || c == 0 {
      if At(vol, ib, p) == 0 && At(vol', ib', p) != 0 { assert IsFree(geo, vol, Blocks, At(vol', ib', p)); }
    }
  }
}
