/**
 The block map of an inode (src/fs/ext2/inode.c): twelve direct pointers, one
 indirect block and one doubly indirect block.

 Every pointer cell the map can hold is a `Place`; `At` reads the cell out of the
 volume. A well-formed map never reaches the same block from two places.
 */
module Ext2BlockMap {
  import opened Common
  import opened Arith
  import opened Ext2Layout
  import opened Ext2Core

  // ---------------------------------------------------------------- little-endian words

  function Le32(v: nat): (s: seq<byte>)
    requires v < U32
    ensures |s| == 4
  {
    var v1 := v / 256;
    var v2 := v1 / 256;
    [v % 256, v1 % 256, v2 % 256, v2 / 256]
  }

  function Word(a: byte, b: byte, c: byte, d: byte): (v: nat)
    ensures v < U32
  {
    (a as int) + 256 * ((b as int) + 256 * ((c as int) + 256 * (d as int)))
  }

  lemma WordLe32(v: nat)
    requires v < U32
    ensures Word(Le32(v)[0], Le32(v)[1], Le32(v)[2], Le32(v)[3]) == v
  {
  }

  /** The j-th pointer of a pointer block. */
  function Ptr(block: Block, j: nat): nat
    requires 4 * j + 4 <= |block|
  {
    Word(block[4 * j], block[4 * j + 1], block[4 * j + 2], block[4 * j + 3])
  }

  function PutPtr(block: Block, j: nat, v: nat): (r: Block)
    requires 4 * j + 4 <= |block| && v < U32
    ensures |r| == |block|
  {
    block[..4 * j] + Le32(v) + block[4 * j + 4..]
  }

  lemma PutPtrGet(block: Block, j: nat, v: nat, k: nat)
    requires 4 * j + 4 <= |block| && 4 * k + 4 <= |block| && v < U32
    ensures Ptr(PutPtr(block, j, v), k) == if k == j then v else Ptr(block, k)
  {
    var r := PutPtr(block, j, v);
    if k == j {
      WordLe32(v);
      assert r[4 * j] == Le32(v)[0] && r[4 * j + 1] == Le32(v)[1];
      assert r[4 * j + 2] == Le32(v)[2] && r[4 * j + 3] == Le32(v)[3];
    } else if k < j {
      assert forall i :: 0 <= i < 4 * j ==> r[i] == block[i];
    } else {
      assert forall i :: 4 * j + 4 <= i < |block| ==> r[i] == block[i];
    }
  }

  function ZeroBlock(n: nat): (b: Block)
    ensures |b| == n
  {
    seq(n, _ => 0)
  }

  lemma ZeroPtr(n: nat, j: nat)
    requires 4 * j + 4 <= n
    ensures Ptr(ZeroBlock(n), j) == 0
  {
  }

  // ---------------------------------------------------------------- places

  datatype Place =
    | Direct(i: nat)
    | Ind
    | IndAt(j: nat)
    | Dbl
    | DblAt(j: nat)
    | DblLeaf(j: nat, k: nat)

  const NDIR: nat := 12
  const NPTR: nat := 15

  /** The pointer cell `j` of the block `t`; a missing block holds no pointers. */
  function Cell(vol: seq<Block>, t: nat, j: nat): nat {
    if 0 < t < |vol| && 4 * j + 4 <= |vol[t]| then Ptr(vol[t], j) else 0
  }

  function At(vol: seq<Block>, ib: seq<nat>, p: Place): nat
    requires |ib| == NPTR
  {
    match p
    case Direct(i) => if i < NDIR then ib[i] else 0
    case Ind => ib[12]
    case IndAt(j) => Cell(vol, ib[12], j)
    case Dbl => ib[13]
    case DblAt(j) => Cell(vol, ib[13], j)
    case DblLeaf(j, k) => Cell(vol, Cell(vol, ib[13], j), k)
  }

  /** Where the pointer of file block `fb` lives, with `a` pointers per block. */
  function PlaceOf(a: nat, fb: nat): Option<Place> {
    if fb < NDIR then Some(Direct(fb))
    else if fb - NDIR < a then Some(IndAt(fb - NDIR))
    else if fb - NDIR - a < a * a then Some(DblLeaf((fb - NDIR - a) / a, (fb - NDIR - a) % a))
    else None
  }

  /** The places of file blocks in order: the direct ones, the indirect block's, then the doubly
      indirect ones, row by row. */
  lemma PlaceOfIs(a: nat, fb: nat, j: nat, k: nat)
    ensures fb < 12 ==> PlaceOf(a, fb) == Some(Direct(fb))
    ensures j < a && fb == 12 + j ==> PlaceOf(a, fb) == Some(IndAt(j))
    ensures j < a && k < a && fb == 12 + a + j * a + k ==> PlaceOf(a, fb) == Some(DblLeaf(j, k))
    ensures fb >= 12 + a + a * a ==> PlaceOf(a, fb) == None
  {
    hide PlaceOf;
    if j < a && k < a && fb == 12 + a + j * a + k { RowPlace(a, fb, j, k); }
    FirstPlaces(a, fb);
  }

  lemma FirstPlaces(a: nat, fb: nat)
    ensures fb < 12 ==> PlaceOf(a, fb) == Some(Direct(fb))
    ensures 12 <= fb < 12 + a ==> PlaceOf(a, fb) == Some(IndAt(fb - 12))
    ensures fb >= 12 + a + a * a ==> PlaceOf(a, fb) == None
  {
    MulAtLeast(a, a);
  }

  lemma RowPlace(a: nat, fb: nat, j: nat, k: nat)
    requires j < a && k < a && fb == 12 + a + j * a + k
    ensures PlaceOf(a, fb) == Some(DblLeaf(j, k))
  {
    DivModUnique(j, k, a);
    MulAtLeast(j, a);
    MulMono(j + 1, a, a);
    assert (j + 1) * a == j * a + a;
  }

  /** File blocks and data places correspond one to one. */
  lemma PlaceOfInjective(a: nat, fb: nat, fb': nat)
    requires PlaceOf(a, fb).Some? && PlaceOf(a, fb) == PlaceOf(a, fb')
    ensures fb == fb'
  {
    if fb >= NDIR + a {
      DivModSame(fb - NDIR - a, fb' - NDIR - a, a);
    }
  }

  // ---------------------------------------------------------------- well-formed maps

  /** No block is reached from two places. */
  ghost predicate Unshared(vol: seq<Block>, ib: seq<nat>)
    requires |ib| == NPTR
  {
    forall p: Place, q: Place :: At(vol, ib, p) != 0 && At(vol, ib, p) == At(vol, ib, q) ==> p == q
  }

  /** Block `b` is an existing block in use that is not a bitmap. */
  ghost predicate Usable(geo: Geometry, vol: seq<Block>, b: nat)
    requires VolumeOk(geo, vol)
  {
    b < |vol| && !IsBitmap(geo, b) && !IsFree(geo, vol, Blocks, b)
  }

  /** Free blocks are numbered blocks of the volume, not block zero and not bitmaps. */
  ghost predicate FreeOk(geo: Geometry, vol: seq<Block>)
    requires VolumeOk(geo, vol)
  {
    forall n: nat :: IsFree(geo, vol, Blocks, n) ==> 0 < n < geo.blocksCount && !IsBitmap(geo, n)
  }

  ghost predicate MapOk(geo: Geometry, vol: seq<Block>, ib: seq<nat>) {
    && VolumeOk(geo, vol) && FreeOk(geo, vol)
    && |ib| == NPTR && (forall i :: 0 <= i < NPTR ==> ib[i] < U32)
    && Unshared(vol, ib)
    && forall p: Place :: At(vol, ib, p) != 0 ==> Usable(geo, vol, At(vol, ib, p))
  }

  /** Blocks that hold pointers. */
  ghost predicate IsTable(vol: seq<Block>, ib: seq<nat>, b: nat)
    requires |ib| == NPTR
  {
    b > 0 && (b == ib[12] || b == ib[13] || exists j: nat :: Cell(vol, ib[13], j) == b)
  }

  /** Overwriting a block that holds no pointers moves no pointer. */
  lemma WriteNonTable(vol: seq<Block>, ib: seq<nat>, b: nat, data: Block, p: Place)
    requires |ib| == NPTR && b < |vol| && !IsTable(vol, ib, b)
    ensures At(vol[b := data], ib, p) == At(vol, ib, p)
  {
    match p
    case DblLeaf(j, k) => assert b > 0 ==> Cell(vol, ib[13], j) != b;
    case _ =>
  }

  /** Storing a pointer in the indirect block changes that cell only. */
  lemma WriteIndCell(vol: seq<Block>, ib: seq<nat>, j: nat, v: nat, p: Place)
    requires |ib| == NPTR && Unshared(vol, ib) && 0 < ib[12] < |vol|
    requires 4 * j + 4 <= |vol[ib[12]]| && v < U32
    ensures At(vol[ib[12] := PutPtr(vol[ib[12]], j, v)], ib, p) == if p == IndAt(j) then v else At(vol, ib, p)
  {
    var t := ib[12];
    assert At(vol, ib, Ind) == t;
    match p
    case IndAt(k) =>
      if 4 * k + 4 <= |vol[t]| { PutPtrGet(vol[t], j, v, k); }
    case DblAt(k) =>
      assert At(vol, ib, Dbl) != t;
    case DblLeaf(i, k) =>
      assert At(vol, ib, Dbl) != t;
      assert At(vol, ib, DblAt(i)) != t;
    case _ =>
  }

  /** Installing a zeroed indirect block changes that pointer only. */
  lemma InstallInd(vol: seq<Block>, ib: seq<nat>, n: nat, bs: nat, p: Place)
    requires |ib| == NPTR && ib[12] == 0 && 0 < n < |vol| && !IsTable(vol, ib, n)
    ensures At(vol[n := ZeroBlock(bs)], ib[12 := n], p) == if p == Ind then n else At(vol, ib, p)
  {
    match p
    case IndAt(k) =>
      if 4 * k + 4 <= bs { ZeroPtr(bs, k); }
    case DblLeaf(j, k) => assert Cell(vol, ib[13], j) != n;
    case _ =>
  }

  /** From one state to the next only the pointer at `q` changed, to `v`. */
  ghost predicate Relinked(vol: seq<Block>, ib: seq<nat>, vol': seq<Block>, ib': seq<nat>, q: Place, v: nat) {
    && |ib| == |ib'| == NPTR
    && forall p: Place :: At(vol', ib', p) == if p == q then v else At(vol, ib, p)
  }

  /** The same blocks are free. */
  ghost predicate SameFree(geo: Geometry, vol: seq<Block>, vol': seq<Block>) {
    && VolumeOk(geo, vol) && VolumeOk(geo, vol') && |vol| == |vol'|
    && forall n: nat :: IsFree(geo, vol', Blocks, n) <==> IsFree(geo, vol, Blocks, n)
  }

  ghost predicate Unreached(vol: seq<Block>, ib: seq<nat>, v: nat)
    requires |ib| == NPTR
  {
    forall p: Place :: At(vol, ib, p) != v
  }

  /** Linking a usable block that no place reaches keeps the map well formed. */
  lemma RelinkedOk(geo: Geometry, vol: seq<Block>, ib: seq<nat>, vol': seq<Block>, ib': seq<nat>, q: Place, v: nat)
    requires MapOk(geo, vol, ib) && Relinked(vol, ib, vol', ib', q, v) && SameFree(geo, vol, vol')
    requires v != 0 && Usable(geo, vol, v) && Unreached(vol, ib, v)
    requires forall i :: 0 <= i < NPTR ==> ib'[i] < U32
    ensures MapOk(geo, vol', ib')
  {
    hide VolumeOk, IsFree, IsBitmap, At;
  }

  /** Bitmap updates move no pointer. */
  lemma SamePlaces(geo: Geometry, vol: seq<Block>, ib: seq<nat>, vol': seq<Block>, p: Place)
    requires MapOk(geo, vol, ib) && SameData(geo, vol, vol')
    ensures At(vol', ib, p) == At(vol, ib, p)
  {
    hide IsFree, IsBitmap, VolumeOk;
    assert At(vol, ib, Ind) != 0 ==> Usable(geo, vol, At(vol, ib, Ind));
    assert At(vol, ib, Dbl) != 0 ==> Usable(geo, vol, At(vol, ib, Dbl));
    match p
    case DblLeaf(j, k) =>
      assert At(vol, ib, DblAt(j)) != 0 ==> Usable(geo, vol, At(vol, ib, DblAt(j)));
    case _ =>
  }

  lemma BlocksFit(geo: Geometry, vol: seq<Block>)
    requires VolumeOk(geo, vol)
    ensures geo.blocksCount <= |vol| <= U32
  {
  }

  /** A block just allocated is usable and reached from nowhere; the map is as before. */
  lemma AllocKeepsMap(geo: Geometry, vol: seq<Block>, ib: seq<nat>, vol': seq<Block>, n: nat)
    requires MapOk(geo, vol, ib) && Allocated(geo, vol, vol', Blocks, n)
    ensures MapOk(geo, vol', ib) && SameData(geo, vol, vol')
    ensures forall p: Place :: At(vol', ib, p) == At(vol, ib, p)
    ensures 0 < n < |vol'| && Usable(geo, vol', n) && Unreached(vol', ib, n)
  {
    hide GeometryOk, WellSized, FreeBit, IsBitmap, WriteBit, At, IsFree;
    AllocatedFrame(geo, vol, vol', Blocks, n);
    BlocksFit(geo, vol);
    forall p: Place
      ensures At(vol', ib, p) == At(vol, ib, p)
    {
      SamePlaces(geo, vol, ib, vol', p);
    }
  }
}
