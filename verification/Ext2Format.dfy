/** What the bytes of inodes and directories on the volume mean, in plain offsets and sums. */
module Ext2Format {
  import opened Common
  import opened Arith
  import opened Ext2Layout
  import opened Ext2Core
  import opened Ext2BlockMap
  import opened Ext2Files
  import opened Ext2Dirs
  import opened Ext2DirGrowth
  import opened Ext2Inodes
  import opened Ext2Names

  /** Four bytes from `i`, least significant first. */
  function U32At(b: seq<byte>, i: nat): nat
    requires i + 4 <= |b|
  {
    b[i] as nat + 0x100 * b[i + 1] as nat + 0x1_0000 * b[i + 2] as nat + 0x100_0000 * b[i + 3] as nat
  }

  /** The size of a file is at byte 4 of its inode, its sector count at 28 and its fifteen pointers from 40
      on; the type is the high half of byte 1, with 4 for a directory. */
  lemma InodeFields(raw: seq<byte>, k: nat)
    requires |raw| == 128 && k < 15
    ensures SizeOf(raw) == U32At(raw, 4) && SectorsOf(raw) == U32At(raw, 28) && PointersOf(raw)[k] == U32At(raw, 40 + 4 * k)
    ensures IsDir(raw) <==> 0x40 <= raw[1] < 0x50
  {
    assert 4 * (10 + k) == 40 + 4 * k;
    assert PointersOf(raw)[k] == Ptr(raw, 10 + k);
  }

  /** Blocks of a file of `size` bytes: as many as it takes to hold them. */
  lemma BlocksOfSize(size: nat, bs: nat, n: nat)
    requires bs > 0 && size + bs - 1 < 0x1_0000_0000
    ensures NumBlocks(size, bs) == n <==> size <= n * bs && (n > 0 ==> (n - 1) * bs < size)
  {
    var x := size + bs - 1;
    var q, r := x / bs, x % bs;
    assert x == q * bs + r;
    assert NumBlocks(size, bs) == q;
    assert (q + 1) * bs == q * bs + bs;
    if q > 0 { assert (q - 1) * bs == q * bs - bs; }
    if n < q { MulMono(n + 1, q, bs); assert (n + 1) * bs == n * bs + bs; }
    if n > q { MulMono(q, n - 1, bs); assert (n - 1) * bs == n * bs - bs; }
  }

  /** The entry for hole `i` ends at its block's start plus the record's own length, in 32 bits; the size of
      the directory becomes that if it was less. */
  lemma SizeAfterEntry(size: nat, bs: nat, i: nat, nameLen: nat)
    ensures var end := (i * bs + (8 + nameLen + 3) / 4 * 4) % 0x1_0000_0000;
      (Grows(size, bs, i, nameLen) <==> end > size) && NewSize(size, bs, i, nameLen) == if end > size then end else size
  {
    hide EntryEnd;
    EndIs(bs, i, nameLen);
  }

  lemma EndIs(bs: nat, i: nat, nameLen: nat)
    ensures EntryEnd(bs, i, nameLen) == (i * bs + (8 + nameLen + 3) / 4 * 4) % 0x1_0000_0000
  {
  }

  // ---------------------------------------------------------------- directory records

  /** The record at `off`: inode number, record length, name length, type, name. */
  predicate RecordAt(b: seq<byte>, off: nat, r: Rec) {
    && off + 8 <= |b| && off + 8 + b[off + 6] as nat <= |b|
    && r == Rec(U32At(b, off), b[off + 4] as nat + 0x100 * b[off + 5] as nat, b[off + 7], b[off + 8..off + 8 + b[off + 6] as nat])
  }

  /** `off` is reached from `from` by adding record lengths. */
  predicate Reached(b: seq<byte>, from: nat, off: nat)
    decreases if from <= off then off - from else 0
  {
    from == off ||
    (from + 8 <= off && off < |b|
     && (var n := b[from + 4] as nat + 0x100 * b[from + 5] as nat; n >= 8 && Reached(b, from + n, off)))
  }

  lemma RecIs(b: seq<byte>, off: nat)
    requires off + 8 <= |b| && off + 8 + NameLenAt(b, off) <= |b|
    ensures RecordAt(b, off, RecAt(b, off)) && RecLenAt(b, off) == b[off + 4] as nat + 0x100 * b[off + 5] as nat
  {
  }

  /** The records of a block are those at the offsets reached from its start. */
  lemma {:induction false} RecordIn(b: seq<byte>, from: nat, to: nat, r: Rec) returns (off: nat)
    requires Tiled(b, from, to) && to == |b| && r in Records(b, from, to)
    ensures off < to && Reached(b, from, off) && RecordAt(b, off, r)
    decreases if from <= to then to - from else 0
  {
    hide RecordAt;
    TiledBounds(b, from, to);
    var n := RecLenAt(b, from);
    RecIs(b, from);
    if r == RecAt(b, from) {
      off := from;
    } else {
      off := RecordIn(b, from + n, to, r);
      ReachedBound(b, from + n, off);
    }
  }

  lemma ReachedBound(b: seq<byte>, from: nat, off: nat)
    requires Reached(b, from, off)
    ensures from <= off
    decreases if from <= off then off - from else 0
  {
  }

  lemma {:induction false} ReachedIn(b: seq<byte>, from: nat, to: nat, off: nat)
    requires Tiled(b, from, to) && to == |b| && off < to && Reached(b, from, off)
    ensures off + 8 <= to && off + 8 + NameLenAt(b, off) <= to && RecAt(b, off) in Records(b, from, to)
    decreases if from <= to then to - from else 0
  {
    hide RecAt;
    ReachedBound(b, from, off);
    if from < off {
      TiledBounds(b, from, to);
      ReachedIn(b, from + RecLenAt(b, from), to, off);
    }
  }

  /** Lookup takes the first record with a nonzero inode number and that name. */
  lemma {:induction false} FirstOfName(rs: seq<Rec>, name: seq<byte>) returns (k: nat)
    ensures FindName(rs, name).None? ==> forall i :: 0 <= i < |rs| ==> rs[i].inode == 0 || rs[i].name != name
    ensures FindName(rs, name).Some? ==>
      && k < |rs| && rs[k].inode == FindName(rs, name).value != 0 && rs[k].name == name
      && forall i :: 0 <= i < k ==> rs[i].inode == 0 || rs[i].name != name
  {
    k := 0;
    if rs != [] && !(rs[0].inode != 0 && rs[0].name == name) {
      var j := FirstOfName(rs[1..], name);
      k := j + 1;
    }
  }

  /** A record of a directory is a record of one of its blocks. */
  lemma {:induction false} DirRecordIn(geo: Geometry, vol: seq<Block>, ib: seq<nat>, n: nat, r: Rec)
    requires |ib| == NPTR && DirOk(geo, vol, ib, n)
    ensures r in DirRecords(geo, vol, ib, n) <==> exists k :: 0 <= k < n && InBlock(geo, vol, ib, k, r)
  {
    hide Mapped, BlockRecords, BlockTiled;
    if n > 0 {
      DirRecordIn(geo, vol, ib, n - 1, r);
      assert r in BlockRecords(vol, Mapped(geo, vol, ib, n - 1)) <==> InBlock(geo, vol, ib, n - 1, r);
    }
  }

  ghost predicate InBlock(geo: Geometry, vol: seq<Block>, ib: seq<nat>, k: nat, r: Rec)
    requires |ib| == NPTR
  {
    BlockTiled(vol, Mapped(geo, vol, ib, k)) && r in BlockRecords(vol, Mapped(geo, vol, ib, k))
  }

  /** Block `k` of the file has a record with this name and inode number, told by its bytes. */
  ghost predicate Names(geo: Geometry, vol: seq<Block>, ib: seq<nat>, k: nat, off: nat, name: seq<byte>, ino: nat)
    requires |ib| == NPTR
  {
    var b := Mapped(geo, vol, ib, k);
    && 0 < b < |vol| && off + 8 <= |vol[b]| && Reached(vol[b], 0, off)
    && vol[b][off + 6] as nat == |name| && off + 8 + |name| <= |vol[b]| && vol[b][off + 8..off + 8 + |name|] == name
    && U32At(vol[b], off) == ino
  }

  /** A lookup that finds something found a record of the name in a block the size covers. */
  lemma LookupFound(geo: Geometry, vol: seq<Block>, d: nat, name: seq<byte>) returns (k: nat, off: nat)
    requires Directory(geo, vol, d) && Entry(geo, vol, d, name).Some?
    ensures var raw := InodeBytes(geo, vol, d);
      && k < NumBlocks(SizeOf(raw), geo.blockSize) && Entry(geo, vol, d, name).value != 0
      && Names(geo, vol, PointersOf(raw), k, off, name, Entry(geo, vol, d, name).value)
  {
    hide Mapped, Records, FindName, DirRecords, Tiled, SizeOf, PointersOf, InodeBytes, SlotReadable, TablesOk, Reached;
    var raw := InodeBytes(geo, vol, d);
    var ib, n := PointersOf(raw), NumBlocks(SizeOf(raw), geo.blockSize);
    LookedIs(SizeOf(raw), geo.blockSize);
    var rs := DirRecords(geo, vol, ib, n);
    var i := FirstOfName(rs, name);
    DirRecordIn(geo, vol, ib, n, rs[i]);
    k :| 0 <= k < n && InBlock(geo, vol, ib, k, rs[i]);
    var b := Mapped(geo, vol, ib, k);
    off := RecordIn(vol[b], 0, |vol[b]|, rs[i]);
  }

  /** A lookup that finds nothing means that no block the size covers has a live record of the name. */
  lemma LookupMissed(geo: Geometry, vol: seq<Block>, d: nat, name: seq<byte>, k: nat, off: nat, ino: nat)
    requires Directory(geo, vol, d) && Entry(geo, vol, d, name).None? && ino != 0
    requires k < NumBlocks(SizeOf(InodeBytes(geo, vol, d)), geo.blockSize)
    ensures !Names(geo, vol, PointersOf(InodeBytes(geo, vol, d)), k, off, name, ino)
  {
    hide Mapped, Records, FindName, DirRecords, Tiled, SizeOf, PointersOf, InodeBytes, SlotReadable, TablesOk, Reached;
    var raw := InodeBytes(geo, vol, d);
    var ib, n := PointersOf(raw), NumBlocks(SizeOf(raw), geo.blockSize);
    LookedIs(SizeOf(raw), geo.blockSize);
    var _ := FirstOfName(DirRecords(geo, vol, ib, n), name);
    var b := Mapped(geo, vol, ib, k);
    if Names(geo, vol, ib, k, off, name, ino) {
      ReachedIn(vol[b], 0, |vol[b]|, off);
      RecIs(vol[b], off);
      var r := RecAt(vol[b], off);
      assert InBlock(geo, vol, ib, k, r);
      DirRecordIn(geo, vol, ib, n, r);
    }
  }

  /** Which records can take a name of `nameLen` bytes: live ones with enough room behind their own name,
      both rounded up to four. */
  lemma RoomMeans(b: seq<byte>, off: nat, to: nat, nameLen: nat)
    requires Fits(b, off, to)
    ensures HasRoom(b, off, to, nameLen) <==>
      U32At(b, off) != 0 && (8 + b[off + 6] as nat + 3) / 4 * 4 + (8 + nameLen + 3) / 4 * 4 <= b[off + 4] as nat + 0x100 * b[off + 5] as nat
    ensures RoomIn(RecAt(b, off), nameLen) <==> HasRoom(b, off, to, nameLen)
  {
  }
}
