/**
 Directory blocks (src/fs/ext2/dir.c): records laid end to end, each as long as its
 rec_len says. Records are read out of raw bytes; inserting one splits the slack of
 an existing record in place.
 */
module Ext2Dirs {
  import opened Common
  import opened Ext2Layout
  import opened Ext2Core
  import opened Ext2BlockMap
  import opened Ext2Files
  import opened Ext2Writing

  datatype Rec = Rec(inode: nat, recLen: nat, fileType: byte, name: seq<byte>)

  const HEADER: nat := 8

  /** (n + 3) & ~3 */
  function Round4(n: nat): (r: nat)
    ensures n <= r < n + 4 && r % 4 == 0
  {
    (n + 3) / 4 * 4
  }

  // ---------------------------------------------------------------- reading a record

  function InodeAt(b: seq<byte>, off: nat): nat
    requires off + HEADER <= |b|
  {
    Word(b[off], b[off + 1], b[off + 2], b[off + 3])
  }

  function RecLenAt(b: seq<byte>, off: nat): (n: nat)
    requires off + HEADER <= |b|
    ensures n < 0x1_0000
  {
    (b[off + 4] as int) + 256 * (b[off + 5] as int)
  }

  function NameLenAt(b: seq<byte>, off: nat): (n: nat)
    requires off + HEADER <= |b|
    ensures n < 256
  {
    b[off + 6]
  }

  /** The record at `off` is whole, holds its name and ends by `to`. */
  predicate Fits(b: seq<byte>, off: nat, to: nat) {
    && off + HEADER <= to <= |b|
    && Round4(HEADER + NameLenAt(b, off)) <= RecLenAt(b, off)
    && off + RecLenAt(b, off) <= to
  }

  function RecAt(b: seq<byte>, off: nat): Rec
    requires off + HEADER <= |b| && off + HEADER + NameLenAt(b, off) <= |b|
  {
    Rec(InodeAt(b, off), RecLenAt(b, off), b[off + 7], b[off + HEADER..off + HEADER + NameLenAt(b, off)])
  }

  // ---------------------------------------------------------------- tilings

  /** Records cover `from`..`to` exactly. */
  predicate Tiled(b: seq<byte>, from: nat, to: nat)
    decreases if from <= to then to - from else 0
  {
    from == to || (from < to && Fits(b, from, to) && Tiled(b, from + RecLenAt(b, from), to))
  }

  function Records(b: seq<byte>, from: nat, to: nat): seq<Rec>
    requires Tiled(b, from, to)
    decreases if from <= to then to - from else 0
  {
    if from == to then [] else [RecAt(b, from)] + Records(b, from + RecLenAt(b, from), to)
  }

  lemma {:induction false} TiledBounds(b: seq<byte>, from: nat, to: nat)
    requires Tiled(b, from, to)
    ensures from <= to && (from < to ==> to <= |b|)
    decreases if from <= to then to - from else 0
  {
  }

  /** Tilings of adjacent stretches join. */
  lemma {:induction false} TiledConcat(b: seq<byte>, from: nat, mid: nat, to: nat)
    requires Tiled(b, from, mid) && Tiled(b, mid, to)
    ensures Tiled(b, from, to) && Records(b, from, to) == Records(b, from, mid) + Records(b, mid, to)
    decreases if from <= mid then mid - from else 0
  {
    TiledBounds(b, mid, to);
    if from < mid {
      TiledConcat(b, from + RecLenAt(b, from), mid, to);
    }
  }

  /** A tiling depends only on the bytes it covers. */
  lemma {:induction false} TiledLocal(b: seq<byte>, c: seq<byte>, from: nat, to: nat)
    requires Tiled(b, from, to) && to <= |b| && to <= |c|
    requires forall i :: from <= i < to ==> c[i] == b[i]
    ensures Tiled(c, from, to) && Records(c, from, to) == Records(b, from, to)
    decreases if from <= to then to - from else 0
  {
    if from < to {
      RecLocal(b, c, from, to);
      TiledLocal(b, c, from + RecLenAt(b, from), to);
    }
  }

  lemma RecLocal(b: seq<byte>, c: seq<byte>, from: nat, to: nat)
    requires Fits(b, from, to) && to <= |c|
    requires forall i :: from <= i < to ==> c[i] == b[i]
    ensures Fits(c, from, to) && RecLenAt(c, from) == RecLenAt(b, from) && RecAt(c, from) == RecAt(b, from)
  {
    var n := NameLenAt(b, from);
    assert c[from + HEADER..from + HEADER + n] == b[from + HEADER..from + HEADER + n];
  }

  // ---------------------------------------------------------------- lookup

  /** The inode of the first live record with this name. */
  function FindName(rs: seq<Rec>, name: seq<byte>): Option<nat> {
    if rs == [] then None
    else if rs[0].inode != 0 && rs[0].name == name then Some(rs[0].inode)
    else FindName(rs[1..], name)
  }

  lemma {:induction false} FindConcat(a: seq<Rec>, b: seq<Rec>, name: seq<byte>)
    ensures FindName(a + b, name) == if FindName(a, name).Some? then FindName(a, name) else FindName(b, name)
  {
    if a == [] {
      assert a + b == b;
    } else {
      assert (a + b)[1..] == a[1..] + b;
      FindConcat(a[1..], b, name);
    }
  }

  /** One turn of the lookup loop. */
  lemma FindStep(b: seq<byte>, off: nat, to: nat, name: seq<byte>)
    requires Tiled(b, off, to) && off < to
    ensures Fits(b, off, to) && Tiled(b, off + RecLenAt(b, off), to) && off < off + RecLenAt(b, off) <= to
    ensures FindName(Records(b, off, to), name) ==
            if InodeAt(b, off) != 0 && b[off + HEADER..off + HEADER + NameLenAt(b, off)] == name then Some(InodeAt(b, off))
            else FindName(Records(b, off + RecLenAt(b, off), to), name)
  {
    hide Word, Round4;
    TiledBounds(b, off + RecLenAt(b, off), to);
    assert Records(b, off, to)[1..] == Records(b, off + RecLenAt(b, off), to);
  }

  /** The loop of ext2_lookup over one block. */
  method LookupBlock(b: Block, name: seq<byte>) returns (r: Option<nat>)
    requires Tiled(b, 0, |b|)
    ensures r == FindName(Records(b, 0, |b|), name)
  {
    hide Tiled, Records, FindName, Word, Round4;
    var off := 0;
    while off < |b|
      invariant 0 <= off <= |b| && Tiled(b, off, |b|)
      invariant FindName(Records(b, 0, |b|), name) == FindName(Records(b, off, |b|), name)
      decreases |b| - off
    {
      FindStep(b, off, |b|, name);
      var n := NameLenAt(b, off);
      if InodeAt(b, off) != 0 && n == |name| && b[off + HEADER..off + HEADER + n] == name {
        return Some(InodeAt(b, off));
      }
      off := off + RecLenAt(b, off);
    }
    FindEnd(b, name);
    r := None;
  }

  lemma FindEnd(b: seq<byte>, name: seq<byte>)
    ensures Tiled(b, |b|, |b|) && FindName(Records(b, |b|, |b|), name) == None
  {
  }

  // ---------------------------------------------------------------- writing a record

  function Header(ino: nat, recLen: nat, nameLen: nat, fileType: byte): (h: seq<byte>)
    requires ino < U32 && recLen < 0x1_0000 && nameLen < 256
    ensures |h| == HEADER
  {
    Le32(ino) + [recLen % 256, recLen / 256, nameLen, fileType]
  }

  /** Header, name and the terminating NUL written at `at`. */
  function PutRecord(b: seq<byte>, at: nat, ino: nat, recLen: nat, name: seq<byte>, fileType: byte): (c: seq<byte>)
    requires at + HEADER + |name| < |b| && ino < U32 && recLen < 0x1_0000 && |name| < 256
    ensures |c| == |b|
    ensures forall i :: 0 <= i < at || at + HEADER + |name| < i < |b| ==> c[i] == b[i]
    ensures c[at + HEADER + |name|] == 0
  {
    b[..at] + Header(ino, recLen, |name|, fileType) + name + [0] + b[at + HEADER + |name| + 1..]
  }

  lemma PutRecordReads(b: seq<byte>, at: nat, ino: nat, recLen: nat, name: seq<byte>, fileType: byte)
    requires at + HEADER + |name| < |b| && ino < U32 && recLen < 0x1_0000 && |name| < 256
    ensures var c := PutRecord(b, at, ino, recLen, name, fileType);
            && NameLenAt(c, at) == |name| && RecLenAt(c, at) == recLen
            && RecAt(c, at) == Rec(ino, recLen, fileType, name)
  {
    var h := Header(ino, recLen, |name|, fileType);
    var c := PutRecord(b, at, ino, recLen, name, fileType);
    assert c[at..at + HEADER] == h;
    assert c[at] == h[0] && c[at + 1] == h[1] && c[at + 2] == h[2] && c[at + 3] == h[3];
    assert c[at + 4] == h[4] && c[at + 5] == h[5] && c[at + 6] == h[6] && c[at + 7] == h[7];
    WordLe32(ino);
    assert c[at + HEADER..at + HEADER + |name|] == name;
  }

  function SetRecLen(b: seq<byte>, off: nat, recLen: nat): (c: seq<byte>)
    requires off + HEADER <= |b| && recLen < 0x1_0000
    ensures |c| == |b|
    ensures forall i :: 0 <= i < |b| && i != off + 4 && i != off + 5 ==> c[i] == b[i]
    ensures RecLenAt(c, off) == recLen
  {
    b[off + 4 := recLen % 256][off + 5 := recLen / 256]
  }

  /** Bytes the record at `off` needs for itself. */
  function ActualLen(b: seq<byte>, off: nat): nat
    requires off + HEADER <= |b|
  {
    Round4(HEADER + NameLenAt(b, off))
  }

  /** Split the slack off the record at `off` and put a new record there. */
  function Split(b: seq<byte>, off: nat, name: seq<byte>, ino: nat, fileType: byte): (c: seq<byte>)
    requires off + HEADER <= |b| && ActualLen(b, off) <= RecLenAt(b, off) && off + RecLenAt(b, off) < |b|
    requires Round4(HEADER + |name|) <= RecLenAt(b, off) - ActualLen(b, off) && |name| < 256 && ino < U32
    ensures |c| == |b|
  {
    var actual := ActualLen(b, off);
    var free := RecLenAt(b, off) - actual;
    SetRecLen(PutRecord(b, off + actual, ino, free, name, fileType), off, actual)
  }

  /** A record that can take the new name: live, with enough slack behind its own name. */
  predicate HasRoom(b: seq<byte>, off: nat, bs: nat, nameLen: nat) {
    Fits(b, off, bs) && InodeAt(b, off) != 0 && Round4(HEADER + nameLen) <= RecLenAt(b, off) - ActualLen(b, off)
  }

  /** The terminating NUL lands on the first byte after the split record. */
  predicate Spills(b: seq<byte>, off: nat, nameLen: nat)
    requires off + HEADER <= |b|
  {
    RecLenAt(b, off) - ActualLen(b, off) == HEADER + nameLen
  }

  lemma SplitBytes(b: seq<byte>, bs: nat, off: nat, name: seq<byte>, ino: nat, fileType: byte, i: nat)
    requires |b| == bs + 1 && |name| < 256 && ino < U32 && HasRoom(b, off, bs, |name|) && i <= bs
    ensures var c, end := Split(b, off, name, ino, fileType), off + RecLenAt(b, off);
            && (i < off ==> c[i] == b[i])
            && (off <= i < off + ActualLen(b, off) && i != off + 4 && i != off + 5 ==> c[i] == b[i])
            && (i >= end ==> c[i] == if i == end && Spills(b, off, |name|) then 0 else b[i])
  {
  }

  lemma SplitOldRecord(b: seq<byte>, bs: nat, off: nat, name: seq<byte>, ino: nat, fileType: byte)
    requires |b| == bs + 1 && |name| < 256 && ino < U32 && HasRoom(b, off, bs, |name|)
    ensures var c, mid := Split(b, off, name, ino, fileType), off + ActualLen(b, off);
            && Fits(c, off, mid) && RecLenAt(c, off) == ActualLen(b, off)
            && RecAt(c, off) == RecAt(b, off).(recLen := ActualLen(b, off))
  {
    hide Split, Word;
    var c := Split(b, off, name, ino, fileType);
    assert RecLenAt(c, off) == ActualLen(b, off) by { SplitRecLen(b, bs, off, name, ino, fileType); }
    forall i | off <= i < off + ActualLen(b, off) && i != off + 4 && i != off + 5
      ensures c[i] == b[i]
    {
      SplitBytes(b, bs, off, name, ino, fileType, i);
    }
    var n := NameLenAt(b, off);
    assert c[off + HEADER..off + HEADER + n] == b[off + HEADER..off + HEADER + n];
  }

  lemma SplitRecLen(b: seq<byte>, bs: nat, off: nat, name: seq<byte>, ino: nat, fileType: byte)
    requires |b| == bs + 1 && |name| < 256 && ino < U32 && HasRoom(b, off, bs, |name|)
    ensures RecLenAt(Split(b, off, name, ino, fileType), off) == ActualLen(b, off)
  {
    hide RecLenAt, PutRecord;
  }

  lemma SplitNewRecord(b: seq<byte>, bs: nat, off: nat, name: seq<byte>, ino: nat, fileType: byte)
    requires |b| == bs + 1 && |name| < 256 && ino < U32 && HasRoom(b, off, bs, |name|)
    ensures var c, mid, end := Split(b, off, name, ino, fileType), off + ActualLen(b, off), off + RecLenAt(b, off);
            && Fits(c, mid, end) && RecLenAt(c, mid) == end - mid
            && RecAt(c, mid) == Rec(ino, end - mid, fileType, name)
  {
    hide PutRecord, Word;
    var mid, free := off + ActualLen(b, off), RecLenAt(b, off) - ActualLen(b, off);
    var p := PutRecord(b, mid, ino, free, name, fileType);
    var c := Split(b, off, name, ino, fileType);
    PutRecordReads(b, mid, ino, free, name, fileType);
    assert forall i :: mid <= i < |b| ==> c[i] == p[i];
    assert c[mid + HEADER..mid + HEADER + |name|] == p[mid + HEADER..mid + HEADER + |name|];
  }

  // ---------------------------------------------------------------- the split theorem

  /** The records after inserting behind the record at `off`. */
  function Inserted(b: seq<byte>, bs: nat, off: nat, name: seq<byte>, ino: nat, fileType: byte): seq<Rec>
    requires Tiled(b, 0, off) && Fits(b, off, bs) && Tiled(b, off + RecLenAt(b, off), bs)
    requires ActualLen(b, off) <= RecLenAt(b, off)
  {
    Records(b, 0, off) + SplitPair(b, off, name, ino, fileType) + Records(b, off + RecLenAt(b, off), bs)
  }

  function SplitPair(b: seq<byte>, off: nat, name: seq<byte>, ino: nat, fileType: byte): seq<Rec>
    requires off + HEADER <= |b| && off + HEADER + NameLenAt(b, off) <= |b| && ActualLen(b, off) <= RecLenAt(b, off)
  {
    [RecAt(b, off).(recLen := ActualLen(b, off)), Rec(ino, RecLenAt(b, off) - ActualLen(b, off), fileType, name)]
  }

  /** `b` has `bs` block bytes and one byte beyond them; records tile the block and `off` is one of them. */
  ghost predicate SplitSite(b: seq<byte>, bs: nat, off: nat, name: seq<byte>, ino: nat) {
    && |b| == bs + 1 && |name| < 256 && ino < U32
    && Tiled(b, 0, off) && HasRoom(b, off, bs, |name|) && Tiled(b, off + RecLenAt(b, off), bs)
  }

  /** Up to the end of the split record all is well in any case. */
  lemma SplitFront(b: seq<byte>, bs: nat, off: nat, name: seq<byte>, ino: nat, fileType: byte)
    requires SplitSite(b, bs, off, name, ino)
    ensures var c, end := Split(b, off, name, ino, fileType), off + RecLenAt(b, off);
            && Tiled(c, 0, end)
            && Records(c, 0, end) == Records(b, 0, off) + SplitPair(b, off, name, ino, fileType)
  {
    hide Split, RecAt, Word, Round4;
    var c, mid, end := Split(b, off, name, ino, fileType), off + ActualLen(b, off), off + RecLenAt(b, off);
    forall i | 0 <= i < off ensures c[i] == b[i] { SplitBytes(b, bs, off, name, ino, fileType, i); }
    TiledLocal(b, c, 0, off);
    SplitOldRecord(b, bs, off, name, ino, fileType);
    SplitNewRecord(b, bs, off, name, ino, fileType);
    PairTiled(c, off, mid, end);
    TiledConcat(c, 0, off, end);
  }

  lemma PairTiled(c: seq<byte>, off: nat, mid: nat, end: nat)
    requires Fits(c, off, mid) && off + RecLenAt(c, off) == mid && Fits(c, mid, end) && mid + RecLenAt(c, mid) == end
    ensures Tiled(c, off, end) && Records(c, off, end) == [RecAt(c, off), RecAt(c, mid)]
  {
    hide RecAt, Round4;
    assert Tiled(c, end, end) && Records(c, end, end) == [];
    assert Tiled(c, mid, end) && Records(c, mid, end) == [RecAt(c, mid)];
    assert Tiled(c, off, mid) && Records(c, off, mid) == [RecAt(c, off)] by {
      assert Tiled(c, mid, mid) && Records(c, mid, mid) == [];
    }
    TiledConcat(c, off, mid, end);
  }

  /** The rest of the block, and the byte after the block, survive unless the NUL overwrites a nonzero byte. */
  lemma SplitBack(b: seq<byte>, bs: nat, off: nat, name: seq<byte>, ino: nat, fileType: byte)
    requires SplitSite(b, bs, off, name, ino)
    requires !(Spills(b, off, |name|) && b[off + RecLenAt(b, off)] != 0)
    ensures var c, end := Split(b, off, name, ino, fileType), off + RecLenAt(b, off);
            && Tiled(c, end, bs) && Records(c, end, bs) == Records(b, end, bs) && c[bs] == b[bs]
  {
    hide Split, RecAt, Word, Round4, Tiled, Records;
    var c, end := Split(b, off, name, ino, fileType), off + RecLenAt(b, off);
    forall i | end <= i <= bs ensures c[i] == b[i] { SplitBytes(b, bs, off, name, ino, fileType, i); }
    TiledLocal(b, c, end, bs);
  }

  /** The insertion is exactly what was meant, on the block and just past it. */
  ghost predicate InsertedWell(b: seq<byte>, c: seq<byte>, bs: nat, off: nat, name: seq<byte>, ino: nat, fileType: byte)
    requires SplitSite(b, bs, off, name, ino)
  {
    |c| == |b| && Tiled(c, 0, bs) && Records(c, 0, bs) == Inserted(b, bs, off, name, ino, fileType) && c[bs] == b[bs]
  }

  lemma {:induction false} TiledSuffix(b: seq<byte>, from: nat, mid: nat, to: nat)
    requires Tiled(b, from, mid) && Tiled(b, from, to) && mid <= to
    ensures Tiled(b, mid, to)
    decreases if from <= mid then mid - from else 0
  {
    if from < mid { TiledSuffix(b, from + RecLenAt(b, from), mid, to); }
  }

  lemma CancelPrefix(p: seq<Rec>, x: seq<Rec>, y: seq<Rec>)
    requires p + x == p + y
    ensures x == y
  {
    assert x == (p + x)[|p|..] && y == (p + y)[|p|..];
  }

  /** Zeroing the low byte of the next record's inode number changes that record. */
  lemma NextInodeChanged(b: seq<byte>, c: seq<byte>, end: nat, bs: nat)
    requires |b| == |c| && end < bs && Tiled(b, end, bs) && Tiled(c, end, bs) && b[end] != 0 && c[end] == 0
    requires forall i :: end < i < end + 4 ==> c[i] == b[i]
    ensures Records(c, end, bs) != Records(b, end, bs)
  {
    assert InodeAt(c, end) != InodeAt(b, end) by { assert c[end + 1] == b[end + 1] && c[end + 2] == b[end + 2] && c[end + 3] == b[end + 3]; }
    assert Records(c, end, bs)[0] == RecAt(c, end) && Records(b, end, bs)[0] == RecAt(b, end);
  }

  lemma SpillShows(b: seq<byte>, bs: nat, off: nat, name: seq<byte>, ino: nat, fileType: byte)
    requires SplitSite(b, bs, off, name, ino)
    requires Spills(b, off, |name|) && b[off + RecLenAt(b, off)] != 0
    ensures !InsertedWell(b, Split(b, off, name, ino, fileType), bs, off, name, ino, fileType)
  {
    hide Split, RecAt, Word, Round4, SplitPair, Tiled, Records;
    var c, end := Split(b, off, name, ino, fileType), off + RecLenAt(b, off);
    forall i | end <= i <= bs
      ensures c[i] == if i == end then 0 else b[i]
    {
      SplitBytes(b, bs, off, name, ino, fileType, i);
    }
    if end < bs && InsertedWell(b, c, bs, off, name, ino, fileType) {
      SplitFront(b, bs, off, name, ino, fileType);
      TiledSuffix(c, 0, end, bs);
      TiledConcat(c, 0, end, bs);
      CancelPrefix(Records(c, 0, end), Records(c, end, bs), Records(b, end, bs));
      TiledHeader(b, end, bs);
      NextInodeChanged(b, c, end, bs);
    }
  }

  lemma TiledHeader(b: seq<byte>, from: nat, to: nat)
    requires Tiled(b, from, to) && from < to
    ensures from + HEADER <= to <= |b|
  {
  }

  /** Splitting a record inserts the new one and changes nothing else, if and only if the
      terminating NUL does not fall on a nonzero byte behind the record. */
  lemma SplitExactly(b: seq<byte>, bs: nat, off: nat, name: seq<byte>, ino: nat, fileType: byte)
    requires SplitSite(b, bs, off, name, ino)
    ensures InsertedWell(b, Split(b, off, name, ino, fileType), bs, off, name, ino, fileType) <==>
            !(Spills(b, off, |name|) && b[off + RecLenAt(b, off)] != 0)
  {
    hide Split, RecAt, Word, Round4, SplitPair, Tiled, Records;
    var c, end := Split(b, off, name, ino, fileType), off + RecLenAt(b, off);
    SplitFront(b, bs, off, name, ino, fileType);
    if Spills(b, off, |name|) && b[end] != 0 {
      SpillShows(b, bs, off, name, ino, fileType);
    } else {
      SplitBack(b, bs, off, name, ino, fileType);
      TiledConcat(c, 0, end, bs);
    }
  }

  /** Such a block: a record of 20 bytes with room for a four-letter name, and inode 7 behind it. */
  function SpillBlock(): (b: seq<byte>)
    ensures |b| == 33
  {
    [1, 0, 0, 0, 20, 0, 0, 2] + [0, 0, 0, 0, 0, 0, 0, 0, 0, 0, 0, 0] + [7, 0, 0, 0, 12, 0, 1, 1, 120, 0, 0, 0] + [0]
  }

  /** There the insertion overwrites the inode number of the next record, which becomes a free one. */
  lemma SpillErases(ino: nat, fileType: byte)
    requires ino < U32
    ensures var b, name := SpillBlock(), [97, 98, 99, 100];
      && SplitSite(b, 32, 0, name, ino) && InodeAt(b, 20) == 7
      && !InsertedWell(b, Split(b, 0, name, ino, fileType), 32, 0, name, ino, fileType)
      && InodeAt(Split(b, 0, name, ino, fileType), 20) == 0
  {
    var b, name := SpillBlock(), [97, 98, 99, 100];
    SpillSite(ino);
    SplitExactly(b, 32, 0, name, ino, fileType);
    hide Split, SpillBlock;
    forall i | 20 <= i < 24 { SplitBytes(b, 32, 0, name, ino, fileType, i); }
  }

  lemma SpillSite(ino: nat)
    requires ino < U32
    ensures var b := SpillBlock();
      && SplitSite(b, 32, 0, [97, 98, 99, 100], ino) && RecLenAt(b, 0) == 20 && Spills(b, 0, 4)
      && b[20] == 7 && b[21] == b[22] == b[23] == 0
  {
    var b := SpillBlock();
    assert Fits(b, 20, 32) && Tiled(b, 32, 32);
  }

  /** `b` with the byte behind the record at `off` already zero, if the NUL of the new name falls there. */
  function Nulled(b: seq<byte>, off: nat, nameLen: nat): (c: seq<byte>)
    requires off + HEADER <= |b| && off + RecLenAt(b, off) < |b|
    ensures |c| == |b|
  {
    if Spills(b, off, nameLen) then b[off + RecLenAt(b, off) := 0] else b
  }

  /** Splitting does to `b` what it does to that. */
  lemma NulledSplit(b: seq<byte>, bs: nat, off: nat, name: seq<byte>, ino: nat, fileType: byte)
    requires SplitSite(b, bs, off, name, ino)
    ensures var c := Nulled(b, off, |name|);
      && SplitSite(c, bs, off, name, ino) && Split(c, off, name, ino, fileType) == Split(b, off, name, ino, fileType)
      && RecLenAt(c, off) == RecLenAt(b, off) && !(Spills(c, off, |name|) && c[off + RecLenAt(c, off)] != 0)
  {
    hide Tiled, Records, Split, Word, Round4;
    if Spills(b, off, |name|) {
      var c, end := Nulled(b, off, |name|), off + RecLenAt(b, off);
      SplitSiteTiles(b, bs, off, name, ino);
      TiledLocal(b, c, 0, off);
      NulledRecords(b, bs, end);
      NulledBytes(b, bs, off, name, ino, fileType);
    }
  }

  lemma NulledBytes(b: seq<byte>, bs: nat, off: nat, name: seq<byte>, ino: nat, fileType: byte)
    requires |b| == bs + 1 && |name| < 256 && ino < U32 && HasRoom(b, off, bs, |name|) && Spills(b, off, |name|)
    ensures var c := b[off + RecLenAt(b, off) := 0];
      HasRoom(c, off, bs, |name|) && Split(c, off, name, ino, fileType) == Split(b, off, name, ino, fileType)
  {
    hide Word, Round4, PutRecord, SetRecLen;
    PutOverNul(b, off + ActualLen(b, off), ino, RecLenAt(b, off) - ActualLen(b, off), name, fileType);
  }

  lemma PutOverNul(b: seq<byte>, at: nat, ino: nat, recLen: nat, name: seq<byte>, fileType: byte)
    requires at + HEADER + |name| < |b| && ino < U32 && recLen < 0x1_0000 && |name| < 256
    ensures var c := b[at + HEADER + |name| := 0];
      PutRecord(c, at, ino, recLen, name, fileType) == PutRecord(b, at, ino, recLen, name, fileType)
  {
    hide Header;
    var c := b[at + HEADER + |name| := 0];
    assert b[..at] == c[..at];
    assert b[at + HEADER + |name| + 1..] == c[at + HEADER + |name| + 1..];
  }

  lemma SplitSiteTiles(b: seq<byte>, bs: nat, off: nat, name: seq<byte>, ino: nat)
    requires SplitSite(b, bs, off, name, ino)
    ensures var end := off + RecLenAt(b, off); off < end <= bs && Tiled(b, 0, end) && Tiled(b, end, bs)
  {
    hide Round4, Word;
    var end := off + RecLenAt(b, off);
    assert Tiled(b, end, end);
    TiledConcat(b, 0, off, end);
  }

  /** A record whose inode number lost its low byte. */
  function Cut(r: Rec): Rec { r.(inode := r.inode / 256 * 256) }

  /** Zeroing the byte at `end` touches the inode number of the record there, and nothing if the
      block ends there. */
  lemma NulledRecords(b: seq<byte>, bs: nat, end: nat)
    requires |b| == bs + 1 && end <= bs && Tiled(b, 0, end) && Tiled(b, end, bs)
    ensures var c := b[end := 0];
      && Tiled(b, 0, bs) && Tiled(c, 0, bs) && Tiled(c, end, bs)
      && (end == bs ==> Records(c, 0, bs) == Records(b, 0, bs))
      && (end < bs ==>
            var next := end + RecLenAt(b, end);
            && Fits(b, end, bs) && Tiled(b, next, bs)
            && Records(b, 0, bs) == Records(b, 0, end) + [RecAt(b, end)] + Records(b, next, bs)
            && Records(c, 0, bs) == Records(b, 0, end) + [Cut(RecAt(b, end))] + Records(b, next, bs))
  {
    hide Tiled, Records, RecAt, RecLenAt, Fits, Cut;
    var c := b[end := 0];
    TiledConcat(b, 0, end, bs);
    TiledLocal(b, c, 0, end);
    if end < bs {
      NulledTail(b, bs, end);
      TiledConcat(c, 0, end, bs);
    } else {
      NothingLeft(c, bs);
    }
  }

  lemma NothingLeft(b: seq<byte>, at: nat)
    ensures Tiled(b, at, at)
  {
  }

  lemma NulledTail(b: seq<byte>, bs: nat, end: nat)
    requires |b| == bs + 1 && end < bs && Tiled(b, end, bs)
    ensures var c, next := b[end := 0], end + RecLenAt(b, end);
      && Fits(b, end, bs) && Tiled(b, next, bs) && Tiled(c, end, bs)
      && Records(b, end, bs) == [RecAt(b, end)] + Records(b, next, bs)
      && Records(c, end, bs) == [Cut(RecAt(b, end))] + Records(b, next, bs)
  {
    hide Round4, RecAt, RecLenAt, NameLenAt, Cut;
    var c, next := b[end := 0], end + RecLenAt(b, end);
    TiledBounds(b, next, bs);
    TiledLocal(b, c, next, bs);
    CutAt(b, end);
  }

  lemma CutAt(b: seq<byte>, end: nat)
    requires end + HEADER <= |b| && end + HEADER + NameLenAt(b, end) <= |b|
    ensures var c := b[end := 0];
      RecLenAt(c, end) == RecLenAt(b, end) && NameLenAt(c, end) == NameLenAt(b, end) && RecAt(c, end) == Cut(RecAt(b, end))
  {
    var c, n := b[end := 0], NameLenAt(b, end);
    assert c[end + HEADER..end + HEADER + n] == b[end + HEADER..end + HEADER + n];
  }

  /** Lookups among records of which one was cut: other names are found as before; its own name, if no
      other live record has it, is found with the cut number, or no longer if that is zero. */
  lemma CutLookups(p: seq<Rec>, r: Rec, q: seq<Rec>, other: seq<byte>)
    ensures other != r.name || r.inode == 0 ==> FindName(p + [Cut(r)] + q, other) == FindName(p + [r] + q, other)
    ensures other == r.name ==>
      FindName(p + [Cut(r)] + q, other) ==
      if FindName(p, other).Some? then FindName(p, other) else if r.inode >= 256 then Some(Cut(r).inode) else FindName(q, other)
    ensures FindName(p + [r] + q, other) == None ==> FindName(p + [Cut(r)] + q, other) == None
  {
    hide FindName;
    FindConcat(p + [r], q, other);
    FindConcat(p, [r], other);
    FindConcat(p + [Cut(r)], q, other);
    FindConcat(p, [Cut(r)], other);
    FindSingle(r, other);
    FindSingle(Cut(r), other);
  }

  lemma FindSingle(r: Rec, name: seq<byte>)
    ensures FindName([r], name) == if r.inode != 0 && r.name == name then Some(r.inode) else None
  {
    assert [r][1..] == [];
  }

  /** Lookups after an insertion that went well: a name that was absent finds the new inode,
      every other name finds what it found before. */
  lemma LookupAfterInsert(b: seq<byte>, c: seq<byte>, bs: nat, off: nat, name: seq<byte>, ino: nat, fileType: byte, other: seq<byte>)
    requires SplitSite(b, bs, off, name, ino) && InsertedWell(b, c, bs, off, name, ino, fileType) && ino != 0
    ensures Tiled(b, 0, bs)
    ensures other != name ==> FindName(Records(c, 0, bs), other) == FindName(Records(b, 0, bs), other)
    ensures FindName(Records(b, 0, bs), name) == None ==> FindName(Records(c, 0, bs), name) == Some(ino)
  {
    hide RecAt, Word, Round4, Tiled, Records, FindName;
    SiteTiled(b, bs, off, name, ino);
    var end := off + RecLenAt(b, off);
    var pre, post := Records(b, 0, off), Records(b, end, bs);
    FindInserted(pre, RecAt(b, off), ActualLen(b, off), Rec(ino, RecLenAt(b, off) - ActualLen(b, off), fileType, name), post, other);
    FindInserted(pre, RecAt(b, off), ActualLen(b, off), Rec(ino, RecLenAt(b, off) - ActualLen(b, off), fileType, name), post, name);
  }

  lemma SiteTiled(b: seq<byte>, bs: nat, off: nat, name: seq<byte>, ino: nat)
    requires SplitSite(b, bs, off, name, ino)
    ensures Tiled(b, 0, bs)
    ensures Records(b, 0, bs) == Records(b, 0, off) + [RecAt(b, off)] + Records(b, off + RecLenAt(b, off), bs)
  {
    hide RecAt, Word, Round4;
    assert Tiled(b, off, bs) && Records(b, off, bs) == [RecAt(b, off)] + Records(b, off + RecLenAt(b, off), bs);
    TiledConcat(b, 0, off, bs);
  }

  lemma FindInserted(pre: seq<Rec>, was: Rec, actual: nat, added: Rec, post: seq<Rec>, name: seq<byte>)
    requires added.inode != 0
    ensures name != added.name ==>
              FindName(pre + [was.(recLen := actual), added] + post, name) == FindName(pre + [was] + post, name)
    ensures name == added.name && FindName(pre + [was] + post, name) == None ==>
              FindName(pre + [was.(recLen := actual), added] + post, name) == Some(added.inode)
  {
    var pair := [was.(recLen := actual), added];
    FindConcat(pre + pair, post, name);
    FindConcat(pre, pair, name);
    FindConcat(pre + [was], post, name);
    FindConcat(pre, [was], name);
    assert pair[1..] == [added] && [was][1..] == [] && [added][1..] == [];
    assert FindName([added], name) == if name == added.name then Some(added.inode) else None;
  }

  // ---------------------------------------------------------------- inserting in place

  /** memcpy into the buffer. */
  method CopyBytes(buf: array<byte>, at: nat, src: seq<byte>)
    requires at + |src| <= buf.Length
    modifies buf
    ensures buf[..] == old(buf[..at]) + src + old(buf[at + |src|..])
  {
    var i := 0;
    while i < |src|
      invariant 0 <= i <= |src|
      invariant forall k :: 0 <= k < buf.Length ==> buf[k] == if at <= k < at + i then src[k - at] else old(buf[k])
    {
      buf[at + i] := src[i];
      i := i + 1;
    }
  }

  method StoreRecord(buf: array<byte>, at: nat, ino: nat, recLen: nat, name: seq<byte>, fileType: byte)
    requires at + HEADER + |name| < buf.Length && ino < U32 && recLen < 0x1_0000 && |name| < 256
    modifies buf
    ensures buf[..] == PutRecord(old(buf[..]), at, ino, recLen, name, fileType)
  {
    ghost var b := buf[..];
    var h := Header(ino, recLen, |name|, fileType);
    CopyBytes(buf, at, h);
    ghost var b1 := buf[..];
    CopyBytes(buf, at + HEADER, name);
    ghost var b2 := buf[..];
    buf[at + HEADER + |name|] := 0;
    StoredInParts(b, b1, b2, buf[..], at, h, name);
  }

  lemma StoredInParts(b: seq<byte>, b1: seq<byte>, b2: seq<byte>, b3: seq<byte>, at: nat, h: seq<byte>, name: seq<byte>)
    requires at + |h| + |name| < |b|
    requires b1 == b[..at] + h + b[at + |h|..]
    requires b2 == b1[..at + |h|] + name + b1[at + |h| + |name|..]
    requires b3 == b2[at + |h| + |name| := 0]
    ensures b3 == b[..at] + h + name + [0] + b[at + |h| + |name| + 1..]
  {
  }

  method StoreRecLen(buf: array<byte>, off: nat, recLen: nat)
    requires off + HEADER <= buf.Length && recLen < 0x1_0000
    modifies buf
    ensures buf[..] == SetRecLen(old(buf[..]), off, recLen)
  {
    buf[off + 4] := recLen % 256;
    buf[off + 5] := recLen / 256;
  }

  /** The branch of ext2_add_dir_entry for a block that has no records yet: one record takes the block. */
  method FillFresh(buf: array<byte>, bs: nat, name: seq<byte>, ino: nat, fileType: byte)
    requires buf.Length == bs + 1 && |name| < 256 && ino < U32 && bs < 0x1_0000
    requires Round4(HEADER + |name|) <= bs && RecLenAt(buf[..], 0) == 0
    modifies buf
    ensures Tiled(buf[..], 0, bs) && Records(buf[..], 0, bs) == [Rec(ino, bs, fileType, name)]
    ensures buf[bs] == if HEADER + |name| == bs then 0 else old(buf[bs])
  {
    PutRecordReads(buf[..], 0, ino, bs, name, fileType);
    StoreRecord(buf, 0, ino, bs, name, fileType);
    assert Tiled(buf[..], bs, bs) && Records(buf[..], bs, bs) == [];
  }

  /** The record could take a name of this length. */
  predicate RoomIn(r: Rec, nameLen: nat) {
    r.inode != 0 && Round4(HEADER + |r.name|) + Round4(HEADER + nameLen) <= r.recLen
  }

  /** The inner loop of ext2_add_dir_entry on a tiled block: split the first record with room.
      `buf` is the block buffer and the byte behind it. */
  method InsertInBlock(buf: array<byte>, bs: nat, name: seq<byte>, ino: nat, fileType: byte)
    returns (done: bool, ghost at: nat)
    requires buf.Length == bs + 1 && |name| < 256 && ino < U32 && Tiled(buf[..], 0, bs)
    modifies buf
    ensures !done ==> buf[..] == old(buf[..]) && forall r :: r in Records(buf[..], 0, bs) ==> !RoomIn(r, |name|)
    ensures done ==>
      && SplitSite(old(buf[..]), bs, at, name, ino)
      && buf[..] == Split(old(buf[..]), at, name, ino, fileType)
      && forall r :: r in Records(old(buf[..]), 0, at) ==> !RoomIn(r, |name|)
  {
    hide Tiled, Records, Word, Round4, RoomIn, Split, PutRecord, SetRecLen;
    ghost var b := buf[..];
    var required := Round4(HEADER + |name|);
    var off := 0;
    at := 0;
    StartWalk(b, bs, |name|);
    while off < bs
      invariant 0 <= off <= bs && buf[..] == b
      invariant Walked(b, bs, off, |name|)
      decreases bs - off
    {
      WalkStep(b, bs, off, |name|);
      var actual := Round4(HEADER + NameLenAt(buf[..], off));
      var free := RecLenAt(buf[..], off) - actual;
      if InodeAt(buf[..], off) != 0 && free >= required {
        at := off;
        SplitIs(b, bs, off, name, ino, fileType);
        StoreRecord(buf, off + actual, ino, free, name, fileType);
        StoreRecLen(buf, off, actual);
        return true, at;
      }
      off := off + RecLenAt(buf[..], off);
    }
    done := false;
  }

  /** The records before `off` have been passed over. */
  ghost predicate Walked(b: seq<byte>, bs: nat, off: nat, nameLen: nat) {
    && Tiled(b, 0, off) && Tiled(b, off, bs)
    && forall r :: r in Records(b, 0, off) ==> !RoomIn(r, nameLen)
  }

  lemma StartWalk(b: seq<byte>, bs: nat, nameLen: nat)
    requires Tiled(b, 0, bs)
    ensures Walked(b, bs, 0, nameLen)
  {
  }

  lemma WalkStep(b: seq<byte>, bs: nat, off: nat, nameLen: nat)
    requires Walked(b, bs, off, nameLen) && off < bs
    ensures Fits(b, off, bs) && off < off + RecLenAt(b, off) <= bs && Tiled(b, off + RecLenAt(b, off), bs)
    ensures RoomIn(RecAt(b, off), nameLen) <==> HasRoom(b, off, bs, nameLen)
    ensures !HasRoom(b, off, bs, nameLen) ==> Walked(b, bs, off + RecLenAt(b, off), nameLen)
  {
    hide Word, Round4;
    TiledBounds(b, off + RecLenAt(b, off), bs);
    var next := off + RecLenAt(b, off);
    assert Tiled(b, next, next) && Records(b, next, next) == [];
    assert Tiled(b, off, next) && Records(b, off, next) == [RecAt(b, off)];
    TiledConcat(b, 0, off, next);
  }

  lemma SplitIs(b: seq<byte>, bs: nat, off: nat, name: seq<byte>, ino: nat, fileType: byte)
    requires |b| == bs + 1 && |name| < 256 && ino < U32 && HasRoom(b, off, bs, |name|)
    ensures var actual := ActualLen(b, off);
            var p := PutRecord(b, off + actual, ino, RecLenAt(b, off) - actual, name, fileType);
            Split(b, off, name, ino, fileType) == SetRecLen(p, off, actual)
  {
  }

  // ---------------------------------------------------------------- whole directories

  /** Every mapped block of the directory is tiled. */
  ghost predicate DirOk(geo: Geometry, vol: seq<Block>, ib: seq<nat>, n: nat)
    requires |ib| == NPTR
  {
    forall i :: 0 <= i < n ==> BlockTiled(vol, Mapped(geo, vol, ib, i))
  }

  predicate BlockTiled(vol: seq<Block>, b: nat) { 0 < b < |vol| ==> Tiled(vol[b], 0, |vol[b]|) }

  /** The records of one block; a hole has none. */
  function BlockRecords(vol: seq<Block>, b: nat): seq<Rec>
    requires BlockTiled(vol, b)
  {
    if 0 < b < |vol| then Records(vol[b], 0, |vol[b]|) else []
  }

  /** The records of the first `n` blocks of a directory. */
  ghost function DirRecords(geo: Geometry, vol: seq<Block>, ib: seq<nat>, n: nat): seq<Rec>
    requires |ib| == NPTR && DirOk(geo, vol, ib, n)
  {
    if n == 0 then [] else DirRecords(geo, vol, ib, n - 1) + BlockRecords(vol, Mapped(geo, vol, ib, n - 1))
  }

  /** num_blocks, with the sum in 32 bits. */
  function NumBlocks(size: nat, bs: nat): nat
    requires bs > 0
  {
    (size + bs - 1) % U32 / bs
  }

  /** ext2_lookup: the blocks of the directory in order, skipping holes. */
  method LookupDir(fs: Ext2Fs, inode: Inode, name: seq<byte>) returns (r: Result<nat>)
    requires fs.Valid() && MapOk(fs.geo, fs.vol, inode.block) && |inode.block| == NPTR && fs.geo.blockSize > 0
    requires DirOk(fs.geo, fs.vol, inode.block, NumBlocks(inode.size, fs.geo.blockSize))
    modifies fs.cache, fs.cache.slots, fs.cache.device
    ensures fs.Valid()
    ensures var found := FindName(DirRecords(fs.geo, fs.vol, inode.block, NumBlocks(inode.size, fs.geo.blockSize)), name);
            r == if found.Some? then Ok(found.value) else Err(NotFound)
  {
    hide Ext2Fs.Synced, LedgerOk, MapOk, FindName, Tiled, NumBlocks, BlockRecords, At, PlaceOf;
    var n := NumBlocks(inode.size, fs.geo.blockSize);
    var i := 0;
    FindNone(name);
    while i < n
      invariant 0 <= i <= n && fs.Valid()
      invariant FindName(DirRecords(fs.geo, fs.vol, inode.block, i), name) == None
    {
      FindInPrefix(fs.geo, fs.vol, inode.block, i, n, name);
      var b := GetBlockNum(fs, inode, i);
      if b.Ok? && b.value != 0 {
        DataInRange(fs.geo, fs.vol, inode.block, i);
        var block := fs.ReadBlock(b.value);
        RecordsOfBlock(fs.vol, b.value);
        var hit := LookupBlock(block, name);
        if hit.Some? { return Ok(hit.value); }
      } else {
        RecordsOfHole(fs.vol);
        FindNone(name);
      }
      i := i + 1;
    }
    r := Err(NotFound);
  }

  lemma FindNone(name: seq<byte>)
    ensures FindName([], name) == None
  {
  }

  lemma RecordsOfBlock(vol: seq<Block>, b: nat)
    requires 0 < b < |vol| && BlockTiled(vol, b)
    ensures BlockRecords(vol, b) == Records(vol[b], 0, |vol[b]|)
  {
  }

  lemma RecordsOfHole(vol: seq<Block>)
    ensures BlockTiled(vol, 0) && BlockRecords(vol, 0) == []
  {
  }

  lemma {:induction false} DirPrefix(geo: Geometry, vol: seq<Block>, ib: seq<nat>, m: nat, n: nat)
    requires |ib| == NPTR && DirOk(geo, vol, ib, n) && m <= n
    ensures DirOk(geo, vol, ib, m) && DirRecords(geo, vol, ib, m) <= DirRecords(geo, vol, ib, n)
    decreases n - m
  {
    hide Mapped, BlockRecords, BlockTiled;
    if m < n { DirPrefix(geo, vol, ib, m, n - 1); }
  }

  /** What the blocks up to `i` give decides the lookup as soon as they give something. */
  lemma FindInPrefix(geo: Geometry, vol: seq<Block>, ib: seq<nat>, i: nat, n: nat, name: seq<byte>)
    requires |ib| == NPTR && DirOk(geo, vol, ib, n) && i < n
    requires DirOk(geo, vol, ib, i) && FindName(DirRecords(geo, vol, ib, i), name) == None
    ensures DirOk(geo, vol, ib, i + 1) && BlockTiled(vol, Mapped(geo, vol, ib, i))
    ensures FindName(DirRecords(geo, vol, ib, i + 1), name) == FindName(BlockRecords(vol, Mapped(geo, vol, ib, i)), name)
    ensures FindName(DirRecords(geo, vol, ib, i + 1), name).Some? ==>
              FindName(DirRecords(geo, vol, ib, n), name) == FindName(DirRecords(geo, vol, ib, i + 1), name)
  {
    hide Mapped, BlockRecords, BlockTiled, FindName;
    DirPrefix(geo, vol, ib, i + 1, n);
    FindConcat(DirRecords(geo, vol, ib, i), BlockRecords(vol, Mapped(geo, vol, ib, i)), name);
    var all, part := DirRecords(geo, vol, ib, n), DirRecords(geo, vol, ib, i + 1);
    assert all == part + all[|part|..];
    FindConcat(part, all[|part|..], name);
  }

  // ---------------------------------------------------------------- adding an entry

  /** From `vol` to `vol'` a record of block `i` of the directory was split. `guard` is the
      byte behind the block buffer. */
  ghost predicate EntryAdded(geo: Geometry, vol: seq<Block>, ib: seq<nat>, vol': seq<Block>, n: nat, i: nat, at: nat,
                             name: seq<byte>, ino: nat, fileType: byte, guard: byte) {
    && |ib| == NPTR && i < n && 0 < Mapped(geo, vol, ib, i) < |vol|
    && var b := Mapped(geo, vol, ib, i);
       && SplitSite(vol[b] + [guard], |vol[b]|, at, name, ino)
       && vol' == vol[b := Split(vol[b] + [guard], at, name, ino, fileType)[..|vol[b]|]]
  }

  /** No record of the block has room. */
  ghost predicate BlockFull(vol: seq<Block>, b: nat, nameLen: nat) {
    0 < b < |vol| && Tiled(vol[b], 0, |vol[b]|) &&
    forall r :: r in Records(vol[b], 0, |vol[b]|) ==> !RoomIn(r, nameLen)
  }

  lemma GuardedTiling(block: Block, guard: byte, nameLen: nat)
    requires Tiled(block, 0, |block|)
    ensures Tiled(block + [guard], 0, |block|)
    ensures Records(block + [guard], 0, |block|) == Records(block, 0, |block|)
  {
    hide Tiled, Records;
    TiledLocal(block, block + [guard], 0, |block|);
  }

  lemma FullBlock(vol: seq<Block>, b: nat, guard: byte, nameLen: nat)
    requires 0 < b < |vol| && Tiled(vol[b], 0, |vol[b]|) && Tiled(vol[b] + [guard], 0, |vol[b]|)
    requires forall r :: r in Records(vol[b] + [guard], 0, |vol[b]|) ==> !RoomIn(r, nameLen)
    ensures BlockFull(vol, b, nameLen)
  {
    hide Tiled, Records, RoomIn;
    GuardedTiling(vol[b], guard, nameLen);
  }

  /** The NUL of the new name does not fall on a nonzero byte behind the split record. */
  ghost predicate NoSpill(block: Block, guard: byte, at: nat, nameLen: nat) {
    var b := block + [guard];
    at + HEADER <= |b| && at + RecLenAt(b, at) < |b| && !(Spills(b, at, nameLen) && b[at + RecLenAt(b, at)] != 0)
  }

  /** The split block, seen without the guard byte. */
  lemma SplitBlockRecords(block: Block, guard: byte, at: nat, name: seq<byte>, ino: nat, fileType: byte, other: seq<byte>)
    requires SplitSite(block + [guard], |block|, at, name, ino) && ino != 0 && NoSpill(block, guard, at, |name|)
    ensures var c := Split(block + [guard], at, name, ino, fileType)[..|block|];
            && Tiled(block, 0, |block|) && Tiled(c, 0, |block|)
            && (other != name ==> FindName(Records(c, 0, |block|), other) == FindName(Records(block, 0, |block|), other))
            && (FindName(Records(block, 0, |block|), name) == None ==> FindName(Records(c, 0, |block|), name) == Some(ino))
  {
    hide Tiled, Records, FindName, Split, Spills;
    var b := block + [guard];
    var c := Split(b, at, name, ino, fileType);
    SplitExactly(b, |block|, at, name, ino, fileType);
    LookupAfterInsert(b, c, |block|, at, name, ino, fileType, other);
    TiledLocal(b, block, 0, |block|);
    TiledLocal(c, c[..|block|], 0, |block|);
  }

  /** Looking a name up block by block. */
  lemma {:induction false} SameLookups(geo: Geometry, vol: seq<Block>, ib: seq<nat>, vol': seq<Block>, ib': seq<nat>, n: nat, i: nat, nm: seq<byte>, ino: nat, added: bool)
    requires |ib| == |ib'| == NPTR && DirOk(geo, vol, ib, n) && DirOk(geo, vol', ib', n)
    requires forall k :: 0 <= k < n && k != i ==>
               BlockRecords(vol', Mapped(geo, vol', ib', k)) == BlockRecords(vol, Mapped(geo, vol, ib, k))
    requires i < n ==>
      var f, f' := FindName(BlockRecords(vol, Mapped(geo, vol, ib, i)), nm), FindName(BlockRecords(vol', Mapped(geo, vol', ib', i)), nm);
      if added then f == None ==> f' == Some(ino) else f' == f
    requires added ==> FindName(DirRecords(geo, vol, ib, n), nm) == None
    ensures FindName(DirRecords(geo, vol', ib', n), nm) ==
            if added && i < n then Some(ino) else FindName(DirRecords(geo, vol, ib, n), nm)
    decreases n
  {
    hide Mapped, BlockRecords, BlockTiled, FindName;
    if n > 0 {
      FindConcat(DirRecords(geo, vol, ib, n - 1), BlockRecords(vol, Mapped(geo, vol, ib, n - 1)), nm);
      FindConcat(DirRecords(geo, vol', ib', n - 1), BlockRecords(vol', Mapped(geo, vol', ib', n - 1)), nm);
      SameLookups(geo, vol, ib, vol', ib', n - 1, i, nm, ino, added);
    }
  }

  /** After an entry was added without spill, the directory is tiled, a name that was absent
      finds the new inode and every other name finds what it found before. */
  lemma LookupAfterAdd(geo: Geometry, vol: seq<Block>, ib: seq<nat>, vol': seq<Block>, n: nat, i: nat, at: nat,
                       name: seq<byte>, ino: nat, fileType: byte, guard: byte, other: seq<byte>)
    requires MapOk(geo, vol, ib) && |ib| == NPTR && DirOk(geo, vol, ib, n) && ino != 0
    requires EntryAdded(geo, vol, ib, vol', n, i, at, name, ino, fileType, guard)
    requires NoSpill(vol[Mapped(geo, vol, ib, i)], guard, at, |name|)
    ensures MapOk(geo, vol', ib) && DirOk(geo, vol', ib, n)
    ensures other != name ==> FindName(DirRecords(geo, vol', ib, n), other) == FindName(DirRecords(geo, vol, ib, n), other)
    ensures FindName(DirRecords(geo, vol, ib, n), name) == None ==> FindName(DirRecords(geo, vol', ib, n), name) == Some(ino)
  {
    hide MapOk, Mapped, Tiled, Records, FindName, Split, SplitSite, NoSpill, DirRecords, IsBitmap;
    var b := Mapped(geo, vol, ib, i);
    DataInRange(geo, vol, ib, i);
    SplitBlockRecords(vol[b], guard, at, name, ino, fileType, other);
    OtherBlocksSame(geo, vol, ib, vol', n, i, vol'[b]);
    assert BlockRecords(vol, b) == Records(vol[b], 0, |vol[b]|);
    assert BlockRecords(vol', Mapped(geo, vol', ib, i)) == Records(vol'[b], 0, |vol'[b]|);
    if other != name { SameLookups(geo, vol, ib, vol', ib, n, i, other, ino, false); }
    if FindName(DirRecords(geo, vol, ib, n), name) == None {
      SameLookups(geo, vol, ib, vol', ib, n, i, name, ino, true);
    }
  }

  lemma OtherBlocksSame(geo: Geometry, vol: seq<Block>, ib: seq<nat>, vol': seq<Block>, n: nat, i: nat, data: Block)
    requires MapOk(geo, vol, ib) && |ib| == NPTR && DirOk(geo, vol, ib, n) && i < n
    requires 0 < Mapped(geo, vol, ib, i) < |vol| && |data| == geo.blockSize && Tiled(data, 0, |data|)
    requires vol' == vol[Mapped(geo, vol, ib, i) := data]
    ensures MapOk(geo, vol', ib) && DirOk(geo, vol', ib, n) && Mapped(geo, vol', ib, i) == Mapped(geo, vol, ib, i)
    ensures forall k :: 0 <= k < n && k != i ==>
              BlockRecords(vol', Mapped(geo, vol', ib, k)) == BlockRecords(vol, Mapped(geo, vol, ib, k))
  {
    hide MapOk, Mapped, Tiled, Records;
    assert geo.blockSize > 0 by { MapShape(geo, vol, ib); }
    StoreBlock(geo, vol, ib, i, data);
    DataBlockAlone(geo, vol, ib, i);
  }
}
