/** The bitmap frame allocator of src/memory/frame_allocator.rs. A set bit is a free frame. */
module Frames {
  import opened Common
  import opened Arith
  import opened Bits

  const PAGE_SIZE: nat := 4096
  const WORD_BITS: nat := 64

  datatype Region = Region(start: nat, size: nat) {
    function End(): nat { start + size }
    function Frames(): nat { size / PAGE_SIZE }
  }

  predicate InRegion(r: Region, a: nat) { r.start <= a < r.End() }

  /** Page-aligned regions of whole pages, no two overlapping. */
  ghost predicate RegionsOk(rs: seq<Region>) {
    && (forall i :: 0 <= i < |rs| ==> rs[i].start % PAGE_SIZE == 0 && rs[i].size % PAGE_SIZE == 0)
    && (forall i, j :: 0 <= i < j < |rs| ==> rs[i].End() <= rs[j].start || rs[j].End() <= rs[i].start)
  }

  function TotalFrames(rs: seq<Region>): nat {
    if rs == [] then 0 else rs[0].Frames() + TotalFrames(rs[1..])
  }

  // ---------------------------------------------------------------- numbering

  /** The bit of the frame at `a`: the first region that contains it decides. */
  function FrameToBit(rs: seq<Region>, a: nat): Option<nat> {
    if rs == [] then None
    else if InRegion(rs[0], a) then Some((a - rs[0].start) / PAGE_SIZE)
    else
      var r := FrameToBit(rs[1..], a);
      if r.Some? then Some(rs[0].Frames() + r.value) else None
  }

  function BitToFrame(rs: seq<Region>, i: nat): Option<nat> {
    if rs == [] then None
    else if i < rs[0].Frames() then Some(rs[0].start + i * PAGE_SIZE)
    else BitToFrame(rs[1..], i - rs[0].Frames())
  }

  /** Bits up to the number of frames have a frame; the padding bits have none. */
  lemma {:induction false} BitRange(rs: seq<Region>, i: nat)
    ensures BitToFrame(rs, i).Some? <==> i < TotalFrames(rs)
  {
    if rs != [] && i >= rs[0].Frames() { BitRange(rs[1..], i - rs[0].Frames()); }
  }

  /** The frame of a bit lies page-aligned in some region. */
  lemma {:induction false} BitFrameInRegion(rs: seq<Region>, i: nat)
    requires RegionsOk(rs) && i < TotalFrames(rs)
    ensures var f := BitToFrame(rs, i);
            && f.Some? && f.value % PAGE_SIZE == 0
            && exists k :: 0 <= k < |rs| && InRegion(rs[k], f.value)
  {
    if i < rs[0].Frames() {
      assert InRegion(rs[0], BitToFrame(rs, i).value);
    } else {
      var j := i - rs[0].Frames();
      BitFrameInRegion(rs[1..], j);
      var k :| 0 <= k < |rs[1..]| && InRegion(rs[1..][k], BitToFrame(rs[1..], j).value);
      assert rs[k + 1] == rs[1..][k];
    }
  }

  /** A frame of a later region is not in the first. */
  lemma LaterFrame(rs: seq<Region>, j: nat)
    requires RegionsOk(rs) && rs != [] && j < TotalFrames(rs[1..])
    ensures BitToFrame(rs[1..], j).Some? && !InRegion(rs[0], BitToFrame(rs[1..], j).value)
  {
    hide BitToFrame, TotalFrames;
    BitFrameInRegion(rs[1..], j);
    var f := BitToFrame(rs[1..], j).value;
    var k :| 0 <= k < |rs[1..]| && InRegion(rs[1..][k], f);
    assert rs[k + 1] == rs[1..][k];
  }

  /** Bit to frame to bit. */
  lemma {:induction false} BitFrameBit(rs: seq<Region>, i: nat)
    requires RegionsOk(rs) && i < TotalFrames(rs)
    ensures BitToFrame(rs, i).Some? && FrameToBit(rs, BitToFrame(rs, i).value) == Some(i)
  {
    if i < rs[0].Frames() {
      assert InRegion(rs[0], rs[0].start + i * PAGE_SIZE);
    } else {
      LaterFrame(rs, i - rs[0].Frames());
      BitFrameBit(rs[1..], i - rs[0].Frames());
    }
  }

  /** Frame to bit to frame, rounding an address down to its page. */
  lemma {:induction false} FrameBitFrame(rs: seq<Region>, a: nat)
    requires RegionsOk(rs) && FrameToBit(rs, a).Some?
    ensures FrameToBit(rs, a).value < TotalFrames(rs)
    ensures BitToFrame(rs, FrameToBit(rs, a).value) == Some(a - a % PAGE_SIZE)
  {
    if !InRegion(rs[0], a) { FrameBitFrame(rs[1..], a); }
  }

  /** Frames of the regions before the `k`-th, at 4096 bytes a frame. */
  function Before(rs: seq<Region>, k: nat): nat
    requires k <= |rs|
  {
    if k == 0 then 0 else Before(rs, k - 1) + rs[k - 1].size / 4096
  }

  lemma {:induction false} BeforeRest(rs: seq<Region>, k: nat)
    requires 0 < k <= |rs|
    ensures Before(rs, k) == rs[0].size / 4096 + Before(rs[1..], k - 1)
  {
    if k > 1 { BeforeRest(rs, k - 1); }
  }

  /** The numbering: frame `j` of region `k` comes behind the frames of the regions before it. */
  lemma {:induction false} Numbering(rs: seq<Region>, k: nat, j: nat)
    requires RegionsOk(rs) && k < |rs| && j < rs[k].size / 4096
    ensures BitToFrame(rs, Before(rs, k) + j) == Some(rs[k].start + 4096 * j)
    ensures FrameToBit(rs, rs[k].start + 4096 * j) == Some(Before(rs, k) + j)
  {
    hide Before, RegionsOk, BitToFrame, FrameToBit;
    var a := rs[k].start + 4096 * j;
    assert InRegion(rs[k], a);
    if k == 0 {
      FirstRegion(rs, j);
    } else {
      BeforeRest(rs, k);
      TailRegions(rs, k, a);
      Numbering(rs[1..], k - 1, j);
      NextRegion(rs, Before(rs[1..], k - 1) + j, a);
    }
  }

  lemma TailRegions(rs: seq<Region>, k: nat, a: nat)
    requires RegionsOk(rs) && 0 < k < |rs| && InRegion(rs[k], a)
    ensures RegionsOk(rs[1..]) && rs[1..][k - 1] == rs[k] && !InRegion(rs[0], a)
  {
  }

  lemma FirstRegion(rs: seq<Region>, j: nat)
    requires rs != [] && j < rs[0].size / 4096
    ensures Before(rs, 0) == 0 && BitToFrame(rs, j) == Some(rs[0].start + 4096 * j) && FrameToBit(rs, rs[0].start + 4096 * j) == Some(j)
  {
    assert InRegion(rs[0], rs[0].start + 4096 * j);
  }

  lemma NextRegion(rs: seq<Region>, i: nat, a: nat)
    requires rs != [] && !InRegion(rs[0], a)
    ensures BitToFrame(rs, rs[0].size / 4096 + i) == BitToFrame(rs[1..], i)
    ensures FrameToBit(rs[1..], a) == Some(i) ==> FrameToBit(rs, a) == Some(rs[0].size / 4096 + i)
  {
  }

  /** frame_to_bit_index: a scan with a running offset. */
  method FrameToBitIndex(rs: seq<Region>, a: nat) returns (r: Option<nat>)
    ensures r == FrameToBit(rs, a)
  {
    var offset, k := 0, 0;
    while k < |rs|
      invariant 0 <= k <= |rs|
      invariant FrameToBit(rs, a) ==
        var t := FrameToBit(rs[k..], a); if t.Some? then Some(offset + t.value) else None
    {
      assert rs[k..][1..] == rs[k + 1..];
      if InRegion(rs[k], a) {
        return Some(offset + (a - rs[k].start) / PAGE_SIZE);
      }
      offset := offset + rs[k].Frames();
      k := k + 1;
    }
    r := None;
  }

  /** bit_index_to_frame: likewise. */
  method BitIndexToFrame(rs: seq<Region>, i: nat) returns (r: Option<nat>)
    ensures r == BitToFrame(rs, i)
  {
    var offset, k := 0, 0;
    while k < |rs|
      invariant 0 <= k <= |rs| && offset <= i
      invariant BitToFrame(rs, i) == BitToFrame(rs[k..], i - offset)
    {
      assert rs[k..][1..] == rs[k + 1..];
      if i < offset + rs[k].Frames() {
        return Some(rs[k].start + (i - offset) * PAGE_SIZE);
      }
      offset := offset + rs[k].Frames();
      k := k + 1;
    }
    r := None;
  }

  // ---------------------------------------------------------------- the bitmap

  predicate IsSet(bitmap: seq<nat>, i: nat) {
    i / WORD_BITS < |bitmap| && TestBit(bitmap[i / WORD_BITS], i % WORD_BITS)
  }

  function ClearAt(bitmap: seq<nat>, i: nat): (r: seq<nat>)
    requires i / WORD_BITS < |bitmap|
    ensures |r| == |bitmap|
  {
    bitmap[i / WORD_BITS := ClearBit(bitmap[i / WORD_BITS], i % WORD_BITS)]
  }

  function SetAt(bitmap: seq<nat>, i: nat): (r: seq<nat>)
    requires i / WORD_BITS < |bitmap|
    ensures |r| == |bitmap|
  {
    bitmap[i / WORD_BITS := SetBit(bitmap[i / WORD_BITS], i % WORD_BITS)]
  }

  lemma WriteBitAt(bitmap: seq<nat>, i: nat, k: nat)
    requires i / WORD_BITS < |bitmap|
    ensures IsSet(ClearAt(bitmap, i), k) <==> k != i && IsSet(bitmap, k)
    ensures IsSet(SetAt(bitmap, i), k) <==> k == i || IsSet(bitmap, k)
  {
    ClearBitTest(bitmap[i / WORD_BITS], i % WORD_BITS, k % WORD_BITS);
    SetBitTest(bitmap[i / WORD_BITS], i % WORD_BITS, k % WORD_BITS);
  }

  /** Number of set bits among lo..hi. */
  function CountSet(bitmap: seq<nat>, lo: nat, hi: nat): (n: nat)
    ensures lo <= hi ==> n <= hi - lo
    decreases hi
  {
    if hi <= lo then 0 else CountSet(bitmap, lo, hi - 1) + (if IsSet(bitmap, hi - 1) then 1 else 0)
  }

  lemma {:induction false} CountAfterClear(bitmap: seq<nat>, i: nat, lo: nat, hi: nat)
    requires i / WORD_BITS < |bitmap|
    ensures CountSet(ClearAt(bitmap, i), lo, hi) ==
            CountSet(bitmap, lo, hi) - (if lo <= i < hi && IsSet(bitmap, i) then 1 else 0)
    decreases hi
  {
    hide ClearAt, IsSet;
    if lo < hi {
      CountAfterClear(bitmap, i, lo, hi - 1);
      WriteBitAt(bitmap, i, hi - 1);
    }
  }

  lemma {:induction false} CountAfterSet(bitmap: seq<nat>, i: nat, lo: nat, hi: nat)
    requires i / WORD_BITS < |bitmap| && i < lo
    ensures CountSet(SetAt(bitmap, i), lo, hi) == CountSet(bitmap, lo, hi)
    decreases hi
  {
    hide SetAt, IsSet;
    if lo < hi {
      CountAfterSet(bitmap, i, lo, hi - 1);
      WriteBitAt(bitmap, i, hi - 1);
    }
  }

  // ---------------------------------------------------------------- the allocator

  /** The frame at `a` is free. */
  ghost predicate FrameFree(rs: seq<Region>, bitmap: seq<nat>, a: nat) {
    a % PAGE_SIZE == 0 && FrameToBit(rs, a).Some? && IsSet(bitmap, FrameToBit(rs, a).value)
  }

  /** Words needed for one bit per frame, and the bits that are left over. */
  function WordsFor(frames: nat): nat { (frames + 63) / WORD_BITS }

  /** The first set bit at or after `i` steps from `start`, going round. */
  function NextSet(bitmap: seq<nat>, start: nat, i: nat): (k: nat)
    requires i <= WORD_BITS * |bitmap|
    ensures i <= k <= WORD_BITS * |bitmap|
    ensures k < WORD_BITS * |bitmap| ==> IsSet(bitmap, Around(bitmap, start, k))
    ensures forall j :: i <= j < k ==> !IsSet(bitmap, Around(bitmap, start, j))
    decreases WORD_BITS * |bitmap| - i
  {
    if i == WORD_BITS * |bitmap| || IsSet(bitmap, Around(bitmap, start, i)) then i
    else NextSet(bitmap, start, i + 1)
  }

  function Around(bitmap: seq<nat>, start: nat, i: nat): nat {
    var total := WORD_BITS * |bitmap|;
    if total == 0 then 0 else (start + i) % total
  }

  /** The bit that comes next, going round from `start`, if any bit is set. */
  function NextBit(bitmap: seq<nat>, start: nat): Option<nat> {
    var k := NextSet(bitmap, start, 0);
    if k < WORD_BITS * |bitmap| then Some(Around(bitmap, start, k)) else None
  }

  /** Going round from anywhere visits every bit. */
  lemma AroundCovers(bitmap: seq<nat>, start: nat, b: nat) returns (i: nat)
    requires b < WORD_BITS * |bitmap| && start < WORD_BITS * |bitmap|
    ensures i < WORD_BITS * |bitmap| && Around(bitmap, start, i) == b
  {
    var total := WORD_BITS * |bitmap|;
    if b >= start {
      i := b - start;
      DivModUnique(0, b, total);
    } else {
      i := b + total - start;
      DivModUnique(1, b, total);
    }
  }

  ghost predicate NoneSet(bitmap: seq<nat>) { forall i: nat :: !IsSet(bitmap, i) }

  lemma NextSetStep(bitmap: seq<nat>, start: nat, i: nat)
    requires start < WORD_BITS * |bitmap| && i < WORD_BITS * |bitmap|
    ensures var idx := (start + i) % (|bitmap| * WORD_BITS);
            && idx < WORD_BITS * |bitmap| && idx / WORD_BITS < |bitmap| && idx == Around(bitmap, start, i)
            && (IsSet(bitmap, idx) <==> TestBit(bitmap[idx / WORD_BITS], idx % WORD_BITS))
            && NextSet(bitmap, start, i) == if IsSet(bitmap, idx) then i else NextSet(bitmap, start, i + 1)
  {
    hide TestBit;
    var total := |bitmap| * WORD_BITS;
    assert total == WORD_BITS * |bitmap|;
  }

  lemma AroundOne(bitmap: seq<nat>)
    ensures bitmap != [] ==> forall idx: nat :: Around(bitmap, idx, 1) == (idx + 1) % (|bitmap| * WORD_BITS)
    ensures bitmap != [] ==> forall i: nat :: Around(bitmap, i, 0) < WORD_BITS * |bitmap|
  {
  }

  lemma NextSetEnd(bitmap: seq<nat>, start: nat)
    ensures NextSet(bitmap, start, WORD_BITS * |bitmap|) == WORD_BITS * |bitmap|
  {
  }

  /** A full round without a hit means that no bit is set. */
  lemma NothingSet(rs: seq<Region>, bitmap: seq<nat>, start: nat)
    requires bitmap != [] ==> start < WORD_BITS * |bitmap|
    requires NextSet(bitmap, start, 0) == WORD_BITS * |bitmap|
    ensures NoneSet(bitmap) && forall a: nat :: !FrameFree(rs, bitmap, a)
  {
    hide NextSet, TestBit, FrameToBit;
    forall b: nat ensures !IsSet(bitmap, b) {
      if b < WORD_BITS * |bitmap| {
        var i := AroundCovers(bitmap, start, b);
      }
    }
  }

  lemma WordsForBound(frames: nat)
    ensures frames <= WORD_BITS * WordsFor(frames) <= frames + 63
  {
  }

  /** Spending the bit `idx` hands out its frame, or, for a padding bit, nothing. */
  lemma TakeBit(rs: seq<Region>, bitmap: seq<nat>, idx: nat, r: Option<nat>)
    requires RegionsOk(rs) && idx / WORD_BITS < |bitmap| && IsSet(bitmap, idx) && r == BitToFrame(rs, idx)
    ensures !NoneSet(bitmap)
    ensures r.Some? ==> FrameFree(rs, bitmap, r.value)
    ensures forall a: nat :: FrameFree(rs, ClearAt(bitmap, idx), a) <==> Some(a) != r && FrameFree(rs, bitmap, a)
  {
    hide FrameToBit, BitToFrame, IsSet, ClearAt;
    BitRange(rs, idx);
    if r.Some? {
      BitFrameInRegion(rs, idx);
      BitFrameBit(rs, idx);
    }
    forall a: nat
      ensures FrameFree(rs, ClearAt(bitmap, idx), a) <==> Some(a) != r && FrameFree(rs, bitmap, a)
    {
      if a % PAGE_SIZE == 0 && FrameToBit(rs, a).Some? {
        FrameBitFrame(rs, a);
        WriteBitAt(bitmap, idx, FrameToBit(rs, a).value);
      }
    }
  }

  lemma TakeBitCount(rs: seq<Region>, bitmap: seq<nat>, idx: nat, r: Option<nat>)
    requires idx < WORD_BITS * |bitmap| && IsSet(bitmap, idx) && r == BitToFrame(rs, idx)
    ensures CountSet(ClearAt(bitmap, idx), TotalFrames(rs), WORD_BITS * |bitmap|) ==
            CountSet(bitmap, TotalFrames(rs), WORD_BITS * |bitmap|) - (if r.None? then 1 else 0)
  {
    hide BitToFrame, IsSet, ClearAt, CountSet;
    BitRange(rs, idx);
    CountAfterClear(bitmap, idx, TotalFrames(rs), WORD_BITS * |bitmap|);
  }

  lemma GiveBit(rs: seq<Region>, bitmap: seq<nat>, a: nat, idx: nat)
    requires RegionsOk(rs) && FrameToBit(rs, a) == Some(idx) && |bitmap| == WordsFor(TotalFrames(rs))
    ensures idx / WORD_BITS < |bitmap|
    ensures CountSet(SetAt(bitmap, idx), TotalFrames(rs), WORD_BITS * |bitmap|) ==
            CountSet(bitmap, TotalFrames(rs), WORD_BITS * |bitmap|)
    ensures forall b: nat :: FrameFree(rs, SetAt(bitmap, idx), b) <==> b == a - a % PAGE_SIZE || FrameFree(rs, bitmap, b)
  {
    hide FrameToBit, IsSet, SetAt, CountSet, WordsFor;
    WordsForBound(TotalFrames(rs));
    FrameBitFrame(rs, a);
    BitFrameBit(rs, idx);
    BitFrameInRegion(rs, idx);
    CountAfterSet(bitmap, idx, TotalFrames(rs), WORD_BITS * |bitmap|);
    forall b: nat
      ensures FrameFree(rs, SetAt(bitmap, idx), b) <==> b == a - a % PAGE_SIZE || FrameFree(rs, bitmap, b)
    {
      if b % PAGE_SIZE == 0 && FrameToBit(rs, b).Some? {
        FrameBitFrame(rs, b);
        WriteBitAt(bitmap, idx, FrameToBit(rs, b).value);
      }
    }
  }

  lemma InitialBitmap(rs: seq<Region>, bitmap: seq<nat>)
    requires RegionsOk(rs) && bitmap == seq(WordsFor(TotalFrames(rs)), _ => Pow2(WORD_BITS) - 1)
    ensures CountSet(bitmap, TotalFrames(rs), WORD_BITS * |bitmap|) <= 63
    ensures forall a: nat :: FrameFree(rs, bitmap, a) <==> a % PAGE_SIZE == 0 && FrameToBit(rs, a).Some?
    ensures forall i: nat :: IsSet(bitmap, i) <==> i < WORD_BITS * |bitmap|
  {
    hide FrameToBit, CountSet, Pow2, TestBit;
    WordsForBound(TotalFrames(rs));
    forall i: nat | i < WORD_BITS * |bitmap| ensures IsSet(bitmap, i) { AllOnes(WORD_BITS, i % WORD_BITS); }
    forall a: nat | FrameToBit(rs, a).Some?
      ensures IsSet(bitmap, FrameToBit(rs, a).value)
    {
      FrameBitFrame(rs, a);
      AllOnes(WORD_BITS, FrameToBit(rs, a).value % WORD_BITS);
    }
  }

  class BitmapFrameAllocator {
    const regions: seq<Region>
    var bitmap: seq<nat>
    var nextFree: nat

    /** Calls that returned no frame although one was free. */
    ghost var spurious: nat

    ghost predicate Valid()
      reads this
    {
      && RegionsOk(regions)
      && |bitmap| == WordsFor(TotalFrames(regions))
      && (bitmap != [] ==> nextFree < WORD_BITS * |bitmap|)
      && spurious + CountSet(bitmap, TotalFrames(regions), WORD_BITS * |bitmap|) <= 63
    }

    /** init: every bit set, the padding bits too. */
    constructor (rs: seq<Region>)
      requires RegionsOk(rs)
      ensures Valid() && regions == rs && spurious == 0 && nextFree == 0
      ensures forall a: nat :: FrameFree(rs, bitmap, a) <==> a % PAGE_SIZE == 0 && FrameToBit(rs, a).Some?
      ensures forall i: nat :: IsSet(bitmap, i) <==> i < WORD_BITS * |bitmap|
    {
      regions := rs;
      bitmap := seq(WordsFor(TotalFrames(rs)), _ => Pow2(WORD_BITS) - 1);
      nextFree := 0;
      spurious := 0;
      new;
      InitialBitmap(rs, bitmap);
    }

    /** allocate_frame: the next set bit going round from `nextFree`. If that is a padding bit
        the bit is spent and the call returns nothing. */
    method AllocateFrame() returns (r: Option<nat>)
      requires Valid()
      modifies this
      ensures Valid()
      ensures var next := NextBit(old(bitmap), old(nextFree));
        if next.None? then r == None && bitmap == old(bitmap) && nextFree == old(nextFree)
        else
          && next.value < WORD_BITS * |old(bitmap)| && r == BitToFrame(regions, next.value)
          && bitmap == ClearAt(old(bitmap), next.value) && nextFree == Around(old(bitmap), next.value, 1)
      ensures r.Some? ==> FrameFree(regions, old(bitmap), r.value)
      ensures forall a: nat :: FrameFree(regions, bitmap, a) <==> Some(a) != r && FrameFree(regions, old(bitmap), a)
      ensures spurious == old(spurious) + (if r.None? && exists a: nat :: FrameFree(regions, old(bitmap), a) then 1 else 0)
    {
      hide FrameToBit, BitToFrame, CountSet, IsSet, ClearAt, NextSet, FrameFree, Around, NoneSet;
      AroundOne(bitmap);
      var total := |bitmap| * WORD_BITS;
      var i := 0;
      while i < total
        invariant 0 <= i <= total == WORD_BITS * |bitmap| && Valid()
        invariant bitmap == old(bitmap) && nextFree == old(nextFree) && spurious == old(spurious)
        invariant NextSet(bitmap, nextFree, 0) == NextSet(bitmap, nextFree, i)
      {
        NextSetStep(bitmap, nextFree, i);
        var idx := (nextFree + i) % total;
        if TestBit(bitmap[idx / WORD_BITS], idx % WORD_BITS) {
          r := BitIndexToFrame(regions, idx);
          TakeBit(regions, bitmap, idx, r);
          TakeBitCount(regions, bitmap, idx, r);
          ghost var some := exists a: nat :: FrameFree(regions, bitmap, a);
          bitmap := ClearAt(bitmap, idx);
          nextFree := (idx + 1) % total;
          if r.None? && some { spurious := spurious + 1; }
          return;
        }
        i := i + 1;
      }
      NextSetEnd(bitmap, nextFree);
      NothingSet(regions, bitmap, nextFree);
      r := None;
    }

    /** deallocate_frame: set the bit of a frame that lies in a region. Padding bits stay as they are. */
    method DeallocateFrame(a: nat)
      requires Valid()
      modifies this
      ensures Valid() && spurious == old(spurious) && nextFree == old(nextFree)
      ensures FrameToBit(regions, a).None? ==> bitmap == old(bitmap)
      ensures forall b: nat :: FrameFree(regions, bitmap, b) <==> Returns(regions, Give(a), b) || FrameFree(regions, old(bitmap), b)
    {
      hide FrameToBit, CountSet, IsSet, SetAt, FrameFree;
      var idx := FrameToBitIndex(regions, a);
      if idx.Some? {
        WordsForBound(TotalFrames(regions));
        GiveBit(regions, bitmap, a, idx.value);
        bitmap := SetAt(bitmap, idx.value);
      }
    }

    /** Any run of allocations and frees from the start. The results tell exactly which frames are
        free at any point, every frame handed out was free, and at most 63 calls came back
        empty-handed while a frame was free. */
    method Life(ops: seq<FrameOp>) returns (rs: seq<Option<nat>>)
      requires Valid() && spurious == 0
      modifies this
      ensures Valid() && |rs| == |ops|
      ensures FramesAt(regions, old(bitmap), bitmap, ops, rs, |ops|)
      ensures forall k :: 0 <= k < |ops| && ops[k].Take? && rs[k].Some? ==> FreeAt(regions, old(bitmap), ops, rs, k, rs[k].value)
      ensures EmptyHanded(regions, old(bitmap), ops, rs, |ops|) <= 63
    {
      hide FrameFree, CountSet, FreeAt, FramesAt, EmptyHanded, NextBit, FrameToBit;
      rs := [];
      var k := 0;
      ghost var b0 := bitmap;
      FramesStart(regions, bitmap, ops);
      while k < |ops|
        invariant 0 <= k <= |ops| && |rs| == k && Valid() && FramesAt(regions, b0, bitmap, ops, rs, k)
        invariant spurious == EmptyHanded(regions, b0, ops, rs, k)
        invariant forall j :: 0 <= j < k && ops[j].Take? && rs[j].Some? ==> FreeAt(regions, b0, ops, rs, j, rs[j].value)
      {
        ghost var b1 := bitmap;
        var r := None;
        if ops[k].Take? {
          r := AllocateFrame();
        } else {
          DeallocateFrame(ops[k].frame);
        }
        FramesStep(regions, b0, b1, bitmap, ops, rs, r, k);
        EmptyStep(regions, b0, b1, ops, rs, r, k);
        TakenWasFree(regions, b0, b1, ops, rs, r, k);
        rs := rs + [r];
        k := k + 1;
      }
    }
  }

  // ---------------------------------------------------------------- whole runs

  /** A new allocator hands out its frames in order; after the last, and after the padding bits, nothing. */
  method InOrder(rs: seq<Region>, n: nat) returns (fs: seq<Option<nat>>)
    requires RegionsOk(rs)
    ensures |fs| == n && forall k :: 0 <= k < n ==> fs[k] == BitToFrame(rs, k)
  {
    hide FrameFree, IsSet, ClearAt, NextSet, BitToFrame, FrameToBit, CountSet, Around;
    var a := new BitmapFrameAllocator(rs);
    ghost var total := WORD_BITS * |a.bitmap|;
    WordsForBound(TotalFrames(rs));
    fs := [];
    while |fs| < n
      invariant |fs| <= n && fresh(a) && a.Valid() && a.regions == rs && WORD_BITS * |a.bitmap| == total
      invariant a.nextFree == if |fs| < total then |fs| else 0
      invariant forall i: nat :: IsSet(a.bitmap, i) <==> |fs| <= i < total
      invariant forall k :: 0 <= k < |fs| ==> fs[k] == BitToFrame(rs, k)
    {
      NextInOrder(a.bitmap, a.nextFree, |fs|);
      BitRange(rs, |fs|);
      ghost var bitmap := a.bitmap;
      var f := a.AllocateFrame();
      if |fs| < total { forall i: nat ensures IsSet(a.bitmap, i) <==> |fs| < i < total { WriteBitAt(bitmap, |fs|, i); } }
      fs := fs + [f];
    }
  }

  lemma NextInOrder(bitmap: seq<nat>, start: nat, k: nat)
    requires start == (if k < WORD_BITS * |bitmap| then k else 0)
    requires forall i: nat :: IsSet(bitmap, i) <==> k <= i < WORD_BITS * |bitmap|
    ensures NextBit(bitmap, start) == if k < WORD_BITS * |bitmap| then Some(k) else None
    ensures k < WORD_BITS * |bitmap| ==> Around(bitmap, k, 1) == if k + 1 < WORD_BITS * |bitmap| then k + 1 else 0
  {
    hide IsSet, NextSet, Around;
    if k < WORD_BITS * |bitmap| { AroundFrom(bitmap, k); }
  }

  lemma AroundFrom(bitmap: seq<nat>, k: nat)
    requires k < WORD_BITS * |bitmap|
    ensures Around(bitmap, k, 0) == k && Around(bitmap, k, 1) == if k + 1 < WORD_BITS * |bitmap| then k + 1 else 0
  {
    var total := WORD_BITS * |bitmap|;
    DivModUnique(0, k, total);
    if k + 1 < total { DivModUnique(0, k + 1, total); } else { DivModUnique(1, 0, total); }
  }

  datatype FrameOp = Take | Give(frame: nat)

  /** Call `k` frees frame `f`. */
  predicate Returns(regions: seq<Region>, op: FrameOp, f: nat) {
    op.Give? && FrameToBit(regions, op.frame).Some? && f == op.frame - op.frame % PAGE_SIZE
  }

  /** Whether frame `f` is free just before call `k`, told from the initial bitmap and the results. */
  ghost predicate FreeAt(regions: seq<Region>, bitmap: seq<nat>, ops: seq<FrameOp>, rs: seq<Option<nat>>, k: nat, f: nat)
    requires k <= |ops| && k <= |rs|
  {
    if k == 0 then FrameFree(regions, bitmap, f)
    else if ops[k - 1].Take? then rs[k - 1] != Some(f) && FreeAt(regions, bitmap, ops, rs, k - 1, f)
    else Returns(regions, ops[k - 1], f) || FreeAt(regions, bitmap, ops, rs, k - 1, f)
  }

  /** The bitmap is where the first `k` results leave it. */
  ghost predicate FramesAt(regions: seq<Region>, b0: seq<nat>, bitmap: seq<nat>, ops: seq<FrameOp>, rs: seq<Option<nat>>, k: nat) {
    k <= |ops| && k <= |rs| && forall f: nat :: FrameFree(regions, bitmap, f) <==> FreeAt(regions, b0, ops, rs, k, f)
  }

  /** Call `k` returned nothing although a frame was free. */
  ghost predicate CameEmpty(regions: seq<Region>, b0: seq<nat>, ops: seq<FrameOp>, rs: seq<Option<nat>>, k: nat)
    requires k < |ops| && k < |rs|
  {
    ops[k].Take? && rs[k].None? && exists f: nat :: FreeAt(regions, b0, ops, rs, k, f)
  }

  /** How many of the first `k` calls did. */
  ghost function EmptyHanded(regions: seq<Region>, b0: seq<nat>, ops: seq<FrameOp>, rs: seq<Option<nat>>, k: nat): nat
    requires k <= |ops| && k <= |rs|
  {
    if k == 0 then 0
    else EmptyHanded(regions, b0, ops, rs, k - 1) + if CameEmpty(regions, b0, ops, rs, k - 1) then 1 else 0
  }

  lemma {:induction false} FreeAtPrefix(regions: seq<Region>, b0: seq<nat>, ops: seq<FrameOp>, rs: seq<Option<nat>>, r: Option<nat>,
                                        k: nat, f: nat)
    requires k <= |rs| <= |ops|
    ensures FreeAt(regions, b0, ops, rs + [r], k, f) <==> FreeAt(regions, b0, ops, rs, k, f)
  {
    hide FrameFree, Returns;
    if k > 0 {
      FreeAtPrefix(regions, b0, ops, rs, r, k - 1, f);
      assert (rs + [r])[k - 1] == rs[k - 1];
    }
  }

  lemma CameEmptyPrefix(regions: seq<Region>, b0: seq<nat>, ops: seq<FrameOp>, rs: seq<Option<nat>>, r: Option<nat>, k: nat)
    requires k < |rs| <= |ops|
    ensures CameEmpty(regions, b0, ops, rs + [r], k) <==> CameEmpty(regions, b0, ops, rs, k)
  {
    hide FreeAt;
    assert (rs + [r])[k] == rs[k];
    forall f: nat ensures FreeAt(regions, b0, ops, rs + [r], k, f) <==> FreeAt(regions, b0, ops, rs, k, f) {
      FreeAtPrefix(regions, b0, ops, rs, r, k, f);
    }
  }

  lemma {:induction false} EmptyPrefix(regions: seq<Region>, b0: seq<nat>, ops: seq<FrameOp>, rs: seq<Option<nat>>, r: Option<nat>, k: nat)
    requires k <= |rs| <= |ops|
    ensures EmptyHanded(regions, b0, ops, rs + [r], k) == EmptyHanded(regions, b0, ops, rs, k)
  {
    hide CameEmpty;
    if k > 0 {
      EmptyPrefix(regions, b0, ops, rs, r, k - 1);
      CameEmptyPrefix(regions, b0, ops, rs, r, k - 1);
    }
  }

  lemma FramesStart(regions: seq<Region>, b0: seq<nat>, ops: seq<FrameOp>)
    ensures FramesAt(regions, b0, b0, ops, [], 0) && EmptyHanded(regions, b0, ops, [], 0) == 0
  {
    hide FrameFree;
  }

  /** One call, seen from the set of free frames. */
  ghost predicate FrameStep(regions: seq<Region>, bitmap: seq<nat>, bitmap': seq<nat>, op: FrameOp, r: Option<nat>) {
    match op
    case Take => forall a: nat :: FrameFree(regions, bitmap', a) <==> Some(a) != r && FrameFree(regions, bitmap, a)
    case Give(f) => forall a: nat :: FrameFree(regions, bitmap', a) <==> Returns(regions, op, a) || FrameFree(regions, bitmap, a)
  }

  lemma FramesStep(regions: seq<Region>, b0: seq<nat>, bitmap: seq<nat>, bitmap': seq<nat>, ops: seq<FrameOp>, rs: seq<Option<nat>>,
                   r: Option<nat>, k: nat)
    requires k < |ops| && |rs| == k && FramesAt(regions, b0, bitmap, ops, rs, k) && FrameStep(regions, bitmap, bitmap', ops[k], r)
    ensures FramesAt(regions, b0, bitmap', ops, rs + [r], k + 1)
  {
    hide FrameFree, Returns;
    var rs' := rs + [r];
    assert rs'[k] == r;
    forall f: nat ensures FrameFree(regions, bitmap', f) <==> FreeAt(regions, b0, ops, rs', k + 1, f) {
      FreeAtPrefix(regions, b0, ops, rs, r, k, f);
    }
  }

  lemma EmptyStep(regions: seq<Region>, b0: seq<nat>, bitmap: seq<nat>, ops: seq<FrameOp>, rs: seq<Option<nat>>, r: Option<nat>, k: nat)
    requires k < |ops| && |rs| == k && FramesAt(regions, b0, bitmap, ops, rs, k)
    ensures EmptyHanded(regions, b0, ops, rs + [r], k + 1) == EmptyHanded(regions, b0, ops, rs, k) +
      if ops[k].Take? && r.None? && exists a: nat :: FrameFree(regions, bitmap, a) then 1 else 0
  {
    hide FrameFree, FreeAt;
    assert (rs + [r])[k] == r;
    EmptyPrefix(regions, b0, ops, rs, r, k);
    forall f: nat ensures FreeAt(regions, b0, ops, rs + [r], k, f) <==> FrameFree(regions, bitmap, f) {
      FreeAtPrefix(regions, b0, ops, rs, r, k, f);
    }
  }

  lemma TakenWasFree(regions: seq<Region>, b0: seq<nat>, bitmap: seq<nat>, ops: seq<FrameOp>, rs: seq<Option<nat>>, r: Option<nat>, k: nat)
    requires k < |ops| && |rs| == k && FramesAt(regions, b0, bitmap, ops, rs, k)
    requires r.Some? ==> FrameFree(regions, bitmap, r.value)
    requires forall j :: 0 <= j < k && ops[j].Take? && rs[j].Some? ==> FreeAt(regions, b0, ops, rs, j, rs[j].value)
    ensures forall j :: 0 <= j <= k && ops[j].Take? && (rs + [r])[j].Some? ==> FreeAt(regions, b0, ops, rs + [r], j, (rs + [r])[j].value)
  {
    hide FrameFree, FreeAt;
    var rs' := rs + [r];
    forall j | 0 <= j <= k && ops[j].Take? && rs'[j].Some? ensures FreeAt(regions, b0, ops, rs', j, rs'[j].value) {
      FreeAtPrefix(regions, b0, ops, rs, r, j, rs'[j].value);
    }
  }

  /** A frame handed out twice was freed in between. */
  lemma {:induction false} GivenBetween(regions: seq<Region>, b0: seq<nat>, ops: seq<FrameOp>, rs: seq<Option<nat>>, i: nat, j: nat, f: nat)
    requires i < j <= |rs| <= |ops| && ops[i].Take? && rs[i] == Some(f) && FreeAt(regions, b0, ops, rs, j, f)
    ensures exists k :: i < k < j && Returns(regions, ops[k], f)
    decreases j
  {
    hide FrameFree, Returns;
    if !(i < j - 1 && Returns(regions, ops[j - 1], f)) {
      GivenBetween(regions, b0, ops, rs, i, j - 1, f);
    }
  }
}
