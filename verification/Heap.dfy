/**
 The kernel heap of src/memory/heap.rs: a first-fit allocator whose free list is kept
 in address order and coalesced on every free. The list headers live in the heap itself.
 */
module HeapSpec {
  import opened Arith

  datatype Blk = Blk(addr: nat, size: nat) {
    function End(): nat { addr + size }
  }

  /** size_of::<FreeBlock>() */
  const HEADER_BYTES: nat := 16

  /** (a + align - 1) & !(align - 1), for a power of two */
  function AlignUp(a: nat, align: nat): (r: nat)
    requires align > 0
    ensures a <= r < a + align && r % align == 0
  {
    var x := a + align - 1;
    AlignFacts(x, align);
    x / align * align
  }

  lemma AlignFacts(x: nat, align: nat)
    requires align > 0
    ensures x / align * align == x - x % align && x / align * align % align == 0 && x / align * align >= 0
  {
    var q := x / align;
    assert q * align == x - x % align;
    MultipleMod(q, align);
  }

  // ---------------------------------------------------------------- first fit

  function Padding(b: Blk, align: nat): nat
    requires align > 0
  {
    AlignUp(b.addr, align) - b.addr
  }

  predicate FitsIn(b: Blk, size: nat, align: nat)
    requires align > 0
  {
    b.size >= size + Padding(b, align)
  }

  /** Index of the first block the request fits in, or |free|. */
  function FirstFit(free: seq<Blk>, size: nat, align: nat, from: nat): (i: nat)
    requires align > 0 && from <= |free|
    ensures from <= i <= |free|
    ensures i < |free| ==> FitsIn(free[i], size, align)
    ensures forall j :: from <= j < i ==> !FitsIn(free[j], size, align)
    decreases |free| - from
  {
    if from == |free| || FitsIn(free[from], size, align) then from else FirstFit(free, size, align, from + 1)
  }

  /** What is left of the block behind the allocation. */
  function Rest(b: Blk, size: nat, align: nat): nat
    requires align > 0 && FitsIn(b, size, align)
  {
    b.size - size - Padding(b, align)
  }

  /** The free list after carving the request out of block `i`: the remainder stays only if it
      can hold more than a header. */
  function Carve(free: seq<Blk>, i: nat, size: nat, align: nat): seq<Blk>
    requires i < |free| && align > 0 && FitsIn(free[i], size, align)
  {
    if Rest(free[i], size, align) > HEADER_BYTES
    then free[i := Blk(AlignUp(free[i].addr, align) + size, Rest(free[i], size, align))]
    else free[..i] + free[i + 1..]
  }

  /** Bytes no list will ever see again: the padding, and a remainder too small to keep. */
  function Leak(b: Blk, size: nat, align: nat): nat
    requires align > 0 && FitsIn(b, size, align)
  {
    Padding(b, align) + if Rest(b, size, align) > HEADER_BYTES then 0 else Rest(b, size, align)
  }

  // ---------------------------------------------------------------- free and coalesce

  /** Position of a block at `addr` in the address-ordered list. */
  function Slot(free: seq<Blk>, addr: nat, from: nat): (i: nat)
    requires from <= |free|
    ensures from <= i <= |free|
    ensures forall j :: from <= j < i ==> free[j].addr <= addr
    ensures i < |free| ==> addr < free[i].addr
    decreases |free| - from
  {
    if from == |free| || addr < free[from].addr then from else Slot(free, addr, from + 1)
  }

  function Insert(free: seq<Blk>, b: Blk): seq<Blk> {
    var i := Slot(free, b.addr, 0);
    free[..i] + [b] + free[i..]
  }

  /** One pass that joins touching neighbours. */
  function Merge(free: seq<Blk>): (r: seq<Blk>)
    ensures |r| <= |free|
    ensures |free| > 0 ==> |r| > 0 && r[0].addr == free[0].addr
    decreases |free|
  {
    if |free| < 2 then free
    else if free[0].End() == free[1].addr then Merge([Blk(free[0].addr, free[0].size + free[1].size)] + free[2..])
    else [free[0]] + Merge(free[1..])
  }

  // ---------------------------------------------------------------- invariants

  /** Address order without overlap. */
  ghost predicate Packed(free: seq<Blk>) {
    forall i, j :: 0 <= i < j < |free| ==> free[i].End() <= free[j].addr
  }

  /** Address order with a gap between any two blocks: nothing left to coalesce. */
  ghost predicate Coalesced(free: seq<Blk>) {
    forall i, j :: 0 <= i < j < |free| ==> free[i].End() < free[j].addr
  }

  ghost predicate Within(s: seq<Blk>, lo: nat, hi: nat) {
    forall i :: 0 <= i < |s| ==> lo <= s[i].addr && s[i].End() <= hi && s[i].size >= HEADER_BYTES
  }

  predicate Apart(a: Blk, b: Blk) { a.End() <= b.addr || b.End() <= a.addr }

  ghost predicate ApartFromAll(b: Blk, s: seq<Blk>) {
    forall i :: 0 <= i < |s| ==> Apart(b, s[i])
  }

  function Total(s: seq<Blk>): nat {
    if s == [] then 0 else s[0].size + Total(s[1..])
  }

  lemma {:induction false} TotalConcat(a: seq<Blk>, b: seq<Blk>)
    ensures Total(a + b) == Total(a) + Total(b)
  {
    if a == [] {
      assert a + b == b;
    } else {
      assert (a + b)[1..] == a[1..] + b;
      TotalConcat(a[1..], b);
    }
  }

  lemma TotalSplit(s: seq<Blk>, i: nat)
    requires i < |s|
    ensures Total(s) == Total(s[..i]) + s[i].size + Total(s[i + 1..])
  {
    assert s == s[..i] + s[i..];
    TotalConcat(s[..i], s[i..]);
  }

  /** Coalescing an ordered list leaves no two blocks touching. */
  lemma {:induction false} MergeCoalesces(free: seq<Blk>)
    requires Packed(free)
    ensures Coalesced(Merge(free))
    decreases |free|
  {
    if |free| >= 2 {
      if free[0].End() == free[1].addr {
        MergeCoalesces([Blk(free[0].addr, free[0].size + free[1].size)] + free[2..]);
      } else {
        MergeCoalesces(free[1..]);
        MergeStarts(free[1..]);
      }
    }
  }

  /** Every merged block starts at or after the first. */
  lemma {:induction false} MergeStarts(free: seq<Blk>)
    requires Packed(free)
    ensures forall i :: 0 <= i < |Merge(free)| ==> Merge(free)[i].addr >= free[0].addr
    decreases |free|
  {
    if |free| >= 2 {
      if free[0].End() == free[1].addr {
        MergeStarts([Blk(free[0].addr, free[0].size + free[1].size)] + free[2..]);
      } else {
        MergeStarts(free[1..]);
        assert free[0].addr <= free[0].End() <= free[1].addr;
      }
    }
  }

  lemma {:induction false} MergeTotal(free: seq<Blk>)
    ensures Total(Merge(free)) == Total(free)
    decreases |free|
  {
    if |free| >= 2 {
      if free[0].End() == free[1].addr {
        var joined := [Blk(free[0].addr, free[0].size + free[1].size)] + free[2..];
        MergeTotal(joined);
        assert joined[1..] == free[2..];
        assert free[1..][1..] == free[2..];
      } else {
        MergeTotal(free[1..]);
        assert Merge(free)[1..] == Merge(free[1..]);
      }
    }
  }

  lemma {:induction false} MergeWithin(free: seq<Blk>, lo: nat, hi: nat)
    requires Within(free, lo, hi)
    ensures Within(Merge(free), lo, hi)
    decreases |free|
  {
    if |free| >= 2 {
      if free[0].End() == free[1].addr {
        MergeWithin([Blk(free[0].addr, free[0].size + free[1].size)] + free[2..], lo, hi);
      } else {
        MergeWithin(free[1..], lo, hi);
      }
    }
  }

  /** Joining touching blocks meets no block that was apart from all of them. */
  lemma {:induction false} MergeApart(free: seq<Blk>, b: Blk)
    requires ApartFromAll(b, free) && b.size > 0
    ensures ApartFromAll(b, Merge(free))
    decreases |free|
  {
    if |free| >= 2 {
      if free[0].End() == free[1].addr {
        var joined := [Blk(free[0].addr, free[0].size + free[1].size)] + free[2..];
        assert ApartFromAll(b, joined) by { assert Apart(b, free[0]) && Apart(b, free[1]); }
        MergeApart(joined, b);
      } else {
        MergeApart(free[1..], b);
      }
    }
  }

  // ---------------------------------------------------------------- whole runs

  /** Everything there is to know about the heap: the free list, the blocks handed out, and the
      bytes lost for good. */
  datatype Heap = Heap(free: seq<Blk>, live: seq<Blk>, leaked: nat)

  datatype Request = Alloc(size: nat, align: nat) | Dealloc(k: nat)

  /** Requests as the callers make them: at least a header's worth of bytes, a positive
      alignment, and frees of blocks that are live. */
  predicate Allowed(h: Heap, q: Request) {
    match q
    case Alloc(size, align) => size >= HEADER_BYTES && align > 0
    case Dealloc(k) => k < |h.live|
  }

  function Step(h: Heap, q: Request): Heap
    requires Allowed(h, q)
  {
    match q
    case Alloc(size, align) =>
      var i := FirstFit(h.free, size, align, 0);
      if i == |h.free| then h
      else Heap(Carve(h.free, i, size, align), h.live + [Blk(AlignUp(h.free[i].addr, align), size)],
                h.leaked + Leak(h.free[i], size, align))
    case Dealloc(k) =>
      Heap(Merge(Insert(h.free, h.live[k])), h.live[..k] + h.live[k + 1..], h.leaked)
  }

  ghost predicate HeapOk(h: Heap, lo: nat, hi: nat) {
    && lo > 0
    && Within(h.free, lo, hi) && Within(h.live, lo, hi)
    && Coalesced(h.free)
    && (forall i, j :: 0 <= i < j < |h.live| ==> Apart(h.live[i], h.live[j]))
    && (forall k :: 0 <= k < |h.live| ==> ApartFromAll(h.live[k], h.free))
    && Total(h.free) + Total(h.live) + h.leaked == hi - lo
  }

  lemma CarveKeeps(free: seq<Blk>, i: nat, size: nat, align: nat, lo: nat, hi: nat)
    requires Within(free, lo, hi) && Coalesced(free) && size >= HEADER_BYTES
    requires i < |free| && align > 0 && FitsIn(free[i], size, align)
    ensures Within(Carve(free, i, size, align), lo, hi) && Coalesced(Carve(free, i, size, align))
    ensures ApartFromAll(Blk(AlignUp(free[i].addr, align), size), Carve(free, i, size, align))
  {
    hide AlignUp;
    var c := Carve(free, i, size, align);
    if Rest(free[i], size, align) > HEADER_BYTES {
      assert c[i].End() == free[i].End() && c[i].addr >= free[i].addr;
    } else {
      assert forall j :: 0 <= j < |c| ==> c[j] == free[if j < i then j else j + 1];
    }
  }

  lemma CarveApart(free: seq<Blk>, i: nat, size: nat, align: nat, b: Blk)
    requires i < |free| && align > 0 && FitsIn(free[i], size, align) && ApartFromAll(b, free) && b.size > 0
    ensures ApartFromAll(b, Carve(free, i, size, align)) && Apart(b, Blk(AlignUp(free[i].addr, align), size))
  {
    hide AlignUp;
    assert Apart(b, free[i]);
  }

  lemma CarveTotal(free: seq<Blk>, i: nat, size: nat, align: nat)
    requires i < |free| && align > 0 && FitsIn(free[i], size, align)
    ensures Total(Carve(free, i, size, align)) + size + Leak(free[i], size, align) == Total(free)
  {
    hide AlignUp, Total;
    var c := Carve(free, i, size, align);
    TotalSplit(free, i);
    if Rest(free[i], size, align) > HEADER_BYTES {
      TotalSplit(c, i);
      assert c[..i] == free[..i] && c[i + 1..] == free[i + 1..];
    } else {
      TotalConcat(free[..i], free[i + 1..]);
    }
  }

  lemma {:induction false} TotalAppend(s: seq<Blk>, b: Blk)
    ensures Total(s + [b]) == Total(s) + b.size
  {
    TotalConcat(s, [b]);
    assert [b][1..] == [];
  }

  lemma AllocStepOk(h: Heap, size: nat, align: nat, lo: nat, hi: nat)
    requires HeapOk(h, lo, hi) && Allowed(h, Alloc(size, align))
    ensures HeapOk(Step(h, Alloc(size, align)), lo, hi)
  {
    hide Carve, Leak, AlignUp, Total, FirstFit;
    var i := FirstFit(h.free, size, align, 0);
    if i < |h.free| {
      var b := Blk(AlignUp(h.free[i].addr, align), size);
      CarveKeeps(h.free, i, size, align, lo, hi);
      CarveTotal(h.free, i, size, align);
      TotalAppend(h.live, b);
      forall k | 0 <= k < |h.live|
        ensures ApartFromAll(h.live[k], Carve(h.free, i, size, align)) && Apart(h.live[k], b)
      {
        CarveApart(h.free, i, size, align, h.live[k]);
      }
    }
  }

  lemma InsertPacked(free: seq<Blk>, b: Blk)
    requires Packed(free) && ApartFromAll(b, free) && b.size > 0 && forall i :: 0 <= i < |free| ==> free[i].size > 0
    ensures Packed(Insert(free, b))
  {
    hide Insert, Slot;
    var i := Slot(free, b.addr, 0);
    var r := Insert(free, b);
    InsertAt(free, b, 0);
    forall j, k | 0 <= j < k < |r| ensures r[j].End() <= r[k].addr {
      InsertAt(free, b, j);
      InsertAt(free, b, k);
      if j == i { InsertSides(free, b, k - 1); }
      if k == i { InsertSides(free, b, j); }
    }
  }

  /** Blocks before the slot end before `b`, blocks from it on start after `b`. */
  lemma InsertSides(free: seq<Blk>, b: Blk, j: nat)
    requires Packed(free) && ApartFromAll(b, free) && b.size > 0 && j < |free| && forall i :: 0 <= i < |free| ==> free[i].size > 0
    ensures var i := Slot(free, b.addr, 0); if j < i then free[j].End() <= b.addr else b.End() <= free[j].addr
  {
    var i := Slot(free, b.addr, 0);
    assert Apart(b, free[j]);
    if j > i { assert Apart(b, free[i]) && free[i].End() <= free[j].addr; }
  }

  lemma InsertAt(free: seq<Blk>, b: Blk, j: nat)
    requires j <= |free|
    ensures var i, r := Slot(free, b.addr, 0), Insert(free, b);
            |r| == |free| + 1 && r[j] == if j < i then free[j] else if j == i then b else free[j - 1]
  {
  }

  lemma InsertTotal(free: seq<Blk>, b: Blk)
    ensures Total(Insert(free, b)) == Total(free) + b.size
  {
    hide Total, Slot;
    var i := Slot(free, b.addr, 0);
    var r := Insert(free, b);
    TotalSplit(r, i);
    assert r[..i] == free[..i] && r[i + 1..] == free[i..] && free == free[..i] + free[i..];
    TotalConcat(free[..i], free[i..]);
  }

  lemma InsertWithin(free: seq<Blk>, b: Blk, lo: nat, hi: nat)
    requires Within(free, lo, hi) && lo <= b.addr && b.End() <= hi && b.size >= HEADER_BYTES
    ensures Within(Insert(free, b), lo, hi)
  {
    hide Insert, Slot;
    forall j | 0 <= j < |Insert(free, b)|
      ensures lo <= Insert(free, b)[j].addr && Insert(free, b)[j].End() <= hi && Insert(free, b)[j].size >= HEADER_BYTES
    {
      InsertAt(free, b, 0);
      InsertAt(free, b, j);
    }
    InsertAt(free, b, 0);
  }

  lemma InsertApart(free: seq<Blk>, b: Blk, c: Blk)
    requires ApartFromAll(c, free) && Apart(c, b)
    ensures ApartFromAll(c, Insert(free, b))
  {
    hide Insert, Slot, Apart;
    InsertAt(free, b, 0);
    forall j | 0 <= j < |Insert(free, b)| ensures Apart(c, Insert(free, b)[j]) { InsertAt(free, b, j); }
  }

  lemma DeallocStepOk(h: Heap, k: nat, lo: nat, hi: nat)
    requires HeapOk(h, lo, hi) && k < |h.live|
    ensures HeapOk(Step(h, Dealloc(k)), lo, hi)
  {
    hide Insert, Merge, Total;
    var b, rest := h.live[k], h.live[..k] + h.live[k + 1..];
    var ins := Insert(h.free, b);
    InsertPacked(h.free, b);
    MergeCoalesces(ins);
    MergeTotal(ins);
    InsertTotal(h.free, b);
    InsertWithin(h.free, b, lo, hi);
    MergeWithin(ins, lo, hi);
    TotalSplit(h.live, k);
    TotalConcat(h.live[..k], h.live[k + 1..]);
    assert forall j :: 0 <= j < |rest| ==> rest[j] == h.live[if j < k then j else j + 1];
    forall j | 0 <= j < |rest|
      ensures ApartFromAll(rest[j], Merge(ins))
    {
      var m := if j < k then j else j + 1;
      assert if m < k then Apart(h.live[m], h.live[k]) else Apart(h.live[k], h.live[m]);
      InsertApart(h.free, b, rest[j]);
      MergeApart(ins, rest[j]);
    }
  }

  /** A run of requests from `h`. */
  ghost predicate Run(hs: seq<Heap>, qs: seq<Request>) {
    && |hs| == |qs| + 1
    && forall i :: 0 <= i < |qs| ==> Allowed(hs[i], qs[i]) && hs[i + 1] == Step(hs[i], qs[i])
  }

  /** In every state of every run from a fresh heap the free list is ordered, coalesced and apart
      from every live block, and no byte is lost but by the stated leak. */
  lemma {:induction false} EveryRunOk(hs: seq<Heap>, qs: seq<Request>, lo: nat, hi: nat, i: nat)
    requires Run(hs, qs) && lo > 0 && lo + HEADER_BYTES <= hi && hs[0] == Heap([Blk(lo, hi - lo)], [], 0)
    requires i < |hs|
    ensures HeapOk(hs[i], lo, hi)
  {
    if i == 0 {
      assert [Blk(lo, hi - lo)][1..] == [];
    } else {
      EveryRunOk(hs, qs, lo, hi, i - 1);
      match qs[i - 1]
      case Alloc(size, align) => AllocStepOk(hs[i - 1], size, align, lo, hi);
      case Dealloc(k) => DeallocStepOk(hs[i - 1], k, lo, hi);
    }
  }

  /** Some aligned address of block `b` has `size` bytes of it behind it. */
  ghost predicate Room(b: Blk, size: nat, align: nat)
    requires align > 0
  {
    exists a: nat :: AlignedIn(b, a, size, align)
  }

  predicate AlignedIn(b: Blk, a: nat, size: nat, align: nat)
    requires align > 0
  {
    a % align == 0 && b.addr <= a && a + size <= b.End()
  }

  /** No multiple of `align` lies between `x` and the address it is rounded up to. */
  lemma AlignUpLeast(x: nat, align: nat, a: nat)
    requires align > 0 && a % align == 0 && x <= a
    ensures AlignUp(x, align) <= a
  {
    hide AlignUp;
    var r := AlignUp(x, align);
    var p, q := r / align, a / align;
    assert r == p * align && a == q * align;
    if a < r {
      assert (p - q) * align == p * align - q * align;
      MulAtLeast(p - q, align);
    }
  }

  lemma FitsIsRoom(b: Blk, size: nat, align: nat)
    requires align > 0
    ensures FitsIn(b, size, align) <==> Room(b, size, align)
  {
    hide AlignUp;
    if FitsIn(b, size, align) { assert AlignedIn(b, AlignUp(b.addr, align), size, align); }
    if Room(b, size, align) {
      var a: nat :| AlignedIn(b, a, size, align);
      AlignUpLeast(b.addr, align, a);
    }
  }

  /** `b` is cut out of `f` at the lowest aligned address. */
  ghost predicate CutFrom(f: Blk, b: Blk, size: nat, align: nat)
    requires align > 0
  {
    b.size == size && AlignedIn(f, b.addr, size, align) && forall a: nat :: AlignedIn(f, a, size, align) ==> b.addr <= a
  }

  /** The free list without block `i`, or with what is left of it behind `b` if that is more than 16 bytes. */
  function CutList(free: seq<Blk>, i: nat, b: Blk): seq<Blk>
    requires i < |free| && b.End() <= free[i].End()
  {
    var rest := free[i].End() - b.End();
    if rest > 16 then free[..i] + [Blk(b.End(), rest)] + free[i + 1..] else free[..i] + free[i + 1..]
  }

  /** `b` is cut out of block `i`, the first with room, and handed out. */
  ghost predicate TakenFrom(h: Heap, h': Heap, i: nat, b: Blk, size: nat, align: nat)
    requires align > 0
  {
    && i < |h.free| && CutFrom(h.free[i], b, size, align) && b.End() <= h.free[i].End() && h.free[i].addr <= b.addr
    && (forall j :: 0 <= j < i ==> !Room(h.free[j], size, align))
    && h'.live == h.live + [b] && h'.free == CutList(h.free, i, b)
    && h'.leaked == h.leaked + (b.addr - h.free[i].addr) + if h.free[i].End() - b.End() > 16 then 0 else h.free[i].End() - b.End()
  }

  /** What one allocation promises: it is refused exactly if no block has room; otherwise the first
      block that has is cut at its lowest aligned address, what is left of it behind stays free if
      it is more than a header, and the rest of it is lost. */
  lemma AllocPromise(h: Heap, size: nat, align: nat)
    requires size >= 16 && align > 0
    ensures var h' := Step(h, Alloc(size, align));
      if forall i :: 0 <= i < |h.free| ==> !Room(h.free[i], size, align) then h' == h
      else exists i: nat, b: Blk :: TakenFrom(h, h', i, b, size, align)
  {
    hide AlignUp, Room, CutFrom;
    forall j | 0 <= j < |h.free| ensures FitsIn(h.free[j], size, align) <==> Room(h.free[j], size, align) { FitsIsRoom(h.free[j], size, align); }
    var i := FirstFit(h.free, size, align, 0);
    if i < |h.free| {
      var b := Blk(AlignUp(h.free[i].addr, align), size);
      CutLowest(h.free[i], size, align);
      assert Carve(h.free, i, size, align) == CutList(h.free, i, b);
      assert TakenFrom(h, Step(h, Alloc(size, align)), i, b, size, align);
    }
  }

  lemma CutLowest(f: Blk, size: nat, align: nat)
    requires align > 0 && FitsIn(f, size, align)
    ensures CutFrom(f, Blk(AlignUp(f.addr, align), size), size, align)
  {
    hide AlignUp;
    forall a: nat | AlignedIn(f, a, size, align) ensures AlignUp(f.addr, align) <= a { AlignUpLeast(f.addr, align, a); }
  }

  /** Address `x` lies in one of the blocks. */
  ghost predicate Covered(s: seq<Blk>, x: nat) { exists i :: 0 <= i < |s| && Inside(s[i], x) }

  predicate Inside(b: Blk, x: nat) { b.addr <= x < b.End() }

  lemma CoveredConcat(a: seq<Blk>, b: seq<Blk>, x: nat)
    ensures Covered(a + b, x) <==> Covered(a, x) || Covered(b, x)
  {
    hide Inside;
    if Covered(a, x) {
      var i :| 0 <= i < |a| && Inside(a[i], x);
      assert Inside((a + b)[i], x);
    }
    if Covered(b, x) {
      var i :| 0 <= i < |b| && Inside(b[i], x);
      assert Inside((a + b)[|a| + i], x);
    }
  }

  lemma CoveredOne(b: Blk, x: nat)
    ensures Covered([b], x) <==> Inside(b, x)
  {
    if Inside(b, x) { assert Inside([b][0], x); }
  }

  lemma {:induction false} MergeCovers(free: seq<Blk>, x: nat)
    ensures Covered(Merge(free), x) <==> Covered(free, x)
    decreases |free|
  {
    hide Covered;
    if |free| >= 2 {
      var a, b, rest := free[0], free[1], free[2..];
      assert free == [a] + free[1..] && free[1..] == [b] + rest;
      CoveredConcat([a], free[1..], x);
      CoveredConcat([b], rest, x);
      CoveredOne(a, x);
      CoveredOne(b, x);
      if a.End() == b.addr {
        var c := Blk(a.addr, a.size + b.size);
        MergeCovers([c] + rest, x);
        CoveredConcat([c], rest, x);
        CoveredOne(c, x);
      } else {
        MergeCovers(free[1..], x);
        CoveredConcat([a], Merge(free[1..]), x);
      }
    }
  }

  /** What one deallocation promises: the block is no longer live, every other live block stays, and
      the free bytes are those there were and those of the block. */
  lemma DeallocPromise(h: Heap, k: nat, x: nat)
    requires k < |h.live|
    ensures var h' := Step(h, Dealloc(k));
      && h'.live == h.live[..k] + h.live[k + 1..] && h'.leaked == h.leaked
      && (Covered(h'.free, x) <==> Covered(h.free, x) || Inside(h.live[k], x))
  {
    hide Covered, Slot, Merge;
    var b := h.live[k];
    var i := Slot(h.free, b.addr, 0);
    MergeCovers(Insert(h.free, b), x);
    assert h.free == h.free[..i] + h.free[i..];
    CoveredConcat(h.free[..i], h.free[i..], x);
    CoveredConcat(h.free[..i] + [b], h.free[i..], x);
    CoveredConcat(h.free[..i], [b], x);
    CoveredOne(b, x);
  }
}
