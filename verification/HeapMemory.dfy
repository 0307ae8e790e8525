/**
 The free list of src/memory/heap.rs as it lies in memory. Memory is a map from byte
 addresses to 8-byte words; a store destroys every word it overlaps, so a header that
 is written into the wrong place would be noticed.
 */
module HeapMemory {
  import opened HeapSpec

  type Memory = map<nat, nat>

  function Store(mem: Memory, a: nat, v: nat): (r: Memory)
    ensures a in r && r[a] == v
    ensures forall k :: k in mem && (k + 8 <= a || a + 8 <= k) ==> k in r && r[k] == mem[k]
  {
    (map k | k in mem && (k + 8 <= a || a + 8 <= k) :: mem[k])[a := v]
  }

  /** A free block's header: its size, then the address of the next block (0 for none). */
  predicate Node(mem: Memory, b: Blk, next: nat) {
    b.addr in mem && mem[b.addr] == b.size && b.addr + 8 in mem && mem[b.addr + 8] == next
  }

  function AddrAt(free: seq<Blk>, i: int): nat {
    if 0 <= i < |free| then free[i].addr else 0
  }

  predicate NodeAt(mem: Memory, free: seq<Blk>, i: int)
    requires 0 <= i < |free|
  {
    Node(mem, free[i], AddrAt(free, i + 1))
  }

  /** `free` is the list that starts at `head`. */
  ghost predicate ListOk(mem: Memory, head: nat, free: seq<Blk>) {
    head == AddrAt(free, 0) && forall i :: 0 <= i < |free| ==> NodeAt(mem, free, i)
  }

  /** Blocks are in address order, do not overlap and can hold a header. */
  ghost predicate Sound(free: seq<Blk>) {
    Packed(free) && forall i :: 0 <= i < |free| ==> free[i].addr > 0 && free[i].size >= HEADER_BYTES
  }

  /** A store outside a header leaves it alone. */
  lemma StoreOutside(mem: Memory, a: nat, v: nat, b: Blk, next: nat)
    requires Node(mem, b, next) && (a + 8 <= b.addr || b.addr + HEADER_BYTES <= a)
    ensures Node(Store(mem, a, v), b, next)
  {
  }

  lemma StoreNext(mem: Memory, b: Blk, next: nat, v: nat)
    requires Node(mem, b, next)
    ensures Node(Store(mem, b.addr + 8, v), b, v)
  {
  }

  lemma StoreHeader(mem: Memory, b: Blk, next: nat)
    ensures Node(Store(Store(mem, b.addr, b.size), b.addr + 8, next), b, next)
  {
  }

  // ---------------------------------------------------------------- relinking

  /** `head` and memory after making the predecessor of position `i` point to `v`. */
  function LinkMem(mem: Memory, free: seq<Blk>, i: nat, v: nat): Memory
    requires i <= |free|
  {
    if i == 0 then mem else Store(mem, free[i - 1].addr + 8, v)
  }

  function LinkHead(head: nat, i: nat, v: nat): nat { if i == 0 then v else head }

  /** Redirecting the predecessor of `i` changes its next field and no other header. */
  lemma LinkNode(mem: Memory, free: seq<Blk>, i: nat, v: nat, j: nat)
    requires Sound(free) && i <= |free| && j < |free| && NodeAt(mem, free, j)
    ensures Node(LinkMem(mem, free, i, v), free[j], if j + 1 == i then v else AddrAt(free, j + 1))
  {
    if i > 0 {
      if j == i - 1 {
        StoreNext(mem, free[j], AddrAt(free, j + 1), v);
      } else {
        assert if j < i - 1 then free[j].End() <= free[i - 1].addr else free[i - 1].End() <= free[j].addr;
        StoreOutside(mem, free[i - 1].addr + 8, v, free[j], AddrAt(free, j + 1));
      }
    }
  }

  function Removed(free: seq<Blk>, i: nat): seq<Blk>
    requires i < |free|
  {
    free[..i] + free[i + 1..]
  }

  lemma RemovedAt(free: seq<Blk>, i: nat, j: nat)
    requires i < |free| && j < |free| - 1
    ensures Removed(free, i)[j] == free[if j < i then j else j + 1]
    ensures AddrAt(Removed(free, i), j + 1) == AddrAt(free, if j + 1 < i then j + 1 else j + 2)
  {
  }

  lemma RemovedSound(free: seq<Blk>, i: nat)
    requires Sound(free) && i < |free|
    ensures Sound(Removed(free, i))
  {
    assert forall j :: 0 <= j < |free| - 1 ==> Removed(free, i)[j] == free[if j < i then j else j + 1];
  }

  /** Unlinking block `i`. */
  lemma RemoveOk(mem: Memory, head: nat, free: seq<Blk>, i: nat)
    requires ListOk(mem, head, free) && Sound(free) && i < |free|
    ensures var next := AddrAt(free, i + 1);
            ListOk(LinkMem(mem, free, i, next), LinkHead(head, i, next), Removed(free, i))
    ensures Sound(Removed(free, i))
  {
    hide Node, Store, LinkMem;
    var next, r := AddrAt(free, i + 1), Removed(free, i);
    RemovedSound(free, i);
    forall j | 0 <= j < |r|
      ensures NodeAt(LinkMem(mem, free, i, next), r, j)
    {
      RemovedAt(free, i, j);
      var k := if j < i then j else j + 1;
      assert NodeAt(mem, free, k);
      LinkNode(mem, free, i, next, k);
    }
  }

  /** Replacing block `i` by one inside it whose header has just been written. */
  lemma ReplaceOk(mem: Memory, head: nat, free: seq<Blk>, i: nat, b: Blk)
    requires ListOk(mem, head, free) && Sound(free) && i < |free|
    requires free[i].addr + HEADER_BYTES <= b.addr && b.End() == free[i].End() && b.size >= HEADER_BYTES
    ensures var next := AddrAt(free, i + 1);
            var mem1 := Store(Store(mem, b.addr, b.size), b.addr + 8, next);
            ListOk(LinkMem(mem1, free, i, b.addr), LinkHead(head, i, b.addr), free[i := b])
    ensures Sound(free[i := b])
  {
    hide Node, Store, LinkMem;
    var next := AddrAt(free, i + 1);
    var mem1 := Store(Store(mem, b.addr, b.size), b.addr + 8, next);
    var r := free[i := b];
    StoreHeader(mem, b, next);
    forall j | 0 <= j < |r|
      ensures NodeAt(LinkMem(mem1, free, i, b.addr), r, j)
    {
      if j == i {
        if i > 0 {
          assert free[i - 1].End() <= free[i].addr;
          LinkElsewhere(mem1, free, i, b.addr, b, next);
        } else {
          LinkNothing(mem1, free, b.addr);
        }
      } else {
        assert NodeAt(mem, free, j);
        assert if j < i then free[j].End() <= free[i].addr else free[i].End() <= free[j].addr;
        StoreOutside(mem, b.addr, b.size, free[j], AddrAt(free, j + 1));
        StoreOutside(Store(mem, b.addr, b.size), b.addr + 8, next, free[j], AddrAt(free, j + 1));
        LinkNode(mem1, free, i, b.addr, j);
      }
    }
  }

  lemma LinkElsewhere(mem: Memory, free: seq<Blk>, i: nat, v: nat, b: Blk, next: nat)
    requires Sound(free) && 0 < i <= |free| && Node(mem, b, next)
    requires b.End() <= free[i - 1].addr || free[i - 1].End() <= b.addr
    requires b.size >= HEADER_BYTES
    ensures Node(LinkMem(mem, free, i, v), b, next)
  {
    StoreOutside(mem, free[i - 1].addr + 8, v, b, next);
  }

  lemma LinkNothing(mem: Memory, free: seq<Blk>, v: nat)
    ensures LinkMem(mem, free, 0, v) == mem
  {
  }

  /** Linking a new block in at position `i`. */
  lemma InsertOk(mem: Memory, head: nat, free: seq<Blk>, i: nat, b: Blk)
    requires ListOk(mem, head, free) && Sound(free) && i == Slot(free, b.addr, 0)
    requires b.addr > 0 && b.size >= HEADER_BYTES && ApartFromAll(b, free)
    ensures var next := AddrAt(free, i);
            var mem1 := Store(Store(mem, b.addr, b.size), b.addr + 8, next);
            ListOk(LinkMem(mem1, free, i, b.addr), LinkHead(head, i, b.addr), Insert(free, b))
    ensures Sound(Insert(free, b))
  {
    hide Node, Store, LinkMem, Slot, Insert;
    var next := AddrAt(free, i);
    var mem1 := Store(Store(mem, b.addr, b.size), b.addr + 8, next);
    var mem2 := LinkMem(mem1, free, i, b.addr);
    var r := Insert(free, b);
    InsertAt(free, b, 0);
    forall j | 0 <= j < |r|
      ensures NodeAt(mem2, r, j) && r[j].addr > 0 && r[j].size >= HEADER_BYTES
    {
      InsertAt(free, b, j);
      if j < |free| { InsertAt(free, b, j + 1); }
      if j == i {
        StoreHeader(mem, b, next);
        if i > 0 { LinkElsewhere(mem1, free, i, b.addr, b, next); } else { LinkNothing(mem1, free, b.addr); }
      } else {
        OldNode(mem, free, i, b, if j < i then j else j - 1);
      }
    }
    InsertAt(free, b, i);
    InsertPackedSound(free, b);
  }

  lemma InsertPackedSound(free: seq<Blk>, b: Blk)
    requires Sound(free) && ApartFromAll(b, free) && b.size >= HEADER_BYTES
    ensures Packed(Insert(free, b))
  {
    InsertPacked(free, b);
  }

  lemma OldNode(mem: Memory, free: seq<Blk>, i: nat, b: Blk, k: nat)
    requires Sound(free) && i <= |free| && k < |free| && NodeAt(mem, free, k)
    requires b.size >= HEADER_BYTES && Apart(b, free[k])
    ensures var mem1 := Store(Store(mem, b.addr, b.size), b.addr + 8, AddrAt(free, i));
            Node(LinkMem(mem1, free, i, b.addr), free[k], if k + 1 == i then b.addr else AddrAt(free, k + 1))
  {
    hide Node, Store, LinkMem;
    StoreOutside(mem, b.addr, b.size, free[k], AddrAt(free, k + 1));
    StoreOutside(Store(mem, b.addr, b.size), b.addr + 8, AddrAt(free, i), free[k], AddrAt(free, k + 1));
    LinkNode(Store(Store(mem, b.addr, b.size), b.addr + 8, AddrAt(free, i)), free, i, b.addr, k);
  }

  /** Blocks `i` and `i + 1` as one. */
  function Joined(free: seq<Blk>, i: nat): seq<Blk>
    requires i + 1 < |free|
  {
    free[..i] + [Blk(free[i].addr, free[i].size + free[i + 1].size)] + free[i + 2..]
  }

  lemma JoinedAt(free: seq<Blk>, i: nat, j: nat)
    requires i + 1 < |free| && j < |free| - 1
    ensures |Joined(free, i)| == |free| - 1
    ensures Joined(free, i)[j] == if j == i then Blk(free[i].addr, free[i].size + free[i + 1].size)
                                  else free[if j < i then j else j + 1]
    ensures AddrAt(Joined(free, i), j + 1) == AddrAt(free, if j < i then j + 1 else j + 2)
  {
  }

  lemma JoinedNode(mem: Memory, free: seq<Blk>, i: nat, k: nat)
    requires Sound(free) && i + 1 < |free| && k < |free| && k != i && NodeAt(mem, free, k)
    ensures var b := Blk(free[i].addr, free[i].size + free[i + 1].size);
            Node(Store(Store(mem, b.addr, b.size), b.addr + 8, AddrAt(free, i + 2)), free[k], AddrAt(free, k + 1))
  {
    hide Node, Store;
    var b := Blk(free[i].addr, free[i].size + free[i + 1].size);
    assert if k < i then free[k].End() <= free[i].addr else free[i].End() <= free[k].addr;
    StoreOutside(mem, b.addr, b.size, free[k], AddrAt(free, k + 1));
    StoreOutside(Store(mem, b.addr, b.size), b.addr + 8, AddrAt(free, i + 2), free[k], AddrAt(free, k + 1));
  }

  lemma JoinOk(mem: Memory, head: nat, free: seq<Blk>, i: nat)
    requires ListOk(mem, head, free) && Sound(free) && i + 1 < |free| && free[i].End() == free[i + 1].addr
    ensures var b := Blk(free[i].addr, free[i].size + free[i + 1].size);
            ListOk(Store(Store(mem, b.addr, b.size), b.addr + 8, AddrAt(free, i + 2)), head, Joined(free, i))
    ensures Sound(Joined(free, i))
  {
    hide Node, Store, Joined;
    var b := Blk(free[i].addr, free[i].size + free[i + 1].size);
    var mem2, r := Store(Store(mem, b.addr, b.size), b.addr + 8, AddrAt(free, i + 2)), Joined(free, i);
    StoreHeader(mem, b, AddrAt(free, i + 2));
    JoinedAt(free, i, 0);
    forall j | 0 <= j < |r|
      ensures NodeAt(mem2, r, j)
    {
      JoinedAt(free, i, j);
      if j != i {
        var k := if j < i then j else j + 1;
        assert NodeAt(mem, free, k);
        JoinedNode(mem, free, i, k);
      }
    }
    JoinSound(free, i);
  }

  lemma JoinSound(free: seq<Blk>, i: nat)
    requires Sound(free) && i + 1 < |free| && free[i].End() == free[i + 1].addr
    ensures Sound(Joined(free, i))
  {
    var b, r := Blk(free[i].addr, free[i].size + free[i + 1].size), Joined(free, i);
    assert forall j :: 0 <= j < |r| ==> r[j] == if j == i then b else free[if j < i then j else j + 1];
  }

  // ---------------------------------------------------------------- what is not written

  /** The words inside `x` are as before. */
  ghost predicate Untouched(mem: Memory, mem': Memory, x: Blk) {
    forall k: nat :: k in mem && x.addr <= k && k + 8 <= x.End() ==> k in mem' && mem'[k] == mem[k]
  }

  /** Writes went only into the blocks `bs`. */
  ghost predicate OnlyIn(mem: Memory, mem': Memory, bs: seq<Blk>) {
    forall x: Blk :: x.size > 0 && ApartFromAll(x, bs) ==> Untouched(mem, mem', x)
  }

  /** What is apart from `bs` is apart from `free`. */
  ghost predicate Covers(bs: seq<Blk>, free: seq<Blk>) {
    forall x: Blk :: x.size > 0 && ApartFromAll(x, bs) ==> ApartFromAll(x, free)
  }

  lemma StoreOnlyIn(mem: Memory, a: nat, v: nat, bs: seq<Blk>, i: nat)
    requires i < |bs| && bs[i].addr <= a && a + 8 <= bs[i].End()
    ensures OnlyIn(mem, Store(mem, a, v), bs)
  {
    hide Store;
    forall x: Blk | x.size > 0 && ApartFromAll(x, bs) ensures Untouched(mem, Store(mem, a, v), x) {
      assert Apart(x, bs[i]);
    }
  }

  lemma OnlyInTrans(m0: Memory, m1: Memory, m2: Memory, bs: seq<Blk>)
    requires OnlyIn(m0, m1, bs) && OnlyIn(m1, m2, bs)
    ensures OnlyIn(m0, m2, bs)
  {
    hide ApartFromAll;
    forall x: Blk | x.size > 0 && ApartFromAll(x, bs) ensures Untouched(m0, m2, x) {
      assert Untouched(m0, m1, x) && Untouched(m1, m2, x);
    }
  }

  lemma OnlyInSelf(mem: Memory, bs: seq<Blk>)
    ensures OnlyIn(mem, mem, bs)
  {
  }

  lemma OnlyInCovered(mem: Memory, mem': Memory, bs: seq<Blk>, free: seq<Blk>)
    requires OnlyIn(mem, mem', free) && Covers(bs, free)
    ensures OnlyIn(mem, mem', bs)
  {
    hide ApartFromAll, Untouched;
  }

  /** A header written into block `i`. */
  lemma HeaderOnlyIn(mem: Memory, a: nat, v: nat, next: nat, bs: seq<Blk>, i: nat)
    requires i < |bs| && bs[i].addr <= a && a + HEADER_BYTES <= bs[i].End()
    ensures OnlyIn(mem, Store(Store(mem, a, v), a + 8, next), bs)
  {
    hide Store, OnlyIn;
    StoreOnlyIn(mem, a, v, bs, i);
    StoreOnlyIn(Store(mem, a, v), a + 8, next, bs, i);
    OnlyInTrans(mem, Store(mem, a, v), Store(Store(mem, a, v), a + 8, next), bs);
  }

  lemma LinkOnlyIn(mem: Memory, free: seq<Blk>, i: nat, v: nat)
    requires Sound(free) && i <= |free|
    ensures OnlyIn(mem, LinkMem(mem, free, i, v), free)
  {
    hide Store, OnlyIn;
    if i == 0 { OnlyInSelf(mem, free); } else { StoreOnlyIn(mem, free[i - 1].addr + 8, v, free, i - 1); }
  }

  lemma CarveOnlyIn(mem: Memory, free: seq<Blk>, i: nat, size: nat, align: nat)
    requires Sound(free) && i < |free| && align > 0 && FitsIn(free[i], size, align)
    ensures var nb, rest, next := AlignUp(free[i].addr, align) + size, Rest(free[i], size, align), AddrAt(free, i + 1);
            && (rest > HEADER_BYTES ==> OnlyIn(mem, LinkMem(Store(Store(mem, nb, rest), nb + 8, next), free, i, nb), free))
            && OnlyIn(mem, LinkMem(mem, free, i, next), free)
  {
    hide Sound, Store, OnlyIn, LinkMem, AlignUp;
    var nb, rest, next := AlignUp(free[i].addr, align) + size, Rest(free[i], size, align), AddrAt(free, i + 1);
    LinkOnlyIn(mem, free, i, next);
    if rest > HEADER_BYTES {
      var m := Store(Store(mem, nb, rest), nb + 8, next);
      HeaderOnlyIn(mem, nb, rest, next, free, i);
      LinkOnlyIn(m, free, i, nb);
      OnlyInTrans(mem, m, LinkMem(m, free, i, nb), free);
    }
  }

  lemma InsertOnlyIn(mem: Memory, free: seq<Blk>, i: nat, b: Blk, next: nat)
    requires Sound(free) && i <= |free| && b.size >= HEADER_BYTES
    ensures OnlyIn(mem, LinkMem(Store(Store(mem, b.addr, b.size), b.addr + 8, next), free, i, b.addr), free + [b])
  {
    hide Sound, Store, OnlyIn, LinkMem;
    var m, bs := Store(Store(mem, b.addr, b.size), b.addr + 8, next), free + [b];
    HeaderOnlyIn(mem, b.addr, b.size, next, bs, |free|);
    LinkOnlyIn(m, free, i, b.addr);
    CoversPrefix(free, b);
    OnlyInCovered(m, LinkMem(m, free, i, b.addr), bs, free);
    OnlyInTrans(mem, m, LinkMem(m, free, i, b.addr), bs);
  }

  lemma CoversPrefix(free: seq<Blk>, b: Blk)
    ensures Covers(free + [b], free)
  {
    forall x: Blk | x.size > 0 && ApartFromAll(x, free + [b]) ensures ApartFromAll(x, free) {
      forall i | 0 <= i < |free| ensures Apart(x, free[i]) { assert Apart(x, (free + [b])[i]); }
    }
  }

  lemma CoversInsert(free: seq<Blk>, b: Blk)
    ensures Covers(free + [b], Insert(free, b))
  {
    hide Insert, Slot, Apart;
    forall x: Blk | x.size > 0 && ApartFromAll(x, free + [b]) ensures ApartFromAll(x, Insert(free, b)) {
      forall i | 0 <= i < |Insert(free, b)| ensures Apart(x, Insert(free, b)[i]) {
        InsertFrom(free, b, i);
      }
    }
  }

  lemma InsertFrom(free: seq<Blk>, b: Blk, i: nat)
    requires i < |Insert(free, b)|
    ensures exists j :: 0 <= j < |free| + 1 && (free + [b])[j] == Insert(free, b)[i]
  {
    hide Slot;
    var s := Slot(free, b.addr, 0);
    var j := if i < s then i else if i == s then |free| else i - 1;
    assert (free + [b])[j] == Insert(free, b)[i];
  }

  lemma CoversJoined(bs: seq<Blk>, free: seq<Blk>, i: nat)
    requires Covers(bs, free) && i + 1 < |free| && free[i].End() == free[i + 1].addr
    ensures Covers(bs, Joined(free, i))
  {
    forall x: Blk | x.size > 0 && ApartFromAll(x, bs) ensures ApartFromAll(x, Joined(free, i)) {
      assert Apart(x, free[i]) && Apart(x, free[i + 1]);
      forall j | 0 <= j < |free| - 1 ensures Apart(x, Joined(free, i)[j]) { JoinedAt(free, i, j); }
    }
  }

  lemma JoinOnlyIn(m0: Memory, mem: Memory, free: seq<Blk>, i: nat, bs: seq<Blk>)
    requires Sound(free) && i + 1 < |free| && free[i].End() == free[i + 1].addr && OnlyIn(m0, mem, bs) && Covers(bs, free)
    ensures var b := Blk(free[i].addr, free[i].size + free[i + 1].size);
            OnlyIn(m0, Store(Store(mem, b.addr, b.size), b.addr + 8, AddrAt(free, i + 2)), bs)
    ensures Covers(bs, Joined(free, i))
  {
    hide Store, OnlyIn, Covers, Joined;
    var b := Blk(free[i].addr, free[i].size + free[i + 1].size);
    var m := Store(Store(mem, b.addr, b.size), b.addr + 8, AddrAt(free, i + 2));
    HeaderOnlyIn(mem, b.addr, b.size, AddrAt(free, i + 2), free, i);
    OnlyInCovered(mem, m, bs, free);
    OnlyInTrans(m0, mem, m, bs);
    CoversJoined(bs, free, i);
  }

  /** Live blocks are outside everything a request writes. */
  lemma LiveUntouched(h: Heap, j: nat, bs: seq<Blk>, mem: Memory, mem': Memory, lo: nat, hi: nat)
    requires HeapOk(h, lo, hi) && j < |h.live| && OnlyIn(mem, mem', bs)
    requires bs == h.free || exists k :: 0 <= k < |h.live| && k != j && bs == h.free + [h.live[k]]
    ensures Untouched(mem, mem', h.live[j])
  {
    hide Untouched, Total, Coalesced;
    var x := h.live[j];
    assert x.size > 0 by { LiveIsApart(h, j, lo, hi); }
    assert ApartFromAll(x, h.free);
    if bs != h.free {
      var k :| 0 <= k < |h.live| && k != j && bs == h.free + [h.live[k]];
      assert Apart(x, h.live[k]);
      forall i | 0 <= i < |bs| ensures Apart(x, bs[i]) { assert i < |h.free| ==> Apart(x, h.free[i]); }
    }
  }

  // ---------------------------------------------------------------- the allocator

  /** Serve one request of a run: the list in memory follows the heap machine, and no request writes
      into a block that stays live. */
  method Serve(a: LinkedListAllocator, h: Heap, q: Request, ghost lo: nat, ghost hi: nat) returns (h': Heap, p: nat)
    requires a.Valid() && a.free == h.free && HeapOk(h, lo, hi) && Allowed(h, q)
    modifies a
    ensures h' == Step(h, q) && HeapOk(h', lo, hi)
    ensures a.Valid() && a.free == h'.free
    ensures q.Alloc? ==> if h' == h then p == 0 else |h'.live| > 0 && p == h'.live[|h'.live| - 1].addr
    ensures forall j :: 0 <= j < |h.live| && q != Dealloc(j) ==> Untouched(old(a.mem), a.mem, h.live[j])
  {
    hide ListOk, Sound, HeapOk, Carve, Merge, Insert, FirstFit, OnlyIn, Untouched;
    h', p := Step(h, q), 0;
    match q
    case Alloc(size, align) =>
      AllocStepOk(h, size, align, lo, hi);
      p := a.AllocFromRegion(size, align);
      forall j | 0 <= j < |h.live| ensures Untouched(old(a.mem), a.mem, h.live[j]) {
        LiveUntouched(h, j, h.free, old(a.mem), a.mem, lo, hi);
      }
    case Dealloc(k) =>
      DeallocStepOk(h, k, lo, hi);
      LiveIsApart(h, k, lo, hi);
      a.DeallocToRegion(h.live[k].addr, h.live[k].size);
      ghost var bs := h.free + [Blk(h.live[k].addr, h.live[k].size)];
      forall j | 0 <= j < |h.live| && j != k ensures Untouched(old(a.mem), a.mem, h.live[j]) {
        assert bs == h.free + [h.live[k]];
        LiveUntouched(h, j, bs, old(a.mem), a.mem, lo, hi);
      }
  }

  lemma LiveIsApart(h: Heap, k: nat, lo: nat, hi: nat)
    requires HeapOk(h, lo, hi) && k < |h.live|
    ensures ApartFromAll(h.live[k], h.free) && h.live[k].size >= HEADER_BYTES && h.live[k].addr > 0
  {
  }

  lemma FirstNode(mem: Memory, head: nat, free: seq<Blk>, i: nat)
    requires ListOk(mem, head, free) && i < |free|
    ensures Node(mem, free[i], AddrAt(free, i + 1))
  {
    assert NodeAt(mem, free, i);
  }

  /** Carving leaves a well-formed list in memory. */
  lemma CarveOk(mem: Memory, head: nat, free: seq<Blk>, i: nat, size: nat, align: nat)
    requires ListOk(mem, head, free) && Sound(free) && i < |free| && align > 0 && size >= HEADER_BYTES
    requires FitsIn(free[i], size, align)
    ensures var nb, rest, next := AlignUp(free[i].addr, align) + size, Rest(free[i], size, align), AddrAt(free, i + 1);
            && (rest > HEADER_BYTES ==>
                  ListOk(LinkMem(Store(Store(mem, nb, rest), nb + 8, next), free, i, nb), LinkHead(head, i, nb), Carve(free, i, size, align)))
            && (rest <= HEADER_BYTES ==>
                  ListOk(LinkMem(mem, free, i, next), LinkHead(head, i, next), Carve(free, i, size, align)))
    ensures Sound(Carve(free, i, size, align))
  {
    hide ListOk, Sound, LinkMem, LinkHead, AlignUp;
    if Rest(free[i], size, align) > HEADER_BYTES {
      ReplaceOk(mem, head, free, i, Blk(AlignUp(free[i].addr, align) + size, Rest(free[i], size, align)));
    } else {
      RemoveOk(mem, head, free, i);
    }
  }

  class LinkedListAllocator {
    var head: nat
    var mem: Memory

    /** The list in memory. */
    ghost var free: seq<Blk>

    ghost predicate Valid()
      reads this
    {
      ListOk(mem, head, free) && Sound(free)
    }

    /** init: one block covers the heap. */
    constructor (start: nat, size: nat)
      requires start > 0 && size >= HEADER_BYTES
      ensures Valid() && free == [Blk(start, size)]
    {
      mem := Store(Store(map[], start, size), start + 8, 0);
      head := start;
      free := [Blk(start, size)];
      new;
      StoreHeader(map[], Blk(start, size), 0);
      assert NodeAt(mem, free, 0);
    }

    /** Point the predecessor (the head if there is none) at `v`. */
    method Relink(prev: nat, v: nat, ghost i: nat)
      requires i <= |free| && (i == 0 <==> prev == 0) && (i > 0 ==> prev == free[i - 1].addr)
      modifies this`head, this`mem
      ensures mem == LinkMem(old(mem), free, i, v) && head == LinkHead(old(head), i, v)
    {
      if prev != 0 {
        mem := Store(mem, prev + 8, v);
      } else {
        head := v;
      }
    }

    /** alloc_from_region: first fit, carved out of the front of the block. 0 stands for None. */
    method AllocFromRegion(size: nat, align: nat) returns (r: nat)
      requires Valid() && size >= HEADER_BYTES && align > 0
      modifies this
      ensures Valid()
      ensures var i := FirstFit(old(free), size, align, 0);
              if i == |old(free)| then r == 0 && free == old(free)
              else r == AlignUp(old(free)[i].addr, align) && free == Carve(old(free), i, size, align)
      ensures OnlyIn(old(mem), mem, old(free))
    {
      hide OnlyIn, AlignUp, Carve, LinkMem, LinkHead, Packed, Sound, ListOk, Store, FirstFit;
      ListStart(mem, head, free);
      FitEnd(free, size, align);
      OnlyInSelf(mem, free);
      if head == 0 { return 0; }
      var current, prev := head, 0;
      ghost var i := 0;
      while true
        invariant Valid() && free == old(free) && mem == old(mem) && i < |free| && current == free[i].addr
        invariant (i == 0 <==> prev == 0) && (i > 0 ==> prev == free[i - 1].addr)
        invariant FirstFit(free, size, align, 0) == FirstFit(free, size, align, i)
        decreases |free| - i
      {
        FirstNode(mem, head, free, i);
        FitStep(free, size, align, i);
        NextNode(mem, head, free, i);
        var aligned := AlignUp(current, align);
        var padding := aligned - current;
        if mem[current] >= size + padding {
          CarveOk(mem, head, free, i, size, align);
          CarveOnlyIn(mem, free, i, size, align);
          TakeFrom(current, prev, aligned + size, mem[current] - size - padding, i);
          free := Carve(free, i, size, align);
          return aligned;
        }
        prev := current;
        if mem[current + 8] == 0 { return 0; }
        current := mem[current + 8];
        i := i + 1;
      }
    }

    /** dealloc_to_region: link the block in at its address and coalesce. */
    method DeallocToRegion(ptr: nat, size: nat)
      requires Valid() && ptr > 0 && size >= HEADER_BYTES && ApartFromAll(Blk(ptr, size), free)
      modifies this
      ensures Valid() && free == Merge(Insert(old(free), Blk(ptr, size)))
      ensures OnlyIn(old(mem), mem, old(free) + [Blk(ptr, size)])
    {
      hide Sound, ListOk, Store, Slot, Insert, Merge, LinkMem, LinkHead, OnlyIn, Covers;
      ghost var bs := free + [Blk(ptr, size)];
      CoversInsert(free, Blk(ptr, size));
      LinkIn(ptr, size);
      ghost var m := mem;
      MergeAdjacentBlocks(bs);
      OnlyInTrans(old(mem), m, mem, bs);
    }

    method LinkIn(ptr: nat, size: nat)
      requires Valid() && ptr > 0 && size >= HEADER_BYTES && ApartFromAll(Blk(ptr, size), free)
      modifies this
      ensures Valid() && free == Insert(old(free), Blk(ptr, size))
      ensures OnlyIn(old(mem), mem, old(free) + [Blk(ptr, size)])
    {
      hide Sound, ListOk, Store, Slot, Insert, LinkMem, LinkHead, Packed, OnlyIn;
      ghost var b := Blk(ptr, size);
      InsertOnlyIn(mem, free, Slot(free, ptr, 0), b, AddrAt(free, Slot(free, ptr, 0)));
      InsertOk(mem, head, free, Slot(free, ptr, 0), b);
      StoreKeepsList(mem, head, free, b, size);
      ListStart(mem, head, free);
      SlotStep(free, ptr, 0);
      mem := Store(mem, ptr, size);
      if head == 0 || ptr < head {
        mem := Store(mem, ptr + 8, head);
        Relink(0, ptr, 0);
      } else {
        var current := FindPredecessor(ptr);
        ghost var i := Slot(free, ptr, 0);
        FirstNode(mem, head, free, i - 1);
        mem := Store(mem, ptr + 8, mem[current + 8]);
        Relink(current, ptr, i);
      }
      free := Insert(free, b);
    }

    /** The last block that starts at or before `ptr`. */
    method FindPredecessor(ptr: nat) returns (current: nat)
      requires Valid() && free != [] && free[0].addr <= ptr
      ensures Slot(free, ptr, 0) > 0 && current == free[Slot(free, ptr, 0) - 1].addr && current > 0
    {
      hide Sound, ListOk, Slot, Packed;
      ListStart(mem, head, free);
      SlotStep(free, ptr, 0);
      current := head;
      ghost var i := 0;
      while true
        invariant i < |free| && current == free[i].addr
        invariant Slot(free, ptr, 0) == Slot(free, ptr, i + 1)
        decreases |free| - i
      {
        FirstNode(mem, head, free, i);
        NextNode(mem, head, free, i);
        SlotStep(free, ptr, i + 1);
        var next := mem[current + 8];
        if next == 0 || ptr < next { return; }
        current := next;
        i := i + 1;
      }
    }

    /** merge_adjacent_blocks */
    method MergeAdjacentBlocks(ghost bs: seq<Blk>)
      requires Valid() && Covers(bs, free)
      modifies this
      ensures Valid() && free == Merge(old(free)) && OnlyIn(old(mem), mem, bs)
    {
      hide Sound, ListOk, Store, Merge, Joined, OnlyIn, Covers;
      OnlyInSelf(mem, bs);
      ListStart(mem, head, free);
      if head == 0 {
        MergeNothing();
        return;
      }
      var current := head;
      ghost var k := 0;
      assert free[..0] + Merge(free[0..]) == Merge(free);
      while true
        invariant Valid() && k < |free| && current == free[k].addr
        invariant free[..k] + Merge(free[k..]) == Merge(old(free))
        invariant Covers(bs, free) && OnlyIn(old(mem), mem, bs)
        decreases |free| - k
      {
        FirstNode(mem, head, free, k);
        NextNode(mem, head, free, k);
        var next := mem[current + 8];
        if next == 0 {
          MergeSkip(free, k);
          return;
        }
        FirstNode(mem, head, free, k + 1);
        if current + mem[current] == next {
          MergeJoin(free, k);
          JoinOk(mem, head, free, k);
          JoinReads(mem, free, k);
          JoinOnlyIn(old(mem), mem, free, k, bs);
          mem := Store(mem, current, mem[current] + mem[next]);
          mem := Store(mem, current + 8, mem[next + 8]);
          free := Joined(free, k);
        } else {
          MergeSkip(free, k);
          current := next;
          k := k + 1;
        }
      }
    }

    /** Write the remainder's header, if it is kept, and relink the predecessor. */
    method TakeFrom(current: nat, prev: nat, nb: nat, rest: nat, ghost i: nat)
      requires i < |free| && Node(mem, free[i], AddrAt(free, i + 1)) && current == free[i].addr
      requires (i == 0 <==> prev == 0) && (i > 0 ==> prev == free[i - 1].addr)
      requires current + HEADER_BYTES <= nb
      modifies this`head, this`mem
      ensures rest > HEADER_BYTES ==>
        && mem == LinkMem(Store(Store(old(mem), nb, rest), nb + 8, AddrAt(free, i + 1)), free, i, nb)
        && head == LinkHead(old(head), i, nb)
      ensures rest <= HEADER_BYTES ==>
        mem == LinkMem(old(mem), free, i, AddrAt(free, i + 1)) && head == LinkHead(old(head), i, AddrAt(free, i + 1))
    {
      if rest > HEADER_BYTES {
        mem := Store(mem, nb, rest);
        mem := Store(mem, nb + 8, mem[current + 8]);
        Relink(prev, nb, i);
      } else {
        Relink(prev, mem[current + 8], i);
      }
    }
  }

  /** Writing inside a block that is on no list leaves the list alone. */
  lemma StoreKeepsList(mem: Memory, head: nat, free: seq<Blk>, b: Blk, v: nat)
    requires ListOk(mem, head, free) && Sound(free) && ApartFromAll(b, free) && b.size >= HEADER_BYTES
    ensures ListOk(Store(mem, b.addr, v), head, free)
  {
    hide Store, Node;
    forall i | 0 <= i < |free| ensures NodeAt(Store(mem, b.addr, v), free, i) {
      assert NodeAt(mem, free, i) && Apart(b, free[i]);
      StoreOutside(mem, b.addr, v, free[i], AddrAt(free, i + 1));
    }
  }

  lemma SlotStep(free: seq<Blk>, addr: nat, i: nat)
    requires i <= |free|
    ensures i < |free| && addr >= free[i].addr ==> Slot(free, addr, i) == Slot(free, addr, i + 1)
    ensures i < |free| && addr < free[i].addr ==> Slot(free, addr, i) == i
    ensures Slot(free, addr, |free|) == |free|
  {
  }

  lemma MergeNothing()
    ensures Merge([]) == []
  {
  }

  /** The successor's link survives the update of the size. */
  lemma JoinReads(mem: Memory, free: seq<Blk>, k: nat)
    requires k + 1 < |free| && Node(mem, free[k], AddrAt(free, k + 1)) && Node(mem, free[k + 1], AddrAt(free, k + 2))
    requires free[k].End() == free[k + 1].addr && free[k].size >= HEADER_BYTES
    ensures |Joined(free, k)| == |free| - 1
    ensures var m := Store(mem, free[k].addr, free[k].size + free[k + 1].size);
            free[k + 1].addr + 8 in m && m[free[k + 1].addr + 8] == AddrAt(free, k + 2)
  {
  }

  /** The coalescing pass at position `k`, where the next block touches. */
  lemma MergeJoin(free: seq<Blk>, k: nat)
    requires k + 1 < |free| && free[k].End() == free[k + 1].addr
    ensures var j := Joined(free, k);
            k < |j| && j[k].addr == free[k].addr && j[..k] + Merge(j[k..]) == free[..k] + Merge(free[k..])
  {
    var t, j := free[k..], Joined(free, k);
    assert j[..k] == free[..k];
    assert j[k..] == [Blk(t[0].addr, t[0].size + t[1].size)] + t[2..];
  }

  /** The coalescing pass at position `k`, where there is a gap or no next block. */
  lemma MergeSkip(free: seq<Blk>, k: nat)
    requires k < |free| && (k + 1 < |free| ==> free[k].End() != free[k + 1].addr)
    ensures k + 1 == |free| ==> free[..k] + Merge(free[k..]) == free
    ensures k + 1 < |free| ==> free[..k + 1] + Merge(free[k + 1..]) == free[..k] + Merge(free[k..])
  {
    var t := free[k..];
    if k + 1 < |free| {
      assert t[1..] == free[k + 1..];
      assert free[..k + 1] == free[..k] + [free[k]];
    }
  }

  lemma ListStart(mem: Memory, head: nat, free: seq<Blk>)
    requires ListOk(mem, head, free) && Sound(free)
    ensures head == 0 <==> free == []
    ensures free != [] ==> head == free[0].addr
  {
  }

  lemma FitEnd(free: seq<Blk>, size: nat, align: nat)
    requires align > 0
    ensures free == [] ==> FirstFit(free, size, align, 0) == |free|
  {
  }

  lemma FitStep(free: seq<Blk>, size: nat, align: nat, i: nat)
    requires align > 0 && i < |free|
    ensures FitsIn(free[i], size, align) ==> FirstFit(free, size, align, i) == i
    ensures !FitsIn(free[i], size, align) ==> FirstFit(free, size, align, i) == FirstFit(free, size, align, i + 1)
    ensures FirstFit(free, size, align, |free|) == |free|
  {
  }

  lemma NextNode(mem: Memory, head: nat, free: seq<Blk>, i: nat)
    requires ListOk(mem, head, free) && Sound(free) && i < |free|
    ensures AddrAt(free, i + 1) == 0 <==> i + 1 == |free|
    ensures free[i].addr > 0 && free[i].size >= HEADER_BYTES
  {
  }
}
