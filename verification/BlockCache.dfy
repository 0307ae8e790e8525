/**
 The write-back block cache of src/fs/block_cache.c over a block device.

 Slots are embedded in one array, so the `next`/`prev` pointers of the C list
 are slot indices here and NULL is `None`.
 */
module BlockCaching {
  import opened Common
  import Lists

  const BLOCK_CACHE_SIZE: nat := 256

  datatype Slot = Slot(blockNum: nat, data: Block, dirty: bool, valid: bool,
                       next: Option<nat>, prev: Option<nat>)

  // ---------------------------------------------------------------- the LRU list

  ghost function LinkAt(order: seq<nat>, i: int): Option<nat> {
    if 0 <= i < |order| then Some(order[i]) else None
  }

  /** `order`, from most to least recently used, is the doubly linked list held in `s`. */
  ghost predicate Linked(s: seq<Slot>, head: Option<nat>, tail: Option<nat>, order: seq<nat>) {
    && Lists.NoDup(order)
    && head == LinkAt(order, 0)
    && tail == LinkAt(order, |order| - 1)
    && (forall i :: 0 <= i < |order| ==> order[i] < |s|)
    && Chained(s, order)
  }

  ghost predicate Chained(s: seq<Slot>, order: seq<nat>) {
    forall i :: 0 <= i < |order| ==> NodeOk(s, order, i)
  }

  /** The slot at position `i` points to its two neighbours in `order`. */
  ghost predicate NodeOk(s: seq<Slot>, order: seq<nat>, i: int)
    requires 0 <= i < |order|
  {
    && order[i] < |s|
    && s[order[i]].prev == LinkAt(order, i - 1)
    && s[order[i]].next == LinkAt(order, i + 1)
  }

  /** `s` and `t` differ in list pointers only. */
  ghost predicate SamePayload(s: seq<Slot>, t: seq<Slot>) {
    |s| == |t| && forall i :: 0 <= i < |s| ==> t[i] == s[i].(next := t[i].next, prev := t[i].prev)
  }

  function SetNext(s: seq<Slot>, at: Option<nat>, link: Option<nat>): (t: seq<Slot>)
    ensures SamePayload(s, t)
  {
    if at.Some? && at.value < |s| then s[at.value := s[at.value].(next := link)] else s
  }

  function SetPrev(s: seq<Slot>, at: Option<nat>, link: Option<nat>): (t: seq<Slot>)
    ensures SamePayload(s, t)
  {
    if at.Some? && at.value < |s| then s[at.value := s[at.value].(prev := link)] else s
  }

  /** The slots after lru_remove(k). */
  function Unlink(s: seq<Slot>, k: nat): (t: seq<Slot>)
    requires k < |s|
    ensures SamePayload(s, t)
  {
    var t := SetPrev(SetNext(s, s[k].prev, s[k].next), s[k].next, s[k].prev);
    t[k := t[k].(prev := None, next := None)]
  }

  ghost function Without(order: seq<nat>, i: nat): seq<nat>
    requires i < |order|
  {
    order[..i] + order[i + 1..]
  }

  /** Position in `order` of the j-th element that survives removing position `i`. */
  ghost function Survivor(i: nat, j: nat): nat { if j < i then j else j + 1 }

  lemma WithoutAt(order: seq<nat>, i: nat, j: nat)
    requires i < |order| && j < |order| - 1
    ensures Without(order, i)[j] == order[Survivor(i, j)]
    ensures LinkAt(Without(order, i), j - 1) ==
            if j == i then LinkAt(order, i - 1) else LinkAt(order, Survivor(i, j) - 1)
    ensures LinkAt(Without(order, i), j + 1) ==
            if j + 1 == i then LinkAt(order, i + 1) else LinkAt(order, Survivor(i, j) + 1)
  {
  }

  /** One element of the list after removal. */
  lemma UnlinkAt(s: seq<Slot>, head: Option<nat>, tail: Option<nat>, order: seq<nat>, i: nat, j: nat)
    requires Linked(s, head, tail, order) && i < |order| && j < |order| && j != i
    ensures var t, k := Unlink(s, order[i]), order[j];
            && t[k].prev == (if j == i + 1 then LinkAt(order, i - 1) else LinkAt(order, j - 1))
            && t[k].next == (if j + 1 == i then LinkAt(order, i + 1) else LinkAt(order, j + 1))
  {
    assert NodeOk(s, order, i) && NodeOk(s, order, j);
    assert i > 0 ==> NodeOk(s, order, i - 1);
    assert i + 1 < |order| ==> NodeOk(s, order, i + 1);
    assert order[j] != order[i];
    if i > 0 && j != i - 1 { assert order[j] != order[i - 1]; }
    if i + 1 < |order| && j != i + 1 { assert order[j] != order[i + 1]; }
    if 0 < i && i + 1 < |order| { assert order[i - 1] != order[i + 1]; }
  }

  lemma LinksInRange(s: seq<Slot>, head: Option<nat>, tail: Option<nat>, order: seq<nat>, k: nat)
    requires Linked(s, head, tail, order) && k < |s|
    requires k !in order ==> s[k].next == None && s[k].prev == None
    ensures s[k].prev.Some? ==> s[k].prev.value < |s|
    ensures s[k].next.Some? ==> s[k].next.value < |s|
  {
    if k in order {
      var i :| 0 <= i < |order| && order[i] == k;
      assert NodeOk(s, order, i);
      assert i > 0 ==> NodeOk(s, order, i - 1);
      assert i + 1 < |order| ==> NodeOk(s, order, i + 1);
    }
  }

  lemma UnlinkOthers(s: seq<Slot>, head: Option<nat>, tail: Option<nat>, order: seq<nat>, k: nat)
    requires Linked(s, head, tail, order) && k < |s|
    requires k !in order ==> s[k].next == None && s[k].prev == None
    ensures forall j :: 0 <= j < |s| && j !in order ==> Unlink(s, k)[j] == s[j]
  {
    if k in order {
      var i :| 0 <= i < |order| && order[i] == k;
      assert NodeOk(s, order, i);
    }
  }

  lemma UnlinkSurvivor(s: seq<Slot>, head: Option<nat>, tail: Option<nat>, order: seq<nat>, i: nat, j: nat)
    requires Linked(s, head, tail, order) && i < |order| && j < |order| - 1
    ensures NodeOk(Unlink(s, order[i]), Without(order, i), j)
  {
    hide Unlink, Without;
    assert NodeOk(s, order, Survivor(i, j));
    WithoutAt(order, i, j);
    UnlinkAt(s, head, tail, order, i, Survivor(i, j));
  }

  lemma UnlinkChained(s: seq<Slot>, head: Option<nat>, tail: Option<nat>, order: seq<nat>, i: nat)
    requires Linked(s, head, tail, order) && i < |order|
    ensures Chained(Unlink(s, order[i]), Without(order, i))
  {
    forall j | 0 <= j < |order| - 1
      ensures NodeOk(Unlink(s, order[i]), Without(order, i), j)
    {
      UnlinkSurvivor(s, head, tail, order, i, j);
    }
  }

  lemma UnlinkLinked(s: seq<Slot>, head: Option<nat>, tail: Option<nat>, order: seq<nat>, i: nat)
    requires Linked(s, head, tail, order) && i < |order|
    ensures var k := order[i];
            Linked(Unlink(s, k), if s[k].prev.Some? then head else s[k].next,
                   if s[k].next.Some? then tail else s[k].prev, Without(order, i))
  {
    assert NodeOk(s, order, i);
    UnlinkChained(s, head, tail, order, i);
    WithoutDistinct(order, i);
    WithoutEnds(order, i);
  }

  lemma WithoutDistinct(order: seq<nat>, i: nat)
    requires Lists.NoDup(order) && i < |order|
    ensures Lists.NoDup(Without(order, i))
  {
  }

  lemma WithoutEnds(order: seq<nat>, i: nat)
    requires i < |order|
    ensures LinkAt(Without(order, i), 0) == if i == 0 then LinkAt(order, 1) else LinkAt(order, 0)
    ensures LinkAt(Without(order, i), |order| - 2) ==
            if i == |order| - 1 then LinkAt(order, |order| - 2) else LinkAt(order, |order| - 1)
  {
  }

  /** The slots after lru_add_front(k). */
  function LinkFront(s: seq<Slot>, head: Option<nat>, k: nat): (t: seq<Slot>)
    requires k < |s|
    ensures SamePayload(s, t)
  {
    SetPrev(s[k := s[k].(prev := None, next := head)], head, Some(k))
  }

  lemma LinkFrontAt(s: seq<Slot>, head: Option<nat>, tail: Option<nat>, order: seq<nat>, k: nat, j: nat)
    requires Linked(s, head, tail, order) && k < |s| && k !in order && j <= |order|
    ensures NodeOk(LinkFront(s, head, k), [k] + order, j)
  {
    if j > 0 {
      assert NodeOk(s, order, j - 1);
      assert ([k] + order)[j] == order[j - 1];
      if j > 1 { assert order[j - 1] != order[0]; }
    }
  }

  lemma LinkFrontLinked(s: seq<Slot>, head: Option<nat>, tail: Option<nat>, order: seq<nat>, k: nat)
    requires Linked(s, head, tail, order) && k < |s| && k !in order
    ensures Linked(LinkFront(s, head, k), Some(k), if head.Some? then tail else Some(k), [k] + order)
  {
    var t, all := LinkFront(s, head, k), [k] + order;
    forall j | 0 <= j < |all|
      ensures NodeOk(t, all, j)
    {
      LinkFrontAt(s, head, tail, order, k, j);
    }
  }

  // ---------------------------------------------------------------- what the slots hold

  predicate Holds(s: seq<Slot>, i: nat, b: nat) {
    i < |s| && s[i].valid && s[i].blockNum == b
  }

  ghost predicate Uncached(s: seq<Slot>, b: nat) {
    forall j :: 0 <= j < |s| ==> !(s[j].valid && s[j].blockNum == b)
  }

  /** No slot but `k` holds block `b`. */
  ghost predicate Sole(s: seq<Slot>, k: nat, b: nat) {
    forall j :: 0 <= j < |s| && j != k && s[j].valid ==> s[j].blockNum != b
  }

  /** Index of the first valid slot at or after `i` holding block `b`, or |s|. */
  function FindFrom(s: seq<Slot>, b: nat, i: nat): (k: nat)
    requires i <= |s|
    ensures i <= k <= |s|
    ensures k < |s| ==> Holds(s, k, b)
    ensures forall j :: i <= j < k ==> !(s[j].valid && s[j].blockNum == b)
    decreases |s| - i
  {
    if i == |s| then i
    else if Holds(s, i, b) then i
    else FindFrom(s, b, i + 1)
  }

  function Find(s: seq<Slot>, b: nat): (k: nat)
    ensures k <= |s|
    ensures k < |s| ==> Holds(s, k, b)
    ensures k == |s| <==> Uncached(s, b)
  {
    FindFrom(s, b, 0)
  }

  ghost predicate UniqueNums(s: seq<Slot>) {
    forall i, j :: 0 <= i < |s| && 0 <= j < |s| && s[i].valid && s[j].valid && s[i].blockNum == s[j].blockNum
      ==> i == j
  }

  /** Clean slots agree with the device; every buffer has the block size. */
  ghost predicate Coherent(s: seq<Slot>, dev: seq<Block>, bs: nat) {
    && UniqueNums(s)
    && (forall b :: 0 <= b < |dev| ==> |dev[b]| == bs)
    && (forall i :: 0 <= i < |s| ==> |s[i].data| == bs)
    && (forall i :: 0 <= i < |s| && s[i].valid && !s[i].dirty ==>
          s[i].blockNum < |dev| && s[i].data == dev[s[i].blockNum])
  }

  /** The block a reader must see: the cached copy if there is one, else the device's. */
  ghost function BlockAt(s: seq<Slot>, dev: seq<Block>, b: nat): Block
    requires b < |dev|
  {
    if Find(s, b) < |s| then s[Find(s, b)].data else dev[b]
  }

  ghost function ViewOf(s: seq<Slot>, dev: seq<Block>): (v: seq<Block>)
    ensures |v| == |dev|
    ensures forall b :: 0 <= b < |dev| ==> v[b] == BlockAt(s, dev, b)
  {
    seq(|dev|, b requires 0 <= b < |dev| => BlockAt(s, dev, b))
  }

  /** Overwriting the slot loses nothing an in-range reader could see. */
  predicate Expendable(slot: Slot, numBlocks: nat) {
    !slot.valid || !slot.dirty || slot.blockNum >= numBlocks
  }

  lemma HeldBlock(s: seq<Slot>, dev: seq<Block>, i: nat, b: nat)
    requires UniqueNums(s) && Holds(s, i, b) && b < |dev|
    ensures BlockAt(s, dev, b) == s[i].data
  {
    assert Holds(s, Find(s, b), b);
  }

  lemma HeldView(s: seq<Slot>, dev: seq<Block>, bs: nat, i: nat, b: nat)
    requires Coherent(s, dev, bs) && Holds(s, i, b) && b < |dev|
    ensures ViewOf(s, dev)[b] == s[i].data
  {
    HeldBlock(s, dev, i, b);
  }

  lemma InstallUnique(s: seq<Slot>, k: nat, slot: Slot)
    requires UniqueNums(s) && k < |s|
    requires slot.valid ==> forall j :: 0 <= j < |s| && j != k && s[j].valid ==> s[j].blockNum != slot.blockNum
    ensures UniqueNums(s[k := slot])
  {
  }

  /** Writing `slot` for block `slot.blockNum` over an expendable slot (or over that
      block's own slot) changes the view at that block only. */
  lemma InstallAt(s: seq<Slot>, dev: seq<Block>, bs: nat, k: nat, slot: Slot, c: nat)
    requires Coherent(s, dev, bs) && k < |s| && c < |dev|
    requires Expendable(s[k], |dev|) || (slot.valid && s[k].blockNum == slot.blockNum)
    requires slot.valid ==> forall j :: 0 <= j < |s| && j != k && s[j].valid ==> s[j].blockNum != slot.blockNum
    ensures BlockAt(s[k := slot], dev, c) ==
            if slot.valid && c == slot.blockNum then slot.data else BlockAt(s, dev, c)
  {
    var t := s[k := slot];
    InstallUnique(s, k, slot);
    if slot.valid && c == slot.blockNum {
      HeldBlock(t, dev, k, c);
    } else {
      var i := Find(s, c);
      if i < |s| && i != k {
        HeldBlock(t, dev, i, c);
      } else {
        assert Uncached(t, c) by {
          forall j | 0 <= j < |t| ensures !(t[j].valid && t[j].blockNum == c) {
            assert t[j] == if j == k then slot else s[j];
          }
        }
      }
    }
  }

  lemma Install(s: seq<Slot>, dev: seq<Block>, bs: nat, k: nat, slot: Slot)
    requires Coherent(s, dev, bs) && k < |s|
    requires Expendable(s[k], |dev|) || (slot.valid && s[k].blockNum == slot.blockNum)
    requires slot.valid ==> forall j :: 0 <= j < |s| && j != k && s[j].valid ==> s[j].blockNum != slot.blockNum
    ensures UniqueNums(s[k := slot])
    ensures ViewOf(s[k := slot], dev) ==
            if slot.valid && slot.blockNum < |dev| then ViewOf(s, dev)[slot.blockNum := slot.data]
            else ViewOf(s, dev)
  {
    InstallUnique(s, k, slot);
    var v, w := ViewOf(s, dev), ViewOf(s[k := slot], dev);
    var u := if slot.valid && slot.blockNum < |dev| then v[slot.blockNum := slot.data] else v;
    forall c | 0 <= c < |dev|
      ensures w[c] == u[c]
    {
      InstallAt(s, dev, bs, k, slot, c);
    }
    assert w == u;
  }

  lemma {:induction false} SameFind(s: seq<Slot>, t: seq<Slot>, b: nat, i: nat)
    requires |s| == |t| && i <= |s|
    requires forall j :: 0 <= j < |s| ==> t[j].valid == s[j].valid && t[j].blockNum == s[j].blockNum
    ensures FindFrom(s, b, i) == FindFrom(t, b, i)
    decreases |s| - i
  {
    if i < |s| { SameFind(s, t, b, i + 1); }
  }

  /** Copying a dirty in-range slot to the device changes neither view nor coherence. */
  lemma Flushed(s: seq<Slot>, dev: seq<Block>, bs: nat, k: nat)
    requires Coherent(s, dev, bs) && k < |s| && s[k].valid && s[k].blockNum < |dev|
    ensures var t, dev' := s[k := s[k].(dirty := false)], dev[s[k].blockNum := s[k].data];
            Coherent(t, dev', bs) && ViewOf(t, dev') == ViewOf(s, dev)
  {
    var t, dev' := s[k := s[k].(dirty := false)], dev[s[k].blockNum := s[k].data];
    forall c | 0 <= c < |dev|
      ensures ViewOf(t, dev')[c] == ViewOf(s, dev)[c]
    {
      SameFind(s, t, c, 0);
      if c == s[k].blockNum { HeldBlock(s, dev, k, c); }
    }
  }

  lemma SelfUpdate(v: seq<Block>, b: nat)
    requires b < |v|
    ensures v[b := v[b]] == v
  {
  }

  lemma UncachedView(s: seq<Slot>, dev: seq<Block>, bs: nat, b: nat)
    requires Coherent(s, dev, bs) && b < |dev| && Uncached(s, b)
    ensures |ViewOf(s, dev)| == |dev| && ViewOf(s, dev)[b] == dev[b] && |dev[b]| == bs
  {
  }

  lemma UncachedOnDevice(s: seq<Slot>, dev: seq<Block>, b: nat)
    ensures Uncached(s, b) && b < |dev| ==> ViewOf(s, dev)[b] == dev[b]
  {
    hide FindFrom;
  }

  lemma CleanView(s: seq<Slot>, dev: seq<Block>, bs: nat)
    requires Coherent(s, dev, bs)
    requires forall j :: 0 <= j < |s| && s[j].valid && s[j].dirty ==> s[j].blockNum >= |dev|
    ensures ViewOf(s, dev) == dev
  {
    forall c | 0 <= c < |dev|
      ensures ViewOf(s, dev)[c] == dev[c]
    {
      var i := Find(s, c);
      if i < |s| { assert Holds(s, i, c); }
    }
  }

  // ---------------------------------------------------------------- the plain array

  datatype Op = ReadOp(b: nat) | WriteOp(b: nat, data: Block) | FlushOp | InvalidateOp(b: nat)

  predicate InRange(op: Op, numBlocks: nat, blockSize: nat) {
    (!op.FlushOp? ==> op.b < numBlocks) && (op.WriteOp? ==> |op.data| == blockSize)
  }

  function BlockOf(v: seq<Block>, b: nat): Block { if b < |v| then v[b] else [] }

  function ArrayStep(v: seq<Block>, op: Op): seq<Block> {
    if op.WriteOp? && op.b < |v| then v[op.b := op.data] else v
  }

  function ArrayAfter(v: seq<Block>, ops: seq<Op>): seq<Block> {
    if ops == [] then v else ArrayStep(ArrayAfter(v, ops[..|ops| - 1]), ops[|ops| - 1])
  }

  /** The data of the last write to `b`, if there is one. */
  function LastWrite(ops: seq<Op>, b: nat): Option<Block> {
    if ops == [] then None
    else if ops[|ops| - 1].WriteOp? && ops[|ops| - 1].b == b then Some(ops[|ops| - 1].data)
    else LastWrite(ops[..|ops| - 1], b)
  }

  lemma {:induction false} LastWriteWins(v: seq<Block>, ops: seq<Op>, b: nat)
    requires b < |v|
    ensures |ArrayAfter(v, ops)| == |v|
    ensures ArrayAfter(v, ops)[b] == if LastWrite(ops, b).Some? then LastWrite(ops, b).value else v[b]
  {
    if ops != [] { LastWriteWins(v, ops[..|ops| - 1], b); }
  }

  // ---------------------------------------------------------------- the device

  /** A block device whose size is a whole number of blocks (ramdisk, test device). */
  class Device {
    var blocks: seq<Block>

    constructor (image: seq<Block>)
      ensures blocks == image
    {
      blocks := image;
    }

    method ReadBlock(b: nat) returns (r: Result<Block>)
      ensures r == if b < |blocks| then Ok(blocks[b]) else Err(Invalid)
    {
      if b >= |blocks| { return Err(Invalid); }
      r := Ok(blocks[b]);
    }

    method WriteBlock(b: nat, data: Block) returns (r: Result<()>)
      modifies this
      ensures r == if b < |old(blocks)| then Ok(()) else Err(Invalid)
      ensures blocks == if b < |old(blocks)| then old(blocks)[b := data] else old(blocks)
    {
      if b >= |blocks| { return Err(Invalid); }
      blocks := blocks[b := data];
      r := Ok(());
    }
  }

  // ---------------------------------------------------------------- the cache

  class BlockCache {
    const device: Device
    const slots: array<Slot>
    const blockSize: nat
    var lruHead: Option<nat>
    var lruTail: Option<nat>
    var hits: nat
    var misses: nat

    /** The invariant every operation keeps. The list never grows past one slot,
        because a miss reuses the tail before it looks for an invalid slot. */
    ghost predicate Valid()
      reads this, slots, device
    {
      && slots.Length == BLOCK_CACHE_SIZE
      && Coherent(slots[..], device.blocks, blockSize)
      && Lists()
    }

    ghost function NumBlocks(): nat
      reads device
    {
      |device.blocks|
    }

    /** The array of blocks this cache stands for. */
    ghost function View(): seq<Block>
      reads slots, device
    {
      ViewOf(slots[..], device.blocks)
    }

    /** A miss on `b` finds neither a tail to evict nor an invalid slot. */
    ghost predicate Jammed(b: nat)
      reads this, slots
    {
      Uncached(slots[..], b) && lruTail == None && forall i :: 0 <= i < slots.Length ==> slots[i].valid
    }

    /** No valid slot has dropped off the list and none is out of range: the
        state every cache is in until a read fails or an out-of-range write. */
    ghost predicate Calm()
      reads this, slots, device
    {
      forall i :: 0 <= i < slots.Length && slots[i].valid ==>
        lruTail == Some(i) && slots[i].blockNum < |device.blocks|
    }

    /** The slot on the list holds block `b`, and its copy is still to be written back or not. */
    ghost predicate Recent(b: nat, dirty: bool)
      reads this, slots
    {
      && lruTail.Some? && lruHead == lruTail && lruTail.value < slots.Length
      && slots[lruTail.value].valid && slots[lruTail.value].blockNum == b && slots[lruTail.value].dirty == dirty
    }

    constructor (dev: Device, bs: nat)
      requires forall b :: 0 <= b < |dev.blocks| ==> |dev.blocks[b]| == bs
      ensures Valid() && Calm() && View() == dev.blocks
      ensures device == dev && fresh(slots) && blockSize == bs && slots.Length == 256
      ensures hits == 0 && misses == 0
    {
      var zero: Block := seq(bs, _ => 0);
      device, blockSize := dev, bs;
      slots := new Slot[BLOCK_CACHE_SIZE](_ => Slot(0, zero, false, false, None, None));
      lruHead, lruTail := None, None;
      hits, misses := 0, 0;
      new;
      assert forall b :: 0 <= b < |dev.blocks| ==> Uncached(slots[..], b);
    }

    /** lru_remove, for any well-formed list containing `k`; a slot that is on no
        list makes the code forget the whole list. */
    method LruRemove(k: nat, ghost order: seq<nat>)
      requires k < slots.Length
      requires Linked(slots[..], lruHead, lruTail, order)
      requires k !in order ==> slots[k].next == None && slots[k].prev == None
      modifies this`lruHead, this`lruTail, slots
      ensures SamePayload(old(slots[..]), slots[..])
      ensures slots[k].next == None && slots[k].prev == None
      ensures k !in order ==> lruHead == None && lruTail == None && slots[..] == old(slots[..])
      ensures forall i :: 0 <= i < |order| && order[i] == k ==>
                Linked(slots[..], lruHead, lruTail, Without(order, i))
      ensures forall j :: 0 <= j < slots.Length && j !in order ==> slots[j] == old(slots[j])
    {
      ghost var s, head, tail := slots[..], lruHead, lruTail;
      LinksInRange(s, head, tail, order, k);
      var entry := slots[k];
      if entry.prev.Some? {
        slots[entry.prev.value] := slots[entry.prev.value].(next := entry.next);
      } else {
        lruHead := entry.next;
      }
      assert slots[..] == SetNext(s, s[k].prev, s[k].next);
      if entry.next.Some? {
        slots[entry.next.value] := slots[entry.next.value].(prev := entry.prev);
      } else {
        lruTail := entry.prev;
      }
      assert slots[..] == SetPrev(SetNext(s, s[k].prev, s[k].next), s[k].next, s[k].prev);
      slots[k] := slots[k].(prev := None, next := None);
      assert slots[..] == Unlink(s, k);
      UnlinkOthers(s, head, tail, order, k);
      forall i | 0 <= i < |order| && order[i] == k
        ensures Linked(slots[..], lruHead, lruTail, Without(order, i))
      {
        UnlinkLinked(s, head, tail, order, i);
      }
    }

    /** lru_add_front, for any well-formed list not containing `k`. */
    method LruAddFront(k: nat, ghost order: seq<nat>)
      requires k < slots.Length && k !in order
      requires Linked(slots[..], lruHead, lruTail, order)
      modifies this`lruHead, this`lruTail, slots
      ensures SamePayload(old(slots[..]), slots[..])
      ensures Linked(slots[..], lruHead, lruTail, [k] + order)
      ensures forall j :: 0 <= j < slots.Length && j != k && j !in order ==> slots[j] == old(slots[j])
    {
      ghost var s := slots[..];
      LinkFrontLinked(slots[..], lruHead, lruTail, order, k);
      slots[k] := slots[k].(prev := None, next := lruHead);
      assert slots[..] == s[k := s[k].(prev := None, next := lruHead)];
      if lruHead.Some? {
        slots[lruHead.value] := slots[lruHead.value].(prev := Some(k));
      } else {
        lruTail := Some(k);
      }
      assert slots[..] == LinkFront(s, lruHead, k);
      lruHead := Some(k);
    }

    ghost predicate Lists()
      reads this, slots
    {
      && lruHead == lruTail
      && (lruTail.Some? ==> lruTail.value < slots.Length && slots[lruTail.value].valid)
      && (forall i :: 0 <= i < slots.Length ==> slots[i].next == None && slots[i].prev == None)
    }

    ghost function Order(): seq<nat>
      reads this
    {
      if lruTail.Some? then [lruTail.value] else []
    }

    /** lru_remove in a reachable state: whatever `k` is, the list ends up empty. */
    method Detach(k: nat)
      requires Lists() && k < slots.Length
      modifies this`lruHead, this`lruTail, slots
      ensures Lists() && lruTail == None && slots[..] == old(slots[..])
    {
      ghost var order := Order();
      LruRemove(k, order);
      if order == [k] { assert Without(order, 0) == []; }
      assert slots[..] == old(slots[..]);
    }

    /** lru_add_front in a reachable state. */
    method Attach(k: nat)
      requires Lists() && lruTail == None && k < slots.Length && slots[k].valid
      modifies this`lruHead, this`lruTail, slots
      ensures Lists() && lruTail == lruHead == Some(k) && slots[..] == old(slots[..])
    {
      LruAddFront(k, []);
      assert NodeOk(slots[..], [k] + [], 0);
      assert slots[..] == old(slots[..]);
    }

    method FindSlot(b: nat) returns (k: nat)
      requires Valid()
      ensures k == Find(slots[..], b)
      ensures k < slots.Length ==> slots[k].valid && slots[k].blockNum == b
      ensures k == slots.Length <==> Uncached(slots[..], b)
      ensures k < slots.Length ==> Sole(slots[..], k, b)
    {
      hide Lists;
      k := 0;
      while k < slots.Length
        invariant k <= slots.Length
        invariant FindFrom(slots[..], b, 0) == FindFrom(slots[..], b, k)
      {
        if slots[k].valid && slots[k].blockNum == b { return; }
        k := k + 1;
      }
    }

    /** cache_flush_entry. Out-of-range slots stay dirty; nothing else fails. */
    method FlushSlot(k: nat) returns (r: Result<()>)
      requires Valid() && k < slots.Length
      modifies slots, device
      ensures Valid() && View() == old(View()) && |device.blocks| == old(|device.blocks|)
      ensures slots[..] == old(slots[..])[k := old(slots[k]).(dirty := slots[k].dirty)]
      ensures slots[k].dirty <==> old(slots[k].dirty) && !(slots[k].valid && slots[k].blockNum < NumBlocks())
      ensures r.Err? <==> slots[k].valid && slots[k].dirty
    {
      if !slots[k].dirty || !slots[k].valid {
        assert slots[..] == old(slots[..])[k := old(slots[k]).(dirty := slots[k].dirty)];
        return Ok(());
      }
      ghost var s, dev := slots[..], device.blocks;
      r := device.WriteBlock(slots[k].blockNum, slots[k].data);
      if r.Ok? {
        Flushed(s, dev, blockSize, k);
        slots[k] := slots[k].(dirty := false);
        assert slots[..] == s[k := s[k].(dirty := false)];
      } else {
        assert slots[..] == s[k := s[k].(dirty := true)];
      }
    }

    /** The slot a miss will use: the LRU tail, else the first invalid slot. */
    method Victim() returns (v: Option<nat>)
      requires Valid()
      ensures v.None? <==> lruTail == None && forall i :: 0 <= i < slots.Length ==> slots[i].valid
      ensures v.Some? ==> v.value < slots.Length
      ensures lruTail.Some? ==> v == lruTail
      ensures lruTail.None? && v.Some? ==> !slots[v.value].valid
    {
      v := lruTail;
      if v.None? {
        var i := 0;
        while i < slots.Length
          invariant i <= slots.Length
          invariant forall j :: 0 <= j < i ==> slots[j].valid
        {
          if !slots[i].valid { return Some(i); }
          i := i + 1;
        }
      }
    }

    /** The common start of a miss: choose a slot, write it back, take it off the list. */
    method Evict() returns (v: Option<nat>)
      requires Valid()
      modifies this`lruHead, this`lruTail, slots, device
      ensures Valid() && View() == old(View()) && |device.blocks| == old(|device.blocks|)
      ensures lruTail == None
      ensures v.None? <==> old(lruTail == None && forall i :: 0 <= i < slots.Length ==> slots[i].valid)
      ensures v.Some? ==> v.value < slots.Length && Expendable(slots[v.value], NumBlocks())
      ensures forall c: nat :: old(Uncached(slots[..], c)) ==> Uncached(slots[..], c)
      ensures old(Calm()) ==> v.Some? && forall i :: 0 <= i < slots.Length && i != v.value ==> !slots[i].valid
    {
      v := Victim();
      if v.None? {
        assert slots[0].valid;
        return;
      }
      if slots[v.value].valid && slots[v.value].dirty {
        var _ := FlushSlot(v.value);
      }
      assert slots[..] == old(slots[..])[v.value := old(slots[..])[v.value].(dirty := slots[v.value].dirty)];
      assert forall j :: 0 <= j < slots.Length ==>
          slots[j].valid == old(slots[..])[j].valid && slots[j].blockNum == old(slots[..])[j].blockNum;
      if slots[v.value].valid {
        Detach(v.value);
      }
    }

    /** Fill slot `k` and make it the most recently used one. */
    method Fill(k: nat, slot: Slot)
      requires Valid() && lruTail == None && k < slots.Length
      requires slot.valid && slot.next == None && slot.prev == None && |slot.data| == blockSize
      requires Expendable(slots[k], NumBlocks()) || slots[k].blockNum == slot.blockNum
      requires Uncached(slots[..], slot.blockNum) || Sole(slots[..], k, slot.blockNum)
      requires !slot.dirty ==> slot.blockNum < NumBlocks() && slot.data == device.blocks[slot.blockNum]
      modifies this`lruHead, this`lruTail, slots
      ensures Valid() && lruTail == lruHead == Some(k) && slots[..] == old(slots[..])[k := slot]
      ensures View() == if slot.blockNum < NumBlocks() then old(View())[slot.blockNum := slot.data] else old(View())
    {
      ghost var s := slots[..];
      Install(s, device.blocks, blockSize, k, slot);
      slots[k] := slot;
      assert slots[..] == s[k := slot];
      Attach(k);
    }

    /** Loading an uncached block does not change the view. */
    method ReadMiss(b: nat) returns (r: Result<Block>)
      requires Valid() && Uncached(slots[..], b)
      modifies this`lruHead, this`lruTail, slots, device
      ensures Valid() && View() == old(View()) && NumBlocks() == old(NumBlocks())
      ensures b < NumBlocks() ==> r == if old(Jammed(b)) then Err(Busy) else Ok(View()[b])
      ensures b >= NumBlocks() ==> r.Err?
      ensures b < NumBlocks() && old(Calm()) ==> Calm() && r.Ok?
      ensures r.Ok? ==> Recent(b, false)
    {
      hide Coherent, ViewOf;
      var v := Evict();
      if v.None? { return Err(Busy); }
      r := device.ReadBlock(b);
      if r.Err? { return; }
      UncachedView(slots[..], device.blocks, blockSize, b);
      SelfUpdate(View(), b);
      hide Uncached, Expendable;
      Fill(v.value, Slot(b, r.value, false, true, None, None));
    }

    /** block_cache_read. The view never changes; an in-range read returns the view's
        block unless every slot is a valid one that has dropped off the list. */
    method Read(b: nat) returns (r: Result<Block>)
      requires Valid()
      modifies this, slots, device
      ensures Valid() && View() == old(View()) && NumBlocks() == old(NumBlocks())
      ensures b < NumBlocks() ==> r == if old(Jammed(b)) then Err(Busy) else Ok(View()[b])
      ensures b >= NumBlocks() ==> (r.Ok? <==> old(!Uncached(slots[..], b)))
      ensures b < NumBlocks() && old(Calm()) ==> Calm() && r.Ok?
      ensures old(Uncached(slots[..], b)) ==> hits == old(hits) && misses == old(misses) + 1 && (r.Ok? ==> Recent(b, false))
      ensures !old(Uncached(slots[..], b)) ==> hits == old(hits) + 1 && misses == old(misses) && slots[..] == old(slots[..]) && (Recent(b, true) || Recent(b, false))
    {
      hide Coherent, ViewOf;
      var k := FindSlot(b);
      if k < slots.Length {
        hits := hits + 1;
        r := Ok(slots[k].data);
        if b < |device.blocks| { HeldView(slots[..], device.blocks, blockSize, k, b); }
        Detach(k);
        Attach(k);
        return;
      }
      misses := misses + 1;
      r := ReadMiss(b);
    }

    /** block_cache_write. In range it is an array update of the view; out of range it is
        accepted all the same and no in-range block changes. */
    method Write(b: nat, data: Block) returns (r: Result<()>)
      requires Valid() && |data| == blockSize
      modifies this, slots, device
      ensures Valid() && NumBlocks() == old(NumBlocks())
      ensures r == if old(Jammed(b)) then Err(Busy) else Ok(())
      ensures View() == if r.Ok? && b < NumBlocks() then old(View())[b := data] else old(View())
      ensures b < NumBlocks() && old(Calm()) ==> Calm() && r.Ok?
      ensures hits == old(hits) && misses == old(misses) && (r.Ok? ==> Recent(b, true))
    {
      hide Coherent, ViewOf, Lists, Uncached, Sole, Expendable, Find;
      var k := FindSlot(b);
      if k == slots.Length {
        var v := Evict();
        if v.None? { return Err(Busy); }
        k := v.value;
      } else {
        Detach(k);
      }
      Fill(k, Slot(b, data, true, true, None, None));
      r := Ok(());
    }

    /** block_cache_flush. Afterwards the device equals the view, whatever is returned;
        the call fails exactly when some dirty slot lies outside the device. */
    method Flush() returns (r: Result<()>)
      requires Valid()
      modifies slots, device
      ensures Valid() && View() == old(View()) && NumBlocks() == old(NumBlocks())
      ensures device.blocks == View()
      ensures r.Err? <==> exists i :: 0 <= i < slots.Length && slots[i].valid && slots[i].dirty
      ensures forall i :: 0 <= i < slots.Length && slots[i].valid && slots[i].dirty ==>
                slots[i].blockNum >= NumBlocks()
      ensures old(Calm()) ==> Calm() && r.Ok?
    {
      hide Lists, Coherent, ViewOf;
      var errors, i := 0, 0;
      while i < slots.Length
        invariant 0 <= i <= slots.Length
        invariant Valid() && View() == old(View()) && NumBlocks() == old(NumBlocks())
        invariant forall j :: 0 <= j < i && slots[j].valid && slots[j].dirty ==> slots[j].blockNum >= NumBlocks()
        invariant errors > 0 <==> exists j :: 0 <= j < i && slots[j].valid && slots[j].dirty
        invariant errors >= 0
        invariant old(Calm()) ==> Calm()
      {
        if slots[i].valid && slots[i].dirty {
          ghost var s := slots[..];
          var e := FlushSlot(i);
          assert forall j :: 0 <= j < slots.Length && j != i ==> slots[j] == s[j];
          if e.Err? { errors := errors + 1; }
        }
        i := i + 1;
      }
      CleanView(slots[..], device.blocks, blockSize);
      r := if errors > 0 then Err(Invalid) else Ok(());
    }

    /** block_cache_invalidate. The block leaves the cache and the device holds what
        readers saw. */
    method Invalidate(b: nat) returns (r: Result<()>)
      requires Valid()
      modifies this`lruHead, this`lruTail, slots, device
      ensures r == Ok(())
      ensures Valid() && View() == old(View()) && NumBlocks() == old(NumBlocks())
      ensures Uncached(slots[..], b)
      ensures b < NumBlocks() ==> device.blocks[b] == View()[b]
      ensures old(Calm()) ==> Calm()
    {
      hide Lists, Coherent, ViewOf;
      var k := FindSlot(b);
      if k < slots.Length {
        if slots[k].dirty {
          var _ := FlushSlot(k);
        }
        Forget(k);
      }
      UncachedOnDevice(slots[..], device.blocks, b);
      r := Ok(());
    }

    /** Drops slot `k`, whose data nobody needs, from the list and from the cache. */
    method Forget(k: nat)
      requires Valid() && k < slots.Length && Expendable(slots[k], NumBlocks())
      modifies this`lruHead, this`lruTail, slots
      ensures Valid() && View() == old(View()) && lruTail == None
      ensures slots[..] == old(slots[..])[k := old(slots[k]).(valid := false)]
    {
      Detach(k);
      ghost var s := slots[..];
      Install(s, device.blocks, blockSize, k, s[k].(valid := false));
      slots[k] := slots[k].(valid := false);
      assert slots[..] == s[k := s[k].(valid := false)];
    }

    /** Any run of in-range operations on a calm cache: nothing fails, the view evolves as
        a plain array does, and each read returns the array's block at that point. */
    method Run(ops: seq<Op>) returns (rs: seq<Block>)
      requires Valid() && Calm()
      requires forall i :: 0 <= i < |ops| ==> InRange(ops[i], NumBlocks(), blockSize)
      modifies this, slots, device
      ensures Valid() && Calm() && NumBlocks() == old(NumBlocks())
      ensures View() == ArrayAfter(old(View()), ops)
      ensures |rs| == |ops|
      ensures forall i :: 0 <= i < |ops| && ops[i].ReadOp? ==>
                rs[i] == BlockOf(ArrayAfter(old(View()), ops[..i]), ops[i].b)
    {
      rs := [];
      var i := 0;
      while i < |ops|
        invariant 0 <= i <= |ops| && |rs| == i
        invariant Valid() && Calm() && NumBlocks() == old(NumBlocks())
        invariant View() == ArrayAfter(old(View()), ops[..i])
        invariant forall j :: 0 <= j < i && ops[j].ReadOp? ==>
                    rs[j] == BlockOf(ArrayAfter(old(View()), ops[..j]), ops[j].b)
      {
        assert ops[..i + 1][..i] == ops[..i];
        var out := Perform(ops[i]);
        rs := rs + [out];
        i := i + 1;
      }
      assert ops[..|ops|] == ops;
    }

    method Perform(op: Op) returns (out: Block)
      requires Valid() && Calm() && InRange(op, NumBlocks(), blockSize)
      modifies this, slots, device
      ensures Valid() && Calm() && NumBlocks() == old(NumBlocks())
      ensures View() == ArrayStep(old(View()), op)
      ensures op.ReadOp? ==> out == BlockOf(View(), op.b)
      ensures op.FlushOp? ==> device.blocks == View()
    {
      out := [];
      match op
      case ReadOp(b) =>
        var r := Read(b);
        out := r.value;
      case WriteOp(b, data) =>
        var r := Write(b, data);
        assert r.Ok?;
      case FlushOp =>
        var r := Flush();
        assert r.Ok?;
      case InvalidateOp(b) =>
        var _ := Invalidate(b);
    }
  }
}
