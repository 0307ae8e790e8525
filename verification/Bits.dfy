/** Single bits of machine words, and bitmaps stored as bytes (least significant bit first). */
module Bits {
  import opened Common
  import opened Arith

  function Pow2(n: nat): (p: nat)
    ensures p >= 1
  {
    if n == 0 then 1 else 2 * Pow2(n - 1)
  }

  /** w & (1 << j) != 0 */
  predicate TestBit(w: nat, j: nat) {
    if j == 0 then w % 2 == 1 else TestBit(w / 2, j - 1)
  }

  /** w | (1 << j) */
  function SetBit(w: nat, j: nat): nat {
    if j == 0 then w / 2 * 2 + 1 else SetBit(w / 2, j - 1) * 2 + w % 2
  }

  /** w & !(1 << j) */
  function ClearBit(w: nat, j: nat): nat {
    if j == 0 then w / 2 * 2 else ClearBit(w / 2, j - 1) * 2 + w % 2
  }

  lemma {:induction false} SetBitTest(w: nat, j: nat, k: nat)
    ensures TestBit(SetBit(w, j), k) == (k == j || TestBit(w, k))
  {
    if j > 0 && k > 0 { SetBitTest(w / 2, j - 1, k - 1); }
  }

  lemma {:induction false} ClearBitTest(w: nat, j: nat, k: nat)
    ensures TestBit(ClearBit(w, j), k) == (k != j && TestBit(w, k))
  {
    if j > 0 && k > 0 { ClearBitTest(w / 2, j - 1, k - 1); }
  }

  lemma ByteRange()
    ensures Pow2(8) == 256
  {
    assert Pow2(4) == 16;
  }

  /** Bit `j` is the digit of weight 2^j. */
  lemma {:induction false} BitIsDigit(w: nat, j: nat)
    ensures TestBit(w, j) <==> w / Pow2(j) % 2 == 1
    ensures !TestBit(w, j) ==> SetBit(w, j) == w + Pow2(j)
    ensures TestBit(w, j) ==> Pow2(j) <= w && ClearBit(w, j) == w - Pow2(j)
  {
    if j > 0 {
      BitIsDigit(w / 2, j - 1);
      DivModDouble(w, Pow2(j - 1));
    }
  }

  lemma {:induction false} ClearClear(w: nat, j: nat)
    requires !TestBit(w, j)
    ensures ClearBit(w, j) == w
  {
    if j > 0 { ClearClear(w / 2, j - 1); }
  }

  lemma {:induction false} ClearSet(w: nat, j: nat)
    requires !TestBit(w, j)
    ensures ClearBit(SetBit(w, j), j) == w
  {
    if j > 0 { ClearSet(w / 2, j - 1); }
  }

  lemma {:induction false} WordBounds(w: nat, j: nat, n: nat)
    requires j < n && w < Pow2(n)
    ensures SetBit(w, j) < Pow2(n) && ClearBit(w, j) < Pow2(n)
  {
    hide SetBit, ClearBit, Pow2;
    Pow2Step(n);
    SetBitHalf(w, j);
    ClearBitHalf(w, j);
    if j > 0 { WordBounds(w / 2, j - 1, n - 1); }
  }

  lemma SetBitHalf(w: nat, j: nat)
    ensures SetBit(w, j) / 2 == if j == 0 then w / 2 else SetBit(w / 2, j - 1)
    ensures j > 0 ==> SetBit(w, j) % 2 == w % 2
  {
  }

  lemma ClearBitHalf(w: nat, j: nat)
    ensures ClearBit(w, j) / 2 == if j == 0 then w / 2 else ClearBit(w / 2, j - 1)
  {
  }

  lemma Pow2Step(k: nat)
    requires k > 0
    ensures Pow2(k) == 2 * Pow2(k - 1)
  {
  }

  /** Setting a bit below position `k` leaves the bits from `k` up alone. */
  lemma {:induction false} SetBitAbove(w: nat, j: nat, k: nat)
    requires j < k
    ensures SetBit(w, j) / Pow2(k) == w / Pow2(k)
  {
    hide SetBit, Pow2;
    SetBitHalf(w, j);
    Pow2Step(k);
    DivModDouble(w, Pow2(k - 1));
    DivModDouble(SetBit(w, j), Pow2(k - 1));
    if j > 0 { SetBitAbove(w / 2, j - 1, k - 1); }
  }

  /** Setting a bit from position `k` up leaves the bits below `k` alone. */
  lemma {:induction false} SetBitBelow(w: nat, j: nat, k: nat)
    requires j >= k
    ensures SetBit(w, j) % Pow2(k) == w % Pow2(k)
  {
    if k > 0 {
      SetBitBelow(w / 2, j - 1, k - 1);
      SetBitBelowStep(w, j, k);
    }
  }

  lemma SetBitBelowStep(w: nat, j: nat, k: nat)
    requires j >= k > 0 && SetBit(w / 2, j - 1) % Pow2(k - 1) == w / 2 % Pow2(k - 1)
    ensures SetBit(w, j) % Pow2(k) == w % Pow2(k)
  {
    hide SetBit, Pow2;
    SetBitHalf(w, j);
    Pow2Step(k);
    DivModDouble(w, Pow2(k - 1));
    DivModDouble(SetBit(w, j), Pow2(k - 1));
  }

  lemma DivModDouble(w: nat, p: nat)
    requires p > 0
    ensures w / (2 * p) == w / 2 / p && w % (2 * p) == (w / 2 % p) * 2 + w % 2
  {
    var h := w / 2;
    var q, r := h / p, h % p;
    assert h == q * p + r;
    var s := r * 2 + w % 2;
    assert w == q * (2 * p) + s;
    DivModUnique(q, s, 2 * p);
  }

  /** A word that is not all ones has a zero bit. */
  lemma {:induction false} SomeZero(w: nat, n: nat) returns (j: nat)
    requires w < Pow2(n) - 1
    ensures j < n && !TestBit(w, j)
  {
    if w % 2 == 0 {
      j := 0;
    } else {
      var k := SomeZero(w / 2, n - 1);
      j := k + 1;
    }
  }

  // ---------------------------------------------------------------- bitmaps

  predicate BitAt(bm: Block, i: nat)
    requires i < 8 * |bm|
  {
    TestBit(bm[i / 8], i % 8)
  }

  function WithBit(bm: Block, i: nat): (r: Block)
    requires i < 8 * |bm|
    ensures |r| == |bm|
    ensures BitAt(r, i)
  {
    WordBounds(bm[i / 8], i % 8, 8);
    assert Pow2(8) == 256 by { assert Pow2(4) == 16; }
    SetBitTest(bm[i / 8], i % 8, i % 8);
    bm[i / 8 := SetBit(bm[i / 8], i % 8)]
  }

  function WithoutBit(bm: Block, i: nat): (r: Block)
    requires i < 8 * |bm|
    ensures |r| == |bm|
    ensures !BitAt(r, i)
  {
    WordBounds(bm[i / 8], i % 8, 8);
    assert Pow2(8) == 256 by { assert Pow2(4) == 16; }
    ClearBitTest(bm[i / 8], i % 8, i % 8);
    bm[i / 8 := ClearBit(bm[i / 8], i % 8)]
  }

  lemma ClearSame(bm: Block, i: nat)
    requires i < 8 * |bm| && !BitAt(bm, i)
    ensures WithoutBit(bm, i) == bm
  {
    ClearClear(bm[i / 8], i % 8);
    assert bm[i / 8 := bm[i / 8]] == bm;
  }

  lemma ClearAfterSet(bm: Block, i: nat)
    requires i < 8 * |bm| && !BitAt(bm, i)
    ensures WithoutBit(WithBit(bm, i), i) == bm
  {
    ClearSet(bm[i / 8], i % 8);
    assert bm[i / 8 := bm[i / 8]] == bm;
  }

  lemma OtherBits(bm: Block, i: nat, k: nat)
    requires i < 8 * |bm| && k < 8 * |bm| && k != i
    ensures BitAt(WithBit(bm, i), k) == BitAt(bm, k)
    ensures BitAt(WithoutBit(bm, i), k) == BitAt(bm, k)
  {
    if i / 8 == k / 8 {
      SetBitTest(bm[i / 8], i % 8, k % 8);
      ClearBitTest(bm[i / 8], i % 8, k % 8);
    }
  }

  lemma ThatBit(bm: Block, i: nat)
    requires i < 8 * |bm|
    ensures BitAt(WithBit(bm, i), i) && !BitAt(WithoutBit(bm, i), i)
  {
    SetBitTest(bm[i / 8], i % 8, i % 8);
    ClearBitTest(bm[i / 8], i % 8, i % 8);
  }

  /** Number of zero bits among the first `n`. */
  function Zeros(bm: Block, n: nat): (z: nat)
    requires n <= 8 * |bm|
    ensures z <= n
  {
    if n == 0 then 0 else Zeros(bm, n - 1) + (if BitAt(bm, n - 1) then 0 else 1)
  }

  lemma {:induction false} ZerosAfterSet(bm: Block, i: nat, n: nat)
    requires i < 8 * |bm| && n <= 8 * |bm|
    ensures Zeros(WithBit(bm, i), n) == Zeros(bm, n) - (if i < n && !BitAt(bm, i) then 1 else 0)
  {
    hide BitAt, WithBit, WithoutBit;
    if n > 0 {
      ZerosAfterSet(bm, i, n - 1);
      if i != n - 1 { OtherBits(bm, i, n - 1); } else { ThatBit(bm, i); }
    }
  }

  lemma {:induction false} ZerosAfterClear(bm: Block, i: nat, n: nat)
    requires i < 8 * |bm| && n <= 8 * |bm|
    ensures Zeros(WithoutBit(bm, i), n) == Zeros(bm, n) + (if i < n && BitAt(bm, i) then 1 else 0)
  {
    hide BitAt, WithBit, WithoutBit;
    if n > 0 {
      ZerosAfterClear(bm, i, n - 1);
      if i != n - 1 { OtherBits(bm, i, n - 1); } else { ThatBit(bm, i); }
    }
  }

  lemma {:induction false} ZerosIsZero(bm: Block, n: nat)
    requires n <= 8 * |bm|
    ensures Zeros(bm, n) == 0 <==> forall i :: 0 <= i < n ==> BitAt(bm, i)
  {
    if n > 0 { ZerosIsZero(bm, n - 1); }
  }

  /** find_first_zero_bit: skip 0xFF bytes, then scan the byte. */
  method FindFirstZeroBit(bm: Block) returns (r: int)
    ensures r == -1 || 0 <= r < 8 * |bm|
    ensures r == -1 ==> forall k :: 0 <= k < 8 * |bm| ==> BitAt(bm, k)
    ensures r >= 0 ==> !BitAt(bm, r) && forall k :: 0 <= k < r ==> BitAt(bm, k)
  {
    var i := 0;
    while i < |bm|
      invariant 0 <= i <= |bm|
      invariant forall k :: 0 <= k < 8 * i ==> BitAt(bm, k)
    {
      if bm[i] != 0xFF {
        var j := ScanByte(bm, i);
        return i * 8 + j;
      }
      FullByte(bm, i);
      i := i + 1;
    }
    r := -1;
  }

  method ScanByte(bm: Block, i: nat) returns (j: nat)
    requires i < |bm| && bm[i] != 0xFF
    ensures j < 8 && !BitAt(bm, 8 * i + j)
    ensures forall k :: 8 * i <= k < 8 * i + j ==> BitAt(bm, k)
  {
    assert Pow2(8) == 256 by { assert Pow2(4) == 16; }
    ghost var z := SomeZero(bm[i], 8);
    j := 0;
    while TestBit(bm[i], j)
      invariant j <= z
      invariant forall k :: 8 * i <= k < 8 * i + j ==> BitAt(bm, k)
      decreases z - j
    {
      j := j + 1;
    }
  }

  lemma FullByte(bm: Block, i: nat)
    requires i < |bm| && bm[i] == 0xFF
    ensures forall k :: 8 * i <= k < 8 * i + 8 ==> BitAt(bm, k)
  {
    assert Pow2(8) == 256 by { assert Pow2(4) == 16; }
    forall k | 8 * i <= k < 8 * i + 8 ensures BitAt(bm, k) {
      AllOnes(8, k % 8);
    }
  }

  lemma {:induction false} AllOnes(n: nat, j: nat)
    requires j < n
    ensures TestBit(Pow2(n) - 1, j)
  {
    if j > 0 {
      AllOnes(n - 1, j - 1);
      assert (Pow2(n) - 1) / 2 == Pow2(n - 1) - 1;
    }
  }
}
