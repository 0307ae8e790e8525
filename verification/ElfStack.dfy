/**
 The initial stack of a new program (build_stack in src/process/elf_loader.rs; the layout is
 section 3.4.1 of the System V AMD64 ABI): argument count, argument and environment pointers,
 auxiliary vector, and the strings themselves.
 */
module ElfStack {
  import opened Common
  import opened Arith

  type CStr = seq<byte>

  datatype Aux = Aux(key: nat, value: nat)

  // ---------------------------------------------------------------- little-endian words

  function Bytes(v: nat, n: nat): (bs: seq<byte>)
    ensures |bs| == n
  {
    if n == 0 then [] else [v % 256] + Bytes(v / 256, n - 1)
  }

  function Value(bs: seq<byte>): nat {
    if bs == [] then 0 else bs[0] + 256 * Value(bs[1..])
  }

  function Pow256(n: nat): nat { if n == 0 then 1 else 256 * Pow256(n - 1) }

  lemma {:induction false} ValueBytes(v: nat, n: nat)
    requires v < Pow256(n)
    ensures Value(Bytes(v, n)) == v
  {
    if n > 0 {
      ValueBytes(v / 256, n - 1);
      assert Bytes(v, n)[1..] == Bytes(v / 256, n - 1);
    }
  }

  /** Byte `i` of a word is its digit of weight 256^i. */
  lemma {:induction false} LowByteFirst(v: nat, n: nat, i: nat)
    requires i < n
    ensures Pow256(i) > 0 && Bytes(v, n)[i] == v / Pow256(i) % 256
  {
    if i > 0 {
      LowByteFirst(v / 256, n - 1, i - 1);
      ModThenDiv(v, 256, Pow256(i - 1));
    }
  }

  const WORD: nat := 8

  predicate IsWord(v: nat) { v < Pow256(8) }

  // ---------------------------------------------------------------- the layout

  /** Bytes the strings take, each with its NUL. */
  function StrLen(strs: seq<CStr>): nat {
    if strs == [] then 0 else |strs[0]| + 1 + StrLen(strs[1..])
  }

  function StrBytes(strs: seq<CStr>): (bs: seq<byte>)
    ensures |bs| == StrLen(strs)
  {
    if strs == [] then [] else strs[0] + [0] + StrBytes(strs[1..])
  }

  /** align_up for the power of two 16. */
  function AlignUp16(v: nat): (r: nat)
    ensures r % 16 == 0 && v <= r < v + 16
  {
    (v + 15) / 16 * 16
  }

  function HeaderWords(argc: nat, envc: nat, auxc: nat): nat { 1 + (argc + 1) + (envc + 1) + auxc * 2 }

  function StringsOffset(argc: nat, envc: nat, auxc: nat): nat { AlignUp16(HeaderWords(argc, envc, auxc) * WORD) }

  function Total(argv: seq<CStr>, envp: seq<CStr>, auxc: nat): nat {
    AlignUp16(StringsOffset(|argv|, |envp|, auxc) + (StrLen(argv) + StrLen(envp)))
  }

  /** The eight bytes of word `w` of the image hold `v`. */
  predicate WordIs(d: seq<byte>, w: nat, v: nat) {
    WORD * w + WORD <= |d| && d[WORD * w..WORD * w + WORD] == Bytes(v, 8)
  }

  /** The strings lie one after the other from offset `o`. */
  predicate StringsAt(d: seq<byte>, o: nat, strs: seq<CStr>) {
    o + StrLen(strs) <= |d| && d[o..o + StrLen(strs)] == StrBytes(strs)
  }

  /** Word `w + i` points to string `i` of those stored from offset `o`, in a stack at `sp`. */
  predicate PointerAt(d: seq<byte>, w: nat, sp: nat, o: nat, strs: seq<CStr>, i: nat)
    requires i <= |strs|
  {
    WordIs(d, w + i, sp + (o + StrLen(strs[..i])))
  }

  ghost predicate PointersAt(d: seq<byte>, w: nat, sp: nat, o: nat, strs: seq<CStr>, n: nat) {
    n <= |strs| && forall i: nat :: i < n ==> PointerAt(d, w, sp, o, strs, i)
  }

  predicate AuxWordsAt(d: seq<byte>, w: nat, aux: seq<Aux>, i: nat)
    requires i < |aux|
  {
    WordIs(d, w + i * 2, aux[i].key) && WordIs(d, w + (i * 2 + 1), aux[i].value)
  }

  ghost predicate AuxAt(d: seq<byte>, w: nat, aux: seq<Aux>, n: nat) {
    n <= |aux| && forall i: nat :: i < n ==> AuxWordsAt(d, w, aux, i)
  }

  /** The complete image for a stack pointer `sp`. */
  ghost predicate ImageOk(d: seq<byte>, sp: nat, argv: seq<CStr>, envp: seq<CStr>, aux: seq<Aux>) {
    var o := StringsOffset(|argv|, |envp|, |aux|);
    && |d| == Total(argv, envp, |aux|)
    && WordIs(d, 0, |argv|)
    && PointersAt(d, 1, sp, o, argv, |argv|) && WordIs(d, 1 + |argv|, 0)
    && PointersAt(d, 2 + |argv|, sp, o + StrLen(argv), envp, |envp|) && WordIs(d, 2 + |argv| + |envp|, 0)
    && AuxAt(d, 3 + |argv| + |envp|, aux, |aux|)
    && StringsAt(d, o, argv) && StringsAt(d, o + StrLen(argv), envp)
  }

  // ---------------------------------------------------------------- in-place writes

  /** `d'` is `d` with the bytes from `o` replaced by `bs`. */
  ghost predicate Patched(d: seq<byte>, d': seq<byte>, o: nat, bs: seq<byte>) {
    && |d'| == |d| && o + |bs| <= |d|
    && (forall i :: 0 <= i < |d| ==> d'[i] == if o <= i < o + |bs| then bs[i - o] else d[i])
  }

  /** write_u64: refused exactly when the word does not fit. */
  method WriteU64(data: array<byte>, offset: nat, value: nat) returns (ok: bool)
    modifies data
    ensures ok <==> offset + WORD <= data.Length
    ensures ok ==> Patched(old(data[..]), data[..], offset, Bytes(value, 8))
    ensures !ok ==> data[..] == old(data[..])
  {
    if offset + WORD > data.Length { return false; }
    ghost var bs := Bytes(value, 8);
    var v, k := value, 0;
    while k < WORD
      invariant 0 <= k <= WORD
      invariant bs[k..] == Bytes(v, WORD - k)
      invariant forall i :: 0 <= i < data.Length ==> data[i] == if offset <= i < offset + k then bs[i - offset] else old(data[i])
    {
      BytesStep(v, WORD - k);
      assert bs[k] == bs[k..][0] && bs[k + 1..] == bs[k..][1..];
      data[offset + k] := v % 256;
      v := v / 256;
      k := k + 1;
    }
    return true;
  }

  lemma BytesStep(v: nat, n: nat)
    requires n > 0
    ensures Bytes(v, n)[0] == v % 256 && Bytes(v, n)[1..] == Bytes(v / 256, n - 1)
  {
  }

  /** A string and its NUL, copied to `offset`. */
  method CopyString(data: array<byte>, offset: nat, s: CStr)
    requires offset + |s| + 1 <= data.Length
    modifies data
    ensures Patched(old(data[..]), data[..], offset, s + [0])
  {
    var k := 0;
    while k < |s|
      invariant 0 <= k <= |s|
      invariant forall i :: 0 <= i < data.Length ==> data[i] == if offset <= i < offset + k then s[i - offset] else old(data[i])
    {
      data[offset + k] := s[k];
      k := k + 1;
    }
    data[offset + |s|] := 0;
  }

  /** A patch leaves other words and strings alone, and puts its own in place. */
  lemma PatchKeepsWord(d: seq<byte>, d': seq<byte>, o: nat, bs: seq<byte>, w: nat, v: nat)
    requires Patched(d, d', o, bs) && WordIs(d, w, v) && (WORD * w + WORD <= o || o + |bs| <= WORD * w)
    ensures WordIs(d', w, v)
  {
    hide Bytes;
    assert d'[WORD * w..WORD * w + WORD] == d[WORD * w..WORD * w + WORD];
  }

  lemma PatchWord(d: seq<byte>, d': seq<byte>, w: nat, v: nat)
    requires Patched(d, d', WORD * w, Bytes(v, 8))
    ensures WordIs(d', w, v)
  {
    hide Bytes;
    assert d'[WORD * w..WORD * w + WORD] == Bytes(v, 8);
  }

  lemma PatchKeepsStrings(d: seq<byte>, d': seq<byte>, o: nat, bs: seq<byte>, p: nat, strs: seq<CStr>)
    requires Patched(d, d', o, bs) && StringsAt(d, p, strs) && (p + StrLen(strs) <= o || o + |bs| <= p)
    ensures StringsAt(d', p, strs)
  {
    hide StrLen, StrBytes;
    assert d'[p..p + StrLen(strs)] == d[p..p + StrLen(strs)];
  }

  lemma {:induction false} StrAppend(strs: seq<CStr>, s: CStr)
    ensures StrLen(strs + [s]) == StrLen(strs) + |s| + 1
    ensures StrBytes(strs + [s]) == StrBytes(strs) + (s + [0])
  {
    if strs == [] {
      assert strs + [s] == [s];
      assert StrBytes([s]) == s + [0] + StrBytes([]);
    } else {
      StrAppend(strs[1..], s);
      assert (strs + [s])[1..] == strs[1..] + [s];
      assert StrBytes(strs) == strs[0] + [0] + StrBytes(strs[1..]);
    }
  }

  lemma PatchString(d: seq<byte>, d': seq<byte>, p: nat, strs: seq<CStr>, s: CStr)
    requires StringsAt(d, p, strs) && Patched(d, d', p + StrLen(strs), s + [0])
    ensures StringsAt(d', p, strs + [s])
  {
    hide StrLen, StrBytes;
    StrAppend(strs, s);
    var n := StrLen(strs);
    assert d'[p..p + n] == d[p..p + n];
    assert d'[p + n..p + n + |s| + 1] == s + [0];
    assert d'[p..p + n + |s| + 1] == d'[p..p + n] + d'[p + n..p + n + |s| + 1];
  }

  /** No byte from `a` up to `b` differs. */
  ghost predicate SameOn(d: seq<byte>, d': seq<byte>, a: nat, b: nat) {
    |d'| == |d| && forall i :: a <= i < b && i < |d| ==> d'[i] == d[i]
  }

  lemma SameWord(d: seq<byte>, d': seq<byte>, a: nat, b: nat, w: nat, v: nat)
    requires SameOn(d, d', a, b) && WordIs(d, w, v) && a <= WORD * w && WORD * w + WORD <= b
    ensures WordIs(d', w, v)
  {
    hide Bytes;
    assert d'[WORD * w..WORD * w + WORD] == d[WORD * w..WORD * w + WORD];
  }

  lemma SameStrings(d: seq<byte>, d': seq<byte>, a: nat, b: nat, o: nat, strs: seq<CStr>)
    requires SameOn(d, d', a, b) && StringsAt(d, o, strs) && a <= o && o + StrLen(strs) <= b
    ensures StringsAt(d', o, strs)
  {
    hide StrLen, StrBytes;
    assert d'[o..o + StrLen(strs)] == d[o..o + StrLen(strs)];
  }

  lemma SamePointers(d: seq<byte>, d': seq<byte>, a: nat, b: nat, w: nat, sp: nat, o: nat, strs: seq<CStr>, n: nat)
    requires SameOn(d, d', a, b) && PointersAt(d, w, sp, o, strs, n) && a <= WORD * w && WORD * (w + n) <= b
    ensures PointersAt(d', w, sp, o, strs, n)
  {
    hide StrLen, SameOn, WordIs;
    forall i: nat | i < n ensures PointerAt(d', w, sp, o, strs, i) {
      assert PointerAt(d, w, sp, o, strs, i);
      SameWord(d, d', a, b, w + i, sp + (o + StrLen(strs[..i])));
    }
  }

  // ---------------------------------------------------------------- building

  /** What the loop has done after `n` strings: pointers from word `w`, strings from offset `o`. */
  ghost predicate Put(d0: seq<byte>, d: seq<byte>, w: nat, sp: nat, o: nat, strs: seq<CStr>, n: nat) {
    && n <= |strs| && PointersAt(d, w, sp, o, strs, n) && StringsAt(d, o, strs[..n])
    && SameOn(d0, d, 0, WORD * w) && SameOn(d0, d, WORD * (w + n), o) && SameOn(d0, d, o + StrLen(strs[..n]), |d|)
  }

  lemma PutStep(d0: seq<byte>, d: seq<byte>, d1: seq<byte>, d2: seq<byte>, w: nat, sp: nat, o: nat, strs: seq<CStr>, n: nat)
    requires n < |strs| && Put(d0, d, w, sp, o, strs, n) && WORD * (w + |strs|) <= o
    requires Patched(d, d1, o + StrLen(strs[..n]), strs[n] + [0])
    requires Patched(d1, d2, WORD * (w + n), Bytes(sp + (o + StrLen(strs[..n])), 8))
    ensures Put(d0, d2, w, sp, o, strs, n + 1)
  {
    hide StrLen, StrBytes, Bytes, PointerAt, StringsAt, WordIs;
    assert strs[..n + 1] == strs[..n] + [strs[n]];
    StrAppend(strs[..n], strs[n]);
    PatchString(d, d1, o, strs[..n], strs[n]);
    PatchKeepsStrings(d1, d2, WORD * (w + n), Bytes(sp + (o + StrLen(strs[..n])), 8), o, strs[..n + 1]);
    PutPointers(d, d1, d2, w, sp, o, strs, n);
  }

  lemma PutPointers(d: seq<byte>, d1: seq<byte>, d2: seq<byte>, w: nat, sp: nat, o: nat, strs: seq<CStr>, n: nat)
    requires n < |strs| && PointersAt(d, w, sp, o, strs, n) && WORD * (w + |strs|) <= o
    requires Patched(d, d1, o + StrLen(strs[..n]), strs[n] + [0])
    requires Patched(d1, d2, WORD * (w + n), Bytes(sp + (o + StrLen(strs[..n])), 8))
    ensures PointersAt(d2, w, sp, o, strs, n + 1)
  {
    hide StrLen, Bytes, WordIs, Patched;
    PatchWord(d1, d2, w + n, sp + (o + StrLen(strs[..n])));
    forall i: nat | i < n + 1 ensures PointerAt(d2, w, sp, o, strs, i) {
      if i < n {
        assert PointerAt(d, w, sp, o, strs, i);
        PatchKeepsWord(d, d1, o + StrLen(strs[..n]), strs[n] + [0], w + i, sp + (o + StrLen(strs[..i])));
        PatchKeepsWord(d1, d2, WORD * (w + n), Bytes(sp + (o + StrLen(strs[..n])), 8), w + i, sp + (o + StrLen(strs[..i])));
      }
    }
  }

  /** The loop over one string list: each string is copied to the cursor and its address stored. It
      gives up exactly when the strings do not fit. */
  method PutStrings(data: array<byte>, w: nat, sp: nat, o: nat, strs: seq<CStr>) returns (ok: bool, cursor: nat)
    requires WORD * (w + |strs|) <= o <= data.Length
    modifies data
    ensures ok <==> o + StrLen(strs) <= data.Length
    ensures ok ==> cursor == o + StrLen(strs) && Put(old(data[..]), data[..], w, sp, o, strs, |strs|)
  {
    hide StrLen, StrBytes, Bytes, PointersAt, StringsAt, SameOn, Patched;
    ghost var d0 := data[..];
    cursor := o;
    var idx := 0;
    PutNothing(d0, w, sp, o, strs);
    while idx < |strs|
      invariant 0 <= idx <= |strs| && cursor == o + StrLen(strs[..idx]) <= data.Length
      invariant Put(d0, data[..], w, sp, o, strs, idx)
    {
      var needed := |strs[idx]| + 1;
      assert strs[..idx + 1] == strs[..idx] + [strs[idx]];
      StrAppend(strs[..idx], strs[idx]);
      StrPrefix(strs, idx + 1);
      if cursor + needed > data.Length {
        return false, cursor;
      }
      ghost var d := data[..];
      CopyString(data, cursor, strs[idx]);
      ghost var d1 := data[..];
      var written := WriteU64(data, WORD * (w + idx), sp + cursor);
      assert written;
      PutStep(d0, d, d1, data[..], w, sp, o, strs, idx);
      cursor := cursor + needed;
      idx := idx + 1;
    }
    assert strs[..idx] == strs;
    return true, cursor;
  }

  lemma PutNothing(d: seq<byte>, w: nat, sp: nat, o: nat, strs: seq<CStr>)
    requires o <= |d|
    ensures strs[..0] == [] && StrLen(strs[..0]) == 0 && Put(d, d, w, sp, o, strs, 0)
  {
  }

  lemma {:induction false} StrPrefix(strs: seq<CStr>, n: nat)
    requires n <= |strs|
    ensures StrLen(strs[..n]) <= StrLen(strs)
  {
    if n > 0 {
      StrPrefix(strs[1..], n - 1);
      assert strs[..n][1..] == strs[1..][..n - 1];
    }
  }

  /** The loop over the auxiliary vector: two words an entry. */
  method PutAux(data: array<byte>, w: nat, aux: seq<Aux>)
    requires WORD * (w + 2 * |aux|) <= data.Length
    modifies data
    ensures AuxAt(data[..], w, aux, |aux|)
    ensures SameOn(old(data[..]), data[..], 0, WORD * w)
    ensures SameOn(old(data[..]), data[..], WORD * (w + 2 * |aux|), data.Length)
  {
    hide Bytes, AuxWordsAt;
    var idx := 0;
    while idx < |aux|
      invariant 0 <= idx <= |aux| && AuxAt(data[..], w, aux, idx)
      invariant SameOn(old(data[..]), data[..], 0, WORD * w)
      invariant SameOn(old(data[..]), data[..], WORD * (w + 2 * idx), data.Length)
    {
      ghost var d := data[..];
      var a := WriteU64(data, WORD * (w + idx * 2), aux[idx].key);
      ghost var d1 := data[..];
      var b := WriteU64(data, WORD * (w + (idx * 2 + 1)), aux[idx].value);
      assert a && b;
      AuxStep(d, d1, data[..], w, aux, idx, idx + 1);
      idx := idx + 1;
    }
  }

  lemma AuxStep(d: seq<byte>, d1: seq<byte>, d2: seq<byte>, w: nat, aux: seq<Aux>, n: nat, n': nat)
    requires n < |aux| && n' == n + 1 && AuxAt(d, w, aux, n)
    requires Patched(d, d1, WORD * (w + n * 2), Bytes(aux[n].key, 8))
    requires Patched(d1, d2, WORD * (w + (n * 2 + 1)), Bytes(aux[n].value, 8))
    ensures AuxAt(d2, w, aux, n')
  {
    hide Bytes, Patched, WordIs;
    PatchWord(d, d1, w + n * 2, aux[n].key);
    PatchKeepsWord(d1, d2, WORD * (w + (n * 2 + 1)), Bytes(aux[n].value, 8), w + n * 2, aux[n].key);
    PatchWord(d1, d2, w + (n * 2 + 1), aux[n].value);
    forall i: nat | i < n' ensures AuxWordsAt(d2, w, aux, i) {
      if i < n {
        assert AuxWordsAt(d, w, aux, i);
        PatchKeepsWord(d, d1, WORD * (w + n * 2), Bytes(aux[n].key, 8), w + i * 2, aux[i].key);
        PatchKeepsWord(d, d1, WORD * (w + n * 2), Bytes(aux[n].key, 8), w + (i * 2 + 1), aux[i].value);
        PatchKeepsWord(d1, d2, WORD * (w + (n * 2 + 1)), Bytes(aux[n].value, 8), w + i * 2, aux[i].key);
        PatchKeepsWord(d1, d2, WORD * (w + (n * 2 + 1)), Bytes(aux[n].value, 8), w + (i * 2 + 1), aux[i].value);
      }
    }
  }

  datatype StackImage = StackImage(sp: nat, data: seq<byte>)

  /** Everything up to the auxiliary vector. */
  ghost predicate Written(d: seq<byte>, sp: nat, o: nat, argv: seq<CStr>, envp: seq<CStr>) {
    && WordIs(d, 0, |argv|)
    && PointersAt(d, 1, sp, o, argv, |argv|) && WordIs(d, 1 + |argv|, 0)
    && PointersAt(d, 2 + |argv|, sp, o + StrLen(argv), envp, |envp|) && WordIs(d, 2 + |argv| + |envp|, 0)
    && StringsAt(d, o, argv) && StringsAt(d, o + StrLen(argv), envp)
  }

  lemma WrittenKept(d: seq<byte>, d': seq<byte>, sp: nat, o: nat, argv: seq<CStr>, envp: seq<CStr>, w: nat)
    requires Written(d, sp, o, argv, envp) && w == 3 + |argv| + |envp|
    requires SameOn(d, d', 0, WORD * w) && SameOn(d, d', o, |d|)
    ensures Written(d', sp, o, argv, envp)
  {
    hide StrLen, StrBytes, Bytes, PointerAt, PointersAt, SameOn, WordIs;
    SameWord(d, d', 0, WORD * w, 0, |argv|);
    SamePointers(d, d', 0, WORD * w, 1, sp, o, argv, |argv|);
    SameWord(d, d', 0, WORD * w, 1 + |argv|, 0);
    SamePointers(d, d', 0, WORD * w, 2 + |argv|, sp, o + StrLen(argv), envp, |envp|);
    SameWord(d, d', 0, WORD * w, 2 + |argv| + |envp|, 0);
    SameStrings(d, d', o, |d|, o, argv);
    SameStrings(d, d', o, |d|, o + StrLen(argv), envp);
  }

  lemma WrittenSteps(d1: seq<byte>, d2: seq<byte>, d3: seq<byte>, d4: seq<byte>, d5: seq<byte>, sp: nat, o: nat,
                     argv: seq<CStr>, envp: seq<CStr>)
    requires WORD * (3 + |argv| + |envp|) <= o
    requires WordIs(d1, 0, |argv|) && Put(d1, d2, 1, sp, o, argv, |argv|)
    requires Patched(d2, d3, WORD * (1 + |argv|), Bytes(0, 8))
    requires Put(d3, d4, 2 + |argv|, sp, o + StrLen(argv), envp, |envp|)
    requires Patched(d4, d5, WORD * (2 + |argv| + |envp|), Bytes(0, 8))
    ensures Written(d5, sp, o, argv, envp)
  {
    hide StrLen, StrBytes, Bytes, PointerAt, PointersAt, WordIs;
    assert argv[..|argv|] == argv && envp[..|envp|] == envp;
    SameWord(d1, d2, 0, WORD, 0, |argv|);
    PatchKeepsWord(d2, d3, WORD * (1 + |argv|), Bytes(0, 8), 0, |argv|);
    PatchWord(d2, d3, 1 + |argv|, 0);
    assert SameOn(d2, d3, 0, WORD * (1 + |argv|));
    SamePointers(d2, d3, 0, WORD * (1 + |argv|), 1, sp, o, argv, |argv|);
    PatchKeepsStrings(d2, d3, WORD * (1 + |argv|), Bytes(0, 8), o, argv);
    SameWord(d3, d4, 0, WORD * (2 + |argv|), 0, |argv|);
    SameWord(d3, d4, 0, WORD * (2 + |argv|), 1 + |argv|, 0);
    SamePointers(d3, d4, 0, WORD * (2 + |argv|), 1, sp, o, argv, |argv|);
    SameStrings(d3, d4, WORD * (2 + |argv| + |envp|), o + StrLen(argv), o, argv);
    WrittenLast(d4, d5, sp, o, argv, envp);
  }

  lemma WrittenLast(d4: seq<byte>, d5: seq<byte>, sp: nat, o: nat, argv: seq<CStr>, envp: seq<CStr>)
    requires WORD * (3 + |argv| + |envp|) <= o
    requires WordIs(d4, 0, |argv|) && WordIs(d4, 1 + |argv|, 0)
    requires PointersAt(d4, 1, sp, o, argv, |argv|) && PointersAt(d4, 2 + |argv|, sp, o + StrLen(argv), envp, |envp|)
    requires StringsAt(d4, o, argv) && StringsAt(d4, o + StrLen(argv), envp)
    requires Patched(d4, d5, WORD * (2 + |argv| + |envp|), Bytes(0, 8))
    ensures Written(d5, sp, o, argv, envp)
  {
    hide StrLen, StrBytes, Bytes, PointerAt, PointersAt, WordIs, StringsAt;
    var w := 2 + |argv| + |envp|;
    assert SameOn(d4, d5, 0, WORD * w);
    PatchKeepsWord(d4, d5, WORD * w, Bytes(0, 8), 0, |argv|);
    PatchKeepsWord(d4, d5, WORD * w, Bytes(0, 8), 1 + |argv|, 0);
    PatchWord(d4, d5, w, 0);
    SamePointers(d4, d5, 0, WORD * w, 1, sp, o, argv, |argv|);
    SamePointers(d4, d5, 0, WORD * w, 2 + |argv|, sp, o + StrLen(argv), envp, |envp|);
    PatchKeepsStrings(d4, d5, WORD * w, Bytes(0, 8), o, argv);
    PatchKeepsStrings(d4, d5, WORD * w, Bytes(0, 8), o + StrLen(argv), envp);
  }

  /** The loop that adds up the string sizes. */
  method StringsSize(strs: seq<CStr>) returns (n: nat)
    ensures n == StrLen(strs)
  {
    n := 0;
    var i := 0;
    while i < |strs|
      invariant 0 <= i <= |strs| && n + StrLen(strs[i..]) == StrLen(strs)
    {
      assert strs[i..][1..] == strs[i + 1..];
      n := n + |strs[i]| + 1;
      i := i + 1;
    }
  }

  /** The argument count and both vectors with their strings. */
  method WriteVectors(data: array<byte>, sp: nat, o: nat, argv: seq<CStr>, envp: seq<CStr>)
    requires WORD * (3 + |argv| + |envp|) <= o && o + StrLen(argv) + StrLen(envp) <= data.Length
    modifies data
    ensures Written(data[..], sp, o, argv, envp)
  {
    hide StrLen, StrBytes, Bytes, PointersAt, WordIs, Put, SameOn, Patched, StringsAt, Written;
    ghost var d0 := data[..];
    var ok := WriteU64(data, 0, |argv|);
    assert ok;
    ghost var d1 := data[..];
    FirstWord(d0, d1, |argv|);
    var fits, cursor := PutStrings(data, 1, sp, o, argv);
    assert fits;
    ghost var d2 := data[..];
    ok := WriteU64(data, WORD * (1 + |argv|), 0);
    assert ok;
    ghost var d3 := data[..];
    fits, cursor := PutStrings(data, 2 + |argv|, sp, cursor, envp);
    assert fits;
    ghost var d4 := data[..];
    ok := WriteU64(data, WORD * (2 + |argv| + |envp|), 0);
    assert ok;
    ghost var d5 := data[..];
    WrittenSteps(d1, d2, d3, d4, d5, sp, o, argv, envp);
  }

  /** build_stack. It fails exactly when the image is larger than the stack: once that check is
      passed, no later overflow check can fail. */
  method BuildStack(top: nat, bottom: nat, argv: seq<CStr>, envp: seq<CStr>, aux: seq<Aux>) returns (r: Option<StackImage>)
    ensures r.None? <==> Total(argv, envp, |aux|) > (if top >= bottom then top - bottom else 0)
    ensures r.Some? ==> ImageOk(r.value.data, r.value.sp, argv, envp, aux)
    ensures r.Some? ==> var a := top - Total(argv, envp, |aux|); a >= 0 && r.value.sp == a - a % 16
  {
    hide StrLen, StrBytes, Bytes, PointersAt, WordIs, Put, SameOn, Patched, StringsAt, Written, AuxAt;
    var headerBytes := HeaderWords(|argv|, |envp|, |aux|) * WORD;
    var argSize := StringsSize(argv);
    var envSize := StringsSize(envp);
    var o := AlignUp16(headerBytes);
    var total := AlignUp16(o + (argSize + envSize));
    if total > (if top >= bottom then top - bottom else 0) { return None; }
    var sp := (top - total) / 16 * 16;
    var data := new byte[total](_ => 0);
    WriteVectors(data, sp, o, argv, envp);
    ghost var d := data[..];
    PutAux(data, 3 + |argv| + |envp|, aux);
    SameTail(d, data[..], WORD * HeaderWords(|argv|, |envp|, |aux|), o);
    WrittenKept(d, data[..], sp, o, argv, envp, 3 + |argv| + |envp|);
    WrittenImage(data[..], sp, argv, envp, aux);
    return Some(StackImage(sp, data[..]));
  }

  lemma FirstWord(d0: seq<byte>, d1: seq<byte>, v: nat)
    requires Patched(d0, d1, 0, Bytes(v, 8))
    ensures WordIs(d1, 0, v)
  {
    hide Bytes;
    PatchWord(d0, d1, 0, v);
  }

  lemma SameTail(d: seq<byte>, d': seq<byte>, a: nat, b: nat)
    requires a <= b && SameOn(d, d', a, |d|)
    ensures SameOn(d, d', b, |d|)
  {
  }

  lemma WrittenImage(d: seq<byte>, sp: nat, argv: seq<CStr>, envp: seq<CStr>, aux: seq<Aux>)
    requires |d| == Total(argv, envp, |aux|) && Written(d, sp, StringsOffset(|argv|, |envp|, |aux|), argv, envp)
    requires AuxAt(d, 3 + |argv| + |envp|, aux, |aux|)
    ensures ImageOk(d, sp, argv, envp, aux)
  {
    hide StrLen, StrBytes, Bytes, PointersAt, WordIs, StringsAt, AuxAt;
  }

  // ---------------------------------------------------------------- decoding

  /** The eight-byte word at address `a` of a stack image at `sp`. */
  function ReadWord(d: seq<byte>, sp: nat, a: nat): Option<nat> {
    if sp <= a && a + WORD <= sp + |d| then Some(Value(d[a - sp..a - sp + WORD])) else None
  }

  /** The NUL-terminated string at offset `o`. */
  function ReadString(d: seq<byte>, o: nat): Option<CStr>
    decreases if o <= |d| then |d| - o else 0
  {
    if o >= |d| then None
    else if d[o] == 0 then Some([])
    else
      var rest := ReadString(d, o + 1);
      if rest.None? then None else Some([d[o]] + rest.value)
  }

  /** Strings behind the pointers from word `w` on, up to the null pointer. */
  function ReadStrings(d: seq<byte>, sp: nat, w: nat): Option<seq<CStr>>
    decreases if WORD * w <= |d| then |d| - WORD * w else 0
  {
    var p := ReadWord(d, sp, sp + WORD * w);
    if p.None? then None
    else if p.value == 0 then Some([])
    else if p.value < sp then None
    else
      var s := ReadString(d, p.value - sp);
      var rest := ReadStrings(d, sp, w + 1);
      if s.None? || rest.None? then None else Some([s.value] + rest.value)
  }

  /** Key and value pairs from word `w` on, up to and with the null key. */
  function ReadAux(d: seq<byte>, sp: nat, w: nat): Option<seq<Aux>>
    decreases if WORD * w <= |d| then |d| - WORD * w else 0
  {
    var k, v := ReadWord(d, sp, sp + WORD * w), ReadWord(d, sp, sp + WORD * (w + 1));
    if k.None? || v.None? then None
    else if k.value == 0 then Some([Aux(0, v.value)])
    else
      var rest := ReadAux(d, sp, w + 2);
      if rest.None? then None else Some([Aux(k.value, v.value)] + rest.value)
  }

  datatype Decoded = Decoded(argc: nat, argv: seq<CStr>, envp: seq<CStr>, aux: seq<Aux>)

  /** What a program's entry code finds at its stack pointer. */
  function Decode(d: seq<byte>, sp: nat): Option<Decoded> {
    var argc := ReadWord(d, sp, sp);
    var argv := ReadStrings(d, sp, 1);
    if argc.None? || argv.None? then None
    else
      var envp := ReadStrings(d, sp, 2 + |argv.value|);
      if envp.None? then None
      else
        var aux := ReadAux(d, sp, 3 + |argv.value| + |envp.value|);
        if aux.None? then None else Some(Decoded(argc.value, argv.value, envp.value, aux.value))
  }

  predicate NulFree(s: CStr) { 0 !in s }

  predicate NulFrees(strs: seq<CStr>) { forall i :: 0 <= i < |strs| ==> NulFree(strs[i]) }

  /** The vector ends with its first null key, and everything fits a word. */
  predicate AuxOk(aux: seq<Aux>) {
    && aux != [] && aux[|aux| - 1].key == 0
    && (forall i :: 0 <= i < |aux| - 1 ==> aux[i].key != 0)
    && (forall i :: 0 <= i < |aux| ==> IsWord(aux[i].key) && IsWord(aux[i].value))
  }

  lemma WordRead(d: seq<byte>, sp: nat, w: nat, v: nat)
    requires WordIs(d, w, v) && IsWord(v)
    ensures ReadWord(d, sp, sp + WORD * w) == Some(v)
  {
    hide Bytes, Value, Pow256;
    ValueBytes(v, 8);
  }

  lemma {:induction false} StringRead(d: seq<byte>, o: nat, s: CStr)
    requires NulFree(s) && o + |s| + 1 <= |d| && d[o..o + |s| + 1] == s + [0]
    ensures ReadString(d, o) == Some(s)
    decreases |s|
  {
    assert d[o] == (s + [0])[0];
    if s != [] {
      assert d[o + 1..o + 1 + |s[1..]| + 1] == d[o..o + |s| + 1][1..] == s[1..] + [0];
      assert NulFree(s[1..]);
      StringRead(d, o + 1, s[1..]);
      assert s == [s[0]] + s[1..];
    }
  }

  /** String `i` of a stored list. */
  lemma {:induction false} StringAt(strs: seq<CStr>, i: nat)
    requires i < |strs|
    ensures StrLen(strs[..i]) + |strs[i]| + 1 <= StrLen(strs)
    ensures StrBytes(strs)[StrLen(strs[..i])..StrLen(strs[..i]) + |strs[i]| + 1] == strs[i] + [0]
  {
    if i == 0 {
      assert strs[..0] == [];
      assert StrBytes(strs)[..|strs[0]| + 1] == strs[0] + [0];
    } else {
      StringAt(strs[1..], i - 1);
      assert strs[..i][1..] == strs[1..][..i - 1];
      var b, n := StrBytes(strs), |strs[0]| + 1;
      assert b == (strs[0] + [0]) + StrBytes(strs[1..]);
      var a := StrLen(strs[1..][..i - 1]);
      assert b[n..] == StrBytes(strs[1..]);
      assert b[n + a..n + a + |strs[i]| + 1] == b[n..][a..a + |strs[i]| + 1];
    }
  }

  lemma StoredStringRead(d: seq<byte>, o: nat, strs: seq<CStr>, i: nat)
    requires StringsAt(d, o, strs) && i < |strs| && NulFree(strs[i])
    ensures ReadString(d, o + StrLen(strs[..i])) == Some(strs[i])
  {
    hide StrLen, StrBytes;
    StringAt(strs, i);
    var a := StrLen(strs[..i]);
    assert d[o + a..o + a + |strs[i]| + 1] == d[o..o + StrLen(strs)][a..a + |strs[i]| + 1];
    StringRead(d, o + a, strs[i]);
  }

  lemma {:induction false} StringsRead(d: seq<byte>, sp: nat, w: nat, o: nat, strs: seq<CStr>, i: nat)
    requires i <= |strs| && sp + o > 0 && IsWord(sp + |d|) && NulFrees(strs)
    requires PointersAt(d, w, sp, o, strs, |strs|) && WordIs(d, w + |strs|, 0) && StringsAt(d, o, strs)
    ensures ReadStrings(d, sp, w + i) == Some(strs[i..])
    decreases |strs| - i
  {
    hide StrLen, StrBytes, ReadWord, WordIs, ReadString, Pow256;
    if i == |strs| {
      ZeroWord();
      WordRead(d, sp, w + i, 0);
    } else {
      assert PointerAt(d, w, sp, o, strs, i);
      StrPrefix(strs, i);
      SmallWord(sp + (o + StrLen(strs[..i])), sp + |d|);
      WordRead(d, sp, w + i, sp + (o + StrLen(strs[..i])));
      StoredStringRead(d, o, strs, i);
      StringsRead(d, sp, w, o, strs, i + 1);
      assert strs[i..] == [strs[i]] + strs[i + 1..];
    }
  }

  lemma ZeroWord()
    ensures IsWord(0)
  {
  }

  lemma SmallWord(a: nat, b: nat)
    requires a <= b && IsWord(b)
    ensures IsWord(a)
  {
    hide Pow256;
  }

  lemma {:induction false} AuxRead(d: seq<byte>, sp: nat, w: nat, aux: seq<Aux>, i: nat)
    requires i < |aux| && AuxOk(aux) && AuxAt(d, w, aux, |aux|)
    ensures ReadAux(d, sp, w + i * 2) == Some(aux[i..])
    decreases |aux| - i
  {
    hide ReadWord, WordIs, IsWord;
    assert AuxWordsAt(d, w, aux, i);
    WordRead(d, sp, w + i * 2, aux[i].key);
    WordRead(d, sp, w + (i * 2 + 1), aux[i].value);
    if i == |aux| - 1 {
      assert aux[i..] == [aux[i]];
    } else {
      AuxRead(d, sp, w, aux, i + 1);
      assert aux[i..] == [aux[i]] + aux[i + 1..];
    }
  }

  /** The round trip: the program finds exactly the arguments, the environment and the auxiliary
      vector it was given. */
  lemma DecodeImage(d: seq<byte>, sp: nat, argv: seq<CStr>, envp: seq<CStr>, aux: seq<Aux>)
    requires ImageOk(d, sp, argv, envp, aux) && NulFrees(argv) && NulFrees(envp) && AuxOk(aux) && IsWord(sp + |d|)
    ensures Decode(d, sp) == Some(Decoded(|argv|, argv, envp, aux))
  {
    hide StrLen, StrBytes, ReadWord, WordIs, Pow256, ReadStrings, ReadAux, PointersAt, StringsAt, AuxAt, NulFrees;
    var o := StringsOffset(|argv|, |envp|, |aux|);
    HeaderFits(|argv|, |envp|, |aux|);
    TotalFits(argv, envp, |aux|);
    SmallWord(|argv|, sp + |d|);
    WordRead(d, sp, 0, |argv|);
    StringsRead(d, sp, 1, o, argv, 0);
    StringsRead(d, sp, 2 + |argv|, o + StrLen(argv), envp, 0);
    AuxRead(d, sp, 3 + |argv| + |envp|, aux, 0);
    assert argv[0..] == argv && envp[0..] == envp && aux[0..] == aux;
  }

  /** The strings start behind the header. */
  lemma HeaderFits(argc: nat, envc: nat, auxc: nat)
    ensures StringsOffset(argc, envc, auxc) >= WORD * HeaderWords(argc, envc, auxc) && StringsOffset(argc, envc, auxc) > argc
  {
  }

  lemma TotalFits(argv: seq<CStr>, envp: seq<CStr>, auxc: nat)
    ensures Total(argv, envp, auxc) >= StringsOffset(|argv|, |envp|, auxc) + (StrLen(argv) + StrLen(envp))
    ensures Total(argv, envp, auxc) % 16 == 0
  {
    hide StrLen, StringsOffset;
  }

  /** How large the image is: the words, up to the next multiple of 16, and the strings with their NULs, up
      to the next multiple of 16. */
  lemma LayoutIs(argv: seq<CStr>, envp: seq<CStr>, auxc: nat)
    ensures var header, o, total := 8 * (3 + |argv| + |envp| + 2 * auxc), StringsOffset(|argv|, |envp|, auxc), Total(argv, envp, auxc);
      && o % 16 == 0 && header <= o < header + 16
      && total % 16 == 0 && o + StrLen(argv) + StrLen(envp) <= total < o + StrLen(argv) + StrLen(envp) + 16
  {
    hide StrLen, AlignUp16;
  }

  /** Strings never overlap the header or one another: the header ends before the first string, and
      every string ends before the next begins. */
  lemma NoOverlap(argv: seq<CStr>, envp: seq<CStr>, auxc: nat, i: nat, j: nat)
    requires i < j < |argv + envp|
    ensures var o := StringsOffset(|argv|, |envp|, auxc); var all := argv + envp;
      && WORD * HeaderWords(|argv|, |envp|, auxc) <= o
      && (o + StrLen(all[..i])) + |all[i]| + 1 <= o + StrLen(all[..j])
  {
    hide StrLen, AlignUp16;
    HeaderFits(|argv|, |envp|, auxc);
    var all := argv + envp;
    StrPrefix(all[..j], i + 1);
    assert all[..j][..i + 1] == all[..i] + [all[i]];
    StrAppend(all[..i], all[i]);
  }

  /** Where the stack pointer ends up: 16-aligned, and inside the stack whenever either end of the
      stack is 16-aligned. */
  lemma StackPointerInside(top: nat, bottom: nat, total: nat, sp: nat)
    requires total % 16 == 0 && bottom + total <= top && sp == (top - total) - (top - total) % 16
    ensures sp % 16 == 0 && sp + total <= top
    ensures top % 16 == 0 || bottom % 16 == 0 ==> bottom <= sp
    ensures top % 16 == 0 ==> sp + total == top
  {
  }

  /** build_auxiliary, with the values it takes from the ELF header. */
  function BuildAuxiliary(phoff: nat, phentsize: nat, phnum: nat, entry: nat, argc: nat, envc: nat): seq<Aux> {
    [Aux(3, phoff), Aux(4, phentsize), Aux(5, phnum), Aux(6, 4096), Aux(7, 0), Aux(9, entry), Aux(11, 0), Aux(12, 0),
     Aux(13, 0), Aux(14, 0), Aux(17, argc), Aux(23, envc), Aux(0, 0)]
  }

  /** What a program finds in its vector: the program headers under keys 3, 4 and 5, the page size under 6,
      the entry point under 9, the numbers of arguments and of environment strings under 17 and 23, zero
      under 7, 11 to 14 and at the end, and nothing else. */
  lemma AuxiliaryValues(d: seq<byte>, sp: nat, argv: seq<CStr>, envp: seq<CStr>, phoff: nat, phentsize: nat, phnum: nat, entry: nat,
                        key: nat, v: nat)
    requires IsWord(phoff) && IsWord(phentsize) && IsWord(phnum) && IsWord(entry) && IsWord(sp + |d|) && NulFrees(argv) && NulFrees(envp)
    requires ImageOk(d, sp, argv, envp, BuildAuxiliary(phoff, phentsize, phnum, entry, |argv|, |envp|))
    ensures Decode(d, sp).Some? && Decode(d, sp).value.argc == |argv|
    ensures Aux(key, v) in Decode(d, sp).value.aux <==>
            || (key == 3 && v == phoff) || (key == 4 && v == phentsize) || (key == 5 && v == phnum)
            || (key == 6 && v == 4096) || (key == 9 && v == entry) || (key == 17 && v == |argv|) || (key == 23 && v == |envp|)
            || ((key == 7 || 11 <= key <= 14 || key == 0) && v == 0)
  {
    hide ImageOk, Decode, NulFrees, AuxOk, IsWord;
    var aux := BuildAuxiliary(phoff, phentsize, phnum, entry, |argv|, |envp|);
    CountsFit(d, sp, argv, envp, aux);
    BuildAuxiliaryOk(phoff, phentsize, phnum, entry, |argv|, |envp|);
    DecodeImage(d, sp, argv, envp, aux);
  }

  lemma CountsFit(d: seq<byte>, sp: nat, argv: seq<CStr>, envp: seq<CStr>, aux: seq<Aux>)
    requires ImageOk(d, sp, argv, envp, aux) && IsWord(sp + |d|)
    ensures IsWord(|argv|) && IsWord(|envp|)
  {
    hide StrLen, StrBytes, WordIs, Pow256, PointersAt, StringsAt, AuxAt;
    TotalFits(argv, envp, |aux|);
  }

  lemma BuildAuxiliaryOk(phoff: nat, phentsize: nat, phnum: nat, entry: nat, argc: nat, envc: nat)
    requires IsWord(phoff) && IsWord(phentsize) && IsWord(phnum) && IsWord(entry) && IsWord(argc) && IsWord(envc)
    ensures AuxOk(BuildAuxiliary(phoff, phentsize, phnum, entry, argc, envc))
  {
    WordRange();
    hide Pow256;
  }

  lemma WordRange()
    ensures Pow256(8) == 0x1_0000_0000_0000_0000
  {
    assert Pow256(4) == 0x1_0000_0000;
  }
}
