/** Shared vocabulary: bytes, blocks, optional values and the kernel's error codes. */
module Common {
  type byte = x: int | 0 <= x < 256

  type Block = seq<byte>

  datatype Option<+T> = None | Some(value: T)

  /** The negative return codes of types.h. */
  datatype Error = Invalid | NotFound | NoMemory | Busy

  datatype Result<+T> = Ok(value: T) | Err(error: Error)

  function Min(a: int, b: int): int { if a <= b then a else b }

  function Max(a: int, b: int): int { if a <= b then b else a }
}

/** The few facts about multiplication and division by a variable that the proofs need. */
module Arith {
  lemma MulAtLeast(e: int, d: int)
    requires d >= 0
    ensures e >= 1 ==> e * d >= d
    ensures e <= -1 ==> e * d <= -d
  {
    if e >= 1 {
      assert e * d == (e - 1) * d + d;
    } else if e <= -1 {
      assert e * d == (e + 1) * d - d;
    }
  }

  lemma DivModUnique(q: nat, r: nat, d: nat)
    requires r < d
    ensures (q * d + r) / d == q && (q * d + r) % d == r
  {
    var x := q * d + r;
    var p := x / d;
    assert x == p * d + x % d;
    assert (q - p) * d == q * d - p * d;
    MulAtLeast(q - p, d);
  }

  lemma MultipleMod(q: nat, d: nat)
    requires d > 0
    ensures q * d % d == 0 && q * d >= 0 && q * d / d == q
  {
    DivModUnique(q, 0, d);
    MulAtLeast(q, d);
  }

  lemma MulMono(a: nat, b: nat, c: nat)
    requires a <= b
    ensures a * c <= b * c
  {
    assert (b - a) * c == b * c - a * c;
    MulAtLeast(b - a, c);
  }

  lemma Distribute(a: nat, q: nat, b: nat, p: nat)
    ensures (a * q + b) * p == a * (p * q) + b * p
  {
    assert a * q * p == a * (p * q);
  }

  lemma DigitBound(b: nat, r: nat, p: nat, q: nat)
    requires b < q && r < p
    ensures b * p + r < p * q
  {
    MulMono(b + 1, q, p);
    assert (b + 1) * p == b * p + p;
  }

  lemma DivModIs(e: nat, a: nat, m: nat, s: nat)
    requires s < m && e == a * m + s
    ensures e / m == a && e % m == s
  {
    DivModUnique(a, s, m);
  }

  lemma DivModSame(x: nat, y: nat, n: nat)
    requires n > 0 && x / n == y / n && x % n == y % n
    ensures x == y
  {
    assert x == (x / n) * n + x % n && y == (y / n) * n + y % n;
  }

  lemma TwoDigits(h: nat, r: nat, a: nat, b: nat, p: nat, q: nat)
    requires h == a * q + b && b < q && r < p
    ensures b * p + r < p * q && h * p + r == a * (p * q) + (b * p + r)
  {
    DigitBound(b, r, p, q);
    Distribute(a, q, b, p);
  }

  lemma SplitDigits(e: nat, m: nat, s: nat, a: nat, b: nat, r: nat, p: nat)
    requires e == a * m + s && s < m && s == b * p + r && r < p
    ensures e / m == a && e % m == s && s / p == b
  {
    DivModIs(e, a, m, s);
    DivModIs(s, b, p, r);
  }

  /** Cutting off high digits and then low ones, or the other way round. */
  lemma ModThenDiv(e: nat, p: nat, q: nat)
    requires p > 0 && q > 0
    ensures p * q > 0 && e % (p * q) / p == e / p % q
    ensures e % (p * q) == e / p % q * p + e % p && e / (p * q) == e / p / q
  {
    var h, r := e / p, e % p;
    TwoDigits(h, r, h / q, h % q, p, q);
    SplitDigits(e, p * q, h % q * p + r, h / q, h % q, r, p);
  }
}

/** Lists of identifiers without repetition. */
module Lists {
  predicate NoDup(q: seq<nat>) { forall i, j :: 0 <= i < j < |q| ==> q[i] != q[j] }

  lemma AppendNoDup(q: seq<nat>, x: nat)
    requires NoDup(q) && x !in q
    ensures NoDup(q + [x])
  {
  }

  /** `q` without any `t`, otherwise in order. */
  function Without(q: seq<nat>, t: nat): seq<nat> {
    if q == [] then [] else if q[0] == t then Without(q[1..], t) else [q[0]] + Without(q[1..], t)
  }

  lemma PopQueue(q: seq<nat>)
    requires NoDup(q) && q != []
    ensures NoDup(q[1..]) && q[0] !in q[1..] && forall x :: x in q <==> x == q[0] || x in q[1..]
  {
    assert q == [q[0]] + q[1..];
  }

  lemma {:induction false} WithoutOk(q: seq<nat>, t: nat)
    ensures forall x :: x in Without(q, t) <==> x in q && x != t
    ensures NoDup(q) ==> NoDup(Without(q, t))
  {
    if q != [] {
      WithoutOk(q[1..], t);
      assert q == [q[0]] + q[1..];
      if NoDup(q) { PopQueue(q); }
    }
  }
}
