/** Integers as 64-bit floats: conversion keeps 53 binary digits and rounds to even. */
module Floats {

  const LIMIT: int := 0x20_0000_0000_0000

  /** The first 53 digits of a number. */
  function Digits(n: nat): (q: nat)
    ensures n >= LIMIT ==> q >= LIMIT / 2
    ensures n < LIMIT ==> q == n
  {
    if n < LIMIT then n else if n / 2 < LIMIT then n / 2 else Digits(n / 2)
  }

  /** What stands behind them, and the weight of the last of them. */
  function Dropped(n: nat): nat {
    if n < LIMIT then 0 else 2 * Dropped(n / 2) + n % 2
  }

  function Weight(n: nat): nat {
    if n < LIMIT then 1 else 2 * Weight(n / 2)
  }

  /** `q` with as many digits behind it as `n` has behind its first 53. */
  function Padded(n: nat, q: nat): (r: nat)
    ensures n < LIMIT ==> r == q
    ensures n >= LIMIT ==> r >= 2 * q
  {
    if n < LIMIT then q else 2 * Padded(n / 2, q)
  }

  /** The nearest number with 53 digits, the even one of two. */
  function Rounded(n: nat): nat {
    var q, twice, w := Digits(n), 2 * Dropped(n), Weight(n);
    Padded(n, if twice > w || (twice == w && q % 2 == 1) then q + 1 else q)
  }

  function ToFloat(i: int): real {
    if i >= 0 then Rounded(i) as real else -(Rounded(-i) as real)
  }

  lemma {:induction false} SmallIsItself(n: nat)
    requires n < LIMIT
    ensures Rounded(n) == n
  {
  }

  lemma {:induction false} BigStaysBig(n: nat)
    requires n >= LIMIT
    ensures Rounded(n) >= LIMIT
  {
  }

  /** Below 2^53 an integer is its own float, and no other integer has that float. */
  lemma {:induction false} SmallIsExact(i: int, j: int)
    requires -LIMIT < i < LIMIT && ToFloat(i) == ToFloat(j)
    ensures i == j && ToFloat(i) == i as real
  {
    if -LIMIT < j < LIMIT {
      SmallIsItself(if j < 0 then -j else j);
    } else {
      BigStaysBig(if j < 0 then -j else j);
    }
    SmallIsItself(if i < 0 then -i else i);
  }

  /** From 2^53 on, different integers can have the same float. */
  lemma {:induction false} LargeCollide()
    ensures ToFloat(LIMIT) == ToFloat(LIMIT + 1) == LIMIT as real
  {
    assert Rounded(LIMIT) == LIMIT;
    assert Rounded(LIMIT + 1) == LIMIT;
  }

  predicate PowerOfTwo(w: nat) {
    w == 1 || (w > 1 && w % 2 == 0 && PowerOfTwo(w / 2))
  }

  lemma {:induction false} Twice(a: int, b: int)
    ensures a * (2 * b) == 2 * (a * b)
  {
  }

  /** A number is its first 53 digits, padded, and what stands behind them. */
  lemma {:induction false} Parts(n: nat)
    ensures PowerOfTwo(Weight(n)) && n == Digits(n) * Weight(n) + Dropped(n) && Dropped(n) < Weight(n)
    ensures Digits(n) < LIMIT && (n >= LIMIT ==> Digits(n) >= LIMIT / 2)
  {
    if n >= LIMIT {
      Parts(n / 2);
      assert Digits(n) == Digits(n / 2);
      assert Weight(n) / 2 == Weight(n / 2);
      Twice(Digits(n), Weight(n / 2));
    }
  }

  lemma {:induction false} PaddedIs(n: nat, q: nat)
    ensures Padded(n, q) == q * Weight(n)
  {
    if n >= LIMIT {
      PaddedIs(n / 2, q);
      Twice(q, Weight(n / 2));
    }
  }

  lemma {:induction false} Scale(a: nat, b: nat, w: nat)
    requires a <= b
    ensures a * w <= b * w
  {
    assert b * w == a * w + (b - a) * w;
  }

  lemma {:induction false} Bounds(lo: nat, hi: nat, d: nat, w: nat, r: nat)
    requires lo <= d < hi && r < w
    ensures lo * w <= d * w + r < hi * w
  {
    Scale(lo, d, w);
    Scale(d + 1, hi, w);
    assert (d + 1) * w == d * w + w;
  }

  /** One of two neighbouring multiples of `w`: the nearer one, or the even one. */
  lemma {:induction false} Nearer(d: nat, w: nat, r: nat, q: nat)
    requires r < w && q == if 2 * r > w || (2 * r == w && d % 2 == 1) then d + 1 else d
    ensures
      var off := q * w - (d * w + r);
      -(w as int) <= 2 * off <= w && (2 * off == w || 2 * off == -(w as int) ==> q % 2 == 0)
  {
    assert (d + 1) * w == d * w + w;
  }

  /**
   * Conversion rounds to the nearest float, and to the even one of two: with `w` the weight of the last of 53 binary
   * digits, the float is a multiple `q` of `w` at most half of `w` away, and an even multiple if it is just half away.
   */
  lemma {:induction false} NearestEven(i: int) returns (w: nat, q: nat)
    ensures var n := if i < 0 then -i else i;
      && PowerOfTwo(w) && (if n < LIMIT then w == 1 else LIMIT / 2 * w <= n < LIMIT * w)
      && var off := q * w - n;
         -(w as int) <= 2 * off <= w && (2 * off == w || 2 * off == -(w as int) ==> q % 2 == 0)
    ensures ToFloat(i) == if i < 0 then -((q * w) as real) else (q * w) as real
  {
    var n: nat := if i < 0 then -i else i;
    Parts(n);
    var d, r := Digits(n), Dropped(n);
    w := Weight(n);
    q := if 2 * r > w || (2 * r == w && d % 2 == 1) then d + 1 else d;
    PaddedIs(n, q);
    Nearer(d, w, r, q);
    if n >= LIMIT {
      Bounds(LIMIT / 2, LIMIT, d, w, r);
    }
  }
}
