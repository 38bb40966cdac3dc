/** Numbering the lanes of several vectors consecutively, modulo the number of values of a lane. */
module Numbering {

  /** Lane j of vector i, when n lanes are numbered per vector, from `first`. */
  function Element(n: nat, first: nat, modulus: nat, i: nat, j: nat): (r: nat)
    requires modulus > 0
    ensures r < modulus
  {
    (i * n + first + j) % modulus
  }

  /** Different lanes have different numbers. */
  ghost predicate AllDifferent(n: nat, first: nat, modulus: nat, num: nat)
    requires modulus > 0
  {
    forall i, j, i', j' | 0 <= i < num && 0 <= j < n && 0 <= i' < num && 0 <= j' < n ::
      Element(n, first, modulus, i, j) == Element(n, first, modulus, i', j') ==> i == i' && j == j'
  }

  lemma RowsAscend(i: nat, k: nat, n: nat)
    ensures i <= k ==> i * n <= k * n
    ensures i < k ==> i * n + n <= k * n
  {
    if i < k {
      assert (i + 1) * n <= k * n;
    }
  }

  lemma PositionBound(n: nat, num: nat, i: nat, j: nat)
    requires i < num && j < n
    ensures i * n + j < num * n
  {
    RowsAscend(i, num, n);
  }

  lemma PositionUnique(n: nat, i: nat, j: nat, i': nat, j': nat)
    requires j < n && j' < n && i * n + j == i' * n + j'
    ensures i == i' && j == j'
  {
    RowsAscend(i, i', n);
    RowsAscend(i', i, n);
  }

  lemma SameRow(q: nat, q': nat, r: nat, m: nat)
    requires r < m && q * m + r <= q' * m + r < q * m + r + m
    ensures q == q'
  {
    RowsAscend(q, q', m);
    RowsAscend(q', q, m);
  }

  lemma DivMod(x: nat, m: nat)
    requires m > 0
    ensures x == (x / m) * m + x % m
  {
  }

  /** Numbers with the same remainder that are less than the modulus apart are equal. */
  lemma SameRemainder(x: nat, y: nat, m: nat)
    requires m > 0 && x <= y < x + m && x % m == y % m
    ensures x == y
  {
    DivMod(x, m);
    DivMod(y, m);
    SameRow(x / m, y / m, x % m, m);
  }

  lemma {:induction false} NumbersDiffer(x: nat, y: nat, m: nat)
    requires m > 0 && x % m == y % m && x < y + m && y < x + m
    ensures x == y
  {
    if x <= y {
      SameRemainder(x, y, m);
    } else {
      SameRemainder(y, x, m);
    }
  }

  /** The lanes have different numbers exactly if there are at most as many as values. */
  lemma DifferentIffTheyFit(n: nat, first: nat, modulus: nat, num: nat)
    requires modulus > 0
    ensures AllDifferent(n, first, modulus, num) <==> num * n <= modulus
  {
    if num * n <= modulus {
      forall i, j, i', j' | 0 <= i < num && 0 <= j < n && 0 <= i' < num && 0 <= j' < n
        ensures Element(n, first, modulus, i, j) == Element(n, first, modulus, i', j') ==> i == i' && j == j'
      {
        ElementsDiffer(n, first, modulus, num, i, j, i', j');
      }
    } else {
      Wraps(n, first, modulus, num);
    }
  }

  lemma ElementsDiffer(n: nat, first: nat, modulus: nat, num: nat, i: nat, j: nat, i': nat, j': nat)
    requires modulus > 0 && num * n <= modulus && i < num && j < n && i' < num && j' < n
    ensures Element(n, first, modulus, i, j) == Element(n, first, modulus, i', j') ==> i == i' && j == j'
  {
    if Element(n, first, modulus, i, j) == Element(n, first, modulus, i', j') {
      PositionBound(n, num, i, j);
      PositionBound(n, num, i', j');
      NumbersDiffer(i * n + first + j, i' * n + first + j', modulus);
      PositionUnique(n, i, j, i', j');
    }
  }

  lemma AddModulus(x: nat, m: nat)
    requires m > 0
    ensures (x + m) % m == x % m
  {
    var y := x + m;
    DivMod(x, m);
    DivMod(y, m);
    RowSum(x / m, m);
    PositionUnique(m, x / m + 1, x % m, y / m, y % m);
  }

  lemma RowSum(q: nat, m: nat)
    ensures (q + 1) * m == q * m + m
  {
  }

  /** Too many lanes: the number of the one at position `modulus` is that of the first one. */
  lemma Wraps(n: nat, first: nat, modulus: nat, num: nat)
    requires modulus > 0 && num * n > modulus
    ensures !AllDifferent(n, first, modulus, num)
  {
    assert n > 0 && num > 0 by {
      assert n == 0 ==> num * n == 0;
      assert num == 0 ==> num * n == 0;
    }
    var i, j := modulus / n, modulus % n;
    assert modulus == i * n + j;
    RowsAscend(num, i, n);
    assert Element(n, first, modulus, i, j) == (first + modulus) % modulus;
    AddModulus(first, modulus);
    assert Element(n, first, modulus, 0, 0) == first % modulus;
    assert i != 0 || j != 0;
  }
}
