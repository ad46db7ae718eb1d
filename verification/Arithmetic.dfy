/** Facts about products, remainders and set sizes, proved once and away from everything else. */
module Arithmetic {

  type byte = x: int | 0 <= x < 256

  lemma DivideBack(i: int, s: int)
    requires s >= 1
    ensures (i * s) / s == i && (i * s) % s == 0
  {
    var q, r := (i * s) / s, (i * s) % s;
    assert i * s == q * s + r;
    assert (i - q) * s == r;
    assert i - q >= 1 ==> (i - q) * s >= s;
    assert i - q <= -1 ==> (i - q) * s <= -s;
  }

  lemma DivMod(x: int, s: int)
    requires s >= 1 && x % s == 0
    ensures x == (x / s) * s
  {
  }

  lemma Scale(m: int, n: int, s: int)
    requires s >= 1
    ensures m < n ==> m * s + s <= n * s
    ensures m * s < n * s ==> m < n
  {
    assert n - m >= 1 ==> (n - m) * s >= s;
    assert n - m <= 0 ==> (n - m) * s <= 0;
  }

  lemma SubsetSize(A: set<int>, B: set<int>)
    requires A <= B
    ensures |A| <= |B|
  {
    assert B == A + (B - A);
  }
}
