/** Lists of addresses or identifiers, read off a chain that ends at 0. */
module Lists {

  /** The k-th element, or 0 behind the end. */
  function At(L: seq<int>, k: int): int { if 0 <= k < |L| then L[k] else 0 }

  ghost predicate Distinct(L: seq<int>) { forall i, j :: 0 <= i < j < |L| ==> L[i] != L[j] }
}
