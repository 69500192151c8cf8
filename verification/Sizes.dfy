/** Lengths of buffers made of equal rows. */
module Sizes {
  // The length of k rows of n words.
  function Words(k: nat, n: nat): nat
    decreases k
  {
    if k == 0 then 0 else n + Words(k - 1, n)
  }

  lemma {:induction false} WordsProduct(k: nat, n: nat)
    ensures Words(k, n) == k * n
  {
    if k > 0 { WordsProduct(k - 1, n); }
  }

  lemma {:induction false} RowFits(i: int, k: nat, n: nat)
    requires 0 <= i < k
    ensures Words(i, n) + n <= Words(k, n)
    decreases k
  {
    if i < k - 1 { RowFits(i, k - 1, n); }
  }
}
