/**
  Machine words and the few notions several components share.
 */
module Common {

  /** Values of a 64-bit word are numbers below this. */
  const WORD: nat := 0x1_0000_0000_0000_0000

  const WORD32: nat := 0x1_0000_0000

  const HCA_VERSION_200: nat := 0x0200

  /** The signed reading of a word. */
  function ToInt64(u: nat): int
  {
    if u < WORD / 2 then u else u - WORD
  }

  function Pow2(n: nat): (p: nat)
    ensures p > 0
  {
    if n == 0 then 1 else 2 * Pow2(n - 1)
  }

  lemma {:induction false} Pow2Add(i: nat, j: nat)
    ensures Pow2(i + j) == Pow2(i) * Pow2(j)
  {
    if i > 0 {
      Pow2Add(i - 1, j);
      assert Pow2(i) * Pow2(j) == 2 * (Pow2(i - 1) * Pow2(j));
    }
  }

  function Min(a: nat, b: nat): nat { if a <= b then a else b }
}
