/** What all the models share: machine numbers, options, powers. */
module Basics {

  type byte = x: int | 0 <= x < 0x100
  type uint64 = x: int | 0 <= x < 0x1_0000_0000_0000_0000

  const MOD64 := 0x1_0000_0000_0000_0000

  datatype Option<+T> = None | Some(value: T)

  /** The powers of two up to the size of a word, as alignments are. */
  predicate PowerOfTwo(a: int) { a == 1 || a == 2 || a == 4 || a == 8 }

  function Power(b: int, n: nat): int { if n == 0 then 1 else b * Power(b, n - 1) }

  lemma {:induction false} PowerAdd(b: int, m: nat, n: nat)
    ensures Power(b, m + n) == Power(b, m) * Power(b, n)
  {
    if m > 0 {
      PowerAdd(b, m - 1, n);
      var x, y := Power(b, m - 1), Power(b, n);
      assert (b * x) * y == b * (x * y);
    }
  }
}
