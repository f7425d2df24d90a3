/** The optional value, the 32-bit counter and the counting fact shared by the components of the model. */
module Wrappers {
  datatype Option<+T> = None | Some(value: T)

  const U32_MAX: nat := 0xffff_ffff

  /** `saturating_add(1)` on u32 */
  function SaturatingIncrement(n: nat): nat {
    if n >= U32_MAX then U32_MAX else n + 1
  }

  lemma SubsetSize<T>(a: set<T>, b: set<T>)
    requires a <= b
    ensures |a| <= |b|
  {
    assert b == a + (b - a);
  }
}
