/** The unsigned words that the C code computes with. */
module Word {
  const TWO_64: int := 0x1_0000_0000_0000_0000

  type u64 = x: int | 0 <= x < 0x1_0000_0000_0000_0000

  /** The value a uint64_t holds after an arithmetic step whose exact result is x. */
  function Wrap(x: int): u64 {
    x % TWO_64
  }

  const TWO_32: int := 0x1_0000_0000

  type u32 = x: int | 0 <= x < 0x1_0000_0000

  function Wrap32(x: int): u32 {
    x % TWO_32
  }

  /** Sums may be wrapped at every step or once. */
  lemma Wrap32Sum(a: int, b: int)
    ensures Wrap32(Wrap32(a) + b) == Wrap32(Wrap32(a) + Wrap32(b)) == Wrap32(a + b)
  {
  }

  lemma WrapBelow(x: int)
    requires 0 <= x < TWO_64
    ensures Wrap(x) == x
  {
  }

  /** One wrap too many or one too few. */
  lemma WrapOnce(x: int)
    requires TWO_64 <= x < 2 * TWO_64 || -TWO_64 <= x < 0
    ensures Wrap(x) == if x < 0 then x + TWO_64 else x - TWO_64
  {
  }
}
