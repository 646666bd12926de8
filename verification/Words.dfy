/** Fixed-width unsigned integers of the media engine. Wrap-around is always written out as a `%`. */
module Words {
  const TWO15 := 0x8000
  const TWO16 := 0x1_0000
  const TWO32 := 0x1_0000_0000
  const TWO48 := 0x1_0000_0000_0000
  const TWO64 := 0x1_0000_0000_0000_0000

  type u8 = n: nat | n < 256
  type u16 = n: nat | n < TWO16
  type u32 = n: nat | n < TWO32
  type u64 = n: nat | n < TWO64

  /** The 16 bits of an unbounded packet number that travel in the RTP header. */
  function Low16(n: nat): u16 { n % TWO16 }

  /** Strictly increasing numbers. */
  ghost predicate Rising(ns: seq<nat>) {
    forall i, j :: 0 <= i < j < |ns| ==> ns[i] < ns[j]
  }
}
