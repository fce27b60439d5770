/** The fixed-width integers the acquisition path stores and computes with. */
module MachineWords {
  const TWO16 := 0x1_0000
  const TWO24 := 0x100_0000
  const TWO31 := 0x8000_0000
  const TWO32 := 0x1_0000_0000
  const TWO63 := 0x8000_0000_0000_0000
  const TWO64 := 0x1_0000_0000_0000_0000

  /** int32_t, the element type of both streams. */
  type Word = x: int | -TWO31 <= x < TWO31

  /** Conversion to uint64_t and to uint32_t. */
  function U64(x: int): (r: nat) ensures r < TWO64 { x % TWO64 }

  function U32(x: int): (r: nat) ensures r < TWO32 { x % TWO32 }

  /** Conversion of an unsigned value to int64_t and to int32_t. */
  function S64(x: int): (r: int)
    ensures -0x8000_0000_0000_0000 <= r < 0x8000_0000_0000_0000
  {
    var u := x % TWO64;
    if u >= TWO63 then u - TWO64 else u
  }

  function S32(x: int): (r: Word)
    ensures -0x8000_0000 <= r < 0x8000_0000
  {
    var u := x % TWO32;
    if u >= TWO31 then u - TWO32 else u
  }

  /** Bit fields of a word: octet 0, octets 1 to 3, octet 3, octets 0 to 2. */
  function LowOctet(w: Word): (r: nat) ensures r < 256 { w % 256 }

  function AboveLow(w: Word): (r: nat) ensures r < TWO24 { w / 256 % TWO24 }

  function TopOctet(w: Word): (r: nat) ensures r < 256 { w / TWO24 % 256 }

  function Low24(w: Word): (r: nat) ensures r < TWO24 { w % TWO24 }

  /** A count of words that is a whole number of 16-word hunks, which is how the card hands them out. */
  predicate Whole(n: int) {
    n % 16 == 0
  }

  lemma WholeSum(a: int, b: int)
    requires Whole(a) && Whole(b)
    ensures Whole(a + b) && Whole(a - b)
  {
  }

  /** A whole count is zero or at least one hunk, and one hunk less is whole again. */
  lemma WholeLess(a: nat)
    requires Whole(a)
    ensures a == 0 || (a >= 16 && Whole(a - 16))
  {
  }

  /** Quotient and remainder are unique. */
  lemma QuotientAndRemainder(n: int, m: nat, q: int, r: nat)
    requires r < m && n == q * m + r
    ensures n / m == q && n % m == r
  {
    var e := n / m - q;
    assert e * m == r - n % m;
    NoMultipleBetween(e, m);
  }

  lemma NoMultipleBetween(e: int, m: nat)
    ensures e > 0 ==> e * m >= m
    ensures e < 0 ==> e * m <= 0 - m
  {
  }
}
