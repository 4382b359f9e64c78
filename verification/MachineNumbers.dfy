/** Bytes and the unsigned widths that the hash classes count with. */
module MachineNumbers {

  type Byte = bv8

  const SIZE_MODULUS := 0x1_0000_0000_0000_0000
  const UINT32_MODULUS := 0x1_0000_0000

  /** A size_t; counting wraps around. */
  type Size = n: nat | n < SIZE_MODULUS

  /** How far the two widths count. */
  lemma ExactBelow(n: nat)
    ensures n % SIZE_MODULUS == n <==> n < 0x1_0000_0000_0000_0000
    ensures n % UINT32_MODULUS == n <==> n < 0x1_0000_0000
  {
  }

  /** Counting one more, around the end. */
  lemma CountsOn(start: nat, n: nat)
    ensures ((start + n) % SIZE_MODULUS + 1) % SIZE_MODULUS == (start + n + 1) % SIZE_MODULUS
  {
  }

  function Power256(place: nat): (p: nat)
    ensures p > 0
  {
    if place == 0 then 1 else 256 * Power256(place - 1)
  }

  lemma QuotientIs(n: int, d: int, q: int, r: int)
    requires d > 0 && r >= 0 && n == d * q + r && r < d
    ensures n / d == q && n % d == r
  {
    var t := n / d - q;
    assert d * t == r - n % d;
    ProductBounds(d, t);
  }

  lemma ProductBounds(d: int, t: int)
    requires d > 0
    ensures (t >= 1 ==> d * t >= d) && (t <= -1 ==> d * t <= -d)
  {
  }

  /** A residue by its leading digit. */
  lemma LeadingDigit(n: nat, p: nat)
    requires p > 0
    ensures n % (256 * p) == p * (n / p % 256) + n % p
  {
    var q, d, r := n / p / 256, n / p % 256, n % p;
    Distributes(p, 256 * q, d);
    Associates(256, p, q);
    Distributes(p, d, 255 - d);
    QuotientIs(n, 256 * p, q, p * d + r);
  }

  lemma Distributes(x: int, y: int, z: int)
    ensures x * (y + z) == x * y + x * z
  {
  }

  lemma Associates(x: int, y: int, z: int)
    ensures x * y * z == x * (y * z) == y * (x * z)
  {
  }
}
