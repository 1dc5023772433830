// Byte strings and the conversions between bytes and numbers that several formats share.
module ByteStrings {
  type Bytes = seq<bv8>

  // Byte to number and back, a sixteenth of the range at a time.
  lemma NarrowWiden(n: int)
    requires 0 <= n < 256
    ensures (n as bv8) as int == n
  {
    match n / 16
    case 0 => case 1 => case 2 => case 3 => case 4 => case 5 => case 6 => case 7 =>
    case 8 => case 9 => case 10 => case 11 => case 12 => case 13 => case 14 => case _ =>
  }

  lemma WidenNarrow(x: bv8)
    ensures (x as nat) as bv8 == x
  {}

  // One more than the largest number n bytes can hold.
  function Pow256(n: nat): (p: nat)
    ensures p > 0
  {
    if n == 0 then 1 else 256 * Pow256(n - 1)
  }

  lemma DivideTwice(x: nat, d: nat)
    requires d > 0
    ensures x / 256 / d == x / (256 * d)
  {
    var q := x / 256 / d;
    var r := x / 256 - q * d;
    assert x == 256 * (q * d + r) + x % 256;
    assert 256 * r + x % 256 < 256 * d;
    assert x == q * (256 * d) + (256 * r + x % 256);
    Quotient(x, 256 * d, q, 256 * r + x % 256);
  }

  lemma Quotient(x: nat, d: nat, q: nat, r: nat)
    requires d > 0 && r < d && x == q * d + r
    ensures x / d == q
  {
    TimesGrows(x / d + 1, q, d);
    TimesGrows(q + 1, x / d, d);
  }

  lemma TimesGrows(a: nat, b: nat, d: nat)
    ensures a <= b ==> a * d <= b * d
  {}
}
