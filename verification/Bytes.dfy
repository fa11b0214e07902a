/** Bytes as small integers, and unsigned integers in network byte order. */
module Bytes {

  type byte = x: int | 0 <= x < 256

  function Pow256(k: nat): (p: nat)
    ensures p > 0
  {
    if k == 0 then 1 else 256 * Pow256(k - 1)
  }

  /** The k low-order bytes of n, most significant first (htobe16, htobe32, htobe64). */
  function BeBytes(n: nat, k: nat): (s: seq<byte>)
    ensures |s| == k
  {
    if k == 0 then [] else BeBytes(n / 256, k - 1) + [n % 256]
  }

  /** be16toh, be32toh, be64toh. */
  function BeValue(s: seq<byte>): (n: nat)
    ensures n < Pow256(|s|)
  {
    if s == [] then 0 else 256 * BeValue(s[..|s| - 1]) + s[|s| - 1]
  }

  /** Byte i of k is the digit of weight 256^(k - 1 - i). */
  lemma {:induction false} BigEndian(n: nat, k: nat, i: nat)
    requires i < k
    ensures BeBytes(n, k)[i] == n / Pow256(k - 1 - i) % 256
    decreases k
  {
    if i < k - 1 {
      BigEndian(n / 256, k - 1, i);
      DivTwice(n, Pow256(k - 2 - i));
    }
  }

  lemma DivTwice(n: nat, p: nat)
    requires p > 0
    ensures n / 256 / p == n / (256 * p)
  {
    ModSplit(n, p);
    var q := n / 256;
    assert n == 256 * p * (q / p) + (256 * (q % p) + n % 256);
    var d := n / (256 * p) - q / p;
    assert n == 256 * p * (n / (256 * p)) + n % (256 * p);
    assert 256 * p * d == 0;
    assert d >= 1 ==> 256 * p * d >= 256 * p;
    assert d <= -1 ==> 256 * p * d <= -(256 * p);
  }

  lemma {:induction false} BeRoundTrip(n: nat, k: nat)
    ensures BeValue(BeBytes(n, k)) == n % Pow256(k)
    ensures n < Pow256(k) ==> BeValue(BeBytes(n, k)) == n
    decreases k
  {
    if k > 0 {
      BeRoundTrip(n / 256, k - 1);
      var s := BeBytes(n, k);
      assert s[..k - 1] == BeBytes(n / 256, k - 1);
      ModSplit(n, Pow256(k - 1));
    }
  }

  lemma ModSplit(n: nat, p: nat)
    requires p > 0
    ensures n % (256 * p) == 256 * ((n / 256) % p) + n % 256
    ensures n < 256 * p ==> n / 256 < p
  {
    var q := n / 256;
    var r := 256 * (q % p) + n % 256;
    assert q == (q / p) * p + q % p;
    assert n == 256 * q + n % 256;
    assert n == (q / p) * (256 * p) + r;
    assert 0 <= r < 256 * p;
    ModUnique(n, 256 * p, q / p, r);
  }

  lemma ModUnique(n: nat, m: nat, q: nat, r: nat)
    requires 0 <= r < m && n == q * m + r
    ensures n % m == r
  {
    var d := n / m - q;
    assert d >= 1 ==> d * m >= m;
    assert d <= -1 ==> d * m <= 0 - m;
    assert n == (n / m) * m + n % m;
    assert d * m == r - n % m;
  }

  lemma Pow256Values()
    ensures Pow256(1) == 256
    ensures Pow256(2) == 0x1_0000
    ensures Pow256(4) == 0x1_0000_0000
    ensures Pow256(8) == 0x1_0000_0000_0000_0000
  {
    assert Pow256(3) == 256 * Pow256(2);
    assert Pow256(5) == 256 * Pow256(4);
    assert Pow256(6) == 256 * Pow256(5);
    assert Pow256(7) == 256 * Pow256(6);
  }
}
