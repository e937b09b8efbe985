/** The integer arithmetic of Java: int is 32 bits wide and long 64, both signed. */
module JavaInts {
  function Int32(n: int): (r: int)
    ensures -0x8000_0000 <= r < 0x8000_0000
  {
    (n + 0x8000_0000) % 0x1_0000_0000 - 0x8000_0000
  }

  function Int64(n: int): (r: int)
    ensures -0x8000_0000_0000_0000 <= r < 0x8000_0000_0000_0000
  {
    (n + 0x8000_0000_0000_0000) % 0x1_0000_0000_0000_0000 - 0x8000_0000_0000_0000
  }

  /** Division truncates toward zero. */
  function Div(n: int, d: nat): int
    requires d > 0
  {
    if n >= 0 then n / d else -(-n / d)
  }

  /** The one int that differs from a number by a multiple of 2^32. */
  lemma Int32Only(n: int, r: int, k: int)
    requires -0x8000_0000 <= r < 0x8000_0000
    ensures n == 0x1_0000_0000 * k + r ==> Int32(n) == r
    ensures exists q :: n == 0x1_0000_0000 * q + Int32(n)
  {
    var m, q := n + 0x8000_0000, (n + 0x8000_0000) / 0x1_0000_0000;
    assert m == 0x1_0000_0000 * q + m % 0x1_0000_0000;
    assert n == 0x1_0000_0000 * q + Int32(n);
  }

  lemma Int64Only(n: int, r: int, k: int)
    requires -0x8000_0000_0000_0000 <= r < 0x8000_0000_0000_0000
    ensures n == 0x1_0000_0000_0000_0000 * k + r ==> Int64(n) == r
    ensures exists q :: n == 0x1_0000_0000_0000_0000 * q + Int64(n)
  {
    var m, q := n + 0x8000_0000_0000_0000, (n + 0x8000_0000_0000_0000) / 0x1_0000_0000_0000_0000;
    assert m == 0x1_0000_0000_0000_0000 * q + m % 0x1_0000_0000_0000_0000;
    assert n == 0x1_0000_0000_0000_0000 * q + Int64(n);
  }

  /** A factor may be wrapped before the product is. */
  lemma Int32Product(n: int, d: nat)
    ensures Int32(Int32(n) * d) == Int32(n * d)
  {
    hide Int32;
    Int32Only(n, 0, 0);
    var q :| n == 0x1_0000_0000 * q + Int32(n);
    Int32Only(Int32(n) * d, 0, 0);
    var p :| Int32(n) * d == 0x1_0000_0000 * p + Int32(Int32(n) * d);
    assert n * d == 0x1_0000_0000 * (q * d + p) + Int32(Int32(n) * d);
    Int32Only(n * d, Int32(Int32(n) * d), q * d + p);
  }

  /** The quotient has the sign of the number, and the remainder too. */
  lemma DivTruncates(n: int, d: nat)
    requires d > 0
    ensures n >= 0 ==> 0 <= Div(n, d) * d <= n < Div(n, d) * d + d
    ensures n <= 0 ==> Div(n, d) * d - d < n <= Div(n, d) * d <= 0
  {
    if n >= 0 {
      Quotient(n, d);
    } else {
      Quotient(-n, d);
      assert Div(n, d) * d == -(-n / d * d);
    }
  }

  lemma Quotient(n: nat, d: nat)
    requires d > 0
    ensures 0 <= n / d * d <= n < n / d * d + d
  {
    assert n == d * (n / d) + n % d;
  }
}
