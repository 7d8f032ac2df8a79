/** Machine integers and the option type shared by every component. */
module Basics {

  type Byte = b: int | 0 <= b < 0x100

  /** An unsigned 16-bit value: a UTF-16 code unit or a console attribute word. */
  type Word = w: int | 0 <= w < 0x1_0000

  type Bytes = seq<Byte>

  const ESC: Byte := 0x1b

  predicate IsDigit(b: Byte) {
    '0' as int <= b <= '9' as int
  }

  function Concat(chunks: seq<Bytes>): Bytes {
    if chunks == [] then [] else chunks[0] + Concat(chunks[1..])
  }

  datatype Option<+T> = None | Some(value: T)

  function Min(a: int, b: int): int {
    if a < b then a else b
  }

  function Max(a: int, b: int): int {
    if a < b then b else a
  }

  /** std::clamp. */
  function Clamp(v: int, lo: int, hi: int): int
    requires lo <= hi
  {
    if v < lo then lo else if hi < v then hi else v
  }

  /** Bit `k` of an integer in two's complement, given `p == 2^k`. */
  predicate HasFlag(v: int, p: nat)
    requires p > 0
  {
    v / p % 2 == 1
  }

  // ---------- Division ----------

  lemma {:induction false} DivideTwice(n: nat, a: nat, b: nat)
    requires a > 0 && b > 0
    ensures a * b > 0 && n / a / b == n / (a * b)
  {
    var q := n / a / b;
    assert n / a == q * b + n / a % b;
    assert n == n / a * a + n % a;
    assert n == q * (a * b) + (n / a % b * a + n % a);
    Smaller(n / a % b, b, n % a, a);
    Quotient(n, a * b, q, n / a % b * a + n % a);
  }

  lemma {:induction false} Smaller(x: nat, b: nat, y: nat, a: nat)
    requires x < b && y < a
    ensures x * a + y < a * b
  {
    assert (x + 1) * a <= b * a;
  }

  lemma {:induction false} Quotient(n: nat, m: nat, q: nat, rest: nat)
    requires n == q * m + rest && rest < m
    ensures n / m == q
  {
    var p := n / m;
    assert n == p * m + n % m;
    assert (p - q) * m == rest - n % m;
    NoMultiple(p - q, m);
  }

  lemma {:induction false} NoMultiple(k: int, m: nat)
    requires 0 - m < k * m < m
    ensures k == 0
  {
    Multiples(1, k, m);
    Multiples(1, 0 - k, m);
  }

  lemma {:induction false} Multiples(p: int, q: int, m: nat)
    ensures p <= q ==> p * m <= q * m
  {
  }
}
