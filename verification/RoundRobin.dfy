/** Round-robin choice (common/brpc.hpp): from any starting index, every channel gets its fair share. */
module RoundRobin {

  /** How many of the choices start, ..., start + m - 1 over n channels fall on c. */
  function Picks(n: nat, start: nat, m: nat, c: nat): nat
    requires n > 0
  {
    if m == 0 then 0 else Picks(n, start, m - 1, c) + if (start + m - 1) % n == c then 1 else 0
  }

  lemma MulPositive(k: int, n: nat)
    ensures k >= 1 ==> k * n >= n
  {
    if k >= 1 {
      assert k * n == n + (k - 1) * n;
    }
  }

  lemma DivUnique(x: nat, n: nat, q: nat, r: nat)
    requires n > 0 && x == q * n + r && r < n
    ensures x / n == q && x % n == r
  {
    var p, s := x / n, x % n;
    assert x == p * n + s;
    MulPositive(q - p, n);
    MulPositive(p - q, n);
    assert (q - p) * n == q * n - p * n;
    assert (p - q) * n == p * n - q * n;
  }

  /** Quotient and remainder of a sum. */
  lemma DivAdd(a: nat, b: nat, n: nat)
    requires n > 0
    ensures var q, r := a / n + b / n, a % n + b % n;
      if r < n then (a + b) / n == q && (a + b) % n == r
      else (a + b) / n == q + 1 && (a + b) % n == r - n
  {
    DivSum(a, a / n, a % n, b, b / n, b % n, n);
  }

  lemma Distribute(p: nat, q: nat, n: nat)
    ensures (p + q) * n == p * n + q * n
  {
  }

  lemma DivSum(a: nat, p: nat, r: nat, b: nat, q: nat, s: nat, n: nat)
    requires n > 0 && a == p * n + r && b == q * n + s && r < n && s < n
    ensures if r + s < n then (a + b) / n == p + q && (a + b) % n == r + s
            else (a + b) / n == p + q + 1 && (a + b) % n == r + s - n
  {
    Distribute(p, q, n);
    Distribute(p + q, 1, n);
    if r + s < n {
      DivUnique(a + b, n, p + q, r + s);
    } else {
      DivUnique(a + b, n, p + q + 1, r + s - n);
    }
  }

  lemma DivOne(n: nat)
    requires n > 0
    ensures 1 / n == (if n == 1 then 1 else 0) && 1 % n == (if n == 1 then 0 else 1) && 0 / n == 0 && 0 % n == 0
  {
    DivUnique(1, n, if n == 1 then 1 else 0, if n == 1 then 0 else 1);
    DivUnique(0, n, 0, 0);
  }

  /** Counting from 0, c is hit once a round, and once more in the round begun if that has passed it. */
  lemma {:induction false} PicksFromZero(n: nat, m: nat, c: nat)
    requires c < n
    ensures Picks(n, 0, m, c) == m / n + if m % n > c then 1 else 0
  {
    DivOne(n);
    if m > 0 {
      PicksFromZero(n, m - 1, c);
      DivAdd(m - 1, 1, n);
    }
  }

  lemma {:induction false} PicksSplit(n: nat, start: nat, m: nat, c: nat)
    requires n > 0
    ensures Picks(n, 0, start + m, c) == Picks(n, 0, start, c) + Picks(n, start, m, c)
  {
    if m > 0 {
      PicksSplit(n, start, m - 1, c);
    }
  }

  /** Fairness: m choices over n channels give each of them floor(m / n), or one more when n does not divide m. */
  lemma Fair(n: nat, start: nat, m: nat, c: nat)
    requires c < n
    ensures m / n <= Picks(n, start, m, c) <= m / n + if m % n == 0 then 0 else 1
  {
    PicksSplit(n, start, m, c);
    PicksFromZero(n, start, c);
    PicksFromZero(n, start + m, c);
    DivAdd(start, m, n);
  }
}
