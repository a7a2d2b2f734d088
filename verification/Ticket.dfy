/** Slot arithmetic of a ring indexed by ever-increasing tickets. */
module Ticket {

  lemma Distinct(n: int, a: nat, b: nat)
    requires n >= 1 && a != b && -n < a - b < n
    ensures a % n != b % n
  {
    var d := a / n - b / n;
    assert a - b == n * d + (a % n - b % n);
    assert (d >= 1 ==> n * d >= n) && (d <= -1 ==> n * d <= -n);
  }

  lemma Period(n: int, a: nat)
    requires n >= 1
    ensures (a + n) % n == a % n
  {
    var d := (a + n) / n - a / n - 1;
    assert n * d == a % n - (a + n) % n;
    assert (d >= 1 ==> n * d >= n) && (d <= -1 ==> n * d <= -n);
  }
}
