/** Shared result types and small arithmetic. */
module Prelude {

  datatype Option<+T> = None | Some(value: T)

  function Min(a: int, b: int): int { if a <= b then a else b }

  function Max(a: int, b: int): int { if a <= b then b else a }

  function Pow2(n: nat): nat { if n == 0 then 1 else 2 * Pow2(n - 1) }

  lemma {:induction false} Pow2Monotonic(m: nat, n: nat)
    requires m <= n
    ensures Pow2(m) <= Pow2(n)
  {
    if m < n {
      Pow2Monotonic(m, n - 1);
    }
  }

  /** There is always a number that is not in use. */
  lemma {:induction false} Unused(used: set<nat>) returns (n: nat)
    ensures forall k :: k in used ==> k < n
    decreases used
  {
    n := 0;
    if used != {} {
      var k :| k in used;
      var bound := Unused(used - {k});
      n := Max(bound, k + 1);
      assert forall j :: j in used ==> j == k || j in used - {k};
    }
  }
}
