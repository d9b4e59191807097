/** Definitions that several modules share. */
module Common {

  /** The null pointer, where a pointer is the number of a cell. */
  const NIL: int := -1

  function Pow2(n: nat): (r: nat)
    ensures r >= 1
  {
    if n == 0 then 1 else 2 * Pow2(n - 1)
  }

  ghost predicate Distinct(c: seq<nat>) {
    forall i, j :: 0 <= i < j < |c| ==> c[i] != c[j]
  }

  lemma Associates<T>(a: seq<T>, b: seq<T>, c: seq<T>)
    ensures a + (b + c) == (a + b) + c
  {
  }

  /** The decimal digits that "%u" prints. */
  function Digits(n: nat): (r: seq<nat>)
    ensures 1 <= |r| && forall i :: 0 <= i < |r| ==> r[i] < 10
  {
    if n < 10 then [n] else Digits(n / 10) + [n % 10]
  }

  function Pow10(d: nat): nat {
    if d == 0 then 1 else 10 * Pow10(d - 1)
  }

  lemma {:induction false} DigitsLength(n: nat, d: nat)
    requires 1 <= d && n < Pow10(d)
    ensures |Digits(n)| <= d
  {
    if n >= 10 {
      DigitsLength(n / 10, d - 1);
    }
  }
}
