/** Division that truncates toward zero, as the language has it. */
module Truncation {

  function Abs(x: int): nat { if x < 0 then -x else x }

  /** Division that truncates toward zero. */
  function TruncDiv(a: int, b: int): int
    requires b != 0
  {
    if (a < 0) == (b < 0) then Abs(a) / Abs(b) else -(Abs(a) / Abs(b))
  }

  function TruncRem(a: int, b: int): int
    requires b != 0
  {
    if a < 0 then -(Abs(a) % Abs(b)) else Abs(a) % Abs(b)
  }

  /** The two characterise division as in section 6.5.5 of ISO C11. */
  lemma {:induction false} TruncDivRem(a: int, b: int)
    requires b != 0
    ensures a == TruncDiv(a, b) * b + TruncRem(a, b)
    ensures Abs(TruncRem(a, b)) < Abs(b)
    ensures TruncRem(a, b) == 0 || (TruncRem(a, b) < 0 <==> a < 0)
  {
    var q, m := TruncParts(a, b);
    hide TruncDiv, TruncRem;
    SignedEuclid(a, b, q, m);
  }

  lemma {:induction false} TruncParts(a: int, b: int) returns (q: nat, m: nat)
    requires b != 0
    ensures Abs(a) == q * Abs(b) + m && m < Abs(b)
    ensures TruncDiv(a, b) == if (a < 0) == (b < 0) then q else 0 - q
    ensures TruncRem(a, b) == if a < 0 then 0 - m else m
  {
    EuclideanSum(Abs(a), Abs(b));
    q, m := Abs(a) / Abs(b), Abs(a) % Abs(b);
  }

  lemma {:induction false} SignedEuclid(a: int, b: int, q: nat, m: nat)
    requires b != 0 && Abs(a) == q * Abs(b) + m
    ensures a == (if (a < 0) == (b < 0) then q else 0 - q) * b + (if a < 0 then 0 - m else m)
  {
    assert q * (0 - b) == 0 - q * b;
    assert (0 - q) * b == 0 - q * b;
  }

  lemma {:induction false} EuclideanSum(x: nat, d: nat)
    requires d > 0
    ensures (x / d) * d + x % d == x
  {
  }
}
