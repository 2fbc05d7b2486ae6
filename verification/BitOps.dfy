/** Shifts, masks and bitwise or, on numbers, as far as the packing of identifiers uses them. */
module BitOps {
  function PowerOf2(k: nat): (p: nat)
    ensures p > 0
  {
    if k == 0 then 1 else 2 * PowerOf2(k - 1)
  }

  function ShiftLeft(x: nat, k: nat): nat { if k == 0 then x else 2 * ShiftLeft(x, k - 1) }

  function ShiftRight(x: nat, k: nat): nat { if k == 0 then x else ShiftRight(x / 2, k - 1) }

  function BitOr(a: nat, b: nat): nat
    decreases a + b
  {
    if a == 0 && b == 0 then 0
    else 2 * BitOr(a / 2, b / 2) + if a % 2 == 1 || b % 2 == 1 then 1 else 0
  }

  function BitAnd(a: nat, b: nat): nat {
    if a == 0 then 0 else 2 * BitAnd(a / 2, b / 2) + if a % 2 == 1 && b % 2 == 1 then 1 else 0
  }

  lemma {:induction false} OrZero(a: nat)
    ensures BitOr(a, 0) == a
  {
    if a > 0 { OrZero(a / 2); }
  }

  /** Or-ing a number below 2^k to a multiple of 2^k is adding it. */
  lemma {:induction false} OrDisjoint(hi: nat, lo: nat, k: nat)
    requires lo < PowerOf2(k)
    ensures BitOr(ShiftLeft(hi, k), lo) == ShiftLeft(hi, k) + lo
    decreases k
  {
    if k == 0 {
      OrZero(hi);
    } else {
      var x := ShiftLeft(hi, k - 1);
      OrDisjoint(hi, lo / 2, k - 1);
      assert 2 * x / 2 == x && 2 * x % 2 == 0;
    }
  }

  lemma {:induction false} AndZero(x: nat)
    ensures BitAnd(x, 0) == 0
  {
    if x > 0 { AndZero(x / 2); }
  }

  /** Masking with 2^k - 1 leaves what shifting right by k takes away. */
  lemma {:induction false} AndMask(x: nat, k: nat)
    ensures BitAnd(x, PowerOf2(k) - 1) < PowerOf2(k)
    ensures x == ShiftLeft(ShiftRight(x, k), k) + BitAnd(x, PowerOf2(k) - 1)
    decreases k
  {
    if k == 0 {
      AndZero(x);
    } else {
      var p := PowerOf2(k - 1);
      AndMask(x / 2, k - 1);
      assert (2 * p - 1) / 2 == p - 1 && (2 * p - 1) % 2 == 1;
    }
  }

  lemma {:induction false} ShiftIsTimes(x: nat, k: nat, p: nat)
    requires p == PowerOf2(k)
    ensures ShiftLeft(x, k) == x * p
    decreases k
  {
    if k > 0 {
      var half := PowerOf2(k - 1);
      ShiftIsTimes(x, k - 1, half);
      assert x * (2 * half) == 2 * (x * half);
    }
  }

  lemma MaskParts(x: nat, k: nat, p: nat) returns (q: nat)
    requires p == PowerOf2(k)
    ensures BitAnd(x, p - 1) < p && x == q * p + BitAnd(x, p - 1)
  {
    q := ShiftRight(x, k);
    AndMask(x, k);
    ShiftIsTimes(q, k, p);
  }

  lemma Powers()
    ensures PowerOf2(5) == 32 && PowerOf2(12) == 0x1000 && PowerOf2(17) == 0x2_0000
    ensures PowerOf2(22) == 0x40_0000 && PowerOf2(25) == 0x200_0000
  {
  }
}
