/** `&` and `|` of unsigned numbers, powers of two, and what masks do. */
module Bits {

  function Pow2(k: nat): (p: nat)
    ensures p > 0
  {
    if k == 0 then 1 else 2 * Pow2(k - 1)
  }

  /** `&` of two unsigned numbers. */
  function And(a: nat, b: nat): nat {
    if a == 0 || b == 0 then 0 else 2 * And(a / 2, b / 2) + (a % 2) * (b % 2)
  }

  /** `|` of two unsigned numbers. */
  function Or(a: nat, b: nat): nat {
    if a == 0 then b
    else if b == 0 then a
    else 2 * Or(a / 2, b / 2) + if a % 2 == 1 || b % 2 == 1 then 1 else 0
  }

  lemma AndHalf(a: nat, b: nat)
    ensures And(a, b) == 2 * And(a / 2, b / 2) + (a % 2) * (b % 2)
  {
  }

  lemma OrHalf(a: nat, b: nat)
    ensures Or(a, b) == 2 * Or(a / 2, b / 2) + if a % 2 == 1 || b % 2 == 1 then 1 else 0
  {
  }

  lemma Distribute(m: int, a: int, b: int)
    ensures m * (a + b) == m * a + m * b
  {
  }

  lemma AtLeast(m: nat, d: nat)
    requires d >= 1
    ensures m * d >= m
  {
    Distribute(m, 1, d - 1);
  }

  lemma Split(p: nat, m: nat)
    requires m > 0
    ensures p == m * (p / m) + p % m && p % m < m
  {
  }

  lemma OneQuotient(m: nat, q: nat, r: nat, q': nat, r': nat)
    requires m * q + r == m * q' + r' && r < m && r' < m
    ensures q == q' && r == r'
  {
    if q > q' {
      Distribute(m, q', q - q');
      AtLeast(m, q - q');
    } else if q < q' {
      Distribute(m, q, q' - q);
      AtLeast(m, q' - q);
    }
  }

  lemma Unique(p: nat, m: nat, q: nat, r: nat)
    requires p == m * q + r && r < m
    ensures p % m == r && p / m == q
  {
    Split(p, m);
    OneQuotient(m, q, r, p / m, p % m);
  }

  lemma HalfOf(p: nat, m: nat)
    requires m > 0
    ensures p % (2 * m) == 2 * (p / 2 % m) + p % 2
  {
    var h, b := p / 2, p % 2;
    var q, r := h / m, h % m;
    Split(h, m);
    var n, mq := 2 * m, m * q;
    assert n * q == 2 * mq;
    Unique(p, n, q, 2 * r + b);
  }

  lemma MaskStep(p: nat, m: nat)
    requires m > 0 && And(p / 2, m - 1) == p / 2 % m
    ensures And(p, 2 * m - 1) == p % (2 * m)
  {
    HalfOf(p, m);
    var c := 2 * m - 1;
    assert c / 2 == m - 1 && c % 2 == 1;
    if p == 0 {
      Unique(0, 2 * m, 0, 0);
    } else {
      assert And(p, c) == 2 * And(p / 2, c / 2) + p % 2;
    }
  }

  /** Masking with a power of two less one is the remainder. */
  lemma {:induction false} Mask(p: nat, k: nat)
    ensures And(p, Pow2(k) - 1) == p % Pow2(k)
    decreases k
  {
    if k > 0 {
      Mask(p / 2, k - 1);
      MaskStep(p, Pow2(k - 1));
    }
  }

  /** `<<`. */
  function Shift(m: nat, k: nat): nat { if k == 0 then m else 2 * Shift(m, k - 1) }

  /** Numbers without a bit in common: `|` adds them. */
  lemma {:induction false} OrDisjoint(k: nat, a: nat, m: nat)
    requires a < Pow2(k)
    ensures Or(a, Shift(m, k)) == a + Shift(m, k)
    decreases k
  {
    hide Or;
    if k == 0 {
      OrNothing(m);
    } else {
      OrDisjoint(k - 1, a / 2, m);
      OrHalf(a, Shift(m, k));
    }
  }

  lemma OrNothing(m: nat)
    ensures Or(0, m) == m
  {
  }

  /** One bit of `(a | b) & m`. */
  lemma OrAndHalf(a: nat, b: nat, m: nat)
    ensures And(Or(a, b), m) ==
            2 * And(Or(a / 2, b / 2), m / 2) + if m % 2 == 1 && (a % 2 == 1 || b % 2 == 1) then 1 else 0
  {
    hide And, Or;
    OrHalf(a, b);
    AndHalf(Or(a, b), m);
  }

  /** The low `k` bits of a number. */
  function Low(k: nat, n: nat): nat { if k == 0 then 0 else 2 * Low(k - 1, n / 2) + n % 2 }

  lemma {:induction false} LowIsRemainder(k: nat, n: nat)
    ensures Low(k, n) == n % Pow2(k)
    decreases k
  {
    if k > 0 {
      LowIsRemainder(k - 1, n / 2);
      HalfOf(n, Pow2(k - 1));
    }
  }

  /** Setting bit `k + 1`, clearing bit `k` and keeping the bits below leaves the low bits under a mark. */
  lemma {:induction false} MarkAndMask(k: nat, code: nat)
    ensures And(Or(code, 2 * Pow2(k)), 3 * Pow2(k) - 1) == 2 * Pow2(k) + Low(k, code)
    decreases k
  {
    hide And, Or;
    if k == 0 {
      OrAndHalf(code, 2, 2);
      OrAndHalf(code / 2, 1, 1);
      AndNothing(Or(code / 2 / 2, 0));
    } else {
      var p := Pow2(k - 1);
      MarkAndMask(k - 1, code / 2);
      OrAndHalf(code, 4 * p, 6 * p - 1);
      assert (4 * p) / 2 == 2 * p && (6 * p - 1) / 2 == 3 * p - 1 && (4 * p) % 2 == 0 && (6 * p - 1) % 2 == 1;
    }
  }

  /** `(code | 0x80) & 0xBF` is the low six bits of a code under the mark 0x80. */
  lemma ContinuationMask(code: nat)
    ensures And(Or(code, 0x80), 0xBF) == 0x80 + code % 64
  {
    hide And, Or;
    assert Pow2(3) == 8;
    assert Pow2(6) == 64;
    MarkAndMask(6, code);
    LowIsRemainder(6, code);
  }

  lemma AndNothing(a: nat)
    ensures And(a, 0) == 0
  {
  }

  /** The lead marks of the source on what is left of a code after the shifts. */
  lemma LeadMarks(code: nat)
    ensures code < 0x20 ==> Or(code, 0xC0) == 0xC0 + code
    ensures code < 0x10 ==> Or(code, 0xE0) == 0xE0 + code
    ensures code < 0x08 ==> Or(code, 0xF0) == 0xF0 + code
  {
    hide Or;
    assert Pow2(5) == 0x20 && Pow2(4) == 0x10 && Pow2(3) == 0x08;
    assert Shift(6, 5) == 0xC0 && Shift(14, 4) == 0xE0 && Shift(30, 3) == 0xF0;
    if code < 0x20 {
      OrDisjoint(5, code, 6);
    }
    if code < 0x10 {
      OrDisjoint(4, code, 14);
    }
    if code < 0x08 {
      OrDisjoint(3, code, 30);
    }
  }
}
