/** What a numeric reference means: its value in the 64-bit `unsigned long` of the source, so exactly the references
    whose value is a Unicode code modulo 2^64 are accepted. */
module XmlNumbers {
  import opened Common
  import opened XmlText
  import Utf8

  predicate AllDigits(t: string, i: nat, j: nat)
    requires i <= j <= |t|
  {
    forall k :: i <= k < j ==> Digit(t[k]).Some?
  }

  /** The number the digits [i, j) write down, without any limit. */
  function Written(t: string, i: nat, j: nat, base: nat): nat
    requires i <= j <= |t| && AllDigits(t, i, j)
  {
    if i == j then 0 else Written(t, i, j - 1, base) * base + Digit(t[j - 1]).value
  }

  lemma ModStep(x: nat, base: nat, d: nat)
    ensures ((x % TWO_64) * base + d) % TWO_64 == (x * base + d) % TWO_64
  {
    var q, r := x / TWO_64, x % TWO_64;
    var y, k := r * base + d, q * base;
    assert x * base + d == y + k * TWO_64 by {
      assert x == q * TWO_64 + r;
      assert (q * TWO_64) * base == (q * base) * TWO_64;
    }
    assert (y + k * TWO_64) % TWO_64 == y % TWO_64;
  }

  /** Reading digits up to `j` leaves their number modulo 2^64. */
  lemma {:induction false} DigitsUpTo(t: string, i: nat, j: nat, base: nat)
    requires Cursor(t, i) && i <= j < |t| && AllDigits(t, i, j)
    ensures Digits(t, i, base, 0) == Digits(t, j, base, Written(t, i, j, base) % TWO_64)
    decreases j
  {
    if i < j {
      DigitsUpTo(t, i, j - 1, base);
      ModStep(Written(t, i, j - 1, base), base, Digit(t[j - 1]).value);
    }
  }

  lemma {:induction false} DigitsEnd(t: string, i: nat, base: nat, code: nat)
    requires Cursor(t, i)
    ensures var j := Digits(t, i, base, code).next; AllDigits(t, i, j) && Digit(t[j]) == None
    decreases |t| - i
  {
    match Digit(t[i])
    case None =>
    case Some(d) => DigitsEnd(t, i + 1, base, (code * base + d) % TWO_64);
  }

  /** A numeric reference closed by ';' is accepted exactly if the number it writes, taken modulo 2^64, is a Unicode
      code, and then stands for the UTF-8 form of that code. */
  lemma NumericExactly(t: string, i: nat, base: nat)
    requires Cursor(t, i)
    ensures var j := Digits(t, i, base, 0).next;
            AllDigits(t, i, j) && Digit(t[j]) == None
            && var code := Written(t, i, j, base) % TWO_64;
               NumericTurn(t, i, base) ==
               if code >= Utf8.CODE_LIMIT then Bad(InvalidNumericEntity)
               else if t[j] != ';' then Bad(ExpectedSemicolon)
               else Turn(Utf8.Encode(code).value, j + 1)
  {
    var j := Digits(t, i, base, 0).next;
    DigitsEnd(t, i, base, 0);
    DigitsUpTo(t, i, j, base);
  }

  function Power(base: nat, n: nat): nat { if n == 0 then 1 else base * Power(base, n - 1) }

  lemma {:induction false} ZerosWritten(t: string, i: nat, j: nat, k: nat, base: nat)
    requires i <= j <= k <= |t| && AllDigits(t, i, k) && forall n :: j <= n < k ==> t[n] == '0'
    ensures Written(t, i, k, base) == Written(t, i, j, base) * Power(base, k - j)
    decreases k
  {
    if j < k {
      ZerosWritten(t, i, j, k - 1, base);
      Shuffle(Written(t, i, j, base), Power(base, k - 1 - j), base);
    }
  }

  lemma Shuffle(w: nat, p: nat, base: nat)
    ensures w * p * base + 0 == w * (base * p)
  {
  }

  /** The text of a reference that writes 2^64 + 65: an x, a one, fourteen zeros, 41 and the semicolon. */
  predicate Wrapped(t: string) {
    Cursor(t, 0) && 21 < |t| && t[0] == '&' && t[1] == '#' && t[2] == 'x' && t[3] == '1'
    && (forall n :: 4 <= n < 18 ==> t[n] == '0') && t[18] == '4' && t[19] == '1' && t[20] == ';'
  }

  lemma WrappedIsWritten(t: string)
    requires Wrapped(t)
    ensures AllDigits(t, 3, 20) && Written(t, 3, 20, 16) == TWO_64 + 0x41
  {
    assert AllDigits(t, 3, 20);
    assert Written(t, 3, 3, 16) == 0;
    assert Written(t, 3, 4, 16) == 1;
    ZerosWritten(t, 3, 4, 18, 16);
    assert Power(16, 14) == 0x100_0000_0000_0000;
    var w := Written(t, 3, 18, 16);
    assert Written(t, 3, 19, 16) == w * 16 + 4;
    assert Written(t, 3, 20, 16) == (w * 16 + 4) * 16 + 1;
  }

  /** So a reference far outside Unicode is accepted: it is read as the letter A. */
  lemma WrappedReference(t: string)
    requires Wrapped(t)
    ensures TurnAt(t, 0) == Turn("A", 21)
  {
    WrappedIsWritten(t);
    DigitsUpTo(t, 3, 20, 16);
    hide Written;
    assert Digits(t, 20, 16, 0x41) == Number(0x41, 20);
    assert NumericTurn(t, 3, 16) == Turn("A", 21);
  }
}
