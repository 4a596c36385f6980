/** a*b/c on 64-bit words with a 128-bit product in between: schoolbook division by a normalised two-digit
    divisor. Every operation is taken modulo 2^64, as the machine does it. */
module MulDiv {
  import opened Arithmetic

  const BASE: nat := 0x1_0000_0000
  const WORD: nat := 0x1_0000_0000_0000_0000
  const MAXDIV: nat := (BASE - 1) * BASE + (BASE - 1)

  function Wrap(x: int): (w: nat)
    ensures w < WORD
    ensures 0 <= x < WORD ==> w == x
  {
    x % WORD
  }

  function Quotient(n: nat, c: nat): (q: nat)
    requires c > 0
  {
    DivNonNegative(n, c);
    n / c
  }

  lemma DivNonNegative(n: nat, c: nat)
    requires c > 0
    ensures n / c >= 0
  {
  }

  lemma QuotientBounds(n: nat, c: nat)
    requires c > 0
    ensures c * Quotient(n, c) <= n < c * (Quotient(n, c) + 1)
  {
    assert n == c * (n / c) + n % c;
    assert c * (n / c + 1) == c * (n / c) + c;
  }

  method DivMod(n: nat, c: nat) returns (q: nat, r: nat)
    requires c > 0
    ensures n == c * q + r && r < c && q == Quotient(n, c)
  {
    q := Quotient(n, c);
    r := n % c;
  }

  /** Multiplication by name, for proofs in which products are atoms. */
  function Mul(x: nat, y: nat): nat { x * y }

  lemma WordProduct(x: nat, y: nat)
    requires x < BASE && y < BASE
    ensures Mul(x, y) <= (BASE - 1) * (BASE - 1)
  {
    MulMono(x, y, BASE - 1, BASE - 1);
  }

  lemma MulMono(x: nat, y: nat, x': nat, y': nat)
    requires x <= x' && y <= y'
    ensures x * y <= x' * y'
  {
    assert x * y <= x' * y;
    assert x' * y <= x' * y';
  }

  /** Whole parts of the factors contribute exactly; what remains is a product of two remainders. */
  lemma EasyPart(a: nat, b: nat, c: nat)
    requires c > 0
    ensures a * b / c == a / c * b + a % c * (b / c) + a % c * (b % c) / c
  {
    var qa, ra, qb, rb := a / c, a % c, b / c, b % c;
    var whole := qa * b + ra * qb;
    calc {
      a * b;
      (c * qa + ra) * b;
      c * qa * b + ra * (c * qb + rb);
      c * qa * b + ra * (c * qb) + ra * rb;
      { assert c * qa * b == c * (qa * b) && ra * (c * qb) == c * (ra * qb); }
      c * (qa * b) + c * (ra * qb) + ra * rb;
      c * whole + ra * rb;
    }
    DivOfSum(c, whole, ra * rb);
  }

  /** Scaling dividend and divisor keeps the quotient. */
  lemma DivCancel(x: nat, y: nat, n: nat)
    requires y > 0 && n > 0
    ensures y * n > 0 && x * n / (y * n) == x / y
  {
    var q, r := x / y, x % y;
    assert x == y * q + r;
    assert x * n == (y * n) * q + r * n;
    assert 0 <= r * n < y * n;
    DivUnique(y * n, x * n, q, r * n);
  }

  /** The normalised divisor has its top bit set and still fits. */
  lemma NormBounds(c: nat, norm: nat)
    requires BASE <= c < WORD && norm == Quotient(MAXDIV, c)
    ensures 0 < norm < BASE && c * norm <= MAXDIV && c * norm / BASE >= BASE / 2
  {
    QuotientBounds(MAXDIV, c);
    assert norm >= BASE ==> c * norm >= BASE * BASE by { if norm >= BASE { MulMono(BASE, BASE, c, norm); } }
    assert norm >= 1;
    if norm == 1 {
      assert c * norm == c;
    } else {
      MulMono(c, 2, c, norm);
    }
    assert c * (norm + 1) == c * norm + c;
    assert c * norm >= WORD / 2;
  }

  lemma Below(c: nat, x: nat, y: nat)
    requires c * x < c * y
    ensures x < y
  {
    assert x >= y ==> c * x >= c * y;
  }

  /** `digit` is the quotient of `n2 * BASE + n1` by the two-digit divisor `ch * BASE + cl`. */
  ghost predicate Digit(ch: nat, cl: nat, n2: nat, n1: nat, digit: nat) {
    var c, n := ch * BASE + cl, n2 * BASE + n1;
    BASE / 2 <= ch < BASE && cl < BASE && n1 < BASE && n2 < c && c * digit <= n < c * (digit + 1)
  }

  /** The estimate of one quotient digit: divide the two leading digits by the divisor's leading digit, then step
      down until the trial product fits. It ends on the exact digit. */
  method QuotientDigit(n2: nat, n1: nat, ch: nat, cl: nat) returns (q: nat)
    requires BASE / 2 <= ch < BASE && cl < BASE && n1 < BASE && n2 < ch * BASE + cl
    ensures q == Quotient(n2 * BASE + n1, ch * BASE + cl) && q < BASE
  {
    hide Quotient;
    ghost var digit := Quotient(n2 * BASE + n1, ch * BASE + cl);
    QuotientBounds(n2 * BASE + n1, ch * BASE + cl);
    var rhat;
    q, rhat := DivMod(n2, ch);
    DigitSmall(ch, cl, n2, n1, digit);
    InitialEstimate(ch, cl, n2, n1, digit, q, rhat);
    q := StepDown(ch, cl, n2, n1, q, rhat, digit);
  }

  method StepDown(ch: nat, cl: nat, n2: nat, n1: nat, q0: nat, rhat0: nat, ghost digit: nat) returns (q: nat)
    requires Digit(ch, cl, n2, n1, digit) && digit < BASE && digit <= q0 && n2 == ch * q0 + rhat0
    ensures q == digit
  {
    hide Wrap, Digit;
    q := q0;
    var rhat := rhat0;
    while q >= BASE || (rhat < BASE && Wrap(q * cl) > Wrap(rhat * BASE + n1))
      invariant digit <= q && n2 == ch * q + rhat
      decreases q
    {
      TooLarge(ch, cl, n2, n1, digit, q, rhat);
      q := q - 1;
      rhat := Wrap(rhat + ch);
    }
    Fits(ch, cl, n2, n1, digit, q, rhat);
  }

  lemma DigitSmall(ch: nat, cl: nat, n2: nat, n1: nat, digit: nat)
    requires Digit(ch, cl, n2, n1, digit)
    ensures digit < BASE
  {
    Below(ch * BASE + cl, digit, BASE);
  }

  lemma InitialEstimate(ch: nat, cl: nat, n2: nat, n1: nat, digit: nat, q: nat, rhat: nat)
    requires Digit(ch, cl, n2, n1, digit) && n2 == ch * q + rhat && rhat < ch
    ensures digit <= q
  {
    var c := ch * BASE + cl;
    assert n2 + 1 <= ch * (q + 1);
    assert n2 * BASE + n1 < ch * (q + 1) * BASE;
    assert ch * (q + 1) * BASE == ch * BASE * (q + 1);
    MulMono(ch * BASE, q + 1, c, q + 1);
    Below(c, digit, q + 1);
  }

  lemma TrialProduct(ch: nat, cl: nat, q: nat)
    ensures (ch * BASE + cl) * q == ch * q * BASE + q * cl
  {
  }

  lemma TrialFits(cl: nat, q: nat, rhat: nat, n1: nat)
    requires cl < BASE && q < BASE && n1 < BASE
    ensures q * cl < WORD && (rhat < BASE ==> rhat * BASE + n1 < WORD) && (rhat >= BASE ==> q * cl <= rhat * BASE)
  {
    MulMono(q, cl, BASE - 1, BASE - 1);
  }

  /** While the loop goes on, the estimate is above the digit. */
  lemma TooLarge(ch: nat, cl: nat, n2: nat, n1: nat, digit: nat, q: nat, rhat: nat)
    requires Digit(ch, cl, n2, n1, digit) && digit < BASE && n2 == ch * q + rhat
    requires q >= BASE || (rhat < BASE && Wrap(q * cl) > Wrap(rhat * BASE + n1))
    ensures digit < q && Wrap(rhat + ch) == rhat + ch && n2 == ch * (q - 1) + (rhat + ch)
  {
    hide Wrap;
    if q < BASE {
      TrialFits(cl, q, rhat, n1);
      assert q * cl > rhat * BASE + n1;
      TrialProduct(ch, cl, q);
      Below(ch * BASE + cl, digit, q);
    }
    StepBack(ch, cl, n2, q, rhat);
  }

  lemma StepBack(ch: nat, cl: nat, n2: nat, q: nat, rhat: nat)
    requires ch < BASE && cl < BASE && n2 < ch * BASE + cl && n2 == ch * q + rhat && q > 0
    ensures rhat + ch <= n2 < WORD && n2 == ch * (q - 1) + (rhat + ch)
  {
    assert ch * (q - 1) == ch * q - ch;
    MulMono(ch, 0, ch, q - 1);
  }

  /** When it stops, it is not. */
  lemma Fits(ch: nat, cl: nat, n2: nat, n1: nat, digit: nat, q: nat, rhat: nat)
    requires Digit(ch, cl, n2, n1, digit) && digit <= q < BASE && n2 == ch * q + rhat
    requires !(rhat < BASE && Wrap(q * cl) > Wrap(rhat * BASE + n1))
    ensures q == digit
  {
    TrialFits(cl, q, rhat, n1);
    TrialProduct(ch, cl, q);
    Below(ch * BASE + cl, q, digit + 1);
  }

  /** The product of two two-digit numbers as one two-digit and two one-digit parts; no partial sum wraps. */
  method Product(ah: nat, al: nat, bh: nat, bl: nat) returns (p2: nat, p1: nat, p0: nat)
    requires ah < BASE && al < BASE && bh < BASE && bl < BASE
    ensures Mul(ah * BASE + al, bh * BASE + bl) == p2 * WORD + p1 * BASE + p0
    ensures p1 < BASE && p0 < BASE && p2 < WORD
  {
    hide Wrap, Mul;
    WordProduct(al, bl);
    WordProduct(al, bh);
    WordProduct(ah, bl);
    WordProduct(ah, bh);
    p0 := Wrap(Mul(al, bl));
    p1 := Wrap(p0 / BASE + Wrap(Mul(al, bh)));
    p0 := p0 % BASE;
    p2 := Wrap(p1 / BASE + Wrap(Mul(ah, bh)));
    p1 := Wrap(p1 % BASE + Wrap(Mul(ah, bl)));
    p2 := Wrap(p2 + p1 / BASE);
    p1 := p1 % BASE;
    DigitProduct(ah, al, bh, bl);
  }

  lemma DigitProduct(ah: nat, al: nat, bh: nat, bl: nat)
    ensures Mul(ah * BASE + al, bh * BASE + bl) == Mul(ah, bh) * WORD + (Mul(ah, bl) + Mul(al, bh)) * BASE + Mul(al, bl)
  {
    var x := ah * BASE;
    assert (x + al) * (bh * BASE + bl) == x * (bh * BASE) + x * bl + al * (bh * BASE) + al * bl;
    assert x * (bh * BASE) == ah * bh * WORD;
    assert x * bl == ah * bl * BASE;
    assert al * (bh * BASE) == al * bh * BASE;
  }

  /** The remainder behind a quotient digit. The low subtraction may wrap; the borrow it loses is a multiple of the
      part that is cut off. */
  method Remainder(p2: nat, p1: nat, ch: nat, cl: nat, q: nat) returns (r: nat)
    requires p2 < WORD && p1 < BASE && ch < BASE && cl < BASE && q < BASE
    requires 0 <= p2 * BASE + p1 - Mul(q, ch * BASE + cl) < WORD
    ensures r == p2 * BASE + p1 - Mul(q, ch * BASE + cl)
  {
    hide Wrap, Mul;
    WordProduct(q, cl);
    WordProduct(q, ch);
    var qcl, qch := Wrap(Mul(q, cl)), Wrap(Mul(q, ch));
    var low := Wrap(Wrap(p2 % BASE * BASE + p1) - qcl);
    var high := Wrap(Wrap(p2 / BASE * BASE + low / BASE) - qch);
    SplitProduct(q, ch, cl);
    RemainderDigits(p2, p1, qch, qcl, low, high);
    r := Wrap(low % BASE + Wrap(high % BASE * BASE));
  }

  lemma SplitProduct(q: nat, ch: nat, cl: nat)
    ensures Mul(q, ch * BASE + cl) == Mul(q, ch) * BASE + Mul(q, cl)
  {
    assert q * (ch * BASE + cl) == q * (ch * BASE) + q * cl;
    assert q * (ch * BASE) == q * ch * BASE;
  }

  lemma RemainderDigits(p2: nat, p1: nat, qch: nat, qcl: nat, low: nat, high: nat)
    requires 0 <= p2 * BASE + p1 - qch * BASE - qcl < WORD
    requires low == Wrap(p2 % BASE * BASE + p1 - qcl)
    requires high == Wrap(p2 / BASE * BASE + low / BASE - qch)
    ensures low % BASE + high % BASE * BASE == p2 * BASE + p1 - qch * BASE - qcl
  {
    var x := p2 % BASE * BASE + p1 - qcl;
    var f, l := x / BASE, x % BASE;
    var rest := p2 / BASE * BASE + f - qch;
    assert p2 * BASE + p1 - qch * BASE - qcl == rest * BASE + l;
    LowDigits(x, low);
    var k := (low / BASE - f) / BASE;
    assert low / BASE == f + k * BASE;
    HighDigits(p2 / BASE * BASE + low / BASE - qch, rest, k, high);
  }

  lemma LowDigits(x: int, low: nat)
    requires low == Wrap(x)
    ensures low % BASE == x % BASE && (low / BASE - x / BASE) % BASE == 0
  {
    var m := x / WORD;
    assert x == WORD * m + low;
    assert x == BASE * (BASE * m + low / BASE) + low % BASE;
    DivUnique(BASE, x, BASE * m + low / BASE, low % BASE);
  }

  lemma HighDigits(y: int, rest: int, k: int, high: nat)
    requires high == Wrap(y) && y == rest + k * BASE && 0 <= rest < BASE
    ensures high % BASE == rest
  {
    LowDigits(y, high);
    DivUnique(BASE, y, k, rest);
  }

  /** The contribution of the whole parts; the two remainders are left to be multiplied. */
  method EasyPartOf(a0: nat, b0: nat, c: nat) returns (res: nat, a: nat, b: nat)
    requires 0 < c && Quotient(Mul(a0, b0), c) < WORD
    ensures a < c && b < c && Quotient(Mul(a0, b0), c) == res + Quotient(Mul(a, b), c)
  {
    hide Wrap, Quotient, Mul;
    var qa, qb;
    qa, a := DivMod(a0, c);
    qb, b := DivMod(b0, c);
    EasyQuotient(a0, b0, c, qa, a, qb, b);
    res := Wrap(Wrap(Mul(qa, b0)) + Wrap(Mul(a, qb)));
  }

  lemma EasyQuotient(a0: nat, b0: nat, c: nat, qa: nat, a: nat, qb: nat, b: nat)
    requires c > 0 && a0 == c * qa + a && a < c && b0 == c * qb + b && b < c
    ensures Quotient(Mul(a0, b0), c) == Mul(qa, b0) + Mul(a, qb) + Quotient(Mul(a, b), c)
  {
    DivUnique(c, a0, qa, a);
    DivUnique(c, b0, qb, b);
    EasyPart(a0, b0, c);
  }

  /** `a*b/c` rounded down, whenever it fits a word: the machine arithmetic is exact. */
  method MulDivU64(a: nat, b: nat, c: nat) returns (r: nat)
    requires a < WORD && b < WORD && 0 < c < WORD
    requires a * b / c < WORD
    ensures r == a * b / c
  {
    r := MulDivWords(a, b, c);
  }

  method MulDivWords(a0: nat, b0: nat, c0: nat) returns (r: nat)
    requires a0 < WORD && b0 < WORD && 0 < c0 < WORD
    requires Quotient(Mul(a0, b0), c0) < WORD
    ensures r == Quotient(Mul(a0, b0), c0)
  {
    hide Wrap, Quotient, Mul;
    var res, a, b := EasyPartOf(a0, b0, c0);
    if a == 0 || b == 0 {
      ZeroRest(a, b, c0);
      return res;
    }
    var rest;
    if c0 < BASE {
      rest := ShortDivision(a, b, c0);
    } else {
      rest := NormalisedDivision(a, b, c0);
    }
    r := Wrap(res + rest);
  }

  lemma ZeroRest(a: nat, b: nat, c: nat)
    requires c > 0 && (a == 0 || b == 0)
    ensures Quotient(Mul(a, b), c) == 0
  {
  }

  method ShortDivision(a: nat, b: nat, c: nat) returns (r: nat)
    requires a < c < BASE && b < c
    ensures r == Quotient(Mul(a, b), c)
  {
    hide Wrap, Quotient, Mul;
    WordProduct(a, b);
    r := Quotient(Wrap(Mul(a, b)), c);
  }

  method NormalisedDivision(a: nat, b: nat, c: nat) returns (r: nat)
    requires a < c && b < c && BASE <= c < WORD
    ensures r == Quotient(Mul(a, b), c)
  {
    hide Wrap, Quotient, Mul;
    var norm, _ := DivMod(MAXDIV, c);
    Scaled(a, b, c, norm);
    r := LongDivision(Wrap(Mul(a, norm)), b, Wrap(Mul(c, norm)));
  }

  lemma Scaled(a: nat, b: nat, c: nat, norm: nat)
    requires a < c && BASE <= c < WORD && norm == Quotient(MAXDIV, c)
    ensures var an, cn := Mul(a, norm), Mul(c, norm);
            an < cn < WORD && cn / BASE >= BASE / 2 && Quotient(Mul(an, b), cn) == Quotient(Mul(a, b), c)
  {
    NormBounds(c, norm);
    assert a * b * norm == a * norm * b;
    DivCancel(a * b, c, norm);
    assert (c - a) * norm > 0;
    assert c * norm == a * norm + (c - a) * norm;
  }

  /** Divides a product by a normalised divisor, digit by digit. */
  method LongDivision(a: nat, b: nat, c: nat) returns (r: nat)
    requires a < c < WORD && b < WORD && c / BASE >= BASE / 2
    ensures r == Quotient(Mul(a, b), c)
  {
    hide Wrap, Quotient, Mul;
    var ah, al := a / BASE, a % BASE;
    var bh, bl := b / BASE, b % BASE;
    var ch, cl := c / BASE, c % BASE;
    var p2, p1, p0 := Product(ah, al, bh, bl);
    assert ah * BASE + al == a && bh * BASE + bl == b && ch * BASE + cl == c;
    LeadingPart(a, b, c, p2, p1, p0);
    p2 := p2 % c;
    var q1 := QuotientDigit(p2, p1, ch, cl);
    ghost var n1 := p2 * BASE + p1;
    RemainderBounds(n1, c);
    p1 := Remainder(p2, p1, ch, cl, q1);
    var q0 := QuotientDigit(p1, p0, ch, cl);
    TwoDigits(Mul(a, b), c, n1, p0, q1, p1, q0);
    r := Wrap(q0 + Wrap(q1 * BASE));
  }

  lemma RemainderBounds(n: nat, c: nat)
    requires c > 0
    ensures 0 <= n - Mul(Quotient(n, c), c) < c
  {
    QuotientBounds(n, c);
    assert c * (n / c + 1) == c * (n / c) + c;
  }

  lemma LeadingPart(a: nat, b: nat, c: nat, p2: nat, p1: nat, p0: nat)
    requires a < c && b < WORD && Mul(a, b) == p2 * WORD + p1 * BASE + p0
    ensures p2 < c && p2 % c == p2
  {
    hide Mul;
    ProductBelow(a, b);
    SmallMod(p2, c);
  }

  lemma ProductBelow(a: nat, b: nat)
    requires b < WORD
    ensures Mul(a, b) <= a * WORD
  {
    MulMono(a, b, a, WORD);
  }

  lemma SmallMod(x: nat, c: nat)
    requires x < c
    ensures x % c == x
  {
  }

  lemma TwoDigits(n: nat, c: nat, n1: nat, p0: nat, q1: nat, r1: nat, q0: nat)
    requires c > 0 && n == n1 * BASE + p0 && r1 == n1 - Mul(q1, c)
    requires q0 == Quotient(r1 * BASE + p0, c)
    ensures Quotient(n, c) == q0 + q1 * BASE
  {
    var m := r1 * BASE + p0;
    assert n == c * (q1 * BASE) + m by {
      assert (q1 * c + r1) * BASE == q1 * c * BASE + r1 * BASE;
      assert q1 * c * BASE == c * (q1 * BASE);
    }
    DivOfSum(c, q1 * BASE, m);
  }
}
