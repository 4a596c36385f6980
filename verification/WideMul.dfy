/** Full 128-bit products of 64-bit factors, unsigned and signed, made from four 32-bit products. */
module WideMul {
  import opened MulDiv

  const HALF: int := WORD / 2

  /** The four partial products add up to the high and the low word. */
  lemma PartsAddUp(w: nat, y: nat, z: nat, x: nat)
    ensures
      var carry := (x / BASE + y % BASE + z % BASE) / BASE;
      (w + y / BASE + z / BASE + carry) * WORD + (x + y * BASE + z * BASE) % WORD == w * WORD + (y + z) * BASE + x
  {
    var x1, x0, y1, y0, z1, z0 := x / BASE, x % BASE, y / BASE, y % BASE, z / BASE, z % BASE;
    var s := x1 + y0 + z0;
    var low := x0 + s % BASE * BASE;
    assert x + y * BASE + z * BASE == (y1 + z1 + s / BASE) * WORD + low;
    LowPart(y1 + z1 + s / BASE, low);
  }

  lemma LowPart(q: nat, low: nat)
    requires low < WORD
    ensures (q * WORD + low) % WORD == low
  {
  }

  lemma FourProducts(ah: nat, al: nat, bh: nat, bl: nat)
    ensures (ah * BASE + al) * (bh * BASE + bl) == ah * bh * WORD + (ah * bl + al * bh) * BASE + al * bl
  {
    assert (ah * BASE + al) * (bh * BASE + bl) == ah * BASE * (bh * BASE) + ah * BASE * bl + al * (bh * BASE) + al * bl;
    assert ah * BASE * (bh * BASE) == ah * bh * WORD;
    assert ah * BASE * bl == ah * bl * BASE && al * (bh * BASE) == al * bh * BASE;
  }

  const PART: nat := (BASE - 1) * (BASE - 1)

  /** Both words from the partial products, all sums taken modulo 2^64. */
  method Assemble(abLo: nat, abM1: nat, abM2: nat, abHi: nat) returns (lo: nat, hi: nat)
    requires abLo <= PART && abM1 <= PART && abM2 <= PART && abHi <= PART
    ensures lo < WORD && hi < WORD && hi * WORD + lo == abHi * WORD + (abM1 + abM2) * BASE + abLo
  {
    hide Wrap;
    SumsFit(abLo, abM1, abM2, abHi);
    var carry := Wrap(Wrap(abLo / BASE + abM1 % BASE) + abM2 % BASE) / BASE;
    hi := Wrap(Wrap(Wrap(abHi + abM1 / BASE) + abM2 / BASE) + carry);
    lo := Wrap(Wrap(abLo + Wrap(abM1 * BASE)) + Wrap(abM2 * BASE));
    PartsAddUp(abHi, abM1, abM2, abLo);
    WrapSum(abLo, abM1 * BASE, abM2 * BASE);
  }

  lemma SumsFit(x: nat, y: nat, z: nat, w: nat)
    requires x <= PART && y <= PART && z <= PART && w <= PART
    ensures x / BASE + y % BASE + z % BASE < WORD
    ensures w + y / BASE + z / BASE + (x / BASE + y % BASE + z % BASE) / BASE < WORD
  {
  }

  lemma WrapSum(x: nat, y: nat, z: nat)
    ensures Wrap(Wrap(x + Wrap(y)) + Wrap(z)) == (x + y + z) % WORD
  {
  }

  /** The unsigned product as two words. */
  method MulU64x64(a: nat, b: nat) returns (lo: nat, hi: nat)
    requires a < WORD && b < WORD
    ensures lo < WORD && hi < WORD && hi * WORD + lo == a * b
  {
    hide Mul, Wrap;
    var ah, bh, al, bl := a / BASE, b / BASE, a % BASE, b % BASE;
    WordProduct(al, bl);
    WordProduct(ah, bl);
    WordProduct(al, bh);
    WordProduct(ah, bh);
    ProductOf(ah, al, bh, bl, a, b);
    lo, hi := Assemble(Wrap(Mul(al, bl)), Wrap(Mul(ah, bl)), Wrap(Mul(al, bh)), Wrap(Mul(ah, bh)));
  }

  /** A word read as a signed number. */
  function Signed(w: nat): int {
    if w >= WORD / 2 then w - WORD else w
  }

  /** What reading negative factors as words adds to the product. */
  function Surplus(a: int, b: int): int {
    (if a < 0 then b else 0) + (if b < 0 then a else 0) + (if a < 0 && b < 0 then WORD else 0)
  }

  lemma AsWords(a: int, b: int, ua: nat, ub: nat)
    requires ua == (if a < 0 then a + WORD else a) && ub == (if b < 0 then b + WORD else b)
    ensures ua * ub == a * b + WORD * Surplus(a, b)
  {
    var i, j := if a < 0 then WORD else 0, if b < 0 then WORD else 0;
    assert ua * ub == (a + i) * (b + j) == a * b + i * b + a * j + i * j;
  }

  lemma HighPart(a: int, b: int, ua: nat, ub: nat, hi: nat, lo: nat)
    requires -HALF <= a < HALF && -HALF <= b < HALF && lo < WORD
    requires ua == (if a < 0 then a + WORD else a) && ub == (if b < 0 then b + WORD else b)
    requires hi * WORD + lo == ua * ub
    ensures (hi - Surplus(a, b)) * WORD + lo == a * b && -HALF <= hi - Surplus(a, b) < HALF
  {
    AsWords(a, b, ua, ub);
    ProductBounds(a, b);
    InRange(a * b, Surplus(a, b), hi, lo);
  }

  lemma InRange(p: int, surplus: int, hi: nat, lo: nat)
    requires hi * WORD + lo == p + WORD * surplus && lo < WORD && -HALF * HALF <= p <= HALF * HALF
    ensures (hi - surplus) * WORD + lo == p && -HALF <= hi - surplus < HALF
  {
  }

  lemma ProductBounds(a: int, b: int)
    requires -HALF <= a < HALF && -HALF <= b < HALF
    ensures -HALF * HALF <= a * b <= HALF * HALF
  {
    var x, y := if a < 0 then -a else a, if b < 0 then -b else b;
    MulMono(x, y, HALF, HALF);
    assert x * y == a * b || x * y == -(a * b);
  }

  /** The signed product: the unsigned one of the same bits, with the high word corrected for each negative factor. */
  method Mul64x64(a: int, b: int) returns (lo: nat, hi: int)
    requires -HALF <= a < HALF && -HALF <= b < HALF
    ensures lo < WORD && -HALF <= hi < HALF && hi * WORD + lo == a * b
  {
    hide Wrap;
    var ua, ub := Wrap(a), Wrap(b);
    WrapNegative(a);
    WrapNegative(b);
    var was;
    lo, was := MulU64x64(ua, ub);
    HighPart(a, b, ua, ub, was, lo);
    var h: int := was;
    if a < 0 {
      h := Wrap(h - ub);
    }
    if b < 0 {
      h := Wrap(h - ua);
    }
    hi := Signed(h);
    Corrected(a, b, ua, ub, was, h);
  }

  lemma WrapNegative(a: int)
    requires -HALF <= a < HALF
    ensures Wrap(a) == if a < 0 then a + WORD else a
  {
  }

  lemma Corrected(a: int, b: int, ua: nat, ub: nat, was: nat, h: nat)
    requires -HALF <= a < HALF && -HALF <= b < HALF && was < WORD
    requires ua == (if a < 0 then a + WORD else a) && ub == (if b < 0 then b + WORD else b)
    requires h == if a < 0 && b < 0 then Wrap(Wrap(was - ub) - ua) else if a < 0 then Wrap(was - ub)
                  else if b < 0 then Wrap(was - ua) else was
    requires -HALF <= was - Surplus(a, b) < HALF
    ensures Signed(h) == was - Surplus(a, b)
  {
  }

  lemma ProductOf(ah: nat, al: nat, bh: nat, bl: nat, a: nat, b: nat)
    requires a == ah * BASE + al && b == bh * BASE + bl
    ensures a * b == Mul(ah, bh) * WORD + (Mul(ah, bl) + Mul(al, bh)) * BASE + Mul(al, bl)
  {
    FourProducts(ah, al, bh, bl);
  }
}
