/** The checksum of the large matches: a polynomial over the bytes modulo 2^64, updated as its window slides. */
module RollingHash {
  import opened Bytes
  import opened Arithmetic

  const MULTIPLIER: nat := 1181783497276652981
  const WIDTH: nat := 64

  /** The multiplier to the power `n`, without wrap-around. */
  function Power(n: nat): nat {
    if n == 0 then 1 else Power(n - 1) * MULTIPLIER
  }

  /** The bytes as the digits of a number, the first the most significant. */
  function Poly(s: seq<byte>): nat {
    if s == [] then 0 else Poly(s[..|s| - 1]) * MULTIPLIER + s[|s| - 1]
  }

  // ----- Congruence

  predicate Congruent(a: int, b: int) {
    a % TWO_64 == b % TWO_64
  }

  lemma ReduceFactor(a: int, b: int)
    ensures Congruent((a % TWO_64) * b, a * b)
  {
    var q := a / TWO_64;
    assert a * b == (a % TWO_64) * b + TWO_64 * (q * b) by {
      assert a == TWO_64 * q + a % TWO_64;
    }
    AddMultiple((a % TWO_64) * b, q * b);
  }

  lemma AddMultiple(a: int, k: int)
    ensures Congruent(a + TWO_64 * k, a)
  {
  }

  // ----- The tables

  datatype HashCfg = HashCfg(size: nat, mask: nat, shift: nat, look: nat, powers: seq<nat>, multiplier: nat)

  lemma {:induction false} Pow2Adds(m: nat, n: nat)
    ensures Pow2(m + n) == Pow2(m) * Pow2(n)
  {
    if m > 0 {
      Pow2Adds(m - 1, n);
    }
  }

  lemma Squared(n: nat, p: nat)
    requires Pow2(n) == p
    ensures Pow2(n + n) == p * p
  {
    Pow2Adds(n, n);
  }

  lemma Pow2Width()
    ensures Pow2(WIDTH) == TWO_64
  {
    assert Pow2(8) == 256;
    Squared(8, 0x100);
    Squared(16, 0x1_0000);
    Squared(32, 0x1_0000_0000);
  }

  /** The tables are those for checksums of `look` bytes and for `size` slots. */
  ghost predicate Configured(cfg: HashCfg, bits: nat) {
    && 0 < bits < WIDTH && cfg.size == Pow2(bits) && cfg.mask == cfg.size - 1 && cfg.shift == WIDTH - bits
    && |cfg.powers| == cfg.look > 0
    && (forall i :: 0 <= i < cfg.look ==> cfg.powers[i] == Power(cfg.look - 1 - i) % TWO_64)
    && cfg.multiplier == Power(cfg.look) % TWO_64
  }

  method SizeBits(slots: nat) returns (bits: nat)
    requires slots < TWO_64
    ensures 2 <= bits < WIDTH
    ensures slots >= 4 ==> Pow2(bits) <= slots < 2 * Pow2(bits)
    ensures slots < 4 ==> bits == 2
  {
    Pow2Width();
    bits := WIDTH - 1;
    var i := 3;
    assert Pow2(2) == 4;
    while i <= WIDTH - 1
      invariant 3 <= i <= WIDTH && (slots >= 4 ==> Pow2(i - 1) <= slots)
      invariant i > 3 ==> slots >= 4
    {
      if slots < Pow2(i) {
        return i - 1;
      }
      i := i + 1;
    }
  }

  lemma NextPower(n: nat)
    ensures Power(n) % TWO_64 * MULTIPLIER % TWO_64 == Power(n + 1) % TWO_64
  {
    ReduceFactor(Power(n), MULTIPLIER);
  }

  method SizeHashtable(slots: nat, look: nat) returns (cfg: HashCfg, ghost bits: nat)
    requires slots < TWO_64 && look > 0
    ensures Configured(cfg, bits) && cfg.look == look
    ensures slots >= 4 ==> Pow2(bits) <= slots < 2 * Pow2(bits)
  {
    hide Power;
    var b := SizeBits(slots);
    bits := b;
    var size := Pow2(b);
    var powers := seq(look, _ => 0);
    powers := powers[look - 1 := 1];
    PowerZero();
    var i := look - 1;
    while i > 0
      invariant 0 <= i < look == |powers|
      invariant forall k :: i <= k < look ==> powers[k] == Power(look - 1 - k) % TWO_64
    {
      NextPower(look - 1 - i);
      i := i - 1;
      powers := powers[i := powers[i + 1] * MULTIPLIER % TWO_64];
    }
    NextPower(look - 1);
    cfg := HashCfg(size, size - 1, WIDTH - b, look, powers, powers[0] * MULTIPLIER % TWO_64);
  }

  lemma PowerZero()
    ensures Power(0) % TWO_64 == 1
  {
  }

  // ----- The checksum

  /** The checksum of `look` bytes from the front. */
  method LargeCksum(cfg: HashCfg, base: seq<byte>, ghost bits: nat) returns (h: nat)
    requires Configured(cfg, bits) && |base| >= cfg.look
    ensures h == Poly(base[..cfg.look]) % TWO_64
  {
    hide Power, Poly, Congruent;
    h := 0;
    var i := 0;
    NoDigits(base, cfg.look);
    while i < cfg.look
      invariant i <= cfg.look && h < TWO_64
      invariant Congruent(h, Poly(base[..i]) * Power(cfg.look - i))
    {
      OneDigit(base, cfg.look, i, h, cfg.powers[i]);
      h := (h + base[i] * cfg.powers[i] % TWO_64) % TWO_64;
      i := i + 1;
    }
    AllDigits(base, cfg.look, h);
  }

  lemma NoDigits(base: seq<byte>, look: nat)
    ensures Congruent(0, Poly(base[..0]) * Power(look))
  {
  }

  lemma AllDigits(base: seq<byte>, look: nat, h: nat)
    requires look <= |base| && h < TWO_64 && Congruent(h, Poly(base[..look]) * Power(0))
    ensures h == Poly(base[..look]) % TWO_64
  {
  }

  lemma PolyMore(base: seq<byte>, i: nat)
    requires i < |base|
    ensures Poly(base[..i + 1]) == Poly(base[..i]) * MULTIPLIER + base[i]
  {
    assert base[..i + 1][..i] == base[..i];
  }

  lemma OneDigit(base: seq<byte>, look: nat, i: nat, h: nat, power: nat)
    requires i < look <= |base| && power == Power(look - 1 - i) % TWO_64
    requires Congruent(h, Poly(base[..i]) * Power(look - i))
    ensures Congruent((h + base[i] * power % TWO_64) % TWO_64, Poly(base[..i + 1]) * Power(look - (i + 1)))
  {
    hide Poly, Power;
    var b, p, m := base[i], Power(look - 1 - i), Poly(base[..i]);
    PolyMore(base, i);
    PowerStep(look - 1 - i);
    ReduceFactor(p, b);
    assert (m * MULTIPLIER + b) * p == m * (p * MULTIPLIER) + p * b;
    hide Congruent;
    SumReduces(h, base[i] * power, m * (p * MULTIPLIER), p * b);
  }

  lemma PowerStep(n: nat)
    ensures Power(n + 1) == Power(n) * MULTIPLIER
  {
  }

  lemma SumReduces(a: int, b: int, a': int, b': int)
    requires Congruent(a, a') && Congruent(b, b')
    ensures Congruent((a + b % TWO_64) % TWO_64, a' + b')
  {
  }

  /** The checksum one byte on, from the checksum here. */
  function LargeCksumUpdate(cfg: HashCfg, cksum: nat, base: seq<byte>): (h: nat)
    requires cfg.look < |base|
    ensures h < TWO_64
  {
    ((MULTIPLIER * cksum % TWO_64 - cfg.multiplier * base[0] % TWO_64) % TWO_64 + base[cfg.look]) % TWO_64
  }

  lemma {:induction false} PolyHead(s: seq<byte>)
    requires s != []
    ensures Poly(s) == s[0] * Power(|s| - 1) + Poly(s[1..])
  {
    var n := |s| - 1;
    if n > 0 {
      PolyHead(s[..n]);
      assert s[..n][1..] == s[1..][..n - 1];
      assert s[0] * Power(n - 1) * MULTIPLIER == s[0] * Power(n);
    }
  }

  lemma PolySlides(s: seq<byte>)
    requires |s| >= 2
    ensures Poly(s[1..]) == MULTIPLIER * Poly(s[..|s| - 1]) - Power(|s| - 1) * s[0] + s[|s| - 1]
  {
    PolyHead(s);
  }

  lemma UpdateReduces(c: int, m: int, x: int, m': int, b: int)
    requires Congruent(c, x) && Congruent(m, m')
    ensures ((c % TWO_64 - m % TWO_64) % TWO_64 + b) % TWO_64 == (x - m' + b) % TWO_64
  {
  }

  /** The updated checksum is the checksum computed afresh one byte further on. */
  lemma UpdateSlides(cfg: HashCfg, bits: nat, base: seq<byte>)
    requires Configured(cfg, bits) && cfg.look < |base|
    ensures LargeCksumUpdate(cfg, Poly(base[..cfg.look]) % TWO_64, base) == Poly(base[1..cfg.look + 1]) % TWO_64
  {
    hide Poly, Power;
    var n := cfg.look;
    var s := base[..n + 1];
    assert s[1..] == base[1..n + 1] && s[..n] == base[..n];
    PolySlides(s);
    ReduceFactor(Poly(base[..n]), MULTIPLIER);
    ReduceFactor(Power(n), base[0]);
    UpdateReduces(MULTIPLIER * (Poly(base[..n]) % TWO_64), cfg.multiplier * base[0],
                  MULTIPLIER * Poly(base[..n]), Power(n) * base[0], base[n]);
  }

  /** The checksum carried along from the start to `pos`. */
  function SlidTo(cfg: HashCfg, base: seq<byte>, pos: nat): (h: nat)
    requires pos + cfg.look <= |base|
  {
    if pos == 0 then Poly(base[..cfg.look]) % TWO_64
    else LargeCksumUpdate(cfg, SlidTo(cfg, base, pos - 1), base[pos - 1..])
  }

  /** However far the checksum has slid, it is the one computed afresh at that position. */
  lemma {:induction false} SlidIsFresh(cfg: HashCfg, bits: nat, base: seq<byte>, pos: nat)
    requires Configured(cfg, bits) && pos + cfg.look <= |base|
    ensures SlidTo(cfg, base, pos) == Poly(base[pos..pos + cfg.look]) % TWO_64
  {
    hide LargeCksumUpdate, Poly, Power;
    if pos > 0 {
      SlidIsFresh(cfg, bits, base, pos - 1);
      var rest := base[pos - 1..];
      UpdateSlides(cfg, bits, rest);
      assert rest[..cfg.look] == base[pos - 1..pos - 1 + cfg.look];
      assert rest[1..cfg.look + 1] == base[pos..pos + cfg.look];
    }
  }

  // ----- The slot of a checksum

  function Xor(a: nat, b: nat): nat
    decreases a + b
  {
    if a == 0 then b else if b == 0 then a
    else 2 * Xor(a / 2, b / 2) + (a % 2 + b % 2) % 2
  }

  function And(a: nat, b: nat): nat
    decreases a + b
  {
    if a == 0 || b == 0 then 0 else 2 * And(a / 2, b / 2) + (a % 2) * (b % 2)
  }

  lemma {:induction false} XorBelow(a: nat, b: nat, n: nat)
    requires a < Pow2(n) && b < Pow2(n)
    ensures Xor(a, b) < Pow2(n)
    decreases n
  {
    if a > 0 && b > 0 {
      XorBelow(a / 2, b / 2, n - 1);
    }
  }

  lemma HalfMod(a: nat, p: nat)
    requires p > 0
    ensures a % (2 * p) == 2 * (a / 2 % p) + a % 2
  {
    var h := a / 2;
    var q, r := h / p, h % p;
    assert h == p * q + r && 0 <= r < p;
    assert a == (2 * p) * q + (2 * r + a % 2);
    DivUnique(2 * p, a, q, 2 * r + a % 2);
  }

  lemma AndOdd(a: nat, m: nat)
    ensures And(a, 2 * m + 1) == 2 * And(a / 2, m) + a % 2
  {
    assert (2 * m + 1) / 2 == m && (2 * m + 1) % 2 == 1;
  }

  lemma AndNothing(a: nat)
    ensures And(a, 0) == 0 && And(0, a) == 0
  {
  }

  lemma MaskStep(a: nat, p: nat)
    requires p > 0 && And(a / 2, p - 1) == a / 2 % p
    ensures And(a, 2 * p - 1) == a % (2 * p)
  {
    hide *;
    AndOdd(a, p - 1);
    assert 2 * (p - 1) + 1 == 2 * p - 1;
    HalfMod(a, p);
  }

  /** Masking with `2^n - 1` keeps the low `n` bits. */
  lemma {:induction false} AndMask(a: nat, n: nat)
    ensures And(a, Pow2(n) - 1) == a % Pow2(n)
    decreases n
  {
    hide And;
    if n == 0 {
      AndNothing(a);
    } else {
      AndMask(a / 2, n - 1);
      MaskStep(a, Pow2(n - 1));
      assert Pow2(n) == 2 * Pow2(n - 1);
    }
  }

  function ShiftRight(a: nat, n: nat): nat {
    hide Pow2;
    a / Pow2(n)
  }

  function ChecksumHash(cfg: HashCfg, cksum: nat): nat {
    hide Pow2;
    Xor(ShiftRight(cksum, cfg.shift), And(cksum, cfg.mask))
  }

  /** Every checksum has a slot in the table. */
  lemma HashInTable(cfg: HashCfg, bits: nat, cksum: nat)
    requires Configured(cfg, bits) && cksum < TWO_64
    ensures ChecksumHash(cfg, cksum) < cfg.size
  {
    hide Xor, And, Power, Pow2;
    Pow2Width();
    Pow2Adds(WIDTH - bits, bits);
    AndMask(cksum, bits);
    TopBits(cksum, Pow2(cfg.shift), Pow2(bits));
    XorBelow(ShiftRight(cksum, cfg.shift), And(cksum, cfg.mask), bits);
  }

  lemma TopBits(c: nat, p: nat, q: nat)
    requires p > 0 && q > 0 && c < p * q
    ensures c / p < q && c % q < q
  {
    var k := c / p;
    assert k * p <= c;
    assert (q - k) * p == q * p - k * p;
  }
}
