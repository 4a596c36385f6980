/** The Adler-32 checksum (sections 2.2 and 9 of RFC 1950), with the modulo taken once every 5552 bytes. */
module Adler {
  import opened Bytes

  const A32_BASE: nat := 65521
  const A32_NMAX: nat := 5552
  const TWO_32: nat := 0x1_0000_0000

  datatype Sums = Sums(s1: nat, s2: nat)

  /** The RFC's definition: both sums reduced at every byte. */
  function Reduced(s: Sums, buf: seq<byte>): (r: Sums)
    ensures buf != [] || (s.s1 < A32_BASE && s.s2 < A32_BASE) ==> r.s1 < A32_BASE && r.s2 < A32_BASE
  {
    if buf == [] then s
    else
      var p := Reduced(s, buf[..|buf| - 1]);
      var s1 := (p.s1 + buf[|buf| - 1]) % A32_BASE;
      Sums(s1, (p.s2 + s1) % A32_BASE)
  }

  function Unpack(adler: nat): Sums { Sums(adler % 0x1_0000, adler / 0x1_0000 % 0x1_0000) }

  function Pack(s: Sums): nat { s.s2 * 0x1_0000 + s.s1 }

  /** The checksum of a whole buffer, from the initial value 1. */
  function Checksum(buf: seq<byte>): (a: nat)
    ensures a < TWO_32
  {
    Pack(Reduced(Sums(1, 0), buf))
  }

  /** The checksum is the running one started at 1. */
  lemma FromOne(buf: seq<byte>)
    ensures Checksum(buf) == if buf == [] then 1 else Pack(Reduced(Unpack(1), buf))
  {
    hide Reduced;
    assert Unpack(1) == Sums(1, 0);
    if buf == [] {
      NothingSummed();
    }
  }

  // ----- The checksum in closed form

  /** The sum of the bytes. */
  function Sum(b: seq<byte>): nat {
    if b == [] then 0 else Sum(b[..|b| - 1]) + b[|b| - 1]
  }

  /** The bytes counted `n` times, `n - 1` times, and so on. */
  function Weighed(b: seq<byte>, n: nat): nat
    requires |b| <= n
  {
    if b == [] then 0 else Weighed(b[..|b| - 1], n) + (n - (|b| - 1)) * b[|b| - 1]
  }

  lemma {:induction false} OnceMore(b: seq<byte>, n: nat)
    requires |b| <= n
    ensures Weighed(b, n + 1) == Weighed(b, n) + Sum(b)
  {
    if b != [] {
      OnceMore(b[..|b| - 1], n);
      var k, x := n - (|b| - 1), b[|b| - 1];
      assert (k + 1) * x == k * x + x;
    }
  }

  /** A sum of which one part was reduced before. */
  lemma ModEarlier(a: nat, b: nat)
    ensures (a % 65521 + b) % 65521 == (a + b) % 65521
  {
  }

  /** One more byte: both sums may as well have been reduced before. */
  lemma ModStep(s1: nat, s2: nat, last: nat)
    ensures (s1 % 65521 + last) % 65521 == (s1 + last) % 65521
    ensures (s2 % 65521 + (s1 + last) % 65521) % 65521 == (s2 + s1 + last) % 65521
  {
    ModEarlier(s1, last);
    ModEarlier(s2, (s1 + last) % 65521);
    ModEarlier(s1 + last, s2);
  }

  lemma LastByte(s: Sums, b: seq<byte>)
    requires b != []
    ensures
      var p, last := Reduced(s, b[..|b| - 1]), b[|b| - 1];
      var s1 := (p.s1 + last) % 65521;
      Reduced(s, b) == Sums(s1, (p.s2 + s1) % 65521)
  {
  }

  lemma NoneReduced(s: Sums)
    ensures Reduced(s, []) == s
  {
  }

  /** Sums reduced at every byte are the sums reduced at the end. */
  lemma {:induction false} ReducedClosed(s: Sums, b: seq<byte>)
    requires b != []
    ensures Reduced(s, b).s1 == (s.s1 + Sum(b)) % 65521
    ensures Reduced(s, b).s2 == (s.s2 + |b| * s.s1 + Weighed(b, |b|)) % 65521
  {
    hide Sum, Weighed, Reduced;
    var n, last := |b| - 1, b[|b| - 1];
    var front := b[..n];
    LastByte(s, b);
    SumParts(b);
    OnceMore(front, n);
    var s1, s2 := s.s1 + Sum(front), s.s2 + n * s.s1 + Weighed(front, n);
    if front == [] {
      NoBytes(front);
      NoneReduced(s);
      ModEarlier(s1 + last, s2);
    } else {
      ReducedClosed(s, front);
      ModStep(s1, s2, last);
    }
    assert (n + 1) * s.s1 == n * s.s1 + s.s1;
  }

  lemma SumParts(b: seq<byte>)
    requires b != []
    ensures
      var n := |b| - 1;
      Sum(b) == Sum(b[..n]) + b[n] && Weighed(b, n + 1) == Weighed(b[..n], n + 1) + b[n]
  {
  }

  lemma NoBytes(b: seq<byte>)
    requires b == []
    ensures Sum(b) == 0 && Weighed(b, 0) == 0
  {
  }

  lemma Halves(s1: nat, s2: nat)
    requires s1 < 0x1_0000
    ensures Pack(Sums(s1, s2)) % 0x1_0000 == s1 && Pack(Sums(s1, s2)) / 0x1_0000 == s2
  {
  }

  /** The two halves of the checksum: the sum of the bytes and one, and the sum of all partial sums. */
  lemma ChecksumClosed(b: seq<byte>)
    ensures Checksum(b) % 0x1_0000 == (1 + Sum(b)) % 65521
    ensures Checksum(b) / 0x1_0000 == (|b| + Weighed(b, |b|)) % 65521
  {
    var r := Reduced(Sums(1, 0), b);
    if b == [] {
      NoBytes(b);
    } else {
      ReducedClosed(Sums(1, 0), b);
    }
    Halves(r.s1, r.s2);
  }

  lemma ContinuedClosed(adler: nat, b: seq<byte>)
    requires adler < TWO_32 && b != []
    ensures
      var a := Pack(Reduced(Unpack(adler), b));
      && a % 0x1_0000 == (adler % 0x1_0000 + Sum(b)) % 65521
      && a / 0x1_0000 == (adler / 0x1_0000 + |b| * (adler % 0x1_0000) + Weighed(b, |b|)) % 65521
  {
    hide Reduced, Sum, Weighed;
    var r := Reduced(Unpack(adler), b);
    ReducedClosed(Unpack(adler), b);
    Halves(r.s1, r.s2);
  }

  lemma NothingSummed()
    ensures Reduced(Sums(1, 0), []) == Sums(1, 0)
  {
  }

  /** The largest second sum after `n` bytes without reduction, whatever 16-bit sums one starts from. */
  function Bound(n: nat): nat {
    if n == 0 then 65535 else Bound(n - 1) + 65535 + 255 * n
  }

  lemma {:induction false} BoundClosed(n: nat)
    ensures 2 * Bound(n) == 2 * 65535 * (n + 1) + 255 * (n * (n + 1))
  {
    if n > 0 {
      BoundClosed(n - 1);
      assert n * (n + 1) == (n - 1) * n + 2 * n;
    }
  }

  lemma {:induction false} BoundGrows(n: nat, m: nat)
    requires n <= m
    ensures Bound(n) <= Bound(m)
    decreases m
  {
    if n < m { BoundGrows(n, m - 1); }
  }

  /** 5552 bytes fit, even from unreduced starting sums. */
  lemma BoundFits(n: nat)
    requires n <= A32_NMAX
    ensures Bound(n) < TWO_32 && 65535 + 255 * n < TWO_32
  {
    BoundGrows(n, A32_NMAX);
    BoundClosed(A32_NMAX);
    assert A32_NMAX * (A32_NMAX + 1) == 30830256;
  }

  /** Deferred sums after `n` bytes since the last reduction: congruent to the definition, and small enough that
      no 32-bit addition has wrapped. */
  ghost predicate Deferred(s: Sums, r: Sums, n: nat) {
    && s.s1 % A32_BASE == r.s1 % A32_BASE && s.s2 % A32_BASE == r.s2 % A32_BASE
    && s.s1 <= 65535 + 255 * n && s.s2 <= Bound(n)
  }

  /** One byte, in 32-bit arithmetic. */
  function AddByte(s: Sums, b: byte): Sums {
    var s1 := (s.s1 + b) % TWO_32;
    Sums(s1, (s.s2 + s1) % TWO_32)
  }

  lemma ModAdd(a: nat, b: nat, c: nat)
    requires a % A32_BASE == b % A32_BASE
    ensures (a + c) % A32_BASE == (b + c) % A32_BASE
  {
  }

  lemma AddByteDeferred(s: Sums, start: Sums, buf: seq<byte>, i: nat, n: nat)
    requires i < |buf| && n < A32_NMAX && Deferred(s, Reduced(start, buf[..i]), n)
    ensures Deferred(AddByte(s, buf[i]), Reduced(start, buf[..i + 1]), n + 1)
  {
    var r, b := Reduced(start, buf[..i]), buf[i];
    assert Bound(n + 1) == Bound(n) + 65535 + 255 * (n + 1);
    assert Reduced(start, buf[..i + 1]) == Sums((r.s1 + b) % A32_BASE, (r.s2 + (r.s1 + b) % A32_BASE) % A32_BASE) by {
      assert buf[..i + 1][..|buf[..i + 1]| - 1] == buf[..i];
    }
    AddByteSums(s, r, b, n);
  }

  lemma NoWrap(s: Sums, b: byte)
    requires s.s1 + b < TWO_32 && s.s2 + s.s1 + b < TWO_32
    ensures AddByte(s, b) == Sums(s.s1 + b, s.s2 + s.s1 + b)
  {
  }

  lemma SumsCongruent(s1: nat, s2: nat, t1: nat, t2: nat, b: byte)
    requires s1 % A32_BASE == t1 % A32_BASE && s2 % A32_BASE == t2 % A32_BASE
    ensures (s1 + b) % A32_BASE == (t1 + b) % A32_BASE % A32_BASE
    ensures (s2 + s1 + b) % A32_BASE == (t2 + (t1 + b) % A32_BASE) % A32_BASE % A32_BASE
  {
    ModAdd(s1, t1, b);
    ModAdd(s2, t2, s1 + b);
    ModAdd(s1 + b, (t1 + b) % A32_BASE, t2);
  }

  lemma AddByteSums(s: Sums, r: Sums, b: byte, n: nat)
    requires n < A32_NMAX && Deferred(s, r, n)
    ensures Deferred(AddByte(s, b), Sums((r.s1 + b) % A32_BASE, (r.s2 + (r.s1 + b) % A32_BASE) % A32_BASE), n + 1)
  {
    BoundFits(n + 1);
    NoWrap(s, b);
    var r1 := (r.s1 + b) % A32_BASE;
    SumsCongruent(s.s1, s.s2, r.s1, r.s2, b);
  }

  /** Adds `count` bytes from `from` on without reducing. */
  method AddBytes(s0: Sums, ghost start: Sums, buf: seq<byte>, from: nat, count: nat, ghost n: nat) returns (s: Sums)
    requires from + count <= |buf| && n + count <= A32_NMAX && Deferred(s0, Reduced(start, buf[..from]), n)
    ensures Deferred(s, Reduced(start, buf[..from + count]), n + count)
  {
    s := s0;
    var i := 0;
    while i < count
      invariant i <= count && Deferred(s, Reduced(start, buf[..from + i]), n + i)
    {
      AddByteDeferred(s, start, buf, from + i, n + i);
      s := AddByte(s, buf[from + i]);
      i := i + 1;
    }
  }

  /** One stretch of at most 5552 bytes: sixteen at a time, then the rest, then the modulo. */
  method AddChunk(s0: Sums, ghost start: Sums, buf: seq<byte>, from: nat, size: nat) returns (s: Sums)
    requires 0 < size <= A32_NMAX && from + size <= |buf| && Deferred(s0, Reduced(start, buf[..from]), 0)
    ensures s == Reduced(start, buf[..from + size]) && Deferred(s, s, 0)
  {
    hide Reduced, AddByte, Bound, Deferred;
    s := s0;
    var k: nat, pos := size, from;
    while k >= 16
      invariant pos == from + (size - k) && Deferred(s, Reduced(start, buf[..pos]), size - k)
    {
      s := AddBytes(s, start, buf, pos, 16, size - k);
      pos, k := pos + 16, k - 16;
    }
    ghost var n := size - k;
    if k != 0 {
      s := AddBytes(s, start, buf, pos, k, size - k);
      pos, n := pos + k, n + k;
    }
    CatchUp(s, start, buf[..pos], n);
    s := Sums(s.s1 % A32_BASE, s.s2 % A32_BASE);
  }

  lemma CatchUp(s: Sums, start: Sums, buf: seq<byte>, n: nat)
    requires buf != [] && Deferred(s, Reduced(start, buf), n)
    ensures var r := Reduced(start, buf); Sums(s.s1 % A32_BASE, s.s2 % A32_BASE) == r && Deferred(r, r, 0)
  {
  }

  /** The checksum of `buf` continued from `adler`: for every input of every length, and any 32-bit start. */
  method Adler32(adler: nat, buf: seq<byte>) returns (a: nat)
    requires adler < TWO_32
    ensures buf == [] ==> a == adler
    ensures buf != [] ==> a == Pack(Reduced(Unpack(adler), buf))
    ensures buf != [] ==> a % 0x1_0000 == (adler % 0x1_0000 + Sum(buf)) % 65521
    ensures buf != [] ==>
      a / 0x1_0000 == (adler / 0x1_0000 + |buf| * (adler % 0x1_0000) + Weighed(buf, |buf|)) % 65521
  {
    if buf != [] {
      ContinuedClosed(adler, buf);
    }
    var s := Unpack(adler);
    ghost var start := s;
    var pos: nat := 0;
    assert buf[..0] == [];
    while pos < |buf|
      invariant pos <= |buf| && Deferred(s, Reduced(start, buf[..pos]), 0)
      invariant s == Reduced(start, buf[..pos])
    {
      var k := if |buf| - pos < A32_NMAX then |buf| - pos else A32_NMAX;
      s := AddChunk(s, start, buf, pos, k);
      pos := pos + k;
    }
    assert buf[..|buf|] == buf;
    a := Pack(s);
  }
}
