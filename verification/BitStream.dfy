/** Bits packed into bytes: each byte is filled from its least significant bit, each value is sent from its most
    significant bit. */
module BitStream {
  import opened Bytes
  import opened Results
  import opened Arithmetic

  /** The low `n` bits of `v`, most significant first. */
  function Bits(v: nat, n: nat): (s: seq<bool>)
    ensures |s| == n
  {
    if n == 0 then [] else Bits(v / 2, n - 1) + [v % 2 == 1]
  }

  function ValueOf(bits: seq<bool>): nat {
    if bits == [] then 0
    else 2 * ValueOf(bits[..|bits| - 1]) + (if bits[|bits| - 1] then 1 else 0)
  }

  lemma {:induction false} ValueOfBits(v: nat, n: nat)
    requires v < Pow2(n)
    ensures ValueOf(Bits(v, n)) == v
  {
    if n > 0 {
      ValueOfBits(v / 2, n - 1);
      assert Bits(v, n)[..n - 1] == Bits(v / 2, n - 1);
    }
  }

  lemma {:induction false} ValueBound(bits: seq<bool>)
    ensures ValueOf(bits) < Pow2(|bits|)
  {
    if bits != [] {
      ValueBound(bits[..|bits| - 1]);
    }
  }

  predicate HasBit(v: nat, mask: nat)
    requires mask > 0
  {
    (v / mask) % 2 == 1
  }

  lemma HalfMask(v: nat, mask: nat)
    requires mask > 0
    ensures v / (2 * mask) == (v / 2) / mask
  {
    var q := (v / 2) / mask;
    var r := (v / 2) % mask;
    assert v / 2 == mask * q + r;
    assert v == (2 * mask) * q + (2 * r + v % 2);
    DivUnique(2 * mask, v, q, 2 * r + v % 2);
  }

  /** Bit number `i` of the sequence is the one that masking with the matching power of two picks out. */
  lemma {:induction false} BitsAt(v: nat, n: nat, i: nat)
    requires i < n
    ensures Bits(v, n)[i] == HasBit(v, Pow2(n - 1 - i))
  {
    if i < n - 1 {
      BitsAt(v / 2, n - 1, i);
      HalfMask(v, Pow2(n - 2 - i));
    }
  }

  /** The low `n` bits of `b`, least significant first. */
  function Flags(b: nat, n: nat): (s: seq<bool>)
    ensures |s| == n
  {
    if n == 0 then [] else [b % 2 == 1] + Flags(b / 2, n - 1)
  }

  function ByteBits(b: byte): (s: seq<bool>)
    ensures |s| == 8
  {
    Flags(b, 8)
  }

  function StreamBits(s: seq<byte>): (bits: seq<bool>)
    ensures |bits| == 8 * |s|
  {
    if s == [] then [] else ByteBits(s[0]) + StreamBits(s[1..])
  }

  lemma {:induction false} StreamBitsAppend(s: seq<byte>, t: seq<byte>)
    ensures StreamBits(s + t) == StreamBits(s) + StreamBits(t)
  {
    hide ByteBits;
    if s == [] {
      assert s + t == t;
    } else {
      StreamBitsAppend(s[1..], t);
      assert (s + t)[0] == s[0] && (s + t)[1..] == s[1..] + t;
      AssociateBools(ByteBits(s[0]), StreamBits(s[1..]), StreamBits(t));
    }
  }

  lemma AssociateBools(a: seq<bool>, b: seq<bool>, c: seq<bool>)
    ensures a + b + c == a + (b + c)
  {
  }

  lemma StreamBitsOne(s: seq<byte>, b: byte)
    ensures StreamBits(s + [b]) == StreamBits(s) + ByteBits(b)
  {
    StreamBitsAppend(s, [b]);
    assert StreamBits([b]) == ByteBits(b) + StreamBits([]);
  }

  /** Bit `k` of byte `i`, counted from the least significant one, comes `k` places behind the start of the byte. */
  lemma {:induction false} StreamBitsAt(s: seq<byte>, i: nat, k: nat)
    requires i < |s| && k < 8
    ensures StreamBits(s)[8 * i + k] == (s[i] / [1, 2, 4, 8, 16, 32, 64, 128][k] % 2 == 1)
  {
    hide ByteBits;
    if i == 0 {
      FlagOfByte(s[0], k);
    } else {
      StreamBitsAt(s[1..], i - 1, k);
      assert s[1..][i - 1] == s[i];
    }
  }

  lemma FlagOfByte(b: byte, k: nat)
    requires k < 8
    ensures ByteBits(b)[k] == (b / [1, 2, 4, 8, 16, 32, 64, 128][k] % 2 == 1)
  {
    hide Flags, Pow2;
    MaskedFlag(b, k, 8);
    PowersOfByte(k);
  }

  lemma PowersOfByte(k: nat)
    requires k < 8
    ensures Pow2(k) == [1, 2, 4, 8, 16, 32, 64, 128][k]
  {
    assert Pow2(4) == 16 && Pow2(6) == 64;
  }

  lemma ByteMasks()
    ensures Pow2(0) == 1 && Pow2(7) == 0x80 && Pow2(8) == 0x100
    ensures Log2(1) == 0 && Log2(0x80) == 7 && Log2(0x100) == 8
  {
    assert Pow2(4) == 16 && Pow2(6) == 64;
    Log2OfPow2(7);
    Log2OfPow2(8);
  }

  lemma NextMask(k: nat)
    ensures Pow2(k + 1) == 2 * Pow2(k) && Log2(Pow2(k + 1)) == k + 1
  {
    Log2OfPow2(k + 1);
  }

  /** The masks a bit cursor takes: one bit of a byte, or the bit just above it. */
  predicate Mask(m: nat) {
    m == Pow2(Log2(m)) && Log2(m) <= 8
  }

  lemma {:induction false} Log2OfPow2(n: nat)
    ensures Log2(Pow2(n)) == n
  {
    if n > 0 {
      Log2OfPow2(n - 1);
    }
  }

  lemma {:induction false} Pow2Monotone(k: nat, n: nat)
    requires k <= n
    ensures Pow2(k) <= Pow2(n)
    ensures k < n ==> 2 * Pow2(k) <= Pow2(n)
  {
    if k < n {
      Pow2Monotone(k, n - 1);
    }
  }

  lemma {:induction false} MaskedFlag(b: nat, k: nat, n: nat)
    requires k < n
    ensures HasBit(b, Pow2(k)) == Flags(b, n)[k]
  {
    if k > 0 {
      MaskedFlag(b / 2, k - 1, n - 1);
      HalfMask(b, Pow2(k - 1));
    }
  }

  lemma {:induction false} ClearAbove(b: nat, k: nat, n: nat)
    requires b < Pow2(k) && k <= n
    ensures Flags(b, n) == Flags(b, k) + seq(n - k, _ => false)
  {
    if k > 0 {
      ClearAbove(b / 2, k - 1, n - 1);
    } else if n > 0 {
      ClearAbove(0, 0, n - 1);
    }
  }

  lemma {:induction false} SetAbove(b: nat, k: nat)
    requires b < Pow2(k)
    ensures Flags(b, k + 1) == Flags(b, k) + [false]
    ensures Flags(b + Pow2(k), k + 1) == Flags(b, k) + [true]
  {
    if k > 0 {
      SetAbove(b / 2, k - 1);
      assert (b + Pow2(k)) / 2 == b / 2 + Pow2(k - 1);
    }
  }

  lemma SetClearBit(b: nat, m: nat)
    requires b < m
    ensures SetBit(b, m) == b + m
  {
  }

  class BitWriter {
    var output: seq<byte>
    var curByte: nat
    var curMask: nat

    ghost predicate Valid()
      reads this
    {
      Mask(curMask) && Log2(curMask) < 8 && curByte < curMask
    }

    ghost function Contents(): seq<bool>
      reads this
      requires Valid()
    {
      StreamBits(output) + Flags(curByte, Log2(curMask))
    }

    constructor ()
      ensures Valid() && Contents() == [] && output == []
    {
      output, curByte, curMask := [], 0, 1;
    }

    lemma ContentsLength()
      requires Valid()
      ensures 8 * |output| <= |Contents()| < 8 * |output| + 8
    {
    }

    method EncodeBit(bit: bool)
      requires Valid()
      modifies this
      ensures Valid() && Contents() == old(Contents()) + [bit]
    {
      hide Flags, HasBit, SetBit, StreamBits, Pow2, Log2;
      ghost var k, b := Log2(curMask), curByte;
      SetAbove(b, k);
      SetClearBit(b, curMask);
      ByteMasks();
      NextMask(k);
      if bit {
        curByte := SetBit(curByte, curMask);
      }
      assert Flags(curByte, k + 1) == Flags(b, k) + [bit];
      if curMask == 0x80 {
        StreamBitsOne(output, curByte);
        output := output + [curByte];
        curMask, curByte := 1, 0;
      } else {
        Pow2Monotone(k + 1, 8);
        curMask := 2 * curMask;
      }
    }

    method EncodeBits(nbits: nat, value: nat)
      requires Valid()
      requires 0 < nbits < 64 && value < Pow2(nbits)
      modifies this
      ensures Valid() && Contents() == old(Contents()) + Bits(value, nbits)
    {
      hide Bits, HasBit, Mask, Log2, Flags, StreamBits, BitWriter.Contents, BitWriter.Valid;
      var mask := Pow2(nbits);
      ghost var i := 0;
      ghost var before, bits := Contents(), Bits(value, nbits);
      assert before == before + bits[..0];
      while mask != 1
        invariant Valid() && 0 <= i <= nbits && mask == Pow2(nbits - i)
        invariant Contents() == before + bits[..i]
        decreases mask
      {
        mask := mask / 2;
        BitsAt(value, nbits, i);
        OneMoreBit(before, bits, i);
        EncodeBit(HasBit(value, mask));
        i := i + 1;
      }
      assert bits[..nbits] == bits;
    }

    /** The unused high bits of the last byte are sent as zeros. */
    method FlushBits()
      requires Valid()
      modifies this
      ensures Padded(StreamBits(output), old(Contents()))
    {
      if curMask != 1 {
        ghost var k := Log2(curMask);
        hide Flags, StreamBits, Pow2, Log2;
        ByteMasks();
        Pow2Monotone(k, 8);
        ClearAbove(curByte, k, 8);
        StreamBitsOne(output, curByte);
        output := output + [curByte];
        assert StreamBits(output) == old(Contents()) + seq(8 - k, _ => false);
      }
    }
  }

  /** `whole` is `bits`, filled up with fewer than eight zeros. */
  ghost predicate Padded(whole: seq<bool>, bits: seq<bool>) {
    && |bits| <= |whole| < |bits| + 8
    && whole == bits + seq(|whole| - |bits|, _ => false)
  }

  /** Or-ing a mask into a byte. */
  function SetBit(b: nat, mask: nat): (r: nat)
    requires mask > 0
  {
    if HasBit(b, mask) then b else b + mask
  }

  class BitReader {
    const input: seq<byte>
    var next: nat
    var curByte: byte
    var curMask: nat

    ghost predicate Valid()
      reads this
    {
      next <= |input| && Mask(curMask) && curMask > 1
    }

    ghost function Remaining(): seq<bool>
      reads this
      requires Valid()
    {
      ByteBits(curByte)[Log2(curMask)..] + StreamBits(input[next..])
    }

    constructor (input: seq<byte>)
      ensures Valid() && this.input == input && Remaining() == StreamBits(input)
    {
      this.input, next, curByte, curMask := input, 0, 0, 0x100;
      new;
      ByteMasks();
      Log2OfPow2(8);
      assert input[0..] == input;
    }

    /** The input is used up when less than a byte is left to read. */
    lemma UsedUp()
      requires Valid()
      ensures next == |input| <==> |Remaining()| < 8
    {
    }

    method DecodeBit() returns (r: Option<bool>)
      requires Valid()
      modifies this
      ensures Valid()
      ensures old(Remaining()) == [] ==> r.None? && Remaining() == []
      ensures old(Remaining()) != [] ==> r == Some(old(Remaining())[0]) && Remaining() == old(Remaining())[1..]
    {
      hide Flags, HasBit, Pow2, Log2;
      ByteMasks();
      if curMask == 0x100 {
        if next == |input| {
          return None;
        }
        assert input[next..][0] == input[next] && input[next..][1..] == input[next + 1..];
        curByte := input[next];
        next := next + 1;
        curMask := 1;
      }
      assert ByteBits(curByte)[Log2(curMask)..] + StreamBits(input[next..]) == old(Remaining());
      ghost var k := Log2(curMask);
      MaskedFlag(curByte, k, 8);
      NextMask(k);
      Pow2Monotone(k + 1, 8);
      r := Some(HasBit(curByte, curMask));
      curMask := 2 * curMask;
    }

    method DecodeBits(nbits: nat) returns (r: Result<nat>)
      requires Valid() && 0 < nbits < 64
      modifies this
      ensures Valid()
      ensures r.Ok? <==> |old(Remaining())| >= nbits
      ensures r.Ok? ==> r.value == ValueOf(old(Remaining())[..nbits]) && Remaining() == old(Remaining())[nbits..]
    {
      hide Times, Log2, StreamBits, Flags, Mask, ByteBits, BitReader.Remaining;
      ghost var all := Remaining();
      var value, vmask := 0, Pow2(nbits);
      Halved(0, vmask);
      ghost var i := 0;
      while vmask != 1
        invariant Valid() && 0 <= i <= nbits && i <= |all|
        invariant vmask == Pow2(nbits - i)
        invariant Remaining() == all[i..]
        invariant value == Times(ValueOf(all[..i]), vmask)
        decreases vmask
      {
        vmask := vmask / 2;
        var bit := DecodeBit();
        if bit.None? {
          return InvalidInput;
        }
        assert all[..i + 1][..i] == all[..i];
        Halved(ValueOf(all[..i]), vmask);
        if bit.value {
          value := value + vmask;
        }
        i := i + 1;
      }
      Halved(value, 1);
      Halved(ValueOf(all[..i]), 1);
      return Ok(value);
    }
  }

  lemma OneMoreBit(before: seq<bool>, bits: seq<bool>, i: nat)
    requires i < |bits|
    ensures before + bits[..i] + [bits[i]] == before + bits[..i + 1]
  {
  }

  function Times(a: nat, b: nat): nat {
    a * b
  }

  lemma Halved(a: nat, b: nat)
    ensures Times(a, 2 * b) == Times(2 * a, b)
    ensures Times(2 * a + 1, b) == Times(2 * a, b) + b
    ensures Times(a, 1) == a && Times(0, b) == 0
  {
  }
}
