/** Base-128 integers (section 2 of RFC 3284): seven bits a byte, most significant first, the top bit set on all
    bytes but the last. Sizes and offsets are 64 bits wide. */
module Integers {
  import opened Arithmetic
  import opened Bytes

  /** A partial value with any of its seven top bits set cannot take another byte. */
  const OVERFLOW_AT: nat := 0x200_0000_0000_0000

  datatype ReadResult = Read(value: nat, rest: seq<byte>) | EndOfInput | Overflow

  /** Reads one integer, continuing from the partial value `val`. */
  function ReadInt(input: seq<byte>, val: nat): (r: ReadResult)
    requires val < TWO_64
    ensures r.Read? ==> r.value < TWO_64 && |r.rest| < |input| && r.rest == input[|input| - |r.rest|..]
  {
    if input == [] then EndOfInput
    else if val >= OVERFLOW_AT then Overflow
    else
      var val' := val * 128 + input[0] % 128;
      if input[0] < 128 then Read(val', input[1..]) else ReadInt(input[1..], val')
  }

  /** The bytes of `num`, each with its top bit set. */
  function Continued(num: nat): (s: seq<byte>) {
    (if num < 128 then [] else Continued(num / 128)) + [num % 128 + 128]
  }

  function EmitInt(num: nat): (s: seq<byte>) {
    (if num < 128 then [] else Continued(num / 128)) + [num % 128]
  }

  lemma ReadNext(head: byte, rest: seq<byte>, val: nat)
    requires val < OVERFLOW_AT && head >= 128
    ensures ReadInt([head] + rest, val) == ReadInt(rest, val * 128 + head - 128)
  {
    assert ([head] + rest)[1..] == rest;
  }

  /** A reader that has seen all bytes of a continued value holds that value. */
  lemma {:induction false} ReadContinued(num: nat, rest: seq<byte>)
    requires num < OVERFLOW_AT
    ensures ReadInt(Continued(num) + rest, 0) == ReadInt(rest, num)
  {
    hide ReadInt;
    var last := num % 128 + 128;
    if num < 128 {
      assert Continued(num) == [last];
      ReadNext(last, rest, 0);
    } else {
      assert Continued(num) + rest == Continued(num / 128) + ([last] + rest);
      ReadContinued(num / 128, [last] + rest);
      ReadNext(last, rest, num / 128);
    }
  }

  lemma ReadLast(head: byte, rest: seq<byte>, val: nat)
    requires val < OVERFLOW_AT && head < 128
    ensures ReadInt([head] + rest, val) == Read(val * 128 + head, rest)
  {
    assert ([head] + rest)[1..] == rest;
  }

  /** Every 64-bit value is read back, and exactly its own bytes are consumed. */
  lemma ReadEmitted(num: nat, rest: seq<byte>)
    requires num < TWO_64
    ensures ReadInt(EmitInt(num) + rest, 0) == Read(num, rest)
  {
    hide ReadInt, Continued;
    var last := num % 128;
    if num < 128 {
      assert EmitInt(num) == [last];
      ReadLast(last, rest, 0);
    } else {
      assert EmitInt(num) + rest == Continued(num / 128) + ([last] + rest);
      ReadContinued(num / 128, [last] + rest);
      ReadLast(last, rest, num / 128);
    }
  }

  lemma {:induction false} ContinuedDigits(num: nat, i: nat)
    requires i < |Continued(num)|
    ensures Continued(num)[|Continued(num)| - 1 - i] == 128 + num / Pow2(7 * i) % 128
  {
    if i > 0 {
      ContinuedDigits(num / 128, i - 1);
      SevenMore(num, i);
    }
  }

  lemma SevenDoublings(n: nat)
    ensures Pow2(n + 7) == 128 * Pow2(n)
  {
    assert Pow2(n + 2) == 4 * Pow2(n) && Pow2(n + 4) == 16 * Pow2(n) && Pow2(n + 6) == 64 * Pow2(n);
  }

  lemma SevenMore(num: nat, i: nat)
    requires i > 0
    ensures num / 128 / Pow2(7 * (i - 1)) == num / Pow2(7 * i)
  {
    hide Pow2;
    var p := Pow2(7 * (i - 1));
    SevenDoublings(7 * (i - 1));
    assert 7 * (i - 1) + 7 == 7 * i;
    var q, r := num / 128 / p, num / 128 % p;
    assert num == 128 * (q * p + r) + num % 128;
    assert 128 * (q * p) == (128 * p) * q;
    DivUnique(128 * p, num, q, 128 * r + num % 128);
  }

  /** Counted from the end, byte `i` holds the number's digit `i` to the base of 128, and only the last byte has its top
      bit clear; there is no leading zero. */
  lemma EmittedDigits(num: nat, i: nat)
    requires i < |EmitInt(num)|
    ensures EmitInt(num)[|EmitInt(num)| - 1 - i] == (if i > 0 then 128 else 0) + num / Pow2(7 * i) % 128
    ensures |EmitInt(num)| > 1 ==> EmitInt(num)[0] != 128
  {
    hide Pow2;
    if num >= 128 {
      if i > 0 {
        ContinuedDigits(num / 128, i - 1);
        SevenMore(num, i);
      } else {
        NoPower();
      }
      NoLeadingZero(num / 128);
    } else {
      NoPower();
    }
  }

  lemma NoPower()
    ensures Pow2(7 * 0) == 1
  {
  }

  lemma {:induction false} NoLeadingZero(num: nat)
    requires num > 0
    ensures Continued(num)[0] != 128
  {
    if num >= 128 {
      NoLeadingZero(num / 128);
    }
  }

  /** Leading zeros, which the encoder never writes, are read past. */
  lemma ReadsPastZeros(input: seq<byte>)
    ensures ReadInt([128] + input, 0) == ReadInt(input, 0)
  {
    hide ReadInt;
    ReadNext(128, input, 0);
  }

  /** Bytes behind a complete integer do not change how it is read. */
  lemma {:induction false} ReadIgnoresTail(input: seq<byte>, val: nat, tail: seq<byte>)
    requires val < TWO_64 && ReadInt(input, val).Read?
    ensures ReadInt(input + tail, val) == Read(ReadInt(input, val).value, ReadInt(input, val).rest + tail)
    decreases |input|
  {
    assert (input + tail)[1..] == input[1..] + tail;
    if input[0] >= 128 {
      ReadIgnoresTail(input[1..], val * 128 + input[0] % 128, tail);
    }
  }

  /** The number of bytes the encoder announces for a value. */
  function SizeOfInt(num: nat): nat {
    if num < 0x80 then 1
    else if num < 0x4000 then 2
    else if num < 0x20_0000 then 3
    else if num < 0x1000_0000 then 4
    else if num < 0x8_0000_0000 then 5
    else if num < 0x400_0000_0000 then 6
    else if num < 0x2_0000_0000_0000 then 7
    else if num < 0x100_0000_0000_0000 then 8
    else if num < 0x8000_0000_0000_0000 then 9
    else 10
  }

  lemma {:induction false} ContinuedLength(num: nat)
    requires num < TWO_64
    ensures |Continued(num)| == SizeOfInt(num)
  {
    if num >= 128 { ContinuedLength(num / 128); }
  }

  /** The announced size is the size written. */
  lemma EmittedLength(num: nat)
    requires num < TWO_64
    ensures |EmitInt(num)| == SizeOfInt(num) <= 10
  {
    if num >= 128 { ContinuedLength(num / 128); }
  }

  /** The decoder's loop over a section that is entirely in memory. */
  method ReadInteger(input: seq<byte>) returns (r: ReadResult)
    ensures r == ReadInt(input, 0)
  {
    var inp := 0;
    var val: nat := 0;
    while true
      invariant inp <= |input| && val < TWO_64
      invariant ReadInt(input, 0) == ReadInt(input[inp..], val)
      decreases |input| - inp
    {
      if inp == |input| {
        return EndOfInput;
      }
      if val >= OVERFLOW_AT {
        return Overflow;
      }
      var next := input[inp];
      assert input[inp..][1..] == input[inp + 1..];
      assert input[inp..][0] == next;
      inp := inp + 1;
      val := val * 128 + next % 128;
      if next < 128 {
        return Read(val, input[inp..]);
      }
    }
  }

  /** What the digits above the last ones come to. */
  function Upper(num: nat): seq<byte> {
    if num == 0 then [] else Continued(num)
  }

  lemma UpperIs(num: nat)
    ensures Upper(num) == if num == 0 then [] else Continued(num)
    ensures num != 0 ==> |Upper(num)| > 0
  {
  }

  lemma UpperStep(num: nat, done: seq<byte>)
    ensures Continued(num) + done == Upper(num / 128) + ([num % 128 + 128] + done)
    ensures |Continued(num)| == |Upper(num / 128)| + 1
  {
    assert Upper(num / 128) + ([num % 128 + 128] + done) == Upper(num / 128) + [num % 128 + 128] + done;
  }

  /** Divides `value` down, writing from the end of the buffer; all bytes get their top bit. */
  method FillContinued(buf: array<byte>, value: nat) returns (bufi: nat)
    requires buf.Length == 10 && value < TWO_64
    modifies buf
    ensures bufi < 10 && buf[bufi..] == Continued(value)
  {
    hide Continued, Upper, EmitInt, SizeOfInt;
    var num: nat := value;
    ContinuedLength(value);
    EmittedLength(value);
    UpperStep(num, []);
    bufi := 9;
    buf[bufi] := num % 128 + 128;
    assert Continued(value) + [] == Continued(value) && [num % 128 + 128] + [] == buf[9..];
    num := num / 128;
    while num != 0
      invariant bufi <= 9 && num < TWO_64 && |Upper(num)| <= bufi
      invariant Continued(value) == Upper(num) + buf[bufi..]
    {
      ghost var done := buf[bufi..];
      UpperIs(num);
      UpperStep(num, done);
      bufi := bufi - 1;
      buf[bufi] := num % 128 + 128;
      assert buf[bufi..] == [num % 128 + 128] + done;
      num := num / 128;
    }
    UpperIs(0);
    assert [] + buf[bufi..] == buf[bufi..];
  }

  /** Fills a ten-byte buffer from its end, clears the top bit of the last byte, and returns the part used. */
  method EmitInteger(value: nat) returns (bytes: seq<byte>)
    requires value < TWO_64
    ensures bytes == EmitInt(value)
  {
    hide Continued;
    var buf := new byte[10];
    var bufi := FillContinued(buf, value);
    ContinuedLast(value);
    assert buf[9] == buf[bufi..][9 - bufi];
    assert buf[bufi..9] == buf[bufi..][..9 - bufi];
    buf[9] := buf[9] % 128;
    bytes := buf[bufi..];
    assert bytes == buf[bufi..9] + [buf[9]];
  }

  lemma ContinuedLast(num: nat)
    ensures var c := Continued(num);
            |c| > 0 && c[|c| - 1] == num % 128 + 128 && EmitInt(num) == c[..|c| - 1] + [num % 128]
  {
  }
}
