/** Bytes, and the byte-by-byte copy that every part of the format is built on. */
module Bytes {

  type byte = b: int | 0 <= b < 256

  function Min(x: nat, y: nat): (m: nat) {
    if x < y then x else y
  }

  function Max(x: nat, y: nat): (m: nat) {
    if x < y then y else x
  }

  function Repeat(b: byte, n: nat): (s: seq<byte>)
    ensures |s| == n
  {
    seq(n, _ => b)
  }

  /** Appends `n` bytes read from `addr` onwards, one at a time, so that a copy may read what it has just written. */
  function CopyWithin(o: seq<byte>, addr: nat, n: nat): (r: seq<byte>)
    requires n > 0 ==> addr < |o|
    ensures |r| == |o| + n
    ensures o <= r
    decreases n
  {
    if n == 0 then o else CopyWithin(o + [o[addr]], addr + 1, n - 1)
  }

  /** The bytes appended by a self-overlapping copy are the bytes found at the same distance behind them. */
  lemma {:induction false} CopyWithinAt(o: seq<byte>, addr: nat, n: nat, j: nat)
    requires n > 0 ==> addr < |o|
    requires j < n
    ensures CopyWithin(o, addr, n)[|o| + j] == CopyWithin(o, addr, n)[addr + j]
    decreases n
  {
    var r := CopyWithin(o, addr, n);
    if j > 0 {
      CopyWithinAt(o + [o[addr]], addr + 1, n - 1, j - 1);
    } else {
      assert o + [o[addr]] <= r;
      assert (o + [o[addr]])[|o|] == r[|o|];
    }
  }
}
