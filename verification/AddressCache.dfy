/** The NEAR and SAME address caches (section 5 of RFC 3284), kept in step by encoder and decoder. */
module AddressCache {
  import opened Arithmetic
  import opened Bytes
  import opened Integers

  const VCD_SELF := 0
  const VCD_HERE := 1

  datatype Cache = Cache(near: seq<nat>, same: seq<nat>, nextSlot: nat) {
    /** `same` holds 256 slots for each SAME mode; mode numbers must fit an instruction type byte. */
    predicate Valid() {
      && |same| % 256 == 0
      && (if |near| > 0 then nextSlot < |near| else nextSlot == 0)
      && 3 + SameStart() + |same| / 256 <= 256
      && (forall i | 0 <= i < |near| :: near[i] < TWO_64)
      && (forall i | 0 <= i < |same| :: same[i] < TWO_64)
    }

    function SameStart(): nat { 2 + |near| }

    function Modes(): nat { SameStart() + |same| / 256 }
  }

  function InitCache(sNear: nat, sSame: nat): (c: Cache)
    ensures 5 + sNear + sSame <= 256 ==> c.Valid()
  {
    Cache(seq(sNear, _ => 0), seq(sSame * 256, _ => 0), 0)
  }

  function UpdateCache(c: Cache, addr: nat): (c': Cache)
    requires c.Valid() && addr < TWO_64
    ensures c'.Valid() && |c'.near| == |c.near| && |c'.same| == |c.same|
  {
    var c1 := if |c.near| > 0 then
                c.(near := c.near[c.nextSlot := addr], nextSlot := (c.nextSlot + 1) % |c.near|)
              else c;
    if |c.same| > 0 then c1.(same := c1.same[addr % |c.same| := addr]) else c1
  }

  datatype AddrResult = Addr(addr: nat, rest: seq<byte>, cache: Cache) | BadAddr

  /** Reads one address in mode `mode`; sums and differences wrap at 64 bits. */
  function DecodeAddress(c: Cache, here: nat, mode: nat, input: seq<byte>): (r: AddrResult)
    requires c.Valid() && mode < c.Modes()
    ensures r.Addr? ==> r.addr < TWO_64 && r.cache.Valid() && |r.cache.near| == |c.near| && |r.cache.same| == |c.same|
    ensures r.Addr? ==> |r.rest| < |input| && r.rest == input[|input| - |r.rest|..]
  {
    if mode < c.SameStart() then
      var r := ReadInt(input, 0);
      if !r.Read? then BadAddr
      else
        var addr := if mode == VCD_SELF then r.value
                    else if mode == VCD_HERE then (here - r.value) % TWO_64
                    else (r.value + c.near[mode - 2]) % TWO_64;
        Addr(addr, r.rest, UpdateCache(c, addr))
    else if input == [] then BadAddr
    else
      var addr := c.same[(mode - c.SameStart()) * 256 + input[0]];
      Addr(addr, input[1..], UpdateCache(c, addr))
  }

  lemma DecodeIgnoresTail(c: Cache, here: nat, mode: nat, input: seq<byte>, tail: seq<byte>)
    requires c.Valid() && mode < c.Modes() && DecodeAddress(c, here, mode, input).Addr?
    ensures var r := DecodeAddress(c, here, mode, input);
            DecodeAddress(c, here, mode, input + tail) == r.(rest := r.rest + tail)
  {
    if mode < c.SameStart() {
      ReadIgnoresTail(input, 0, tail);
    } else {
      assert (input + tail)[1..] == input[1..] + tail;
    }
  }

  /** In `mode`, `bytes` stand for `addr`: whatever follows them, the decoder gets `addr`, consumes exactly
      `bytes`, and updates its cache as the encoder does. */
  ghost predicate Encodes(c: Cache, here: nat, mode: nat, bytes: seq<byte>, addr: nat)
    requires c.Valid() && addr < TWO_64
  {
    && mode < c.Modes()
    && DecodeAddress(c, here, mode, bytes) == Addr(addr, [], UpdateCache(c, addr))
  }

  /** The encoder's short cut: it stops looking once bits 7 to 31 of the distance are clear. The mask is a 32-bit
      one, so a distance of 2^32 or more can take this exit too. */
  predicate SmallEnough(d: nat) {
    d / 128 % 0x200_0000 == 0
  }

  /** Distance `d` from the point that `mode` counts from is `addr`. */
  predicate Denotes(c: Cache, here: nat, mode: nat, d: nat, addr: nat) {
    && mode < c.SameStart()
    && addr == (if mode == VCD_SELF then d else if mode == VCD_HERE then here - d else c.near[mode - 2] + d)
  }

  lemma DistanceReadBack(c: Cache, here: nat, mode: nat, d: nat, addr: nat)
    requires c.Valid() && addr < here < TWO_64 && d < TWO_64 && Denotes(c, here, mode, d, addr)
    ensures Encodes(c, here, mode, EmitInt(d), addr)
  {
    assert ReadInt(EmitInt(d), 0) == Read(d, []) by {
      ReadEmitted(d, []);
      assert EmitInt(d) + [] == EmitInt(d);
    }
    assert addr % TWO_64 == addr;
    assert (if mode == VCD_SELF then d
            else if mode == VCD_HERE then (here - d) % TWO_64
            else (d + c.near[mode - 2]) % TWO_64) == addr;
  }

  lemma SameHit(c: Cache, here: nat, addr: nat)
    requires c.Valid() && addr < TWO_64 && |c.same| > 0 && c.same[addr % |c.same|] == addr
    ensures var d := addr % |c.same|;
            Encodes(c, here, c.SameStart() + d / 256, [d % 256], addr)
  {
    var d := addr % |c.same|;
    assert |c.same| == |c.same| / 256 * 256;
    assert d / 256 < |c.same| / 256;
    assert d / 256 * 256 + d % 256 == d;
  }

  /** Distance `bestd` is the smallest by which any mode that counts from a point could denote the address. */
  ghost predicate Smallest(c: Cache, here: nat, bestd: nat, addr: nat) {
    forall m: nat, d: nat :: Denotes(c, here, m, d, addr) ==> bestd <= d
  }

  /** Below 2^32 the short cut is only taken for distances of one byte. */
  lemma SmallIsOneByte(d: nat)
    requires SmallEnough(d) && d < 0x1_0000_0000
    ensures d < 128 && |EmitInt(d)| == 1
  {
  }

  /** A smaller number never takes more bytes. */
  lemma {:induction false} ShorterContinued(a: nat, b: nat)
    requires a <= b
    ensures 1 <= |Continued(a)| <= |Continued(b)|
    decreases b
  {
    if b >= 128 {
      if a >= 128 {
        ShorterContinued(a / 128, b / 128);
      } else {
        ShorterContinued(0, b / 128);
      }
    }
  }

  lemma ShorterEmitted(a: nat, b: nat)
    requires a <= b < TWO_64
    ensures 1 <= |EmitInt(a)| <= |EmitInt(b)|
  {
    ShorterContinued(a, b);
    ContinuedLength(a);
    ContinuedLength(b);
    EmittedLength(a);
    EmittedLength(b);
  }

  /** No mode's distance takes fewer bytes than were written. */
  ghost predicate Shortest(c: Cache, here: nat, bytes: seq<byte>, addr: nat) {
    forall m: nat, d: nat :: Denotes(c, here, m, d, addr) && d < TWO_64 ==> |bytes| <= |EmitInt(d)|
  }

  lemma OneByteShortest(c: Cache, here: nat, bytes: seq<byte>, addr: nat)
    requires |bytes| == 1
    ensures Shortest(c, here, bytes, addr)
  {
    forall m: nat, d: nat | Denotes(c, here, m, d, addr) && d < TWO_64 ensures |bytes| <= |EmitInt(d)| {
      ShorterEmitted(0, d);
    }
  }

  lemma SmallestShortest(c: Cache, here: nat, bestd: nat, addr: nat)
    requires Smallest(c, here, bestd, addr)
    ensures Shortest(c, here, EmitInt(bestd), addr)
  {
    forall m: nat, d: nat | Denotes(c, here, m, d, addr) && d < TWO_64 ensures |EmitInt(bestd)| <= |EmitInt(d)| {
      ShorterEmitted(bestd, d);
    }
  }

  lemma DistanceShortest(c: Cache, here: nat, bestd: nat, addr: nat, good: bool)
    requires bestd < 0x1_0000_0000 && (if good then SmallEnough(bestd) else Smallest(c, here, bestd, addr))
    ensures Shortest(c, here, EmitInt(bestd), addr)
  {
    if good {
      SmallIsOneByte(bestd);
      OneByteShortest(c, here, EmitInt(bestd), addr);
    } else {
      SmallestShortest(c, here, bestd, addr);
    }
  }

  // ----- The search, and how far it can be trusted

  /** The mode taken, its distance, and whether the search stopped because the distance was small enough. */
  datatype Choice = Choice(mode: nat, distance: nat, good: bool)

  /** Looks at the NEAR slots from slot `i` on, until a distance is small enough. */
  function BestNear(c: Cache, addr: nat, best: Choice, i: nat): Choice
    requires i <= |c.near|
    decreases |c.near| - i
  {
    if best.good || i == |c.near| then best
    else if addr >= c.near[i] && addr - c.near[i] < best.distance then
      BestNear(c, addr, Choice(i + 2, addr - c.near[i], SmallEnough(addr - c.near[i])), i + 1)
    else BestNear(c, addr, best, i + 1)
  }

  /** What the search among SELF, HERE and the NEAR modes comes to. */
  function Best(c: Cache, here: nat, addr: nat): Choice
    requires addr < here
  {
    if SmallEnough(addr) then Choice(VCD_SELF, addr, true)
    else if here - addr < addr then BestNear(c, addr, Choice(VCD_HERE, here - addr, SmallEnough(here - addr)), 0)
    else BestNear(c, addr, Choice(VCD_SELF, addr, false), 0)
  }

  lemma {:induction false} BestNearMeans(c: Cache, here: nat, addr: nat, best: Choice, i: nat)
    requires i <= |c.near| && Denotes(c, here, best.mode, best.distance, addr)
    requires best.good ==> SmallEnough(best.distance)
    requires !best.good ==> forall m: nat, d: nat :: Denotes(c, here, m, d, addr) && m < i + 2 ==> best.distance <= d
    ensures
      var r := BestNear(c, addr, best, i);
      && Denotes(c, here, r.mode, r.distance, addr) && r.distance <= best.distance
      && (if r.good then SmallEnough(r.distance) else Smallest(c, here, r.distance, addr))
    decreases |c.near| - i
  {
    if !best.good && i < |c.near| {
      if addr >= c.near[i] && addr - c.near[i] < best.distance {
        BestNearMeans(c, here, addr, Choice(i + 2, addr - c.near[i], SmallEnough(addr - c.near[i])), i + 1);
      } else {
        BestNearMeans(c, here, addr, best, i + 1);
      }
    }
  }

  /** The distance found stands for the address in its mode. It is the smallest of all, unless the search stopped. */
  lemma BestMeans(c: Cache, here: nat, addr: nat)
    requires addr < here
    ensures
      var r := Best(c, here, addr);
      && Denotes(c, here, r.mode, r.distance, addr) && r.distance <= addr
      && (!SmallEnough(addr) ==> r.distance <= here - addr)
      && (if r.good then SmallEnough(r.distance) else Smallest(c, here, r.distance, addr))
  {
    if !SmallEnough(addr) {
      if here - addr < addr {
        BestNearMeans(c, here, addr, Choice(VCD_HERE, here - addr, SmallEnough(here - addr)), 0);
      } else {
        BestNearMeans(c, here, addr, Choice(VCD_SELF, addr, false), 0);
      }
    }
  }

  /** The mode and the bytes written for an address. */
  function WrittenAddress(c: Cache, here: nat, addr: nat): (nat, seq<byte>)
    requires addr < here
  {
    var best := Best(c, here, addr);
    if !best.good && |c.same| > 0 && c.same[addr % |c.same|] == addr then
      var d := addr % |c.same|;
      (c.SameStart() + d / 256, [d % 256])
    else (best.mode, EmitInt(best.distance))
  }

  lemma WrittenShortest(c: Cache, here: nat, addr: nat)
    requires addr < here && Best(c, here, addr).distance < 0x1_0000_0000
    ensures Shortest(c, here, WrittenAddress(c, here, addr).1, addr)
  {
    var best := Best(c, here, addr);
    BestMeans(c, here, addr);
    if |WrittenAddress(c, here, addr).1| == 1 {
      OneByteShortest(c, here, WrittenAddress(c, here, addr).1, addr);
    } else {
      DistanceShortest(c, here, best.distance, addr, best.good);
    }
  }

  /** The search finds the fewest bytes for this address, whatever a cache with a NEAR slot holds and wherever it
      is written. */
  ghost predicate AlwaysShortest(addr: nat) {
    forall c: Cache, here: nat ::
      c.Valid() && c.near != [] && addr < here < TWO_64 ==> Shortest(c, here, WrittenAddress(c, here, addr).1, addr)
  }

  /** An address, and a position at which the search stops at a distance of 2^32 or more, although the only NEAR slot
      holds the address itself. */
  lemma StopsTooEarly(addr: nat, here: nat)
    requires 0x1_0000_0000 <= addr < here < TWO_64
    requires SmallEnough(addr) || here == addr + 0x1_0000_0000
    ensures
      var c := Cache([addr], [], 0);
      c.Valid() && !Shortest(c, here, WrittenAddress(c, here, addr).1, addr)
  {
    var c := Cache([addr], [], 0);
    var d := Best(c, here, addr).distance;
    assert 0x1_0000_0000 <= d < TWO_64;
    EmittedLength(d);
    EmittedLength(0);
    assert Denotes(c, here, 2, 0, addr) && |EmitInt(0)| == 1;
  }

  /** Which addresses are always written in the fewest bytes: those below 2^32, and those so close to the end that
      every position behind them is less than 2^32 away, unless bits 7 to 31 of the address are clear. */
  lemma ShortestExactly(addr: nat)
    requires addr + 1 < TWO_64
    ensures AlwaysShortest(addr) <==>
      addr < 0x1_0000_0000 || (!SmallEnough(addr) && addr + 0x1_0000_0000 >= TWO_64)
  {
    hide WrittenAddress, Cache.Valid, Shortest, Best;
    if addr < 0x1_0000_0000 || (!SmallEnough(addr) && addr + 0x1_0000_0000 >= TWO_64) {
      forall c: Cache, here: nat | c.Valid() && c.near != [] && addr < here < TWO_64
        ensures Shortest(c, here, WrittenAddress(c, here, addr).1, addr)
      {
        BestMeans(c, here, addr);
        WrittenShortest(c, here, addr);
      }
    } else if SmallEnough(addr) {
      StopsTooEarly(addr, addr + 1);
    } else {
      StopsTooEarly(addr, addr + 0x1_0000_0000);
    }
  }

  // ----- What the caches hold

  /** The cache after a sequence of addresses. */
  function Updated(c: Cache, addrs: seq<nat>): (r: Cache)
    requires c.Valid() && forall i :: 0 <= i < |addrs| ==> addrs[i] < TWO_64
    ensures r.Valid() && |r.near| == |c.near| && |r.same| == |c.same|
  {
    if addrs == [] then c else UpdateCache(Updated(c, addrs[..|addrs| - 1]), addrs[|addrs| - 1])
  }

  lemma ModuloNext(i: nat, n: nat)
    requires n > 0
    ensures (i + 1) % n == (i % n + 1) % n
    ensures i % n + 1 < n ==> (i + 1) % n == i % n + 1
    ensures i % n + 1 == n ==> (i + 1) % n == 0
  {
    var q := i / n;
    if i % n + 1 == n {
      assert i + 1 == n * (q + 1) + 0;
      DivUnique(n, i + 1, q + 1, 0);
    } else {
      assert i + 1 == n * q + (i % n + 1);
      DivUnique(n, i + 1, q, i % n + 1);
    }
  }

  /** NEAR slot `j` holds the last address whose place in the sequence is `j` modulo the number of slots, or 0, and the
      next slot is the number of addresses modulo the number of slots. */
  lemma {:induction false} NearHolds(near: nat, same: nat, addrs: seq<nat>)
    requires 5 + near + same <= 256 && near > 0 && forall i :: 0 <= i < |addrs| ==> addrs[i] < TWO_64
    ensures
      var c := Updated(InitCache(near, same), addrs);
      && |c.near| == near && c.nextSlot == |addrs| % near
      && (forall i :: 0 <= i < |addrs| < i + near + 1 ==> c.near[i % near] == addrs[i])
      && (forall j :: |addrs| <= j < near ==> c.near[j] == 0)
  {
    if addrs != [] {
      var last := |addrs| - 1;
      NearHolds(near, same, addrs[..last]);
      ModuloNext(last, near);
      var before := Updated(InitCache(near, same), addrs[..last]);
      forall i | 0 <= i < last && |addrs| < i + near + 1 ensures i % near != last % near && before.near[i % near] == addrs[i] {
        RemaindersApart(i, last, near);
        assert addrs[..last][i] == addrs[i];
      }
      if last < near {
        SmallModulo(last, near);
      }
    }
  }

  lemma SmallModulo(i: nat, n: nat)
    requires i < n
    ensures i % n == i
  {
  }

  /** SAME slot `k` holds the last address that is `k` modulo 256 for each SAME mode, or 0. */
  lemma {:induction false} SameHolds(near: nat, same: nat, addrs: seq<nat>)
    requires 5 + near + same <= 256 && same > 0 && forall i :: 0 <= i < |addrs| ==> addrs[i] < TWO_64
    ensures
      var c := Updated(InitCache(near, same), addrs);
      && |c.same| == 256 * same
      && (forall i :: 0 <= i < |addrs| && (forall l :: i < l < |addrs| ==> addrs[l] % (256 * same) != addrs[i] % (256 * same)) ==>
            c.same[addrs[i] % (256 * same)] == addrs[i])
      && (forall k :: 0 <= k < 256 * same && (forall l :: 0 <= l < |addrs| ==> addrs[l] % (256 * same) != k) ==> c.same[k] == 0)
  {
    if addrs != [] {
      var last, m := |addrs| - 1, 256 * same;
      var front := addrs[..last];
      SameHolds(near, same, front);
      var before, c := Updated(InitCache(near, same), front), Updated(InitCache(near, same), addrs);
      assert c.same == before.same[addrs[last] % m := addrs[last]];
      forall i | 0 <= i < |addrs| && (forall l :: i < l < |addrs| ==> addrs[l] % m != addrs[i] % m)
        ensures c.same[addrs[i] % m] == addrs[i]
      {
        if i < last {
          assert front[i] == addrs[i];
          assert forall l :: i < l < last ==> front[l] % m != front[i] % m;
        }
      }
      forall k | 0 <= k < m && (forall l :: 0 <= l < |addrs| ==> addrs[l] % m != k) ensures c.same[k] == 0 {
        assert forall l :: 0 <= l < last ==> front[l] % m != k;
      }
    }
  }

  // ----- What the modes mean

  /** A number read in mode 0 is the address, in mode 1 it counts back from the position, in mode 2 + j on from NEAR
      slot j; in the modes behind those a byte picks one of 256 addresses. */
  lemma ModeMeans(c: Cache, here: nat, mode: nat, v: nat, tail: seq<byte>)
    requires c.Valid() && v < TWO_64 && mode < 2 + |c.near|
    ensures
      var r := DecodeAddress(c, here, mode, EmitInt(v) + tail);
      && r.Addr? && r.rest == tail && r.cache == UpdateCache(c, r.addr)
      && (mode == 0 ==> r.addr == v)
      && (mode == 1 ==> r.addr == (here - v) % TWO_64)
      && (mode >= 2 ==> r.addr == (v + c.near[mode - 2]) % TWO_64)
  {
    hide UpdateCache, ReadInt, EmitInt;
    ReadEmitted(v, tail);
  }

  lemma SameMeans(c: Cache, here: nat, k: nat, tail: seq<byte>)
    requires c.Valid() && k < |c.same|
    ensures
      && 2 + |c.near| + k / 256 < c.Modes()
      && DecodeAddress(c, here, 2 + |c.near| + k / 256, [k % 256] + tail) == Addr(c.same[k], tail, UpdateCache(c, c.same[k]))
  {
    hide UpdateCache;
    assert |c.same| == |c.same| / 256 * 256 && k == k / 256 * 256 + k % 256;
    assert ([k % 256] + tail)[1..] == tail;
  }

  lemma NearSlot(near: nat, same: nat, addrs: seq<nat>, i: nat) returns (j: nat)
    requires 5 + near + same <= 256 && near > 0 && forall l :: 0 <= l < |addrs| ==> addrs[l] < TWO_64
    requires i < |addrs| <= i + near
    ensures var c := Updated(InitCache(near, same), addrs); j == i % near && j < |c.near| == near && c.near[j] == addrs[i]
  {
    j := i % near;
    NearHolds(near, same, addrs);
  }

  /** After a sequence of addresses: which one a distance in a NEAR mode counts from. */
  lemma NearMode(near: nat, same: nat, addrs: seq<nat>, i: nat, here: nat, v: nat, tail: seq<byte>)
    requires 5 + near + same <= 256 && near > 0 && forall l :: 0 <= l < |addrs| ==> addrs[l] < TWO_64
    requires i < |addrs| <= i + near && v < TWO_64
    ensures
      var c := Updated(InitCache(near, same), addrs);
      && 2 + i % near < c.Modes()
      && var r := DecodeAddress(c, here, 2 + i % near, EmitInt(v) + tail);
         r.Addr? && r.addr == (v + addrs[i]) % TWO_64 && r.rest == tail
  {
    hide Updated, InitCache, UpdateCache, DecodeAddress, EmitInt, Cache.Valid;
    var j := NearSlot(near, same, addrs, i);
    ModeMeans(Updated(InitCache(near, same), addrs), here, 2 + j, v, tail);
  }

  lemma SameSlot(near: nat, same: nat, addrs: seq<nat>, m: nat, i: nat)
    requires 5 + near + same <= 256 && m == 256 * same > 0 && forall l :: 0 <= l < |addrs| ==> addrs[l] < TWO_64
    requires i < |addrs| && forall l :: i < l < |addrs| ==> addrs[l] % m != addrs[i] % m
    ensures
      var c, k := Updated(InitCache(near, same), addrs), addrs[i] % m;
      k < |c.same| && c.same[k] == addrs[i] && |c.near| == near
  {
    SameHolds(near, same, addrs);
  }

  /** After a sequence of addresses: which one a byte in a SAME mode stands for; `m` is the number of slots, `k` the slot. */
  lemma SameMode(near: nat, same: nat, addrs: seq<nat>, m: nat, i: nat, k: nat, here: nat, tail: seq<byte>)
    requires 5 + near + same <= 256 && m == 256 * same > 0 && forall l :: 0 <= l < |addrs| ==> addrs[l] < TWO_64
    requires i < |addrs| && k == addrs[i] % m && forall l :: i < l < |addrs| ==> addrs[l] % m != k
    ensures
      var c := Updated(InitCache(near, same), addrs);
      && 2 + near + k / 256 < c.Modes()
      && var r := DecodeAddress(c, here, 2 + near + k / 256, [k % 256] + tail);
         r.Addr? && r.addr == addrs[i] && r.rest == tail
  {
    hide *;
    InitIsValid(near, same);
    var c := Updated(InitCache(near, same), addrs);
    SameSlot(near, same, addrs, m, i);
    SameMeans(c, here, k, tail);
  }

  lemma InitIsValid(near: nat, same: nat)
    requires 5 + near + same <= 256
    ensures InitCache(near, same).Valid()
  {
  }

  // ----- Any number of addresses

  /** An address, where it was written, and what was written for it. */
  datatype Sent = Sent(addr: nat, here: nat, mode: nat, bytes: seq<byte>)

  /** Addresses written one after the other, each with the cache that those before have left. */
  ghost predicate SentInTurn(c: Cache, ws: seq<Sent>)
    requires c.Valid()
    decreases |ws|
  {
    ws != [] ==>
      && ws[0].addr < TWO_64 && Encodes(c, ws[0].here, ws[0].mode, ws[0].bytes, ws[0].addr)
      && SentInTurn(UpdateCache(c, ws[0].addr), ws[1..])
  }

  function SentBytes(ws: seq<Sent>): seq<byte> {
    if ws == [] then [] else ws[0].bytes + SentBytes(ws[1..])
  }

  function CacheAfter(c: Cache, ws: seq<Sent>): Cache
    requires c.Valid() && forall i :: 0 <= i < |ws| ==> ws[i].addr < TWO_64
    decreases |ws|
  {
    if ws == [] then c else CacheAfter(UpdateCache(c, ws[0].addr), ws[1..])
  }

  datatype AddrsResult = Addrs(addrs: seq<nat>, rest: seq<byte>, cache: Cache) | BadAddrs

  /** Reads as many addresses as there are modes. */
  function DecodeAddresses(c: Cache, heres: seq<nat>, modes: seq<nat>, input: seq<byte>): AddrsResult
    requires c.Valid() && |heres| == |modes| && forall i :: 0 <= i < |modes| ==> modes[i] < c.Modes()
    decreases |modes|
  {
    if modes == [] then Addrs([], input, c)
    else
      match DecodeAddress(c, heres[0], modes[0], input)
      case BadAddr => BadAddrs
      case Addr(addr, rest, cache) =>
        match DecodeAddresses(cache, heres[1..], modes[1..], rest)
        case BadAddrs => BadAddrs
        case Addrs(addrs, left, last) => Addrs([addr] + addrs, left, last)
  }

  function Heres(ws: seq<Sent>): (s: seq<nat>)
    ensures |s| == |ws|
  {
    if ws == [] then [] else [ws[0].here] + Heres(ws[1..])
  }

  function ModesOf(ws: seq<Sent>): (s: seq<nat>)
    ensures |s| == |ws| && forall i :: 0 <= i < |ws| ==> s[i] == ws[i].mode
  {
    if ws == [] then [] else [ws[0].mode] + ModesOf(ws[1..])
  }

  function Addresses(ws: seq<Sent>): seq<nat> {
    if ws == [] then [] else [ws[0].addr] + Addresses(ws[1..])
  }

  lemma {:induction false} SentModes(c: Cache, ws: seq<Sent>)
    requires c.Valid() && SentInTurn(c, ws)
    ensures forall i :: 0 <= i < |ws| ==> ws[i].mode < c.Modes() && ws[i].addr < TWO_64
    decreases |ws|
  {
    if ws != [] {
      SentModes(UpdateCache(c, ws[0].addr), ws[1..]);
      forall i | 0 <= i < |ws| ensures ws[i].mode < c.Modes() && ws[i].addr < TWO_64 {
        if i > 0 {
          assert ws[i] == ws[1..][i - 1];
        }
      }
    }
  }

  /** The first address comes back, and the decoder goes on where it ends. */
  lemma FirstReadBack(c: Cache, w: Sent, heres: seq<nat>, modes: seq<nat>, input: seq<byte>)
    requires c.Valid() && w.addr < TWO_64 && Encodes(c, w.here, w.mode, w.bytes, w.addr)
    requires |heres| == |modes| && forall i :: 0 <= i < |modes| ==> modes[i] < c.Modes()
    ensures
      DecodeAddresses(c, [w.here] + heres, [w.mode] + modes, w.bytes + input)
        == match DecodeAddresses(UpdateCache(c, w.addr), heres, modes, input)
           case BadAddrs => BadAddrs
           case Addrs(addrs, left, last) => Addrs([w.addr] + addrs, left, last)
  {
    hide Cache.Valid, DecodeAddress, UpdateCache;
    DecodeIgnoresTail(c, w.here, w.mode, w.bytes, input);
    assert [] + input == input;
    assert ([w.here] + heres)[1..] == heres && ([w.mode] + modes)[1..] == modes;
  }

  /** Encoder and decoder in lockstep over any sequence of addresses: all come back, the caches end up equal, and
      nothing is left or touched of what follows. */
  lemma {:induction false} AddressesReadBack(c: Cache, ws: seq<Sent>, tail: seq<byte>)
    requires c.Valid() && SentInTurn(c, ws)
    ensures forall i :: 0 <= i < |ws| ==> ws[i].mode < c.Modes() && ws[i].addr < TWO_64
    ensures
      DecodeAddresses(c, Heres(ws), ModesOf(ws), SentBytes(ws) + tail) == Addrs(Addresses(ws), tail, CacheAfter(c, ws))
    decreases |ws|
  {
    hide Cache.Valid, DecodeAddress, UpdateCache, Encodes;
    SentModes(c, ws);
    if ws == [] {
      assert SentBytes(ws) + tail == tail;
    } else {
      hide DecodeAddresses;
      var w, rest := ws[0], ws[1..];
      AddressesReadBack(UpdateCache(c, w.addr), rest, tail);
      FirstReadBack(c, w, Heres(rest), ModesOf(rest), SentBytes(rest) + tail);
      assert SentBytes(ws) + tail == w.bytes + (SentBytes(rest) + tail);
    }
  }

  class AddrCache {
    const nearArray: array<nat>
    const sameArray: array<nat>
    var nextSlot: nat

    constructor (sNear: nat, sSame: nat)
      requires 5 + sNear + sSame <= 256
      ensures fresh(nearArray) && fresh(sameArray) && Valid()
      ensures View() == InitCache(sNear, sSame)
    {
      nearArray := new nat[sNear](_ => 0);
      sameArray := new nat[sSame * 256](_ => 0);
      nextSlot := 0;
    }

    function View(): Cache
      reads this, nearArray, sameArray
    {
      Cache(nearArray[..], sameArray[..], nextSlot)
    }

    ghost predicate Valid()
      reads this, nearArray, sameArray
    {
      nearArray != sameArray && View().Valid()
    }

    /** Clears both caches at the start of a window. */
    method Init()
      requires Valid()
      modifies this, nearArray, sameArray
      ensures Valid() && View() == InitCache(nearArray.Length, sameArray.Length / 256)
    {
      if nearArray.Length > 0 {
        forall i | 0 <= i < nearArray.Length { nearArray[i] := 0; }
        nextSlot := 0;
      }
      forall i | 0 <= i < sameArray.Length { sameArray[i] := 0; }
    }

    method Update(addr: nat)
      requires Valid() && addr < TWO_64
      modifies this, nearArray, sameArray
      ensures Valid() && View() == UpdateCache(old(View()), addr)
    {
      if nearArray.Length > 0 {
        nearArray[nextSlot] := addr;
        nextSlot := (nextSlot + 1) % nearArray.Length;
      }
      if sameArray.Length > 0 {
        sameArray[addr % sameArray.Length] := addr;
      }
    }

    /** The search among SELF, HERE and the NEAR modes for the smallest distance, or the first that is small enough. */
    method BestDistance(addr: nat, here: nat) returns (bestm: nat, bestd: nat, good: bool)
      requires Valid() && addr < here < TWO_64
      ensures Choice(bestm, bestd, good) == Best(View(), here, addr)
      ensures Denotes(View(), here, bestm, bestd, addr)
      ensures bestd <= addr
      ensures good ==> SmallEnough(bestd)
      ensures !good ==> Smallest(View(), here, bestd, addr)
    {
      BestMeans(View(), here, addr);
      bestd, bestm := addr, VCD_SELF;
      if SmallEnough(bestd) {
        return bestm, bestd, true;
      }
      if here - addr < bestd {
        bestd, bestm := here - addr, VCD_HERE;
        if SmallEnough(bestd) {
          return bestm, bestd, true;
        }
      }
      var i := 0;
      while i < nearArray.Length
        invariant i <= nearArray.Length
        invariant Best(View(), here, addr) == BestNear(View(), addr, Choice(bestm, bestd, false), i)
      {
        if addr >= nearArray[i] && addr - nearArray[i] < bestd {
          bestd, bestm := addr - nearArray[i], i + 2;
          if SmallEnough(bestd) {
            return bestm, bestd, true;
          }
        }
        i := i + 1;
      }
      good := false;
    }

    /** Encodes `addr` in the mode with the smallest distance, or by an exact SAME hit: the decoder reads `addr`
        back, consumes exactly these bytes, and both caches change alike. */
    method EncodeAddress(addr: nat, here: nat) returns (mode: nat, bytes: seq<byte>)
      requires Valid() && addr < here < TWO_64
      modifies this, nearArray, sameArray
      ensures Valid() && View() == UpdateCache(old(View()), addr)
      ensures (mode, bytes) == WrittenAddress(old(View()), here, addr)
      ensures Encodes(old(View()), here, mode, bytes, addr)
      ensures addr < 0x1_0000_0000 ==> Shortest(old(View()), here, bytes, addr)
    {
      var bestm, bestd, good := BestDistance(addr, here);
      var slots := sameArray.Length;
      if !good && slots > 0 && sameArray[addr % slots] == addr {
        var d := addr % slots;
        bestd := d % 256;
        bestm := nearArray.Length + 2 + d / 256;
        bytes := [bestd];
        SameHit(View(), here, addr);
      } else {
        bytes := EmitInteger(bestd);
        DistanceReadBack(View(), here, bestm, bestd, addr);
      }
      if addr < 0x1_0000_0000 {
        WrittenShortest(View(), here, addr);
      }
      Update(addr);
      mode := bestm;
    }

    method Decode(here: nat, mode: nat, input: seq<byte>) returns (r: AddrResult)
      requires Valid() && mode < View().Modes()
      modifies this, nearArray, sameArray
      ensures Valid() && r == DecodeAddress(old(View()), here, mode, input)
      ensures r.Addr? ==> View() == r.cache
      ensures r.BadAddr? ==> View() == old(View())
    {
      var sameStart := 2 + nearArray.Length;
      var addr: nat;
      var rest;
      if mode < sameStart {
        var read := ReadInteger(input);
        if !read.Read? {
          return BadAddr;
        }
        rest := read.rest;
        if mode == VCD_SELF {
          addr := read.value;
        } else if mode == VCD_HERE {
          addr := (here - read.value) % TWO_64;
        } else {
          addr := (read.value + nearArray[mode - 2]) % TWO_64;
        }
      } else {
        if input == [] {
          return BadAddr;
        }
        addr := sameArray[(mode - sameStart) * 256 + input[0]];
        rest := input[1..];
      }
      Update(addr);
      r := Addr(addr, rest, View());
    }
  }
}
