/** The cache of source blocks: least recently used first out, or, for a source of unknown size, first in first out. */
module BlockCache {
  import opened Sequences
  import opened Bytes
  import opened Results
  import opened BlockedSource
  import opened LinkedRing
  import opened Arithmetic

  const MAX_LRU_SIZE: nat := 32

  /** One buffer: the number of the block it holds, if that is known, and the bytes read. */
  datatype Slot = Slot(blkno: Option<nat>, blk: seq<byte>)

  datatype Lookup = Hit(slot: nat) | Fresh(slot: nat) | Behind

  datatype Outcome = Got | TooFarBack | Short

  predicate Cached(slots: seq<Slot>, blkno: nat) {
    exists i :: 0 <= i < |slots| && slots[i].blkno == Some(blkno)
  }

  /** What every slot that names a block owes: the bytes of that block, and a place of its own. */
  predicate TrueSlots(slots: seq<Slot>, file: seq<byte>, blksize: nat, fifo: bool)
    requires blksize > 0 && slots != []
  {
    && (forall i :: 0 <= i < |slots| && slots[i].blkno.Some? ==> slots[i].blk == Block(file, blksize, slots[i].blkno.value))
    && (fifo ==> forall i :: 0 <= i < |slots| && slots[i].blkno.Some? ==> slots[i].blkno.value % |slots| == i)
    && (forall i, j :: 0 <= i < j < |slots| && slots[i].blkno.Some? ==> slots[i].blkno != slots[j].blkno)
  }

  /** All slots, each once. */
  predicate AllOnce(order: seq<nat>, n: nat) {
    && |order| == n && (forall k :: 0 <= k < n ==> order[k] < n)
    && (forall j, k :: 0 <= j < k < n ==> order[j] != order[k])
    && (forall i: nat :: i < n ==> i in order)
  }

  /** The order is that of the last uses. */
  predicate ByLastUse(order: seq<nat>, stamp: seq<nat>, now: nat)
    requires AllOnce(order, |stamp|)
  {
    && (forall i :: 0 <= i < |stamp| ==> stamp[i] < now)
    && (forall j, k :: 0 <= j < k < |order| ==> stamp[order[j]] < stamp[order[k]])
  }

  lemma UseMoves(order: seq<nat>, stamp: seq<nat>, now: nat, k: nat)
    requires AllOnce(order, |stamp|) && ByLastUse(order, stamp, now) && k < |order|
    ensures
      var moved := Without(order, k) + [order[k]];
      && AllOnce(moved, |stamp|) && ByLastUse(moved, stamp[order[k] := now], now + 1)
  {
    var moved := Without(order, k) + [order[k]];
    forall i: nat | i < |stamp| ensures i in moved {
      assert i in order;
      var p :| 0 <= p < |order| && order[p] == i;
      assert i == moved[if p < k then p else if p == k then |order| - 1 else p - 1];
    }
  }

  lemma InvalidateKeeps(slots: seq<Slot>, file: seq<byte>, blksize: nat, fifo: bool, i: nat)
    requires blksize > 0 && slots != [] && TrueSlots(slots, file, blksize, fifo) && i < |slots|
    ensures TrueSlots(slots[i := slots[i].(blkno := None)], file, blksize, fifo)
  {
    hide Block;
  }

  lemma FillKeeps(slots: seq<Slot>, file: seq<byte>, blksize: nat, fifo: bool, i: nat, blkno: nat)
    requires blksize > 0 && slots != [] && TrueSlots(slots, file, blksize, fifo) && i < |slots|
    requires !Cached(slots, blkno) && (fifo ==> blkno % |slots| == i)
    ensures TrueSlots(slots[i := Slot(Some(blkno), Block(file, blksize, blkno))], file, blksize, fifo)
  {
    hide Block;
  }

  lemma BlockBelow(i: nat, n: nat, blksize: nat)
    requires i < n
    ensures i * blksize + blksize <= n * blksize
  {
    assert n * blksize == (n - i - 1) * blksize + (i + 1) * blksize;
  }

  lemma BlockOfFirst(file: seq<byte>, blksize: nat, i: nat, bound: nat, first: seq<byte>)
    requires blksize > 0 && i * blksize + blksize <= bound && first == file[..Min(bound, |file|)]
    ensures Block(first, blksize, i) == Block(file, blksize, i)
  {
  }

  /** The blocks cut from the first read are the blocks of the file. */
  lemma FirstBlocks(file: seq<byte>, blksize: nat, n: nat, first: seq<byte>)
    requires blksize > 0 && first == file[..Min(n * blksize, |file|)]
    ensures forall i :: 0 <= i < n ==> Block(first, blksize, i) == Block(file, blksize, i) && i * blksize <= n * blksize
  {
    hide Block, Min;
    forall i | 0 <= i < n ensures Block(first, blksize, i) == Block(file, blksize, i) && i * blksize <= n * blksize {
      BlockBelow(i, n, blksize);
      BlockOfFirst(file, blksize, i, n * blksize, first);
    }
  }

  lemma InitialOrder(n: nat, order: seq<nat>)
    requires order == seq(n, i => i)
    ensures AllOnce(order, n) && ByLastUse(order, order, n)
  {
    forall i: nat | i < n ensures i in order {
      assert order[i] == i;
    }
  }

  ghost predicate Links(head: Link, links: seq<Link>) {
    && (forall i, j :: 0 <= i < j < |links| ==> links[i] != links[j])
    && (forall i :: 0 <= i < |links| ==> links[i].owner == i && links[i] != head)
  }

  /** The list of all slots, in the order of the slots. */
  method MakeList(n: nat) returns (head: Link, links: seq<Link>)
    ensures fresh(head) && (forall i :: 0 <= i < |links| ==> fresh(links[i]))
    ensures |links| == n && Links(head, links) && Ring([head] + links)
  {
    head := new Link(n);
    links := [];
    assert [head] + links == [head];
    for i := 0 to n
      invariant |links| == i && fresh(head) && (forall k :: 0 <= k < i ==> fresh(links[k]))
      invariant Links(head, links) && Ring([head] + links)
    {
      var l := new Link(i);
      PushBack(head, l, [head] + links);
      assert [head] + (links + [l]) == [head] + links + [l];
      links := links + [l];
    }
  }

  ghost function ChainOf(head: Link, links: seq<Link>, order: seq<nat>): (r: seq<Link>)
    requires forall k :: 0 <= k < |order| ==> order[k] < |links|
    ensures |r| == |order| + 1 && r[0] == head
    ensures forall k :: 0 <= k < |order| ==> r[k + 1] == links[order[k]]
  {
    [head] + seq(|order|, k requires 0 <= k < |order| => links[order[k]])
  }

  lemma MovedChain(head: Link, links: seq<Link>, order: seq<nat>, k: nat)
    requires AllOnce(order, |links|) && k < |order|
    ensures forall j :: 0 <= j < |Without(order, k) + [order[k]]| ==> (Without(order, k) + [order[k]])[j] < |links|
    ensures ChainOf(head, links, Without(order, k) + [order[k]])
         == Without(ChainOf(head, links, order), k + 1) + [links[order[k]]]
  {
    MovedIn(order, |links|, k);
    var moved := Without(order, k) + [order[k]];
    var a, b := ChainOf(head, links, moved), Without(ChainOf(head, links, order), k + 1) + [links[order[k]]];
    forall j | 0 <= j < |a| ensures a[j] == b[j] {
      if 0 < j < |order| {
        assert moved[j - 1] == if j - 1 < k then order[j - 1] else order[j];
      }
    }
  }

  lemma Divided(srcwinsz: nat, n: nat)
    requires srcwinsz > 0 && srcwinsz % MAX_LRU_SIZE == 0 && (n == 1 || n == MAX_LRU_SIZE)
    ensures n * (srcwinsz / n) == srcwinsz && srcwinsz / n > 0
  {
  }

  lemma FirstChain(head: Link, links: seq<Link>, order: seq<nat>)
    requires |links| == |order| && forall k :: 0 <= k < |order| ==> order[k] == k
    ensures ChainOf(head, links, order) == [head] + links
  {
  }

  lemma MovedIn(order: seq<nat>, n: nat, k: nat)
    requires AllOnce(order, n) && k < |order|
    ensures forall j :: 0 <= j < |order| ==> order[j] < n
    ensures forall j :: 0 <= j < |Without(order, k) + [order[k]]| ==> (Without(order, k) + [order[k]])[j] < n
  {
  }

  lemma PlaceOf(order: seq<nat>, n: nat, i: nat) returns (k: nat)
    requires AllOnce(order, n) && i < n
    ensures k < |order| && order[k] == i
    ensures forall j :: 0 <= j < |order| ==> order[j] < n
  {
    assert i in order;
    k :| k < |order| && order[k] == i;
  }

  lemma OldestFirst(order: seq<nat>, stamp: seq<nat>, now: nat)
    requires AllOnce(order, |stamp|) && ByLastUse(order, stamp, now) && stamp != []
    ensures order != [] && order[0] < |stamp| && forall j :: 0 <= j < |stamp| ==> stamp[order[0]] <= stamp[j]
  {
    forall j: nat | j < |stamp| ensures stamp[order[0]] <= stamp[j] {
      var k := PlaceOf(order, |stamp|, j);
      assert k > 0 ==> stamp[order[0]] < stamp[order[k]];
    }
  }

  lemma ChainFront(head: Link, links: seq<Link>, order: seq<nat>)
    requires AllOnce(order, |links|) && links != [] && Links(head, links)
    ensures order != [] && order[0] < |links| && links[order[0]].owner == order[0]
    ensures forall j :: 0 <= j < |order| ==> order[j] < |links|
    ensures var r := ChainOf(head, links, order); |r| > 1 && r[1] == links[order[0]]
  {
  }

  lemma LaterIsAhead(blksize: nat, a: nat, b: nat)
    requires blksize > 0
    ensures a > b ==> a * blksize > b * blksize
    ensures a * blksize > b * blksize ==> a > b
  {
    assert (a - b) * blksize == a * blksize - b * blksize;
  }

  lemma MultipleBack(blksize: nat, n: nat)
    requires blksize > 0
    ensures n * blksize / blksize == n && n * blksize % blksize == 0
  {
    DivUnique(blksize, n * blksize, n, 0);
  }

  /** A position at a block stays at or before a later block when it moves on by one. */
  lemma WholeBlocks(blksize: nat, at: nat, n: nat)
    requires blksize > 0 && at % blksize == 0
    ensures n * blksize / blksize == n && (at + blksize) % blksize == 0
    ensures (at + blksize) / blksize == at / blksize + 1 && (at + blksize) / blksize * blksize == at + blksize
    ensures at < n * blksize ==> at + blksize <= n * blksize
  {
    var q := at / blksize;
    assert at == q * blksize;
    assert (q + 1) * blksize == at + blksize;
    MultipleBack(blksize, q + 1);
    MultipleBack(blksize, n);
    LaterIsAhead(blksize, n, q);
    LaterIsAhead(blksize, q + 1, n);
  }

  lemma Unread(slots: seq<Slot>, blksize: nat, position: nat, blkno: nat)
    requires NoneAhead(slots, blksize, position) && position < blkno * blksize
    ensures !Cached(slots, blkno)
  {
  }

  lemma BlockLength(file: seq<byte>, blksize: nat, n: nat)
    requires blksize > 0
    ensures |Block(file, blksize, n)| == blksize <==> n * blksize + blksize <= |file|
  {
  }

  lemma Members(head: Link, links: seq<Link>, order: seq<nat>)
    requires AllOnce(order, |links|)
    ensures var r := ChainOf(head, links, order);
            forall k :: 0 <= k < |r| ==> r[k] == head || r[k] in links
  {
    var r := ChainOf(head, links, order);
    forall k | 0 <= k < |r| ensures r[k] == head || r[k] in links {
      if k > 0 {
        assert r[k] == links[order[k - 1]];
      }
    }
  }

  // ----- In order of arrival

  /** What the place of block `b` holds. */
  function AtPlace(slots: seq<Slot>, b: nat): Option<nat>
    requires slots != []
  {
    slots[b % |slots|].blkno
  }

  /** Blocks `from` to `upto`, without the last, have come in one after the other: as many as there are slots are still
      there, each at its place, and nothing else has changed. */
  ghost predicate Arrived(before: seq<Slot>, after: seq<Slot>, from: nat, upto: nat) {
    && |after| == |before| > 0
    && (forall b: nat :: from <= b < upto <= b + |after| ==> AtPlace(after, b) == Some(b))
    && (forall i :: 0 <= i < |after| && after[i] != before[i] ==>
          after[i].blkno.Some? && from <= after[i].blkno.value < upto && after[i].blkno.value % |after| == i)
  }

  predicate InPlace(slots: seq<Slot>, b: nat) {
    slots != [] && AtPlace(slots, b) == Some(b)
  }

  lemma OneMoreArrived(before: seq<Slot>, after: seq<Slot>, from: nat, upto: nat, place: nat, x: Slot)
    requires Arrived(before, after, from, upto) && from <= upto && place < |after| && place == upto % |after|
    requires x.blkno == Some(upto)
    ensures Arrived(before, after[place := x], from, upto + 1)
  {
    var now := after[place := x];
    forall b: nat | from <= b < upto + 1 <= b + |now| ensures AtPlace(now, b) == Some(b) {
      if b < upto {
        RemaindersApart(b, upto, |now|);
        assert AtPlace(after, b) == Some(b);
      }
    }
  }

  lemma NothingArrived(slots: seq<Slot>, from: nat)
    requires slots != []
    ensures Arrived(slots, slots, from, from)
  {
  }

  lemma OneFewerCached(slots: seq<Slot>, i: nat)
    requires i < |slots|
    ensures forall b: nat :: Cached(slots[i := slots[i].(blkno := None)], b) ==> Cached(slots, b)
  {
  }

  lemma StandsThere(slots: seq<Slot>, blkno: nat, i: nat)
    requires i < |slots| && slots[i].blkno == Some(blkno)
    ensures Cached(slots, blkno) && (i == blkno % |slots| ==> InPlace(slots, blkno))
  {
  }

  /** Giving the place up beforehand makes no difference. */
  lemma LastArrived(before: seq<Slot>, emptied: seq<Slot>, read: seq<Slot>, from: nat, blkno: nat, x: Slot)
    requires before != [] && emptied == before[blkno % |before| := before[blkno % |before|].(blkno := None)]
    requires Arrived(emptied, read, from, blkno) && from <= blkno && x.blkno == Some(blkno)
    ensures |read| == |before| && Arrived(before, read[blkno % |before| := x], from, blkno + 1)
    ensures InPlace(read[blkno % |before| := x], blkno)
  {
    OneMoreArrived(emptied, read, from, blkno, blkno % |before|, x);
  }

  /** The slots as the first read leaves them. */
  function FirstSlots(first: seq<byte>, blksize: nat, n: nat): (s: seq<Slot>)
    requires blksize > 0
    ensures |s| == n
  {
    seq(n, i requires 0 <= i < n => Slot(Some(i), Block(first, blksize, i)))
  }

  lemma FirstSlotsTrue(file: seq<byte>, blksize: nat, n: nat, first: seq<byte>, fifo: bool)
    requires blksize > 0 && n > 0 && first == file[..Min(n * blksize, |file|)]
    requires n == 1 || |first| == n * blksize
    ensures TrueSlots(FirstSlots(first, blksize, n), file, blksize, fifo)
    ensures NoneAhead(FirstSlots(first, blksize, n), blksize, |first|)
    ensures first[..Min(blksize, |first|)] == Block(file, blksize, 0)
  {
    hide Block, Min;
    FirstBlocks(file, blksize, n, first);
    SmallRemainders(n);
    BlockZero(file, blksize);
    BlockZero(first, blksize);
    AtStart(file, blksize, n, first);
  }

  lemma SmallRemainders(n: nat)
    ensures forall i :: 0 <= i < n ==> i % n == i
  {
  }

  lemma AtStart(file: seq<byte>, blksize: nat, n: nat, first: seq<byte>)
    requires n > 0 && blksize > 0 && first == file[..Min(n * blksize, |file|)] && (n == 1 || |first| == n * blksize)
    ensures forall i :: 0 <= i < n ==> i * blksize <= |first|
  {
    forall i | 0 <= i < n ensures i * blksize <= |first| {
      assert n == 1 ==> i == 0;
      assert n * blksize == (n - i) * blksize + i * blksize;
    }
  }

  lemma BlockZero(file: seq<byte>, blksize: nat)
    requires blksize > 0
    ensures Block(file, blksize, 0) == file[..Min(blksize, |file|)]
  {
  }

  predicate LeastRecent(stamp: seq<nat>, v: nat)
    requires v < |stamp|
  {
    forall j :: 0 <= j < |stamp| ==> stamp[v] <= stamp[j]
  }

  /** A source that cannot seek has only yielded blocks up to its position. */
  predicate NoneAhead(slots: seq<Slot>, blksize: nat, position: nat) {
    forall i :: 0 <= i < |slots| && slots[i].blkno.Some? ==> slots[i].blkno.value * blksize <= position
  }

  class Cache {
    const file: seq<byte>
    const seekable: bool
    const fifo: bool
    const blksize: nat
    const head: Link
    const links: seq<Link>
    var slots: seq<Slot>
    var sourcePosition: nat
    var seekFailed: bool
    var curblkno: Option<nat>
    var curblk: seq<byte>
    /** The list, least recently used first, and when each slot was last used. */
    ghost var order: seq<nat>
    ghost var stamp: seq<nat>
    ghost var now: nat

    ghost function Chain(): (r: seq<Link>)
      requires forall k :: 0 <= k < |order| ==> order[k] < |links|
      reads this`order
    {
      ChainOf(head, links, order)
    }

    ghost predicate ListOk()
      reads this`order, this`stamp, this`now, head, links
    {
      && |stamp| == |links| && AllOnce(order, |links|) && ByLastUse(order, stamp, now)
      && Links(head, links) && Ring(Chain())
    }

    ghost predicate SlotsOk()
      reads this`slots, this`sourcePosition, this`seekFailed
    {
      && blksize > 0 && slots != [] && |slots| == |links| && TrueSlots(slots, file, blksize, fifo)
      && (seekFailed ==> !seekable)
      && (!seekable ==> NoneAhead(slots, blksize, sourcePosition))
    }

    ghost predicate Valid()
      reads this, head, links
    {
      ListOk() && SlotsOk()
    }

    /** Opens the source: one buffer if the file fits into it, otherwise the buffer is split; a file whose size is not
        known is read in order. */
    constructor (file: seq<byte>, seekable: bool, sizeKnown: bool, srcwinsz: nat)
      requires srcwinsz > 0 && srcwinsz % MAX_LRU_SIZE == 0
      ensures Valid() && fresh(head) && (forall i :: 0 <= i < |links| ==> fresh(links[i]))
      ensures this.file == file && this.seekable == seekable && !seekFailed
      ensures fifo <==> !sizeKnown && |file| >= srcwinsz
      ensures |links| * blksize == srcwinsz
      ensures |links| == 1 <==> !fifo && |file| <= srcwinsz
      ensures curblkno == Some(0) && curblk == Block(file, blksize, 0)
    {
      hide Block, TrueSlots, NoneAhead, AllOnce, ByLastUse, Ring, Links, FirstSlots, ChainOf;
      var first := file[..Min(srcwinsz, |file|)];
      var known := sizeKnown || |first| < srcwinsz;
      var split := !known || |file| > srcwinsz;
      var n := if split then MAX_LRU_SIZE else 1;
      var size := srcwinsz / n;
      Divided(srcwinsz, n);
      this.file, this.seekable, fifo, blksize := file, seekable, !known, size;
      sourcePosition, seekFailed := |first|, false;
      curblkno, curblk := Some(0), first[..Min(size, |first|)];
      slots := FirstSlots(first, size, n);
      var h, ls := MakeList(n);
      head, links := h, ls;
      order, stamp, now := seq(n, i => i), seq(n, i => i), n;
      FirstSlotsTrue(file, size, n, first, !known);
      InitialOrder(n, seq(n, i => i));
      FirstChain(h, ls, seq(n, i => i));
      new;
    }

    /** Makes slot `i` the most recently used. */
    method MoveToBack(i: nat)
      requires ListOk() && i < |links|
      modifies this`order, this`stamp, this`now, head, links
      ensures ListOk()
      ensures exists k :: 0 <= k < |old(order)| && old(order)[k] == i && order == Without(old(order), k) + [i]
      ensures stamp == old(stamp)[i := old(now)] && now == old(now) + 1
    {
      hide Ring, ByLastUse, Links, ChainOf, AllOnce;
      ghost var k := PlaceOf(order, |links|, i);
      ghost var r := Chain();
      Members(head, links, order);
      MovedChain(head, links, order, k);
      MoveBack(head, links[i], r, k + 1);
      UseMoves(order, stamp, now, k);
      order, stamp, now := Without(order, k) + [i], stamp[i := now], now + 1;
    }

    /** Takes the slot that has not been used for longest. */
    method TakeOldest() returns (i: nat)
      requires ListOk() && links != []
      modifies this`order, this`stamp, this`now, head, links
      ensures ListOk() && i < |links|
      ensures old(order) != [] && i == old(order)[0] && order == old(order)[1..] + [i]
      ensures forall j :: 0 <= j < |links| ==> old(stamp)[i] <= old(stamp)[j]
      ensures stamp == old(stamp)[i := old(now)] && now == old(now) + 1
    {
      hide Ring, Links, ChainOf, AllOnce, ByLastUse;
      ChainFront(head, links, order);
      ghost var r := Chain();
      OldestFirst(order, stamp, now);
      Members(head, links, order);
      MovedChain(head, links, order, 0);
      var x := FrontToBack(head, r);
      i := x.owner;
      UseMoves(order, stamp, now, 0);
      assert Without(order, 0) == order[1..];
      order, stamp, now := Without(order, 0) + [i], stamp[i := now], now + 1;
    }

    /** Looks block `blkno` up; on a miss a slot is made free for it. */
    method GetSlot(blkno: nat) returns (r: Lookup)
      requires Valid()
      modifies this`slots, this`order, this`stamp, this`now, head, links
      ensures Valid()
      ensures r.Hit? ==> r.slot < |slots| && slots == old(slots) && slots[r.slot].blkno == Some(blkno)
      ensures r.Fresh? ==> r.slot < |slots| && slots == old(slots)[r.slot := old(slots)[r.slot].(blkno := None)]
      ensures r.Fresh? ==> !Cached(old(slots), blkno)
      ensures r.Behind? ==> fifo && slots == old(slots)
      ensures r.Behind? <==> fifo && var at := old(slots)[blkno % |old(slots)|].blkno; at.Some? && at.value > blkno
      ensures fifo && !r.Behind? ==> r.slot == blkno % |slots|
      ensures fifo ==> order == old(order) && stamp == old(stamp)
      ensures !fifo ==> !r.Behind? && stamp == old(stamp)[r.slot := old(now)] && now == old(now) + 1
      ensures !fifo && r.Fresh? ==> forall j :: 0 <= j < |slots| ==> old(stamp)[r.slot] <= old(stamp)[j]
    {
      hide Ring, Links, ChainOf, AllOnce, ByLastUse, Block, NoneAhead;
      if fifo {
        var idx := blkno % |slots|;
        if slots[idx].blkno == Some(blkno) {
          return Hit(idx);
        }
        if slots[idx].blkno.Some? && slots[idx].blkno.value > blkno {
          return Behind;
        }
        Invalidate(idx);
        return Fresh(idx);
      }
      for i := 0 to |slots|
        invariant forall j :: 0 <= j < i ==> slots[j].blkno != Some(blkno)
      {
        if slots[i].blkno == Some(blkno) {
          MoveToBack(i);
          return Hit(i);
        }
      }
      var i := TakeOldest();
      Invalidate(i);
      return Fresh(i);
    }

    method Invalidate(i: nat)
      requires SlotsOk() && i < |slots|
      modifies this`slots
      ensures SlotsOk() && slots == old(slots)[i := old(slots)[i].(blkno := None)]
    {
      hide TrueSlots;
      InvalidateKeeps(slots, file, blksize, fifo, i);
      slots := slots[i := slots[i].(blkno := None)];
    }

    /** Whether the FIFO slot of `blkno` has moved on to a later block. */
    predicate Overtaken(blkno: nat)
      requires slots != []
      reads this`slots
    {
      fifo && var at := slots[blkno % |slots|].blkno; at.Some? && at.value > blkno
    }

    /** The first block that is read to get at `blkno`. */
    function FirstRead(blkno: nat): nat
      reads this`sourcePosition
    {
      if seekable || blksize == 0 then blkno else sourcePosition / blksize
    }

    /** The asserts of the skipping loop: the position is at a block that is still unread. */
    predicate CanSkip(pos: nat)
      requires blksize > 0
      reads this`slots, this`sourcePosition
    {
      !seekable && sourcePosition < pos ==>
        sourcePosition % blksize == 0 && !Cached(slots, sourcePosition / blksize)
    }

    method Fill(i: nat, blkno: nat)
      requires SlotsOk() && i < |slots| && !Cached(slots, blkno) && (fifo ==> blkno % |slots| == i)
      requires sourcePosition == blkno * blksize
      modifies this`slots, this`sourcePosition
      ensures SlotsOk() && slots == old(slots)[i := Slot(Some(blkno), Block(file, blksize, blkno))]
      ensures sourcePosition == blkno * blksize + |Block(file, blksize, blkno)|
    {
      hide TrueSlots, Block;
      FillKeeps(slots, file, blksize, fifo, i, blkno);
      slots := slots[i := Slot(Some(blkno), Block(file, blksize, blkno))];
      sourcePosition := sourcePosition + |slots[i].blk|;
    }

    /** One block is read and kept on the way to a later one. */
    method SkipBlock() returns (r: Outcome)
      requires Valid() && !seekable && sourcePosition % blksize == 0 && !Cached(slots, sourcePosition / blksize)
      modifies this`slots, this`sourcePosition, this`order, this`stamp, this`now, head, links
      ensures r == Got || r == Short
      ensures r == Got ==> Valid() && sourcePosition == old(sourcePosition) + blksize <= |file|
      ensures r == Got ==> NoneAhead(slots, blksize, old(sourcePosition))
      ensures fifo && r == Got ==>
        var b, i := old(sourcePosition) / blksize, old(sourcePosition) / blksize % |slots|;
        |slots| == |old(slots)| && slots == old(slots)[i := Slot(Some(b), Block(file, blksize, b))]
      ensures r == Short ==> old(sourcePosition) + blksize > |file|
    {
      hide TrueSlots, Ring, Links, ChainOf, AllOnce, ByLastUse;
      var skip := sourcePosition / blksize;
      assert skip * blksize == sourcePosition;
      NotOvertaken(skip);
      var found := GetSlot(skip);
      assert found.Fresh? && !Cached(slots, skip);
      BlockLength(file, blksize, skip);
      if |Block(file, blksize, skip)| != blksize {
        slots := slots[found.slot := slots[found.slot].(blkno := Some(skip))];
        return Short;
      }
      Fill(found.slot, skip);
      return Got;
    }

    lemma NotOvertaken(blkno: nat)
      requires SlotsOk() && !seekable && sourcePosition <= blkno * blksize
      ensures !Overtaken(blkno)
    {
      hide TrueSlots;
      var at := slots[blkno % |slots|].blkno;
      if at.Some? {
        LaterIsAhead(blksize, at.value, blkno);
      }
    }

    /** Brings the source to the start of block `blkno`: by seeking, or else by reading what lies before it. */
    method SeekSource(blkno: nat) returns (r: Outcome)
      requires Valid() && !Cached(slots, blkno) && sourcePosition != blkno * blksize && CanSkip(blkno * blksize)
      modifies this`slots, this`sourcePosition, this`seekFailed, this`order, this`stamp, this`now, head, links
      ensures r != Short ==> Valid() && !Cached(slots, blkno)
      ensures r == Got ==> sourcePosition == blkno * blksize
      ensures r == Outcome.TooFarBack <==> !seekable && old(sourcePosition) > blkno * blksize
      ensures r == Short ==> !seekable && |file| < blkno * blksize
      ensures seekable || r == Outcome.TooFarBack ==>
                slots == old(slots) && order == old(order) && stamp == old(stamp)
      ensures fifo && !seekable && r == Got ==> Arrived(old(slots), slots, old(FirstRead(blkno)), blkno)
    {
      hide TrueSlots, Ring, Links, ChainOf, AllOnce, ByLastUse, Block, Arrived, NoneAhead, Cached;
      var pos := blkno * blksize;
      WholeBlocks(blksize, 0, blkno);
      if !seekFailed {
        if seekable {
          sourcePosition := pos;
          return Got;
        }
      }
      seekFailed := true;
      if sourcePosition > pos {
        return Outcome.TooFarBack;
      }
      ghost var slots0, from := slots, sourcePosition / blksize;
      NothingArrived(slots0, from);
      while sourcePosition < pos
        invariant Valid() && sourcePosition <= pos && sourcePosition % blksize == 0
        invariant !Cached(slots, sourcePosition / blksize)
        invariant from <= sourcePosition / blksize
        invariant fifo ==> Arrived(slots0, slots, from, sourcePosition / blksize)
        decreases pos - sourcePosition
      {
        ghost var before, had, b := sourcePosition, slots, sourcePosition / blksize;
        WholeBlocks(blksize, before, blkno);
        r := SkipBlock();
        if r == Short {
          return Short;
        }
        Unread(slots, blksize, before, sourcePosition / blksize);
        if fifo {
          OneMoreArrived(slots0, had, from, b, b % |had|, Slot(Some(b), Block(file, blksize, b)));
        }
      }
      return Got;
    }

    /** The request for one block.  A source that can seek always yields the true block, except that in order of
        arrival a block whose place has been taken by a later one is gone; a source that cannot seek yields it unless it
        lies behind.  On a miss the slot used longest ago is given up, and nothing else changes. */
    method GetBlock(blkno: nat) returns (r: Outcome)
      requires Valid() && CanSkip(blkno * blksize)
      modifies this, head, links
      ensures r != Short ==> Valid()
      ensures r == Got ==> curblkno == Some(blkno) && curblk == Block(file, blksize, blkno)
      ensures r != Got ==> curblkno == old(curblkno) && curblk == old(curblk)
      ensures r == Outcome.TooFarBack <==> old(Overtaken(blkno))
                                           || (!seekable && !Cached(old(slots), blkno) && old(sourcePosition) > blkno * blksize)
      ensures r == Short ==> !seekable && |file| < blkno * blksize
      ensures Cached(old(slots), blkno) ==> slots == old(slots)
      ensures r == Got ==> Cached(slots, blkno) && (fifo ==> InPlace(slots, blkno))
      ensures fifo && r == Got && !Cached(old(slots), blkno) ==>
                Arrived(old(slots), slots, old(FirstRead(blkno)), blkno + 1)
      ensures seekable && !fifo && !Cached(old(slots), blkno) ==>
                exists v :: 0 <= v < |old(slots)| && v < |old(stamp)| && LeastRecent(old(stamp), v)
                  && slots == old(slots)[v := Slot(Some(blkno), Block(file, blksize, blkno))]
      ensures !fifo && seekable ==> exists v :: 0 <= v < |slots| && slots[v].blkno == Some(blkno) && v < |old(stamp)|
                                      && stamp == old(stamp)[v := old(now)]
    {
      hide TrueSlots, Ring, Links, ChainOf, AllOnce, ByLastUse, Block, NoneAhead, Arrived, InPlace, Cached;
      var pos := blkno * blksize;
      assert Overtaken(blkno) || !Overtaken(blkno);
      CachedFacts(blkno);
      var found := GetSlot(blkno);
      if found.Behind? {
        return Outcome.TooFarBack;
      }
      if found.Hit? {
        StandsThere(slots, blkno, found.slot);
        curblkno, curblk := Some(blkno), slots[found.slot].blk;
        return Got;
      }
      ghost var emptied, from := slots, FirstRead(blkno);
      NothingArrived(slots, blkno);
      OneFewerCached(old(slots), found.slot);
      MultipleBack(blksize, blkno);
      if pos != sourcePosition {
        r := SeekSource(blkno);
        if r != Got {
          return r;
        }
      }
      ghost var read := slots;
      Fill(found.slot, blkno);
      StandsThere(slots, blkno, found.slot);
      if fifo {
        LastArrived(old(slots), emptied, read, from, blkno, slots[found.slot]);
      }
      assert seekable ==> slots == old(slots)[found.slot := Slot(Some(blkno), Block(file, blksize, blkno))];
      assert !fifo ==> LeastRecent(old(stamp), found.slot);
      curblkno, curblk := Some(blkno), slots[found.slot].blk;
      return Got;
    }

    /** A cached block is the true one, and in order of arrival no later block has its place. */
    lemma CachedFacts(blkno: nat)
      requires SlotsOk()
      ensures forall i :: 0 <= i < |slots| && slots[i].blkno == Some(blkno) ==> slots[i].blk == Block(file, blksize, blkno)
      ensures Cached(slots, blkno) ==> !Overtaken(blkno)
      ensures !seekable && Cached(slots, blkno) ==> blkno * blksize <= sourcePosition
    {
      hide Block;
    }
  }
}
