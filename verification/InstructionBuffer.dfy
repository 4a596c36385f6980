/** The buffer of matches waiting to be encoded: how the matcher fills it, how it is flushed, and where its slots go. */
module InstructionBuffer {
  import opened Sequences
  import opened Bytes
  import opened Results
  import opened CodeTable
  import opened WindowFormat
  import opened WindowEncoder
  import opened Overlaps

  /** The last match begins behind the end of the one before it. */
  predicate LastApart(s: seq<RInst>) {
    |s| >= 2 && End(s[|s| - 2]) <= s[|s| - 1].pos
  }

  /** All matches begin inside the first one. */
  predicate AllInFirst(s: seq<RInst>) {
    |s| >= 2 && End(s[0]) > s[|s| - 1].pos
  }

  /** Whether what is left after a flush that came down to `c` is still in order when a match at `pos` is put behind. */
  predicate KeepsOrder(c: seq<RInst>, pos: nat) {
    if |c| == 1 then End(c[0]) <= pos else |c| != 2 || End(c[0]) <= c[1].pos
  }

  // ----- What the encoder is told

  function EndOf(from: nat, xs: seq<RInst>): nat {
    if xs == [] then from else End(xs[|xs| - 1])
  }

  /** The matches `xs`, with an ADD for every gap before one of them. */
  function Filled(from: nat, xs: seq<RInst>): seq<RInst> {
    if xs == [] then []
    else
      var init, x := xs[..|xs| - 1], xs[|xs| - 1];
      Filled(from, init) + Gap(EndOf(from, init), x.pos) + [Kind(x)]
  }

  lemma FilledNext(from: nat, c: seq<RInst>, k: nat)
    requires k < |c|
    ensures Filled(from, c[..k + 1]) == Filled(from, c[..k]) + Gap(EndOf(from, c[..k]), c[k].pos) + [Kind(c[k])]
    ensures EndOf(from, c[..k + 1]) == End(c[k])
  {
    assert c[..k + 1][..k] == c[..k];
  }

  lemma FilledMore(told0: seq<RInst>, told: seq<RInst>, now: seq<RInst>, from: nat, c: seq<RInst>, k: nat)
    requires k < |c| && told == told0 + Filled(from, c[..k])
    requires now == told + Gap(EndOf(from, c[..k]), c[k].pos) + [Kind(c[k])]
    ensures now == told0 + Filled(from, c[..k + 1])
  {
    FilledNext(from, c, k);
  }

  lemma NoneTold(told: seq<RInst>, from: nat, c: seq<RInst>)
    ensures told == told + Filled(from, c[..0]) && EndOf(from, c[..0]) == from
  {
  }

  /** The first matches of `c` have been encoded, in order and with the gaps between them, and the others are still in
      the buffer, before `behind`. */
  ghost predicate Encoded(told0: seq<RInst>, from: nat, c: seq<RInst>, told: seq<RInst>, upto: nat,
                          used: seq<RInst>, behind: seq<RInst>) {
    exists k | 0 <= k <= |c| ::
      used == c[k..] + behind && told == told0 + Filled(from, c[..k]) && upto == EndOf(from, c[..k])
  }

  /** The first `k` of `n` matches have been encoded: more than half as many as there are slots, or all but two, and no
      more than it takes. */
  predicate FarEnough(n: nat, k: nat, size: nat) {
    && 1 <= k <= n && (k > size / 2 || n - k < 3)
    && (k > 1 ==> k - 1 <= size / 2 && n - (k - 1) >= 3)
  }

  lemma EncodedFirst(told0: seq<RInst>, from: nat, c: seq<RInst>, told: seq<RInst>, upto: nat, k: nat)
    requires k <= |c| && told == told0 + Filled(from, c[..k]) && upto == EndOf(from, c[..k])
    ensures Encoded(told0, from, c, told, upto, c[k..], [])
    ensures k == |c| ==> told == told0 + Filled(from, c) && upto == EndOf(from, c)
  {
    assert c[k..] + [] == c[k..] && c[..|c|] == c;
  }

  lemma EncodedThenMore(told0: seq<RInst>, from: nat, c: seq<RInst>, told: seq<RInst>, upto: nat, used: seq<RInst>, x: RInst)
    requires Encoded(told0, from, c, told, upto, used, [])
    ensures Encoded(told0, from, c, told, upto, used + [x], [x])
  {
    hide Filled;
    var k :| 0 <= k <= |c| && used == c[k..] + [] && told == told0 + Filled(from, c[..k]) && upto == EndOf(from, c[..k]);
    assert used + [x] == c[k..] + [x];
  }

  class Buffer {
    const enc: Encoder
    /** How many slots the buffer gets when none is free; none if its size is fixed. */
    const moreSlots: nat
    var size: nat
    var used: seq<RInst>
    var inputPosition: nat
    var minMatch: nat

    ghost predicate TrueMatches(s: seq<RInst>) {
      forall k :: 0 <= k < |s| ==> s[k].type_ != ADD && Genuine(enc.file, enc.srcbase, enc.srclen, enc.window, s[k])
    }

    /** Nothing in the buffer starts before what has been encoded. */
    ghost predicate InOrder()
      reads this, enc
    {
      used == [] || enc.unencodedOffset <= used[0].pos
    }

    /** Every slot is in use, free, or held by the instruction waiting for its code. */
    ghost predicate SlotsConserved()
      reads this, enc
    {
      && |used| + enc.free + Slots(enc.iout) == size
      && (enc.iout.Some? ==> enc.iout.value.type_ != ADD)
    }

    ghost predicate Valid()
      reads this, enc, enc.acache, enc.acache.nearArray, enc.acache.sameArray
    {
      enc.Valid() && Increasing(used) && TrueMatches(used) && SlotsConserved()
    }

    /** A match found from here on starts later and ends later than all in the buffer. */
    ghost predicate Searching()
      reads this
    {
      && minMatch >= MIN_MATCH
      && (used != [] ==>
            used[|used| - 1].pos < inputPosition && End(used[|used| - 1]) < inputPosition + minMatch)
    }

    constructor (enc: Encoder, size: nat, moreSlots: nat)
      requires enc.Valid() && enc.iout == None && enc.free == size
      ensures Valid() && InOrder() && Searching() && used == [] && inputPosition == 0 && minMatch == MIN_MATCH
      ensures this.enc == enc && this.size == size && this.moreSlots == moreSlots
    {
      this.enc, this.size, this.moreSlots := enc, size, moreSlots;
      used, inputPosition, minMatch := [], 0, MIN_MATCH;
    }

    /** One look at the match at `i` and its successor. */
    method CompactOne(i: nat, force: bool, ghost orig: seq<RInst>) returns (next: nat, stop: bool)
      requires enc.Valid() && SlotsConserved() && Compacting(orig, used, i, force) && i + 1 < |used|
      modifies this`used, enc`free
      ensures enc.Valid() && SlotsConserved() && Compacting(orig, used, next, force)
      ensures (used, next, stop) == StepOf(orig, old(used), i, force)
    {
      hide Compacting, Trimmed, Encoder.Valid, Buffer.SlotsConserved;
      CompactPair(orig, used, i, force);
      var r1, r2 := used[i], used[i + 1];
      if End(r1) <= r2.pos {
        return i + 1, false;
      }
      if i + 2 < |used| {
        var r3 := used[i + 2];
        if r3.pos <= End(r1) + 1 {
          CompactSecond(orig, used, i, force);
          Free(i + 1);
          return i, false;
        }
      } else if !force {
        return i, true;
      }
      var r2off, r2moff, gap := r2.pos - r1.pos, End(r2) - End(r1), End(r2) - r1.pos;
      if gap < 2 * MIN_MATCH || r2moff <= 2 || r2off <= 2 {
        if r1.size < r2.size {
          CompactFirst(orig, used, i, force);
          Free(i);
          return i, false;
        } else {
          CompactSecond(orig, used, i, force);
          Free(i + 1);
          return i + 1, false;
        }
      } else {
        var cut := Shortened(r1, r2);
        CompactCut(orig, used, i, force, cut.0, cut.1);
        Shorten(i, cut.0, cut.1);
        return i + 1, false;
      }
    }

    method Shorten(i: nat, a: RInst, b: RInst)
      requires enc.Valid() && SlotsConserved() && i + 1 < |used|
      modifies this`used
      ensures enc.Valid() && SlotsConserved() && used == old(used)[i := a][i + 1 := b]
    {
      hide Encoder.Valid;
      used := used[i := a][i + 1 := b];
    }

    /** Gives the slot of one match back. */
    method Free(k: nat)
      requires enc.Valid() && SlotsConserved() && k < |used|
      modifies this`used, enc`free
      ensures enc.Valid() && SlotsConserved() && used == Without(old(used), k)
    {
      SetFree(enc.free + 1);
      used := Without(used, k);
    }

    /** Cuts and drops matches until no two overlap; without force the last two may still. */
    method Compact(force: bool)
      requires Valid()
      modifies this`used, enc`free
      ensures Valid()
      ensures used == Resolved(old(used), force)
      ensures Trims(old(used), used) && |used| <= |old(used)|
      ensures old(used) != [] ==> used != [] && old(used)[0].pos <= used[0].pos
      ensures force ==> Apart(used, |used|)
      ensures !force ==> Apart(used, if used == [] then 0 else |used| - 1)
      ensures !force && used != [] ==> used[|used| - 1] == old(used)[|old(used)| - 1]
      ensures !force && |old(used)| >= 2 ==> |used| >= 2
    {
      hide Compacting, Increasing, Apart, Trims, StepOf, Encoder.Valid, Buffer.TrueMatches, Buffer.SlotsConserved;
      ghost var orig := used;
      CompactStart(used, force);
      var i: nat, stop := 0, false;
      while i + 1 < |used| && !stop
        invariant enc.Valid() && SlotsConserved() && Compacting(orig, used, i, force)
        invariant stop ==> !force && i + 2 == |used|
        invariant Resolved(orig, force) == if stop then used else Pass(orig, used, i, force)
        decreases |used| - i, !stop
      {
        i, stop := CompactOne(i, force, orig);
      }
      Compacted(orig, used, i, force);
      TrimmedMatches(orig, used);
    }

    lemma TrimmedMatches(orig: seq<RInst>, s: seq<RInst>)
      requires TrueMatches(orig) && Trims(orig, s)
      ensures TrueMatches(s)
    {
      forall k | 0 <= k < |s|
        ensures s[k].type_ != ADD && Genuine(enc.file, enc.srcbase, enc.srclen, enc.window, s[k])
      {
        assert PartOf(orig, s[k]);
        var j :| 0 <= j < |orig| && Trimmed(orig[j], s[k]);
        TrimmedGenuine(enc.file, enc.srcbase, enc.srclen, enc.window, orig[j], s[k]);
      }
    }

    /** The encoder has taken the first `k` of the compacted matches. */
    ghost predicate Taken(c: seq<RInst>, k: nat, settled: nat)
      reads this, enc, enc.acache, enc.acache.nearArray, enc.acache.sameArray
    {
      && enc.Valid() && SlotsConserved() && TrueMatches(c) && Increasing(c)
      && k <= |c| && used == c[k..] && settled <= |c| && Apart(c, settled)
      && (k == 0 ==> c != [] ==> enc.unencodedOffset <= c[0].pos)
      && (k > 0 ==> enc.unencodedOffset == End(c[k - 1]))
    }

    /** Hands the first match over to the encoder. */
    method TakeFirst(ghost c: seq<RInst>, ghost k: nat, ghost settled: nat)
      requires Taken(c, k, settled) && k < |c| && (k == 0 || k < settled)
      modifies this`used, enc, enc.acache, enc.acache.nearArray, enc.acache.sameArray
      ensures Taken(c, k + 1, settled)
      ensures enc.Told() == old(enc.Told()) + Gap(old(enc.unencodedOffset), c[k].pos) + [Kind(c[k])]
    {
      hide Increasing, Encoder.Valid, Encoder.Told, Gap, Kind;
      var renc := used[0];
      used := used[1..];
      assert renc == c[k];
      enc.AddEncoding(renc);
    }

    /** Encodes from the front: everything when forced, otherwise until half the slots have been encoded or fewer than
        three matches remain. */
    method Drain(force: bool, ghost c: seq<RInst>, ghost settled: nat) returns (ghost k: nat)
      requires Taken(c, 0, settled) && |c| <= settled + (if force then 0 else 1)
      modifies this`used, enc, enc.acache, enc.acache.nearArray, enc.acache.sameArray
      ensures Taken(c, k, settled)
      ensures force ==> k == |c|
      ensures !force && c != [] ==> FarEnough(|c|, k, size)
      ensures !force && k > 1 ==> k + 2 <= |c|
      ensures enc.Told() == old(enc.Told()) + Filled(old(enc.unencodedOffset), c[..k])
      ensures enc.unencodedOffset == EndOf(old(enc.unencodedOffset), c[..k])
      ensures c == [] ==> enc.unencodedOffset == old(enc.unencodedOffset)
    {
      hide Increasing, Apart, Encoder.Valid, Encoder.Told, Buffer.TrueMatches, Filled, Gap, Kind;
      var flushed: nat := 0;
      ghost var told0, from := enc.Told(), enc.unencodedOffset;
      NoneTold(told0, from, c);
      while used != []
        invariant c == [] ==> enc.unencodedOffset == old(enc.unencodedOffset)
        invariant flushed <= |c| && Taken(c, flushed, settled)
        invariant !force && flushed > 0 ==> flushed + 3 <= |c| && flushed <= size / 2
        invariant enc.Told() == told0 + Filled(from, c[..flushed]) && enc.unencodedOffset == EndOf(from, c[..flushed])
        decreases |used|
      {
        ghost var told := enc.Told();
        TakeFirst(c, flushed, settled);
        FilledMore(told0, told, enc.Told(), from, c, flushed);
        FilledNext(from, c, flushed);
        flushed := flushed + 1;
        if !force {
          if flushed > size / 2 || |used| < 3 {
            return flushed;
          }
        }
      }
      return flushed;
    }

    lemma SuffixStays(c: seq<RInst>, k: nat)
      requires k <= |c| && Increasing(c) && TrueMatches(c)
      ensures Increasing(c[k..]) && TrueMatches(c[k..])
    {
      var s := c[k..];
      assert forall i :: 0 <= i < |s| ==> s[i] == c[k + i];
    }

    lemma StillInOrder(c: seq<RInst>, k: nat, settled: nat)
      requires Taken(c, k, settled) && 0 < k < |c|
      ensures InOrder() <==> End(c[k - 1]) <= c[k].pos
      ensures k < settled ==> InOrder()
    {
      hide Encoder.Valid;
      assert used[0] == c[k];
    }

    /** What the compacted matches look like to the encoder before it takes the first. */
    lemma NothingTaken(c: seq<RInst>, settled: nat)
      requires Valid() && InOrder() && used == c && settled <= |c| && Apart(c, settled)
      ensures Taken(c, 0, settled)
    {
      hide Encoder.Valid, Increasing, Apart, Buffer.TrueMatches;
      assert c[0..] == c;
    }

    /** What is left when the encoder has taken the first `k`. */
    lemma Released(told0: seq<RInst>, from: nat, c: seq<RInst>, k: nat, settled: nat, force: bool)
      requires Taken(c, k, settled) && (force ==> k == |c|)
      requires !force && c != [] ==> FarEnough(|c|, k, size) && settled == |c| - 1
      requires enc.Told() == told0 + Filled(from, c[..k]) && enc.unencodedOffset == EndOf(from, c[..k])
      ensures Valid() && |used| <= |c| && used == c[|c| - |used|..] && |c| - |used| == k
      ensures Encoded(told0, from, c, enc.Told(), enc.unencodedOffset, used, [])
      ensures force ==> used == [] && enc.Told() == told0 + Filled(from, c) && enc.unencodedOffset == EndOf(from, c)
      ensures !force && c != [] ==> (InOrder() <==> |c| != 2 || End(c[0]) <= c[1].pos)
      ensures !force && |c| >= 2 ==> used != []
      ensures !force && |c| == 1 ==> used == []
    {
      hide Encoder.Valid, Encoder.Told, Increasing, Apart, Buffer.TrueMatches, Filled, EndOf, Encoded;
      SuffixStays(c, k);
      EncodedFirst(told0, from, c, enc.Told(), enc.unencodedOffset, k);
      if !force && 0 < k < |c| {
        StillInOrder(c, k, settled);
      }
    }

    /** Makes room or empties the buffer. Without force the order survives unless compacting left just two matches, and
        those overlapping: never when the last match begins behind the one before it, always when all of them begin
        inside the first. */
    method Flush(force: bool) returns (ghost c: seq<RInst>)
      requires Valid() && InOrder()
      modifies this`used, enc, enc.acache, enc.acache.nearArray, enc.acache.sameArray
      ensures Valid() && c == Resolved(old(used), force) && |used| <= |c|
      ensures force ==> used == [] && Apart(c, |c|)
      ensures force && c != [] ==> enc.unencodedOffset == End(c[|c| - 1])
      ensures !force ==> (InOrder() <==> |c| != 2 || End(c[0]) <= c[1].pos)
      ensures !force && LastApart(old(used)) ==> InOrder()
      ensures !force && AllInFirst(old(used)) ==> !InOrder()
      ensures !force && |old(used)| >= 2 ==> used != []
      ensures !force && used != [] ==> old(used) != [] && used[|used| - 1] == old(used)[|old(used)| - 1]
      ensures Encoded(old(enc.Told()), old(enc.unencodedOffset), c, enc.Told(), enc.unencodedOffset, used, [])
      ensures !force && c != [] ==> FarEnough(|c|, |c| - |used|, size)
      ensures force ==> enc.Told() == old(enc.Told()) + Filled(old(enc.unencodedOffset), c)
      ensures force ==> enc.unencodedOffset == EndOf(old(enc.unencodedOffset), c)
      ensures !force && |c| == 1 ==> used == [] && enc.unencodedOffset == End(c[0])
      ensures !force && c == [] ==> used == [] && enc.unencodedOffset == old(enc.unencodedOffset)
      ensures !force && size >= 4 && old(enc.free) == 0 ==> enc.free >= 1
    {
      hide Encoder.Valid, Encoder.Told, Trims, Increasing, Apart, Buffer.TrueMatches, Filled, Encoded, Resolved,
           LastApart, AllInFirst, Buffer.Taken;
      FlushedPair(used);
      ghost var told0, from := enc.Told(), enc.unencodedOffset;
      Compact(force);
      c := used;
      ghost var settled := if force || used == [] then |used| else |used| - 1;
      NothingTaken(c, settled);
      ghost var k := Drain(force, c, settled);
      Released(told0, from, c, k, settled, force);
    }

    /** Puts a match into a slot; when none is free the buffer grows, or half of it is encoded first. A buffer of fewer
        than four slots can then still be without a free one, where the code has an assert. */
    method Push(x: RInst) returns (ok: bool, ghost c: seq<RInst>)
      requires Valid() && InOrder()
      requires x.type_ != ADD && Genuine(enc.file, enc.srcbase, enc.srclen, enc.window, x) && x.size >= MIN_MATCH
      requires used != [] ==> used[|used| - 1].pos < x.pos && End(used[|used| - 1]) < End(x)
      requires enc.unencodedOffset <= x.pos
      modifies this`used, this`size, enc, enc.acache, enc.acache.nearArray, enc.acache.sameArray
      ensures Valid() && (ok ==> used != [] && used[|used| - 1] == x)
      ensures moreSlots > 0 || old(size) >= 4 ==> ok
      ensures !ok ==> enc.free == 0
      ensures size == old(size) + (if old(enc.free) == 0 then moreSlots else 0)
      ensures old(enc.free) > 0 || moreSlots > 0 ==> used == old(used) + [x] && InOrder()
      ensures old(enc.free) == 0 && moreSlots == 0 ==> c == Resolved(old(used), false)
      ensures if old(enc.free) > 0 || moreSlots > 0 then enc.Told() == old(enc.Told())
              else Encoded(old(enc.Told()), old(enc.unencodedOffset), c, enc.Told(), enc.unencodedOffset, used,
                           if ok then [x] else [])
      ensures old(enc.free) == 0 && moreSlots == 0 && ok ==> (InOrder() <==> KeepsOrder(c, x.pos))
      ensures ok && LastApart(old(used)) ==> InOrder()
      ensures old(enc.free) == 0 && moreSlots == 0 && ok && AllInFirst(old(used)) ==> !InOrder()
      ensures old(enc.free) > 0 ==>
        ok && enc.free == old(enc.free) - 1 && enc.iout == old(enc.iout) && enc.unencodedOffset == old(enc.unencodedOffset)
    {
      hide Encoder.Valid, Encoder.Told, Trims, Apart, Genuine, Pass, Resolved, Increasing, Buffer.TrueMatches, Encoded;
      c := used;
      FewSlots();
      if enc.free == 0 {
        if moreSlots > 0 {
          size := size + moreSlots;
          SetFree(moreSlots);
        } else {
          c := Flush(false);
          FlushedPair(old(used));
          if enc.free == 0 {
            return false, c;
          }
        }
      }
      Appended(used, x);
      SetFree(enc.free - 1);
      if old(enc.free) == 0 && moreSlots == 0 {
        EncodedThenMore(old(enc.Told()), old(enc.unencodedOffset), c, enc.Told(), enc.unencodedOffset, used, x);
      }
      used := used + [x];
      ok := true;
    }

    lemma FewSlots()
      requires SlotsConserved()
      ensures enc.free == 0 && size >= 4 ==> |used| >= 3
    {
    }

    lemma Appended(s: seq<RInst>, x: RInst)
      requires Increasing(s) && TrueMatches(s)
      requires x.type_ != ADD && Genuine(enc.file, enc.srcbase, enc.srclen, enc.window, x) && x.size >= MIN_MATCH
      requires s != [] ==> s[|s| - 1].pos < x.pos && End(s[|s| - 1]) < End(x)
      ensures Increasing(s + [x]) && TrueMatches(s + [x])
    {
      forall i | 0 <= i < |s| ensures s[i].pos < x.pos && End(s[i]) < End(x) {
        assert i < |s| - 1 ==> s[i].pos < s[|s| - 1].pos && End(s[i]) < End(s[|s| - 1]);
      }
    }

    method SetFree(n: nat)
      requires enc.Valid()
      modifies enc`free
      ensures enc.Valid() && enc.free == n
    {
      enc.free := n;
    }

    lemma PrefixStays(s: seq<RInst>, k: nat)
      requires k <= |s| && Increasing(s) && TrueMatches(s)
      ensures Increasing(s[..k]) && TrueMatches(s[..k])
    {
    }

    lemma FlushedPair(s: seq<RInst>)
      requires Increasing(s)
      ensures |s| >= 2 ==> |Resolved(s, false)| >= 2
      ensures LastApart(s) ==> var c := Resolved(s, false); |c| == 2 ==> End(c[0]) <= c[1].pos
      ensures AllInFirst(s) ==> var c := Resolved(s, false); |c| == 2 && End(c[0]) > c[1].pos
    {
      hide Resolved, Increasing;
      ResolvedIsSettled(s, false);
      if LastApart(s) {
        ApartAtTheEnd(s);
      }
      if AllInFirst(s) {
        CollapseToTwo(s);
      }
    }

    lemma EndsBelow(s: seq<RInst>, end: nat)
      requires Increasing(s) && (s != [] ==> End(s[|s| - 1]) < end)
      ensures forall k :: 0 <= k < |s| ==> End(s[k]) < end
    {
      forall k | 0 <= k < |s| ensures End(s[k]) < end {
        assert k < |s| - 1 ==> End(s[k]) < End(s[|s| - 1]);
      }
    }

    /** Removes the matches that a match starting at `pos` covers: those that start there or later. */
    method Erase(pos: nat, ghost end: nat)
      requires Valid() && InOrder() && (used != [] ==> End(used[|used| - 1]) < end)
      modifies this`used, enc`free
      ensures Valid() && InOrder()
      ensures |used| <= |old(used)| && used == old(used)[..|used|]
      ensures used != [] ==> used[|used| - 1].pos < pos
      ensures forall k :: |used| <= k < |old(used)| ==> pos <= old(used)[k].pos && End(old(used)[k]) < end
    {
      hide Encoder.Valid, Genuine, Increasing, Buffer.TrueMatches;
      EndsBelow(used, end);
      while used != []
        invariant Valid() && InOrder()
        invariant |used| <= |old(used)| && used == old(used)[..|used|]
        invariant forall k :: |used| <= k < |old(used)| ==> pos <= old(used)[k].pos && End(old(used)[k]) < end
        decreases |used|
      {
        var last := |used| - 1;
        if used[last].pos < pos {
          return;
        }
        PrefixStays(used, last);
        used := used[..last];
        SetFree(enc.free + 1);
      }
    }

    /** A run or a match within the window is found at the input position, no shorter than the minimum. */
    method EmitHere(x: RInst) returns (ok: bool, ghost c: seq<RInst>)
      requires Valid() && InOrder() && Searching()
      requires x.type_ != ADD && Genuine(enc.file, enc.srcbase, enc.srclen, enc.window, x)
      requires x.pos == inputPosition && x.size >= minMatch && enc.unencodedOffset <= x.pos
      modifies this`used, this`size, enc, enc.acache, enc.acache.nearArray, enc.acache.sameArray
      ensures Valid() && (ok ==> Matched(x.size)) && (!ok ==> enc.free == 0)
      ensures moreSlots > 0 || old(size) >= 4 ==> ok
      ensures moreSlots == 0 ==> size == old(size)
      ensures old(enc.free) > 0 || moreSlots > 0 ==> used == old(used) + [x] && InOrder()
      ensures old(enc.free) == 0 && moreSlots == 0 ==> c == Resolved(old(used), false)
      ensures if old(enc.free) > 0 || moreSlots > 0 then enc.Told() == old(enc.Told())
              else Encoded(old(enc.Told()), old(enc.unencodedOffset), c, enc.Told(), enc.unencodedOffset, used,
                           if ok then [x] else [])
      ensures old(enc.free) == 0 && moreSlots == 0 && ok ==> (InOrder() <==> KeepsOrder(c, x.pos))
      ensures ok && LastApart(old(used)) ==> InOrder()
      ensures old(enc.free) == 0 && moreSlots == 0 && ok && AllInFirst(old(used)) ==> !InOrder()
    {
      hide Encoded, Encoder.Told, Encoder.Valid, Increasing, Genuine, Buffer.TrueMatches, Resolved, LastApart, AllInFirst,
           KeepsOrder, Buffer.SlotsConserved;
      ok, c := Push(x);
    }

    /** A source match that reaches back over what was found before takes the place of the matches it covers. */
    method EmitSource(x: RInst, back: nat) returns (ok: bool, ghost kept: seq<RInst>, ghost c: seq<RInst>)
      requires Valid() && InOrder() && Searching()
      requires x.type_ == CPY && x.xtra != 0 && Genuine(enc.file, enc.srcbase, enc.srclen, enc.window, x)
      requires x.pos + back == inputPosition && x.size >= back + minMatch && enc.unencodedOffset <= x.pos
      modifies this`used, this`size, enc, enc.acache, enc.acache.nearArray, enc.acache.sameArray
      ensures Valid() && (ok ==> Matched(x.size - back)) && (!ok ==> enc.free == 0)
      ensures moreSlots > 0 || old(size) >= 4 ==> ok
      ensures moreSlots == 0 ==> size == old(size)
      ensures |kept| <= |old(used)| && kept == old(used)[..|kept|]
      ensures forall k :: 0 <= k < |kept| ==> kept[k].pos < x.pos
      ensures back == 0 ==> kept == old(used)
      ensures old(enc.free) > 0 || moreSlots > 0 || |kept| < |old(used)| ==> used == kept + [x] && InOrder()
      ensures old(enc.free) == 0 && moreSlots == 0 && kept == old(used) ==> c == Resolved(kept, false)
      ensures if old(enc.free) > 0 || moreSlots > 0 || |kept| < |old(used)| then enc.Told() == old(enc.Told())
              else Encoded(old(enc.Told()), old(enc.unencodedOffset), c, enc.Told(), enc.unencodedOffset, used,
                           if ok then [x] else [])
      ensures old(enc.free) == 0 && moreSlots == 0 && kept == old(used) && ok ==> (InOrder() <==> KeepsOrder(c, x.pos))
      ensures ok && LastApart(kept) ==> InOrder()
      ensures old(enc.free) == 0 && moreSlots == 0 && kept == old(used) && ok && AllInFirst(kept) ==> !InOrder()
      ensures old(enc.free) > 0 && kept == old(used) ==>
        ok && size == old(size)
        && enc.free == old(enc.free) - 1 && enc.iout == old(enc.iout) && enc.unencodedOffset == old(enc.unencodedOffset)
    {
      hide Encoder.Valid, Encoder.Told, Genuine, Pass, Resolved, Encoded, KeepsOrder;
      if back > 0 {
        Erase(x.pos, End(x));
      }
      kept := used;
      ok, c := Push(x);
    }

    /** The last match begins at or before the input position and ends `n` bytes behind it. */
    ghost predicate Matched(n: nat)
      reads this
    {
      n >= minMatch >= MIN_MATCH && used != []
      && used[|used| - 1].pos <= inputPosition && End(used[|used| - 1]) == inputPosition + n
    }

    /** No shorter matches could be left aside. */
    ghost predicate LeastMinimum()
      reads this
    {
      minMatch == 4 || (used != [] && End(used[|used| - 1]) == inputPosition + minMatch - 1)
    }

    /** After a match the search goes on one byte further, for something longer, or behind the match. */
    method HandleLazy(mlen: nat, lazy: bool)
      requires Matched(mlen)
      modifies this`inputPosition, this`minMatch
      ensures Searching() && (if lazy then minMatch == mlen else LeastMinimum())
      ensures inputPosition == old(inputPosition) + (if lazy then 1 else mlen)
    {
      if lazy {
        minMatch := mlen;
        inputPosition := inputPosition + 1;
      } else {
        inputPosition := inputPosition + mlen;
        Restart();
      }
    }

    method Restart()
      requires used != [] ==> used[|used| - 1].pos < inputPosition
      modifies this`minMatch
      ensures Searching() && LeastMinimum()
    {
      var lastMatched := if used == [] then 0 else End(used[|used| - 1]);
      minMatch := if lastMatched > inputPosition then Max(MIN_MATCH, 1 + lastMatched - inputPosition) else MIN_MATCH;
    }

    method Advance()
      requires Searching()
      modifies this`inputPosition, this`minMatch
      ensures Searching() && inputPosition == old(inputPosition) + 1
      ensures minMatch == if old(minMatch) > 4 then old(minMatch) - 1 else old(minMatch)
    {
      if minMatch > MIN_MATCH {
        minMatch := minMatch - 1;
      }
      inputPosition := inputPosition + 1;
    }

    /** The end of a window: the instructions sent are the compacted matches, with an ADD for every gap, sharing codes
        wherever there is one for two; a decoder of the sections reproduces the window, and all slots are free again. */
    method EncodeRest()
      requires Valid() && InOrder()
      modifies this`used, enc, enc.acache, enc.acache.nearArray, enc.acache.sameArray
      ensures Valid() && used == [] && enc.iout == None && enc.free == size
      ensures DecodeWindow(enc.TheEnv(), enc.inst, enc.data, enc.addr) == Ok(enc.window)
      ensures enc.inst == AllUnitBytes(enc.units) && Shared(enc.units, None)
      ensures
        var c, from := Resolved(old(used), true), old(enc.unencodedOffset);
        AllKinds(enc.units) == old(enc.Told()) + Filled(from, c) + Gap(EndOf(from, c), |enc.window|)
    {
      hide Encoder.Valid, Encoder.Told, Genuine, Pass, Resolved, DecodeWindow, Shared, AllUnitBytes, AllKinds, Filled, Gap,
           Encoded;
      ghost var c := Flush(true);
      enc.AddFinalize();
    }
  }
}
