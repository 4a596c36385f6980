/** A source and a window on which flushing the instruction buffer leaves it out of order. */
module FlushOverlap {
  import opened Bytes
  import opened CodeTable
  import opened Overlaps
  import opened Results
  import opened WindowEncoder
  import opened InstructionBuffer

  const SLOTS: nat := 4

  /** The window: eighteen different bytes. */
  function Window(): (w: seq<byte>)
    ensures |w| == 18 && forall i :: 0 <= i < 18 ==> w[i] == i
  {
    seq(18, i requires 0 <= i < 18 => i)
  }

  /** The source: eleven bytes of the window from each of its first four positions on, each behind a byte that is not in
      the window, and twelve from the fifth. */
  function Source(): (f: seq<byte>)
    ensures |f| == 60
    ensures forall i :: 0 <= i < 60 ==> f[i] == if i % 12 == 11 && i < 48 then 99 else i / 12 + i % 12
  {
    seq(60, i requires 0 <= i < 60 => if i % 12 == 11 && i < 48 then 99 else i / 12 + i % 12)
  }

  /** What the matcher finds at position `k`. It can be extended neither way, and each has its own distance from the
      window. */
  function Match(k: nat): RInst {
    RInst(CPY, 1, k, if k < 4 then 11 else 12, 12 * k, 0, 0)
  }

  lemma MatchGenuine(k: nat)
    requires k <= 4
    ensures Genuine(Source(), 0, 60, Window(), Match(k))
    ensures k > 0 ==> Source()[Match(k).addr - 1] != Window()[k - 1]
    ensures k < 4 ==> Source()[Match(k).addr + Match(k).size] != Window()[k + Match(k).size]
  {
    var x := Match(k);
    var f, w := Source()[x.addr..x.addr + x.size], Window()[x.pos..x.pos + x.size];
    forall i | 0 <= i < x.size ensures f[i] == w[i] {
      assert (12 * k + i) / 12 == k && (12 * k + i) % 12 == i;
    }
    assert f == w;
  }

  function Matches(k: nat): (s: seq<RInst>)
    ensures |s| == k && forall i :: 0 <= i < k ==> s[i] == Match(i)
  {
    seq(k, i requires 0 <= i < k => Match(i))
  }

  /** The first `k` matches are in the buffer, and the search goes on one byte further. */
  ghost predicate Found(b: Buffer, k: nat)
    reads b, b.enc, b.enc.acache, b.enc.acache.nearArray, b.enc.acache.sameArray
  {
    && b.Valid() && b.InOrder() && b.Searching() && b.size == SLOTS && b.moreSlots == 0 && k <= SLOTS
    && b.enc.window == Window() && b.enc.file == Source() && b.enc.srcbase == 0 && b.enc.srclen == 60
    && b.enc.iout == None && b.enc.unencodedOffset == 0 && b.enc.free == SLOTS - k
    && b.used == Matches(k) && b.inputPosition == k && b.minMatch <= 11
  }

  /** The match at position `k` is found, and is short enough for a lazy search. */
  method FindNext(b: Buffer, k: nat)
    requires Found(b, k) && k < SLOTS
    modifies b, b.enc, b.enc.acache, b.enc.acache.nearArray, b.enc.acache.sameArray
    ensures Found(b, k + 1)
  {
    hide Encoder.Valid, Encoder.Told, Genuine, Resolved, Encoded, KeepsOrder, AllInFirst, LastApart, Increasing,
         Buffer.TrueMatches;
    MatchGenuine(k);
    var _, _, _ := b.EmitSource(Match(k), 0);
    b.HandleLazy(11, true);
  }

  /** With four slots and four such matches in them, the fifth makes the buffer flush: afterwards the match in front
      begins before what has been encoded. */
  method OverlapIsReached() returns (unencoded: nat, front: RInst)
    ensures front.pos < unencoded
  {
    hide Encoder.Valid, Genuine, Resolved, Found;
    var enc := new Encoder(Window(), 0, 60, SLOTS, Source(), 64);
    var b := new Buffer(enc, SLOTS, 0);
    StartsEmpty(b);
    var k := 0;
    while k < SLOTS
      invariant k <= SLOTS && b.enc == enc && fresh(b) && fresh(enc) && Found(b, k)
      invariant fresh(enc.acache) && fresh(enc.acache.nearArray) && fresh(enc.acache.sameArray)
    {
      FindNext(b, k);
      k := k + 1;
    }
    unencoded, front := FindLast(b);
  }

  lemma StartsEmpty(b: Buffer)
    requires b.Valid() && b.InOrder() && b.Searching() && b.size == SLOTS && b.moreSlots == 0 && b.used == [] && b.inputPosition == 0 && b.minMatch <= 11
    requires b.enc.window == Window() && b.enc.file == Source() && b.enc.srcbase == 0 && b.enc.srclen == 60
    requires b.enc.iout == None && b.enc.unencodedOffset == 0 && b.enc.free == SLOTS
    ensures Found(b, 0)
  {
  }

  method FindLast(b: Buffer) returns (unencoded: nat, front: RInst)
    requires Found(b, SLOTS)
    modifies b, b.enc, b.enc.acache, b.enc.acache.nearArray, b.enc.acache.sameArray
    ensures front.pos < unencoded
  {
    hide Encoder.Valid, Encoder.Told, Genuine, Resolved, Encoded, Increasing, Buffer.TrueMatches;
    MatchGenuine(4);
    assert AllInFirst(b.used);
    var _, _, _ := b.EmitSource(Match(4), 0);
    return b.enc.unencodedOffset, b.used[0];
  }
}
