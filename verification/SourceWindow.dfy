/** How matches are found to be true, and how the source window is chosen so that it holds every one of them. */
module SourceWindow {
  import opened Bytes
  import opened Arithmetic
  import opened BlockedSource
  import opened Results
  import opened CodeTable
  import opened WindowEncoder

  /** How many bytes of `s` from `i` and of `t` from `j` are the same. */
  function Agree(s: seq<byte>, i: nat, t: seq<byte>, j: nat): (n: nat)
    requires i <= |s| && j <= |t|
    ensures i + n <= |s| && j + n <= |t|
    decreases |s| - i
  {
    if i < |s| && j < |t| && s[i] == t[j] then 1 + Agree(s, i + 1, t, j + 1) else 0
  }

  /** A common stretch of `n` bytes. */
  ghost predicate Same(s: seq<byte>, i: nat, t: seq<byte>, j: nat, n: nat) {
    && i + n <= |s| && j + n <= |t|
    && (forall k :: i <= k < i + n ==> s[k] == t[k - i + j])
  }

  /** The longest common stretch: all of it is common, and what follows is not. */
  ghost predicate Longest(s: seq<byte>, i: nat, t: seq<byte>, j: nat, n: nat) {
    Same(s, i, t, j, n) && (i + n < |s| && j + n < |t| ==> s[i + n] != t[j + n])
  }

  lemma {:induction false} AgreeIsLongest(s: seq<byte>, i: nat, t: seq<byte>, j: nat)
    requires i <= |s| && j <= |t|
    ensures Longest(s, i, t, j, Agree(s, i, t, j))
    decreases |s| - i
  {
    if i < |s| && j < |t| && s[i] == t[j] {
      AgreeIsLongest(s, i + 1, t, j + 1);
    }
  }

  lemma NoneLonger(s: seq<byte>, i: nat, t: seq<byte>, j: nat, n: nat, m: nat)
    requires Longest(s, i, t, j, n) && Same(s, i, t, j, m)
    ensures m <= n
  {
  }

  /** Nothing else is. */
  lemma LongestIsAgree(s: seq<byte>, i: nat, t: seq<byte>, j: nat, n: nat)
    requires Longest(s, i, t, j, n)
    ensures n == Agree(s, i, t, j)
  {
    AgreeIsLongest(s, i, t, j);
    NoneLonger(s, i, t, j, n, Agree(s, i, t, j));
    NoneLonger(s, i, t, j, Agree(s, i, t, j), n);
  }

  // ----- Comparing forward, several words at a time

  /** Word `k` of four bytes. */
  function Word(s: seq<byte>, k: nat): seq<byte>
    requires 4 * k + 4 <= |s|
  {
    s[4 * k..4 * k + 4]
  }

  ghost predicate SameWords(s1: seq<byte>, s2: seq<byte>, k: nat) {
    4 * k <= |s1| && 4 * k <= |s2| && s1[..4 * k] == s2[..4 * k]
  }

  lemma OneMoreWord(s1: seq<byte>, s2: seq<byte>, k: nat)
    requires SameWords(s1, s2, k) && 4 * k + 4 <= |s1| && 4 * k + 4 <= |s2| && Word(s1, k) == Word(s2, k)
    ensures SameWords(s1, s2, k + 1)
  {
    assert s1[..4 * (k + 1)] == s1[..4 * k] + Word(s1, k);
    assert s2[..4 * (k + 1)] == s2[..4 * k] + Word(s2, k);
  }

  /** Eight words in a row, up to the first that differs; the count includes that one. */
  method CompareEight(s1: seq<byte>, s2: seq<byte>, i0: nat) returns (i: nat, same: bool)
    requires 4 * (i0 + 8) <= |s1| && 4 * (i0 + 8) <= |s2| && SameWords(s1, s2, i0)
    ensures i0 < i <= i0 + 8 && SameWords(s1, s2, i - 1) && (same ==> i == i0 + 8 && SameWords(s1, s2, i))
  {
    i, same := i0, true;
    while same && i < i0 + 8
      invariant i0 <= i <= i0 + 8
      invariant if same then SameWords(s1, s2, i) else i0 < i && SameWords(s1, s2, i - 1)
      decreases i0 + 8 - i
    {
      same := Word(s1, i) == Word(s2, i);
      if same {
        OneMoreWord(s1, s2, i);
      }
      i := i + 1;
    }
  }

  /** The comparison by words overshoots by one word and steps back; the bytes decide the rest. */
  method ForwardMatch(s1: seq<byte>, s2: seq<byte>, n: nat, unalignedOk: bool) returns (i: nat)
    requires n <= |s1| && n <= |s2|
    ensures i == Agree(s1[..n], 0, s2[..n], 0)
  {
    i := 0;
    if unalignedOk {
      var nint := n / 4;
      if nint / 8 > 0 {
        var nint8 := nint - 8;
        var same := true;
        while same && i <= nint8
          invariant i <= nint && (i == 0 ==> same)
          invariant if same then SameWords(s1, s2, i) else SameWords(s1, s2, i - 1)
          decreases nint - i
        {
          i, same := CompareEight(s1, s2, i);
        }
        assert SameWords(s1, s2, i - 1);
        i := (i - 1) * 4;
      }
    }
    assert i <= n && s1[..i] == s2[..i];
    while i < n && s1[i] == s2[i]
      invariant i <= n && s1[..i] == s2[..i]
    {
      i := i + 1;
    }
    assert forall k :: 0 <= k < i ==> s1[k] == s1[..i][k] == s2[..i][k] == s2[k];
    LongestIsAgree(s1[..n], 0, s2[..n], 0, i);
  }

  // ----- Matches within the input

  /** Where the table leads from position `a`: to the position before its entry, as long as that is neither later nor
      so far back that the entry belongs to something else. */
  ghost predicate Leads(prev: seq<nat>, at: nat, a: nat, b: nat)
    requires prev != []
  {
    var entry := prev[a % |prev|];
    entry != 0 && b == entry - 1 && b <= a && at - b < |prev|
  }

  ghost predicate LeadsOn(prev: seq<nat>, at: nat, a: nat)
    requires prev != []
  {
    exists b: nat :: Leads(prev, at, a, b)
  }

  /** Position number `f` of those tried agrees longer than all before it and at least as long as all behind it. */
  ghost predicate FirstLongest(window: seq<byte>, at: nat, tried: seq<nat>, f: nat)
    requires at <= |window| && (forall k :: 0 <= k < |tried| ==> tried[k] < at)
  {
    && f < |tried|
    && (forall k :: 0 <= k < f ==> Agree(window, tried[k], window, at) < Agree(window, tried[f], window, at))
    && (forall k :: f <= k < |tried| ==> Agree(window, tried[k], window, at) <= Agree(window, tried[f], window, at))
  }

  /** A match better than all before it, and good enough to stop at. */
  ghost predicate Settles(window: seq<byte>, at: nat, tried: seq<nat>, k: nat, longEnough: nat)
    requires at <= |window| && (forall i :: 0 <= i < |tried| ==> tried[i] < at) && k < |tried|
  {
    var n := Agree(window, tried[k], window, at);
    && n > 0 && (n >= longEnough || at + n == |window|)
    && (forall i :: 0 <= i < k ==> Agree(window, tried[i], window, at) < n)
  }

  /** Follows a chain of earlier positions, whatever the tables hold, and keeps the longest match, the first one of
      those equally long; a short match far back is not worth its address. The chain is followed to its end or to its
      limit, unless a match settles the search. */
  method SmallMatch(window: seq<byte>, at: nat, base0: nat, prev: seq<nat>, chain0: nat, longEnough: nat)
      returns (length: nat, offset: nat, ghost tried: seq<nat>, ghost best: nat)
    requires base0 < at < |window| && chain0 > 0 && prev != []
    ensures 0 < |tried| <= chain0 && tried[0] == base0 && (forall k :: 0 <= k < |tried| ==> tried[k] < at)
    ensures FirstLongest(window, at, tried, best)
    ensures
      var n, distance := Agree(window, tried[best], window, at), at - tried[best];
      if n == 0 || (n == 4 && distance >= 0x4000) || (n == 5 && distance >= 0x20_0000) then length == 0
      else length == n && offset == tried[best]
    ensures length > 0 ==> offset < at && length == Agree(window, offset, window, at)
    ensures length > 0 ==> !(length == 4 && at - offset >= 0x4000) && !(length == 5 && at - offset >= 0x20_0000)
    ensures forall k :: 0 <= k < |tried| - 1 ==> Leads(prev, at, tried[k], tried[k + 1])
    ensures forall k :: 0 <= k < |tried| - 1 ==> !Settles(window, at, tried, k, longEnough)
    ensures |tried| == chain0 || !LeadsOn(prev, at, tried[|tried| - 1])
         || Settles(window, at, tried, |tried| - 1, longEnough)
  {
    hide Agree, Longest, FirstLongest, Settles, Leads, LeadsOn;
    var base: nat, chain: nat := base0, chain0;
    length, offset, tried, best := 0, 0, [], 0;
    while true
      invariant base < at && chain > 0 && |tried| + chain == chain0
      invariant Searched(window, at, tried, best, length, offset)
      invariant Followed(window, at, prev, tried + [base], longEnough) && (tried + [base])[0] == base0
      decreases chain
    {
      var cmpLen := CompareWithin(window, base, at);
      OneMoreTried(window, at, prev, tried, best, length, offset, base, longEnough);
      tried := tried + [base];
      if cmpLen > length {
        length, offset, best := cmpLen, base, |tried| - 1;
        if at + cmpLen == |window| || cmpLen >= longEnough {
          break;
        }
      }
      chain := chain - 1;
      if chain == 0 {
        break;
      }
      var prevPos := prev[base % |prev|];
      WhereItLeads(window, at, prev, tried, longEnough);
      if prevPos == 0 || prevPos - 1 > base {
        break;
      }
      base := prevPos - 1;
      if at - base >= |prev| {
        break;
      }
    }
    if length > 0 && NotWorthIt(length, at - offset) {
      length := 0;
    }
  }

  /** The best of what has been compared so far. */
  ghost predicate Searched(window: seq<byte>, at: nat, tried: seq<nat>, best: nat, length: nat, offset: nat)
    requires at <= |window|
  {
    && (forall k :: 0 <= k < |tried| ==> tried[k] < at)
    && (tried == [] ==> length == 0 && best == 0) && (tried != [] ==> best < |tried|)
    && (tried != [] ==> FirstLongest(window, at, tried, best) && length == Agree(window, tried[best], window, at))
    && (tried != [] && length > 0 ==> offset == tried[best])
  }

  /** Every position follows from the one before it, and none before the last has settled the search. */
  ghost predicate Followed(window: seq<byte>, at: nat, prev: seq<nat>, tried: seq<nat>, longEnough: nat)
    requires at <= |window| && prev != []
  {
    && (forall k :: 0 <= k < |tried| ==> tried[k] < at)
    && (forall k :: 0 <= k < |tried| - 1 ==> Leads(prev, at, tried[k], tried[k + 1]))
    && (forall k :: 0 <= k < |tried| - 1 ==> !Settles(window, at, tried, k, longEnough))
  }

  lemma OneMoreTried(window: seq<byte>, at: nat, prev: seq<nat>, tried: seq<nat>, best: nat, length: nat, offset: nat,
                     base: nat, longEnough: nat)
    requires base < at <= |window| && Searched(window, at, tried, best, length, offset)
    ensures
      var n, now := Agree(window, base, window, at), tried + [base];
      && (if n > length then Searched(window, at, now, |tried|, n, base)
          else Searched(window, at, now, best, length, offset))
      && (Settles(window, at, now, |tried|, longEnough) <==> n > length && (n >= longEnough || at + n == |window|))
  {
    hide Agree;
    var now := tried + [base];
    assert forall k :: 0 <= k < |tried| ==> now[k] == tried[k];
    assert now[|tried|] == base;
  }

  lemma WhereItLeads(window: seq<byte>, at: nat, prev: seq<nat>, tried: seq<nat>, longEnough: nat)
    requires at <= |window| && prev != [] && tried != [] && Followed(window, at, prev, tried, longEnough)
    requires !Settles(window, at, tried, |tried| - 1, longEnough)
    ensures
      var last := tried[|tried| - 1];
      var entry := prev[last % |prev|];
      && (LeadsOn(prev, at, last) <==> entry != 0 && entry - 1 <= last && at - (entry - 1) < |prev|)
      && (LeadsOn(prev, at, last) ==> entry - 1 < at && Followed(window, at, prev, tried + [entry - 1], longEnough))
  {
    hide Agree;
    var last := tried[|tried| - 1];
    var entry := prev[last % |prev|];
    if entry != 0 && entry - 1 <= last && at - (entry - 1) < |prev| {
      assert Leads(prev, at, last, entry - 1);
      SettlesAlike(window, at, tried, entry - 1, longEnough);
    }
  }

  lemma SettlesAlike(window: seq<byte>, at: nat, tried: seq<nat>, base: nat, longEnough: nat)
    requires base < at <= |window| && forall k :: 0 <= k < |tried| ==> tried[k] < at
    ensures forall k :: 0 <= k < |tried| ==>
      (Settles(window, at, tried + [base], k, longEnough) <==> Settles(window, at, tried, k, longEnough))
  {
    hide Agree;
    var now := tried + [base];
    assert forall k :: 0 <= k < |tried| ==> now[k] == tried[k];
  }

  predicate NotWorthIt(length: nat, distance: nat) {
    (length == 4 && distance >= 0x4000) || (length == 5 && distance >= 0x20_0000)
  }

  method CompareWithin(window: seq<byte>, base: nat, at: nat) returns (n: nat)
    requires base < at < |window|
    ensures n == Agree(window, base, window, at)
  {
    n := 0;
    while at + n < |window| && window[at + n] == window[base + n]
      invariant at + n <= |window| && Same(window, base, window, at, n)
    {
      n := n + 1;
    }
    LongestIsAgree(window, base, window, at, n);
  }

  /** Such a match is one the encoder takes: the bytes are the same and the copy starts before them. */
  lemma SmallMatchGenuine(window: seq<byte>, at: nat, offset: nat, n: nat, file: seq<byte>, srcbase: nat, srclen: nat)
    requires offset < at < |window| && 0 < n == Agree(window, offset, window, at)
    ensures Genuine(file, srcbase, srclen, window, RInst(CPY, 0, at, n, offset, 0, 0))
  {
    AgreeIsLongest(window, offset, window, at);
    assert window[offset..offset + n] == window[at..at + n];
  }

  // ----- Extending a match over the blocks of the source

  /** How many bytes before `i` in `s` and before `j` in `t` are the same. */
  function AgreeBack(s: seq<byte>, i: nat, t: seq<byte>, j: nat): (n: nat)
    requires i <= |s| && j <= |t|
    ensures n <= i && n <= j
    decreases i
  {
    if i > 0 && j > 0 && s[i - 1] == t[j - 1] then 1 + AgreeBack(s, i - 1, t, j - 1) else 0
  }

  lemma {:induction false} BackIs(s: seq<byte>, i: nat, t: seq<byte>, j: nat, n: nat)
    requires n <= i <= |s| && n <= j <= |t| && Same(s, i - n, t, j - n, n)
    requires n < i && n < j ==> s[i - n - 1] != t[j - n - 1]
    ensures n == AgreeBack(s, i, t, j)
    decreases i
  {
    if n > 0 {
      BackIs(s, i - 1, t, j - 1, n - 1);
    }
  }

  lemma {:induction false} BackAtLeast(s: seq<byte>, i: nat, t: seq<byte>, j: nat, n: nat)
    requires n <= i <= |s| && n <= j <= |t| && Same(s, i - n, t, j - n, n)
    ensures n <= AgreeBack(s, i, t, j)
    decreases i
  {
    if n > 0 {
      BackAtLeast(s, i - 1, t, j - 1, n - 1);
    }
  }

  lemma AtLeast(s: seq<byte>, i: nat, t: seq<byte>, j: nat, n: nat)
    requires Same(s, i, t, j, n)
    ensures n <= Agree(s, i, t, j)
  {
    AgreeIsLongest(s, i, t, j);
    NoneLonger(s, i, t, j, Agree(s, i, t, j), n);
  }

  lemma NothingSame(s: seq<byte>, i: nat, t: seq<byte>, j: nat)
    requires i <= |s| && j <= |t|
    ensures Same(s, i, t, j, 0)
  {
  }

  lemma BlockHas(src: seq<byte>, blksize: nat, blk: nat, off: nat)
    requires blksize > 0 && off < blksize
    ensures off < |Block(src, blksize, blk)| <==> blk * blksize + off < |src|
    ensures off < |Block(src, blksize, blk)| ==> Block(src, blksize, blk)[off] == src[blk * blksize + off]
  {
  }

  lemma BlockPart(src: seq<byte>, blksize: nat, blk: nat, off: nat, n: nat)
    requires blksize > 0 && n > 0 && off + n <= |Block(src, blksize, blk)|
    ensures blk * blksize + off + n <= |src|
    ensures Block(src, blksize, blk)[off..off + n] == src[blk * blksize + off..blk * blksize + off + n]
  {
  }

  lemma BlockReaches(src: seq<byte>, blksize: nat, blk: nat, off: nat)
    requires blksize > 0 && off < blksize && blk * blksize + off <= |src|
    ensures off <= |Block(src, blksize, blk)| <= blksize
    ensures off == |Block(src, blksize, blk)| ==> blk * blksize + off == |src|
  {
  }

  /** What agrees in two parts of equal length agrees in the whole. */
  lemma SamePart(s: seq<byte>, i: nat, t: seq<byte>, j: nat, f: nat, n: nat, m: nat)
    requires Same(s, i, t, j, f) && i + f + n <= |s| && j + f + n <= |t|
    requires m == Agree(s[i + f..i + f + n], 0, t[j + f..j + f + n], 0)
    ensures m <= n && Same(s, i, t, j, f + m) && (m < n ==> s[i + f + m] != t[j + f + m])
  {
    var a, b := s[i + f..i + f + n], t[j + f..j + f + n];
    AgreeIsLongest(a, 0, b, 0);
    forall k | i <= k < i + f + m ensures s[k] == t[k - i + j] {
      if k >= i + f {
        var d := k - i - f;
        assert a[d] == b[d];
      }
    }
  }

  lemma BlockBefore(blksize: nat, blk: nat)
    requires blk * blksize > 0
    ensures blk > 0 && (blk - 1) * blksize + blksize == blk * blksize
  {
  }

  datatype MatchState = Searching | Backward | Forward | Target

  datatype Outcome = FetchBlock | Done

  /** The part of the encoder that extends source matches and fixes the source window. */
  /** The block that holds the byte at `pos` is gone for good. */
  ghost predicate Gone(answer: nat -> Answer, blksize: nat, pos: int) {
    exists n: nat :: answer(n) == TooFarBack && n * blksize <= pos < n * blksize + blksize
  }

  lemma IsGone(answer: nat -> Answer, blksize: nat, n: nat, off: int, pos: int)
    requires answer(n) == TooFarBack && pos == n * blksize + off && 0 <= off < blksize
    ensures Gone(answer, blksize, pos)
  {
  }

  class Matcher {
    const window: seq<byte>
    const file: seq<byte>
    const blksize: nat
    var inputPosition: nat
    var minMatch: nat
    var decided: bool
    var srcbase: nat
    var srclen: nat
    var minaddr: nat
    var maxaddr: nat
    var state: MatchState
    var srcpos: nat
    var lastSrcpos: nat
    var maxback: nat
    var maxfwd: nat
    var back: nat
    var fwd: nat
    /** The source copies found in this window. */
    ghost var issued: seq<RInst>
    /** Whether a block of this match was out of reach. */
    ghost var cut: bool

    /** Every copy found repeats the source; its size is positive. */
    ghost predicate AllTrue()
      reads this`issued
    {
      forall k :: 0 <= k < |issued| ==> True(issued[k])
    }

    ghost predicate True(x: RInst) {
      x.type_ == CPY && x.xtra == 1 && x.size > 0 && Same(file, x.addr, window, x.pos, x.size)
    }

    ghost predicate AllWithin(from: nat, to: nat)
      reads this`issued
    {
      forall k :: 0 <= k < |issued| ==> from <= issued[k].addr && issued[k].addr + issued[k].size <= to
    }

    /** The range of the copies so far, exactly; nothing yet when its end is zero. */
    ghost predicate Range()
      reads this`issued, this`minaddr, this`maxaddr
    {
      && minaddr <= maxaddr <= |file|
      && (maxaddr == 0 <==> issued == [])
      && (issued == [] ==> minaddr == 0)
      && AllWithin(minaddr, maxaddr)
      && (issued != [] ==> exists k :: 0 <= k < |issued| && issued[k].addr == minaddr)
      && (issued != [] ==> exists k :: 0 <= k < |issued| && issued[k].addr + issued[k].size == maxaddr)
    }

    /** The limits of the match in progress keep it inside the input, the source and, once decided, the window. */
    ghost predicate Limits()
      reads this
    {
      && srcpos <= |file| && maxback <= inputPosition && maxback <= srcpos && inputPosition + maxfwd <= |window|
      && (decided ==> srcbase <= srcpos - maxback && srcpos + maxfwd <= srcbase + srclen)
    }

    ghost predicate Extending()
      reads this
    {
      && Limits() && back <= maxback && fwd <= maxfwd && srcpos + fwd <= |file|
      && Same(file, srcpos - back, window, inputPosition - back, back)
      && Same(file, srcpos, window, inputPosition, fwd)
      && (state == Backward ==> fwd == 0)
      && (state == Forward && !cut ==> back == Min(maxback, AgreeBack(file, srcpos, window, inputPosition)))
    }

    /** The copies found are true and lie in the source window, once there is one. */
    ghost predicate Covered()
      reads this`issued, this`minaddr, this`maxaddr, this`decided, this`srcbase, this`srclen
    {
      && AllTrue() && Range()
      && (decided ==> AllWithin(srcbase, srcbase + srclen))
      && (!decided ==> srcbase == 0 && srclen == 0)
    }

    ghost predicate Valid()
      reads this
    {
      && blksize > 0 && inputPosition <= |window| && minMatch >= MIN_MATCH && Covered()
      && (state == Backward || state == Forward ==> Extending())
    }

    constructor (window: seq<byte>, file: seq<byte>, blksize: nat)
      requires blksize > 0
      ensures Valid() && !decided && issued == [] && state == Searching
      ensures this.window == window && this.file == file && this.blksize == blksize
    {
      this.window, this.file, this.blksize := window, file, blksize;
      inputPosition, minMatch := 0, MIN_MATCH;
      decided, srcbase, srclen, minaddr, maxaddr := false, 0, 0, 0, 0;
      state, srcpos, lastSrcpos, maxback, maxfwd, back, fwd := Searching, 0, 0, 0, 0, 0, 0;
      issued, cut := [], false;
    }

    /** Fixes the source window.  At the end of the input it is exactly the range of the copies; before that it is a
        guess that covers them. */
    method SetupWindow(ending: bool, eofKnown: bool)
      requires Valid() && !decided && (state == Searching || state == Target)
      requires !ending ==> window != [] && (eofKnown ==> file != [])
      modifies this`decided, this`srcbase, this`srclen
      ensures Valid() && decided
      ensures AllWithin(srcbase, srcbase + srclen)
      ensures ending && issued == [] ==> srclen == 0
      ensures ending && issued != [] ==> srcbase == minaddr && srcbase + srclen == maxaddr
      ensures !ending ==> srclen > 0 && (eofKnown ==> srcbase + srclen <= |file|)
      ensures !ending ==>
        var want := Max(maxaddr - minaddr, 5 * |window| / 4);
        srcbase == minaddr && srclen == if eofKnown && srcbase + want > |file| then |file| - srcbase else want
    {
      hide Same, Agree, AgreeBack, Matcher.Extending;
      decided := true;
      if ending && maxaddr == 0 {
        return;
      }
      var length := maxaddr - minaddr;
      if ending {
        srcbase := minaddr;
        srclen := length;
        return;
      }
      srcbase := minaddr;
      srclen := Max(length, |window| + |window| / 4);
      if eofKnown {
        srclen := Min(srclen, |file| - srcbase);
      }
    }

    /** How far a match at `from` may reach each way; refused when it lies outside the decided window. */
    method FindLimits(from: nat, limit: nat, eofKnown: bool) returns (outside: bool, most: nat, far: nat)
      requires from <= |file| && limit <= inputPosition <= |window|
      ensures outside <==> decided && (from < srcbase || srcbase + srclen < from)
      ensures !decided ==> most == Min(inputPosition - limit, from)
      ensures !decided ==> far == if eofKnown then Min(|window| - inputPosition, |file| - from) else |window| - inputPosition
      ensures decided && !outside ==> most == Min(inputPosition - limit, from - srcbase)
      ensures decided && !outside ==> far == Min(|window| - inputPosition, srcbase + srclen - from)
      ensures limit + most <= inputPosition && (!outside ==> most <= from) && inputPosition + far <= |window|
      ensures decided && !outside ==> srcbase <= from - most && from + far <= srcbase + srclen
    {
      outside, most, far := false, inputPosition - limit, |window| - inputPosition;
      if !decided {
        if from < most {
          most := from;
        }
        if eofKnown {
          var srcavail := |file| - from;
          if srcavail < far {
            far := srcavail;
          }
        }
      } else if from < srcbase || from > srcbase + srclen {
        outside := true;
      } else {
        var srcavail := from - srcbase;
        if srcavail < most {
          most := srcavail;
        }
        srcavail := srcbase + srclen - from;
        if srcavail < far {
          far := srcavail;
        }
      }
    }

    method StartMatch(from: nat, most: nat, far: nat)
      requires Valid() && back == 0 && fwd == 0 && from <= |file| && most <= inputPosition && most <= from
      requires (state == Searching || state == Target) && inputPosition + far <= |window|
      requires decided ==> srcbase <= from - most && from + far <= srcbase + srclen
      modifies this`state, this`srcpos, this`maxback, this`maxfwd, this`cut
      ensures Valid() && state == Backward && srcpos == from && maxback == most && maxfwd == far && !cut
    {
      hide Same, AgreeBack, Matcher.Covered;
      NothingSame(file, from, window, inputPosition);
      state, srcpos, maxback, maxfwd, cut := Backward, from, most, far, false;
    }

    /** Sets the limits of a suspected match, or refuses it. */
    method SetupMatch(from: nat, limit: nat, cksumPos: nat, maxWinsize: nat, eofKnown: bool) returns (bad: bool)
      requires Valid() && (state == Searching || state == Target) && (decided ==> srclen > 0)
      requires from <= |file| && limit <= inputPosition < |window|
      modifies this`state, this`srcpos, this`lastSrcpos, this`maxback, this`maxfwd, this`back, this`fwd, this`cut
      ensures Valid() && lastSrcpos == from
      ensures bad <==> (from != 0 && from == old(lastSrcpos)) || cksumPos > from + maxWinsize
                       || (decided && (from < srcbase || srcbase + srclen < from))
      ensures bad ==> state == Searching
      ensures !bad ==> state == Backward && srcpos == from && back == 0 && fwd == 0 && !cut
      ensures !bad ==> limit + maxback <= inputPosition
      ensures !bad && !decided ==> maxback == Min(inputPosition - limit, from)
      ensures !bad && !decided ==> maxfwd == if eofKnown then Min(|window| - inputPosition, |file| - from)
                                             else |window| - inputPosition
      ensures !bad && decided ==> maxback == Min(inputPosition - limit, from - srcbase)
      ensures !bad && decided ==> maxfwd == Min(|window| - inputPosition, srcbase + srclen - from)
    {
      hide Min, Same, Agree, AgreeBack, Matcher.Covered, Matcher.Extending;
      var outside, most, far := FindLimits(from, limit, eofKnown);
      bad := (from != 0 && from == lastSrcpos) || (from < cksumPos && cksumPos - from > maxWinsize) || outside;
      lastSrcpos, maxback, maxfwd, back, fwd := from, 0, 0, 0, 0;
      if bad {
        state := Searching;
      } else {
        StartMatch(from, most, far);
      }
    }

    /** Forwards from here: the match has gone as far back as it goes, or a block was out of reach. */
    method TurnForward(blocked: bool)
      requires Valid() && state == Backward
      requires blocked || back == maxback || file[srcpos - back - 1] != window[inputPosition - back - 1]
      modifies this`state, this`cut
      ensures Valid() && state == Forward && fwd == 0 && cut == (old(cut) || blocked)
      ensures !blocked ==> back == Min(maxback, AgreeBack(file, srcpos, window, inputPosition))
    {
      hide Same, Matcher.Covered;
      if !blocked {
        BackAtLeast(file, srcpos, window, inputPosition, back);
        if back < maxback {
          BackIs(file, srcpos, window, inputPosition, back);
        }
      }
      state, cut := Forward, cut || blocked;
    }

    method OneBack()
      requires Valid() && state == Backward && back < maxback
      requires file[srcpos - back - 1] == window[inputPosition - back - 1]
      modifies this`back
      ensures Valid() && back == old(back) + 1
    {
      hide Matcher.Covered;
      back := back + 1;
    }

    /** Compares backwards inside one block, up to the limit. */
    method BackInBlock(tryblk: nat, tryoff0: nat) returns (tryoff: nat, differs: bool)
      requires Valid() && state == Backward && 0 < tryoff0 <= blksize && back < maxback
      requires tryblk * blksize + tryoff0 == srcpos - back
      modifies this`back
      ensures Valid() && old(back) <= back && tryoff <= tryoff0
      ensures tryblk * blksize + tryoff == srcpos - back
      ensures !differs ==> old(back) < back && (back == maxback || tryoff == 0)
      ensures differs ==> back < maxback && file[srcpos - back - 1] != window[inputPosition - back - 1]
    {
      hide Block, Same, Matcher.Covered;
      tryoff := tryoff0;
      var streamoff := inputPosition - back;
      var curblk := Block(file, blksize, tryblk);
      var tryrem := Min(tryoff, maxback - back);
      while tryrem != 0
        invariant Valid() && old(back) <= back && tryoff <= tryoff0
        invariant tryoff0 - tryoff == back - old(back)
        invariant tryblk * blksize + tryoff == srcpos - back && streamoff == inputPosition - back
        invariant tryrem == Min(tryoff, maxback - back)
        decreases tryrem
      {
        BlockHas(file, blksize, tryblk, tryoff - 1);
        if curblk[tryoff - 1] != window[streamoff - 1] {
          return tryoff, true;
        }
        OneBack();
        tryrem, tryoff, streamoff := tryrem - 1, tryoff - 1, streamoff - 1;
      }
      return tryoff, false;
    }

    /** The backward half: it can be entered again after a block has been fetched. */
    method ExtendBack(answer: nat -> Answer) returns (fetch: bool, giveUp: bool)
      requires Valid() && state == Backward
      modifies this`state, this`back, this`cut
      ensures Valid() && old(back) <= back
      ensures fetch ==> state == Backward && cut == old(cut)
      ensures !fetch ==> state == Forward
      ensures !fetch && giveUp ==> back == 0 && fwd == 0 && cut
      ensures old(cut) ==> cut
      ensures fetch ==> exists n: nat :: answer(n) == NotYet
      ensures cut != old(cut) ==> exists n: nat :: answer(n) == TooFarBack
      ensures giveUp ==> Gone(answer, blksize, srcpos - 1)
      ensures !fetch ==> back == Min(maxback, AgreeBack(file, srcpos, window, inputPosition))
                         || (back < maxback && Gone(answer, blksize, srcpos - back - 1))
    {
      hide Same, AgreeBack, Matcher.Covered, Gone;
      var tryblk: nat, tryoff: nat := (srcpos - back) / blksize, (srcpos - back) % blksize;
      while back < maxback
        invariant Valid() && state == Backward && old(back) <= back && cut == old(cut)
        invariant tryoff <= blksize && tryblk * blksize + tryoff == srcpos - back
        decreases maxback - back
      {
        if tryoff == 0 {
          BlockBefore(blksize, tryblk);
          tryoff, tryblk := blksize, tryblk - 1;
        }
        if answer(tryblk) == NotYet {
          return true, false;
        } else if answer(tryblk) == TooFarBack {
          IsGone(answer, blksize, tryblk, tryoff - 1, srcpos - back - 1);
          TurnForward(true);
          return false, back == 0;
        }
        var differs;
        tryoff, differs := BackInBlock(tryblk, tryoff);
        if differs {
          TurnForward(false);
          return false, false;
        }
      }
      TurnForward(false);
      return false, false;
    }

    /** Compares forwards inside one block. */
    method ForwardInBlock(tryblk: nat, tryoff: nat, tryrem: nat, unalignedOk: bool) returns (matched: nat)
      requires Valid() && state == Forward && tryoff + tryrem <= |Block(file, blksize, tryblk)|
      requires tryblk * blksize + tryoff == srcpos + fwd && 0 < tryrem <= maxfwd - fwd
      modifies this`fwd
      ensures Valid() && fwd == old(fwd) + matched && matched <= tryrem && srcpos + old(fwd) + tryrem <= |file|
      ensures matched < tryrem ==> file[srcpos + fwd] != window[inputPosition + fwd]
    {
      hide Block, Same, Agree, Matcher.Covered;
      var streamoff := inputPosition + fwd;
      var curblk := Block(file, blksize, tryblk);
      matched := ForwardMatch(curblk[tryoff..], window[streamoff..], tryrem, unalignedOk);
      BlockPart(file, blksize, tryblk, tryoff, tryrem);
      assert curblk[tryoff..][..tryrem] == curblk[tryoff..tryoff + tryrem];
      assert window[streamoff..][..tryrem] == window[streamoff..streamoff + tryrem];
      SamePart(file, srcpos, window, inputPosition, fwd, tryrem, matched);
      fwd := fwd + matched;
    }

    lemma FarEnough()
      requires Valid() && state == Forward
      requires fwd == maxfwd || srcpos + fwd == |file| || file[srcpos + fwd] != window[inputPosition + fwd]
      ensures fwd == Min(maxfwd, Agree(file, srcpos, window, inputPosition))
    {
      hide Same, Matcher.Covered;
      AtLeast(file, srcpos, window, inputPosition, fwd);
      if fwd < maxfwd {
        assert Longest(file, srcpos, window, inputPosition, fwd);
        LongestIsAgree(file, srcpos, window, inputPosition, fwd);
      }
    }

    /** The forward half. */
    method ExtendForward(answer: nat -> Answer, unalignedOk: bool) returns (fetch: bool)
      requires Valid() && state == Forward
      modifies this`fwd, this`cut
      ensures Valid() && old(fwd) <= fwd
      ensures fetch ==> cut == old(cut)
      ensures !fetch && !cut ==> fwd == Min(maxfwd, Agree(file, srcpos, window, inputPosition))
      ensures old(cut) ==> cut
      ensures fetch ==> exists n: nat :: answer(n) == NotYet
      ensures cut != old(cut) ==> exists n: nat :: answer(n) == TooFarBack
      ensures !fetch ==> fwd == Min(maxfwd, Agree(file, srcpos, window, inputPosition))
                         || (fwd < maxfwd && Gone(answer, blksize, srcpos + fwd))
    {
      hide Block, Same, Agree, AgreeBack, Matcher.Covered, Gone;
      var tryblk: nat, tryoff: nat := (srcpos + fwd) / blksize, (srcpos + fwd) % blksize;
      while fwd < maxfwd
        invariant Valid() && state == Forward && old(fwd) <= fwd && cut == old(cut)
        invariant tryoff <= blksize && tryblk * blksize + tryoff == srcpos + fwd
        decreases maxfwd - fwd
      {
        if tryoff == blksize {
          assert (tryblk + 1) * blksize == tryblk * blksize + blksize;
          tryoff, tryblk := 0, tryblk + 1;
        }
        if answer(tryblk) == NotYet {
          return true;
        } else if answer(tryblk) == TooFarBack {
          IsGone(answer, blksize, tryblk, tryoff, srcpos + fwd);
          cut := true;
          return false;
        }
        var onblk := |Block(file, blksize, tryblk)|;
        BlockReaches(file, blksize, tryblk, tryoff);
        var tryrem := Min(maxfwd - fwd, onblk - tryoff);
        if tryrem == 0 {
          FarEnough();
          return false;
        }
        var matched := ForwardInBlock(tryblk, tryoff, tryrem, unalignedOk);
        tryoff := tryoff + matched;
        if tryrem != matched {
          FarEnough();
          return false;
        }
      }
      FarEnough();
      return false;
    }

    /** The copy that a match of `b` bytes back and `f` forward amounts to. */
    function Copy(from: nat, b: nat, f: nat): RInst
      requires b <= inputPosition && b <= from
      reads this`inputPosition
    {
      RInst(CPY, 1, inputPosition - b, b + f, from - b, 0, 0)
    }

    lemma {:induction false} JoinSame(b: nat, f: nat)
      requires b <= inputPosition && b <= srcpos
      requires Same(file, srcpos - b, window, inputPosition - b, b) && Same(file, srcpos, window, inputPosition, f)
      ensures Same(file, srcpos - b, window, inputPosition - b, b + f)
    {
    }

    /** One more true copy within the range keeps the records right. */
    method Record(ghost x: RInst, matchPosition: nat, matchEnd: nat)
      requires Covered() && True(x) && matchPosition == x.addr && matchEnd == x.addr + x.size
      requires decided ==> srcbase <= x.addr && x.addr + x.size <= srcbase + srclen
      modifies this`minaddr, this`maxaddr, this`issued
      ensures Covered() && issued == old(issued) + [x]
    {
      hide Same;
      if maxaddr == 0 || matchPosition < minaddr {
        minaddr := matchPosition;
      }
      if matchEnd > maxaddr {
        maxaddr := matchEnd;
      }
      ghost var was := issued;
      issued := issued + [x];
      assert issued[|was|] == x && forall k :: 0 <= k < |was| ==> issued[k] == was[k];
      assert x.addr + x.size <= |file| by {
        Inside(x);
      }
    }

    lemma Inside(x: RInst)
      requires True(x)
      ensures x.addr + x.size <= |file|
    {
    }

    /** A match that is long enough becomes a copy; one that ends with the input is followed into the next window. */
    method Conclude()
      requires Valid() && state == Forward
      modifies this`state, this`srcpos, this`back, this`fwd, this`minaddr, this`maxaddr, this`issued
      ensures Valid() && (state == Searching || state == Target)
      ensures old(fwd) < minMatch ==> fwd == 0 && issued == old(issued)
      ensures old(fwd) >= minMatch ==> fwd == old(fwd) && issued == old(issued) + [Copy(old(srcpos), old(back), old(fwd))]
      ensures state == Target <==> old(fwd) >= minMatch && inputPosition + fwd == |window|
      ensures state == Target ==> srcpos == old(srcpos) + fwd
    {
      hide Same, Agree, AgreeBack, Matcher.Covered;
      state := Searching;
      if fwd < minMatch {
        fwd := 0;
      } else {
        var targetPosition, matchLength := inputPosition - back, back + fwd;
        var matchPosition, matchEnd := srcpos - back, srcpos + fwd;
        JoinSame(back, fwd);
        Record(Copy(srcpos, back, fwd), matchPosition, matchEnd);
        back := 0;
        if targetPosition + matchLength == |window| {
          state, srcpos := Target, matchEnd;
        }
      }
    }

    /** Where a match that began with the bytes around `from` ends both ways: where the bytes differ or a limit is, or at
        a block that is gone. When that is the one right behind, the match is not followed forwards at all. */
    ghost predicate EndsAt(answer: nat -> Answer, from: nat, b: nat, f: nat, before: Option<nat>)
      reads this`inputPosition, this`maxback, this`maxfwd
    {
      && from <= |file| && inputPosition <= |window| && b <= from && b <= inputPosition
      && (before == Some(b) || (before.None? && b == Min(maxback, AgreeBack(file, from, window, inputPosition)))
          || (before.None? && b < maxback && Gone(answer, blksize, from - b - 1)))
      && (f == Min(maxfwd, Agree(file, from, window, inputPosition)) || (f < maxfwd && Gone(answer, blksize, from + f))
          || (before.None? && b == f == 0 && Gone(answer, blksize, from - 1)))
    }

    /** Extends a suspected match, however often it has to wait for a block in between.  Unless a block was out of
        reach, the copy it leads to is the longest there is within the limits. */
    method Extend(answer: nat -> Answer, unalignedOk: bool) returns (fetch: bool)
      requires Valid() && (state == Backward || state == Forward)
      modifies this`state, this`srcpos, this`back, this`fwd, this`cut, this`minaddr, this`maxaddr, this`issued
      ensures Valid() && (old(cut) ==> cut)
      ensures fetch ==> (state == Backward || state == Forward) && issued == old(issued) && srcpos == old(srcpos)
      ensures !fetch ==> state == Searching || state == Target
      ensures !fetch && !cut ==>
                var b := Min(maxback, AgreeBack(file, old(srcpos), window, inputPosition));
                var f := Min(maxfwd, Agree(file, old(srcpos), window, inputPosition));
                && fwd == (if f < minMatch then 0 else f)
                && issued == old(issued) + (if f < minMatch then [] else [Copy(old(srcpos), b, f)])
      ensures fetch ==> exists n: nat :: answer(n) == NotYet
      ensures cut != old(cut) ==> exists n: nat :: answer(n) == TooFarBack
      ensures !fetch ==> exists b: nat, f: nat ::
        && EndsAt(answer, old(srcpos), b, f, if old(state) == Forward then Some(old(back)) else None)
        && issued == old(issued) + (if f < minMatch then [] else [Copy(old(srcpos), b, f)])
    {
      hide Same, Agree, AgreeBack, Matcher.Covered, Gone;
      var giveUp := false;
      if state == Backward {
        fetch, giveUp := ExtendBack(answer);
        if fetch {
          return true;
        }
      }
      if !giveUp {
        fetch := ExtendForward(answer, unalignedOk);
        if fetch {
          return true;
        }
      }
      ghost var b, f := back, fwd;
      assert EndsAt(answer, old(srcpos), b, f, if old(state) == Forward then Some(old(back)) else None);
      Conclude();
      return false;
    }

    /** Once the window is decided, at the end or in the middle of the search, every copy is what the encoder asks of
        it: the same bytes, inside the window. */
    lemma AllGenuine()
      requires Valid() && decided
      ensures forall k :: 0 <= k < |issued| ==> Genuine(file, srcbase, srclen, window, issued[k])
    {
      forall k | 0 <= k < |issued| ensures Genuine(file, srcbase, srclen, window, issued[k]) {
        var x := issued[k];
        assert True(x);
        assert file[x.addr..x.addr + x.size] == window[x.pos..x.pos + x.size];
      }
    }
  }
}
