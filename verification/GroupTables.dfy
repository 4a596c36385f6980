/** The code lengths of several groups in one table: where they come back, and where they do not. */
module GroupTables {
  import opened Arithmetic
  import opened CanonicalCode
  import opened HuffSection
  import opened MtfRuns
  import opened PrefixBuilder
  import opened PrefixCost
  import opened PrefixDepth
  import opened Results
  import PrefixTree

  /** The table is written without the zeros of the groups behind the first, and the decoder puts in its own. */
  predicate ComesBack(w: seq<nat>, list: seq<nat>)
    requires list != []
  {
    AllIn(Kept(w, 0, ALPHABET_SIZE), list)
    && Unmtf(Start(list), MtfCodes(Kept(w, 0, ALPHABET_SIZE), list, 0), |w|, ALPHABET_SIZE) == Ok((w, []))
  }

  lemma {:induction false} KeptIn(w: seq<nat>, n: nat, skip: nat, list: seq<nat>)
    requires n <= |w| && AllIn(w, list)
    ensures AllIn(Kept(w, n, skip), list)
    decreases |w| - n
  {
    if n < |w| {
      KeptIn(w, n + 1, skip, list);
    }
  }

  /** Two groups come back exactly if they leave the same symbols without a code. */
  lemma TwoGroupsComeBack(a: seq<nat>, b: seq<nat>, list: seq<nat>)
    requires |a| == |b| == ALPHABET_SIZE && list != [] && AllIn(a + b, list)
    ensures ComesBack(a + b, list) <==> forall s :: 0 <= s < ALPHABET_SIZE ==> (a[s] == 0 <==> b[s] == 0)
  {
    hide Unmtf, MtfCodes, Kept, AllIn;
    var w := a + b;
    KeptIn(w, 0, ALPHABET_SIZE, list);
    RoundTripIffSharedZeros(w, list, ALPHABET_SIZE);
    SharedByTwo(a, b);
  }

  lemma SharedByTwo(a: seq<nat>, b: seq<nat>)
    requires |a| == |b| == ALPHABET_SIZE
    ensures SharedZeros(a + b, ALPHABET_SIZE) <==> forall s :: 0 <= s < ALPHABET_SIZE ==> (a[s] == 0 <==> b[s] == 0)
  {
    var w := a + b;
    if SharedZeros(w, ALPHABET_SIZE) {
      forall s | 0 <= s < ALPHABET_SIZE ensures a[s] == 0 <==> b[s] == 0 {
        assert KnownZero(w, s + ALPHABET_SIZE, ALPHABET_SIZE) <==> w[s] == 0;
        assert w[s + ALPHABET_SIZE] == b[s] && w[s] == a[s];
      }
    }
  }

  /** A group that leaves a symbol unused, next to one whose weights were rescaled, which leaves none: the table of such
      lengths as `BuildPrefix` promises for both does not come back. */
  lemma RescaledGroupIsLost(freq: seq<nat>, a: seq<nat>, b: seq<nat>, list: seq<nat>, s: nat)
    requires |freq| == |a| == |b| == ALPHABET_SIZE && list != [] && AllIn(a + b, list) && AllIn(b + a, list)
    requires forall i :: 0 <= i < ALPHABET_SIZE ==> (a[i] > 0 <==> Weighed(freq, i))
    requires forall i :: 0 <= i < ALPHABET_SIZE ==> b[i] > 0
    requires s < ALPHABET_SIZE && !Weighed(freq, s)
    ensures !ComesBack(a + b, list) && !ComesBack(b + a, list)
  {
    hide ComesBack, AllIn, Weighed;
    TwoGroupsComeBack(a, b, list);
    TwoGroupsComeBack(b, a, list);
    assert a[s] == 0 && b[s] > 0;
  }

  // ----- Two groups as the encoder builds them

  lemma {:induction false} SameInUse(a: seq<nat>, b: seq<nat>)
    requires |a| == |b| && forall i :: 0 <= i < |a| ==> (a[i] > 0 <==> b[i] > 0)
    ensures InUse(a) == InUse(b)
    ensures a != [] ==> forall i :: 0 <= i < |a| ==> (Weighed(a, i) <==> Weighed(b, i))
  {
    forall i | 1 <= i <= |a| ensures Weighs(a, i) <==> Weighs(b, i) {
      assert a[i - 1] > 0 <==> b[i - 1] > 0;
    }
  }

  /** Some symbol has no weight, not even as a stand-in. */
  ghost predicate SomeUnused(freq: seq<nat>) {
    freq != [] && exists s :: 0 <= s < |freq| && !Weighed(freq, s)
  }

  /** Groups of the same symbols come back exactly if both or neither had to be rescaled, or no symbol is left over. */
  lemma GroupsComeBack(freqA: seq<nat>, freqB: seq<nat>, a: seq<nat>, b: seq<nat>, rescaledA: bool, rescaledB: bool)
    requires |freqA| == |freqB| == |a| == |b| == ALPHABET_SIZE && AtMost(a, MAX_CODELEN) && AtMost(b, MAX_CODELEN)
    requires forall i :: 0 <= i < ALPHABET_SIZE ==> (freqA[i] > 0 <==> freqB[i] > 0)
    requires forall i :: 0 <= i < ALPHABET_SIZE ==> (a[i] > 0 <==> rescaledA || Weighed(freqA, i))
    requires forall i :: 0 <= i < ALPHABET_SIZE ==> (b[i] > 0 <==> rescaledB || Weighed(freqB, i))
    ensures ComesBack(a + b, FIRST_LIST) <==> (rescaledA <==> rescaledB) || !SomeUnused(freqA)
  {
    hide ComesBack, AllIn, Weighed;
    BothListed(a, b);
    TwoGroupsComeBack(a, b, FIRST_LIST);
    SameInUse(freqA, freqB);
    if !(rescaledA <==> rescaledB) && SomeUnused(freqA) {
      var s :| 0 <= s < |freqA| && !Weighed(freqA, s);
      assert !(a[s] == 0 <==> b[s] == 0);
    }
  }

  lemma BothListed(a: seq<nat>, b: seq<nat>)
    requires AtMost(a, MAX_CODELEN) && AtMost(b, MAX_CODELEN)
    ensures AllIn(a + b, FIRST_LIST)
  {
    AllLengthsListed(a);
    AllLengthsListed(b);
  }

  /** The code lengths of two groups in one table. Every symbol that occurs has a weight in both of them. */
  method BuildTwoGroups(freqA: seq<nat>, freqB: seq<nat>)
    returns (table: seq<nat>, ghost rescaledA: bool, ghost rescaledB: bool)
    requires |freqA| == |freqB| == ALPHABET_SIZE && Total(freqA) + 1 < UINT32 && Total(freqB) + 1 < UINT32
    requires exists i :: 0 <= i < ALPHABET_SIZE && freqA[i] > 0
    requires forall i :: 0 <= i < ALPHABET_SIZE ==> (freqA[i] > 0 <==> freqB[i] > 0)
    ensures |table| == 2 * ALPHABET_SIZE && AllIn(table, FIRST_LIST)
    ensures ComesBack(table, FIRST_LIST) <==> (rescaledA <==> rescaledB) || !SomeUnused(freqA)
    ensures forall k :: MAX_CODELEN + 2 <= k && Doubles(freqA, k) ==> rescaledA
    ensures forall k :: MAX_CODELEN + 2 <= k && Doubles(freqB, k) ==> rescaledB
    ensures rescaledA ==> Total(freqA) + 1 >= PrefixTree.Fib(MAX_CODELEN + 3)
    ensures rescaledB ==> Total(freqB) + 1 >= PrefixTree.Fib(MAX_CODELEN + 3)
  {
    hide ComesBack, AllIn, Doubles, Total, Huffman, Least, KraftSum, PrefixTree.Fib, Weighted, Weighed;
    LimitsSuffice();
    var clenA := new nat[ALPHABET_SIZE];
    var clenB := new nat[ALPHABET_SIZE];
    var _, ra := BuildPrefix(freqA, clenA, MAX_CODELEN);
    rescaledA := ra > 0;
    var a := clenA[..];
    ghost var i: nat :| i < ALPHABET_SIZE && freqA[i] > 0;
    assert freqB[i] > 0;
    var _, rb := BuildPrefix(freqB, clenB, MAX_CODELEN);
    rescaledB := rb > 0;
    var b := clenB[..];
    table := a + b;
    BothListed(a, b);
    GroupsComeBack(freqA, freqB, a, b, rescaledA, rescaledB);
    DoublesRescaled(a, freqA, rescaledA);
    DoublesRescaled(b, freqB, rescaledB);
  }

  lemma DoublesRescaled(clen: seq<nat>, freq: seq<nat>, rescaled: bool)
    requires freq != [] && (!rescaled ==> Huffman(clen, Weighted(freq))) && AtMost(clen, MAX_CODELEN)
    ensures forall k :: MAX_CODELEN + 2 <= k && Doubles(freq, k) ==> rescaled
  {
    hide Huffman, Doubles, Weighted;
    forall k | MAX_CODELEN + 2 <= k && Doubles(freq, k) ensures rescaled {
      if !rescaled {
        DoublingIsTooLong(clen, freq, k, MAX_CODELEN);
      }
    }
  }

  lemma {:induction false} FewTotal(w: seq<nat>, k: nat)
    requires k <= |w| && forall i :: 0 <= i < |w| ==> w[i] == if i < k then 1 else 0
    ensures Total(w) == k
  {
    if w != [] {
      var n := |w| - 1;
      FewTotal(w[..n], if k <= n then k else n);
    }
  }

  lemma DoublesSmall(w: seq<nat>)
    requires Doubles(w, 22)
    ensures Total(w) + 1 < UINT32
  {
    hide Total, Pow2;
    DoublesTotal(w, 22, |w|);
    assert w[..|w|] == w;
    TwoTo22();
  }

  lemma TwoTo22()
    ensures Pow2(22) + 1 < UINT32
  {
    assert Pow2(5) == 32 && Pow2(6) == 64;
    Pow2Sum(5, 6);
    Pow2Sum(11, 11);
  }

  lemma LastUnused(freq: seq<nat>)
    requires |freq| == ALPHABET_SIZE && freq[0] > 0 && freq[1] > 0 && freq[ALPHABET_SIZE - 1] == 0
    ensures SomeUnused(freq)
  {
    TwoSymbols(freq, 0, 1);
    assert !Weighed(freq, ALPHABET_SIZE - 1);
  }

  /** Two groups of the same 22 symbols, one with weights that double and one with equal ones. The first has to be
      rescaled, so it also gives the other 234 symbols codes; the second does not, and the table is not read back. */
  method DifferentZerosAreLost() returns (table: seq<nat>)
    ensures |table| == 2 * ALPHABET_SIZE && AllIn(table, FIRST_LIST) && !ComesBack(table, FIRST_LIST)
  {
    hide ComesBack, PrefixTree.Fib, Total;
    var freqA := seq(ALPHABET_SIZE, i requires 0 <= i < ALPHABET_SIZE => if i < 22 then Pow2(i) else 0);
    var freqB := seq(ALPHABET_SIZE, i => if i < 22 then 1 else 0);
    assert Doubles(freqA, 22) && freqA[0] == 1;
    DoublesSmall(freqA);
    FewTotal(freqB, 22);
    assert freqA[1] > 0 && freqA[ALPHABET_SIZE - 1] == 0;
    LastUnused(freqA);
    LimitIs();
    var t, rescaledA, rescaledB := BuildTwoGroups(freqA, freqB);
    table := t;
  }

  lemma LimitIs()
    ensures PrefixTree.Fib(MAX_CODELEN + 3) > 23
  {
    LimitsSuffice();
  }
}
