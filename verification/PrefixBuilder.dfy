/** Length-limited Huffman codes: build the tree, and while a code is too long flatten the weights and try again. */
module PrefixBuilder {
  import opened Arithmetic
  import opened BitStream
  import opened CanonicalCode
  import opened PrefixHeap
  import opened PrefixTree
  import opened PrefixCost

  const ALPHABET_SIZE: nat := 256
  const UINT32: nat := 0x1_0000_0000

  function Total(w: seq<nat>): nat {
    if w == [] then 0 else Total(w[..|w| - 1]) + w[|w| - 1]
  }

  predicate Weighs(w: seq<nat>, i: nat) {
    1 <= i <= |w| && w[i - 1] > 0
  }

  /** The entries of the symbols that have a weight. */
  function InUse(w: seq<nat>): set<nat> {
    set i | 0 <= i <= |w| && Weighs(w, i)
  }

  /** How the table of entries starts out for given weights; entry zero is the sentinel. */
  function Seeds(w: seq<nat>): (s: seq<Heapen>)
    ensures |s| == |w| + 1
  {
    [Heapen(0, 0, 0)] + seq(|w|, i requires 0 <= i < |w| => Heapen(0, w[i], 0))
  }

  function Seedlings(w: seq<nat>): map<nat, Tree> {
    map i | i in InUse(w) :: Leaf(i)
  }

  lemma SeedAt(w: seq<nat>, i: nat)
    requires i <= |w|
    ensures Seeds(w)[i] == Heapen(0, if i > 0 then w[i - 1] else 0, 0)
  {
  }

  lemma SeedsAt(w: seq<nat>)
    ensures forall i :: 0 <= i <= |w| ==> Seeds(w)[i] == Heapen(0, if i > 0 then w[i - 1] else 0, 0)
  {
    forall i | 0 <= i <= |w| ensures Seeds(w)[i] == Heapen(0, if i > 0 then w[i - 1] else 0, 0) {
      SeedAt(w, i);
    }
  }

  lemma StartShared(w: seq<nat>)
    ensures Shared(Seedlings(w), InUse(w))
  {
    AloneShared(Seedlings(w), InUse(w));
  }

  lemma AloneShared(forest: map<nat, Tree>, leaves: set<nat>)
    requires forest.Keys == leaves
    requires forall r :: r in forest ==> forest[r] == Leaf(r)
    ensures Shared(forest, leaves)
  {
    AloneApart(forest);
    AloneCovered(forest, leaves);
    hide Apart, Covered;
  }

  lemma AloneCovered(forest: map<nat, Tree>, leaves: set<nat>)
    requires forest.Keys == leaves
    requires forall r :: r in forest ==> forest[r] == Leaf(r)
    ensures Covered(forest, leaves)
  {
    hide *;
    forall r | r in forest ensures Leaves(forest[r]) == {r} {
      LeavesOfLeaf(r);
    }
    AloneCovers(forest, leaves);
  }

  lemma LeavesOfLeaf(i: nat)
    ensures Leaves(Leaf(i)) == {i}
  {
  }

  lemma AloneCovers(forest: map<nat, Tree>, leaves: set<nat>)
    requires forest.Keys == leaves
    requires forall r :: r in forest ==> Leaves(forest[r]) == {r}
    ensures Covered(forest, leaves)
  {
    hide Leaves;
    forall i | i in leaves ensures exists r :: r in forest && i in Leaves(forest[r]) {
      assert i in forest && i in Leaves(forest[i]);
    }
  }

  lemma AloneApart(forest: map<nat, Tree>)
    requires forall r :: r in forest ==> forest[r] == Leaf(r)
    ensures Apart(forest)
  {
    forall r, q | r in forest && q in forest && r != q ensures Leaves(forest[r]) !! Leaves(forest[q]) {
      assert Leaves(forest[r]) == {r} && Leaves(forest[q]) == {q};
    }
  }

  lemma StartPlanted(w: seq<nat>)
    ensures Planted(Seeds(w), |w|, Seedlings(w), InUse(w))
  {
    SeedsAt(w);
    StartShared(w);
    hide Seeds, Shared;
  }

  lemma StartGreedy(w: seq<nat>)
    ensures Greedy(Seeds(w), InUse(w), 1)
  {
    SeedsAt(w);
    assert Fib(2) == 1;
    hide Seeds, Fib;
  }

  lemma SameKeys(ents: seq<Heapen>, later: seq<Heapen>, heap: seq<nat>, n: nat)
    requires Ordered(ents, heap, n) && |ents| <= |later|
    requires forall e :: 0 <= e < |ents| ==> later[e].freq == ents[e].freq && later[e].depth == ents[e].depth
    ensures Ordered(later, heap, n)
  {
  }

  /** The weights held in the table: entry `i + 1` belongs to symbol `i`. */
  predicate Holds(ents: seq<Heapen>, w: seq<nat>) {
    |w| < |ents| && forall i :: 0 <= i < |w| ==> ents[i + 1].freq == w[i]
  }

  lemma NextInUse(w: seq<nat>, k: nat)
    requires k < |w|
    ensures InUse(w[..k + 1]) == InUse(w[..k]) + (if w[k] > 0 then {k + 1} else {})
    ensures k + 1 !in InUse(w[..k])
    ensures Seeds(w[..k + 1]) == Seeds(w[..k]) + [Heapen(0, w[k], 0)]
  {
  }

  /** The first `k` symbols have been entered and those with a weight are in the heap. */
  ghost predicate Seeded(ents: seq<Heapen>, heap: seq<nat>, w: seq<nat>, k: nat, last: nat) {
    && k <= |w| < |ents| && last <= k < |heap|
    && Holds(ents, w) && ents[..k + 1] == Seeds(w[..k])
    && Ordered(ents[..k + 1], heap, last)
    && Entries(heap, last) == multiset(InUse(w[..k]))
  }

  lemma SeedStep(ents: seq<Heapen>, heap: seq<nat>, w: seq<nat>, k: nat, last: nat)
    requires Seeded(ents, heap, w, k, last) && k < |w| && k + 1 < |heap|
    ensures k + 1 < |ents| && ents[k + 1].freq == w[k] && last <= k
    ensures
      var later := ents[k + 1 := ents[k + 1].(depth := 0, parent := 0)];
      && later[..k + 2] == Seeds(w[..k + 1]) && Holds(later, w)
      && Ordered(later[..k + 2], heap, last)
      && (w[k] == 0 ==> Seeded(later, heap, w, k + 1, last))
      && Entries(heap, last) == multiset(InUse(w[..k]))
      && multiset(InUse(w[..k])) + (if w[k] > 0 then multiset{k + 1} else multiset{}) == multiset(InUse(w[..k + 1]))
  {
    NextInUse(w, k);
    var later := ents[k + 1 := ents[k + 1].(depth := 0, parent := 0)];
    assert later[..k + 2] == ents[..k + 1] + [Heapen(0, w[k], 0)];
    hide Seeds, InUse, Ordered, Entries;
    SameKeys(ents[..k + 1], later[..k + 2], heap, last);
  }

  lemma SeedInserted(ents: seq<Heapen>, heap: seq<nat>, w: seq<nat>, k: nat, last: nat)
    requires k <= |w| < |ents| && last <= k < |heap|
    requires Holds(ents, w) && ents[..k + 1] == Seeds(w[..k]) && Ordered(ents[..k + 1], heap, last)
    requires Entries(heap, last) == multiset(InUse(w[..k]))
    ensures Seeded(ents, heap, w, k, last)
  {
  }

  lemma SeedStart(ents: seq<Heapen>, heap: seq<nat>, w: seq<nat>)
    requires Holds(ents, w) && 0 < |heap|
    ensures Seeded(ents[0 := Heapen(0, 0, 0)], heap[0 := 0], w, 0, 0)
  {
    var e, h := ents[0 := Heapen(0, 0, 0)], heap[0 := 0];
    assert e[..1] == Seeds(w[..0]);
    assert h[1..1] == [] && InUse(w[..0]) == {};
  }

  method InitHeap(ents: array<Heapen>, heap: array<nat>, asize: nat, ghost w: seq<nat>) returns (last: nat)
    requires |w| == asize < ents.Length && Holds(ents[..], w) && asize < heap.Length
    modifies ents, heap
    ensures Seeded(ents[..], heap[..], w, asize, last)
  {
    hide *;
    last := 0;
    SeedStart(ents[..], heap[..], w);
    ghost var e, h := ents[..], heap[..];
    heap[0] := 0;
    ents[0] := Heapen(0, 0, 0);
    assert ents[..] == e[0 := Heapen(0, 0, 0)] && heap[..] == h[0 := 0];
    for i := 0 to asize
      invariant Seeded(ents[..], heap[..], w, i, last)
    {
      SeedStep(ents[..], heap[..], w, i, last);
      ghost var before := ents[..];
      ents[i + 1] := ents[i + 1].(depth := 0, parent := 0);
      assert ents[..] == before[i + 1 := before[i + 1].(depth := 0, parent := 0)];
      assert ents[..][..i + 2] == ents[..i + 2];
      if ents[i + 1].freq != 0 {
        last := last + 1;
        HeapInsert(heap, ents[..i + 2], last, i + 1);
        assert ents[..][..i + 2] == ents[..i + 2];
        SeedInserted(ents[..], heap[..], w, i + 1, last);
      }
    }
  }

  // ----- Building the tree

  function Sum32(a: nat, b: nat): nat {
    (a + b) % UINT32
  }

  /** The forest while it is being merged: `ents` are the entries so far and the heap holds exactly the roots. */
  ghost predicate Growing(ents: seq<Heapen>, heap: seq<nat>, last: nat, asize: nat,
                          forest: map<nat, Tree>, leaves: set<nat>, light: nat, total: nat) {
    && asize < |ents| && Planted(ents, asize, forest, leaves) && Greedy(ents, forest.Keys, light)
    && Ordered(ents, heap, last) && Entries(heap, last) == multiset(forest.Keys)
    && SumOver(Weights(ents), leaves) == total < UINT32
    && (forall i :: i in leaves ==> i <= asize)
    && Frugal(ents, asize, forest, leaves)
  }

  lemma MergedWeights(ents: seq<Heapen>, a: nat, b: nat, leaves: set<nat>)
    requires a < |ents| && b < |ents| && a != b
    requires |ents| !in leaves
    ensures SumOver(Weights(Merged(ents, a, b)), leaves) == SumOver(Weights(ents), leaves)
  {
    MergedEntries(ents, a, b);
    var later := Merged(ents, a, b);
    assert Weights(later)[..|ents|] == Weights(ents);
  }

  /** Merging the two lightest roots: the forest stays one, and the sum of the two weights does not wrap. */
  lemma MergeStep(ents: seq<Heapen>, asize: nat, forest: map<nat, Tree>, leaves: set<nat>, light: nat, total: nat,
                  a: nat, b: nat)
    requires asize < |ents| && Planted(ents, asize, forest, leaves) && Greedy(ents, forest.Keys, light)
    requires SumOver(Weights(ents), leaves) == total < UINT32
    requires forall i :: i in leaves ==> i <= asize
    requires Frugal(ents, asize, forest, leaves)
    requires a in forest && b in forest && a != b
    requires forall r :: r in forest.Keys ==> ents[a].freq <= ents[r].freq
    requires forall r :: r in forest.Keys && r != a ==> ents[b].freq <= ents[r].freq
    ensures a < |ents| && b < |ents|
    ensures
      var later, grove := Merged(ents, a, b), MergedForest(forest, |ents|, a, b);
      && Planted(later, asize, grove, leaves) && Greedy(later, grove.Keys, ents[b].freq)
      && SumOver(Weights(later), leaves) == total && Frugal(later, asize, grove, leaves)
    ensures ents[a].freq + ents[b].freq < UINT32
  {
    PlantedTree(ents, asize, forest, leaves, a);
    PlantedTree(ents, asize, forest, leaves, b);
    hide *;
    var n, later, grove := |ents|, Merged(ents, a, b), MergedForest(forest, |ents|, a, b);
    MergePlanted(ents, asize, forest, leaves, a, b);
    PlantedRoot(ents, asize, forest, leaves, a);
    PlantedRoot(ents, asize, forest, leaves, b);
    MergeGreedy(ents, forest.Keys, light, a, b);
    LightestFreqs(ents, asize, forest, leaves, a, b);
    FrugalStep(ents, asize, forest, leaves, a, b);
    GroveKeys(forest, n, a, b);
    assert n !in leaves;
    MergedWeights(ents, a, b, leaves);
    PlantedTree(later, asize, grove, leaves, n);
    WeightOfTree(grove[n], later, asize);
    SumOverSubset(Weights(later), Leaves(grove[n]), leaves);
    MergedEntries(ents, a, b);
  }

  lemma NoWrap(x: nat, y: nat)
    requires x + y < UINT32
    ensures Sum32(x, y) == x + y
  {
  }

  lemma GroveKeys(forest: map<nat, Tree>, n: nat, a: nat, b: nat)
    requires a in forest && b in forest
    ensures MergedForest(forest, n, a, b).Keys == forest.Keys - {a, b} + {n}
  {
  }

  lemma PlantedTree(ents: seq<Heapen>, asize: nat, forest: map<nat, Tree>, leaves: set<nat>, r: nat)
    requires Planted(ents, asize, forest, leaves) && r in forest
    ensures forest[r].id == r < |ents| && Grown(forest[r], ents, asize) && Leaves(forest[r]) <= leaves
  {
  }

  lemma PlantedRoot(ents: seq<Heapen>, asize: nat, forest: map<nat, Tree>, leaves: set<nat>, r: nat)
    requires Planted(ents, asize, forest, leaves) && r in forest
    ensures r < |ents| && ents[r].parent == 0 && Linked(ents)
  {
  }

  lemma LightestFreqs(ents: seq<Heapen>, asize: nat, forest: map<nat, Tree>, leaves: set<nat>, a: nat, b: nat)
    requires Planted(ents, asize, forest, leaves) && a in forest && b in forest
    ensures RootsGrown(ents, asize, forest) && forall r :: r in forest.Keys ==> r < |ents| && Freq(ents, r) == ents[r].freq
  {
    hide Grown, RootsGrown;
    forall r | r in forest.Keys ensures r < |ents| {
      RootInside(ents, asize, forest, r);
    }
  }

  lemma TakenFromHeap(ents: seq<Heapen>, roots: set<nat>, a: nat, b: nat)
    requires Lightest(ents, multiset(roots), a) && Lightest(ents, multiset(roots) - multiset{a}, b)
    ensures a in roots && b in roots && a != b
    ensures multiset(roots) - multiset{a} - multiset{b} == multiset(roots - {a, b})
  {
  }

  /** Takes the two lightest roots out of the heap. */
  method TakeTwo(heap: array<nat>, ents: seq<Heapen>, last: nat, ghost roots: set<nat>) returns (h1: nat, h2: nat)
    requires last + 2 < heap.Length
    requires Ordered(ents, heap[..], last + 2) && Entries(heap[..], last + 2) == multiset(roots)
    modifies heap
    ensures h1 in roots && h2 in roots && h1 != h2 && h1 < |ents| && h2 < |ents|
    ensures forall r :: r in roots ==> r < |ents| && ents[h1].freq <= ents[r].freq
    ensures forall r :: r in roots && r != h1 ==> ents[h2].freq <= ents[r].freq
    ensures Ordered(ents, heap[..], last) && Entries(heap[..], last) == multiset(roots - {h1, h2})
  {
    hide *;
    h1 := HeapExtract(heap, ents, last + 1);
    h2 := HeapExtract(heap, ents, last);
    TakenFromHeap(ents, roots, h1, h2);
    LightestTwo(ents, roots, h1, h2);
  }

  lemma LightestTwo(ents: seq<Heapen>, roots: set<nat>, a: nat, b: nat)
    requires Lightest(ents, multiset(roots), a) && Lightest(ents, multiset(roots) - multiset{a}, b)
    ensures a < |ents| && b < |ents|
    ensures forall r :: r in roots ==> r < |ents| && ents[a].freq <= ents[r].freq
    ensures forall r :: r in roots && r != a ==> ents[b].freq <= ents[r].freq
  {
    assert forall r :: r in roots ==> r in multiset(roots);
    assert forall r :: r in roots && r != a ==> r in multiset(roots) - multiset{a};
  }

  /** Makes a new entry the parent of two roots. */
  method LinkRoots(ents: array<Heapen>, size: nat, h1: nat, h2: nat)
    requires h1 < size && h2 < size < ents.Length && h1 != h2
    requires ents[h1].freq + ents[h2].freq < UINT32
    modifies ents
    ensures ents[..size + 1] == Merged(old(ents[..size]), h1, h2)
  {
    ghost var before := ents[..size];
    NoWrap(ents[h1].freq, ents[h2].freq);
    ents[size] := Heapen(1 + Larger(ents[h1].depth, ents[h2].depth), Sum32(ents[h1].freq, ents[h2].freq), 0);
    ents[h1] := ents[h1].(parent := size);
    ents[h2] := ents[h2].(parent := size);
    MergedInPlace(before, ents[..size + 1], h1, h2);
  }

  /** One round: the two lightest roots get a common parent, which goes into the heap in their place. */
  method MergeLightest(ents: array<Heapen>, heap: array<nat>, size: nat, last: nat, asize: nat,
                       ghost forest: map<nat, Tree>, ghost leaves: set<nat>, ghost light: nat, ghost total: nat,
                       ghost w: seq<nat>)
    returns (ghost grove: map<nat, Tree>, ghost heavier: nat)
    requires size < ents.Length && Holds(ents[..size], w)
    requires Growing(ents[..size], heap[..], last + 2, asize, forest, leaves, light, total)
    modifies ents, heap
    ensures Growing(ents[..size + 1], heap[..], last + 1, asize, grove, leaves, heavier, total)
    ensures Holds(ents[..size + 1], w)
  {
    hide *;
    ghost var before := ents[..size];
    GrowingFacts(before, heap[..], last + 2, asize, forest, leaves, light, total);
    var h1, h2 := TakeTwo(heap, ents[..size], last, forest.Keys);
    MergeStep(before, asize, forest, leaves, light, total, h1, h2);
    LinkRoots(ents, size, h1, h2);
    ghost var later := ents[..size + 1];
    MergedEntries(before, h1, h2);
    SameKeys(before, later, heap[..], last);
    HeapInsert(heap, ents[..size + 1], last + 1, size);
    RootsBelow(before, asize, forest, leaves, size);
    MergedKeys(forest, size, h1, h2);
    heavier := before[h2].freq;
    grove := MergedForest(forest, size, h1, h2);
    assert Entries(heap[..], last + 1) == multiset(grove.Keys);
    GrowingAgain(later, heap[..], last + 1, asize, grove, leaves, heavier, total);
    StillHolds(before, later, w);
  }

  lemma StillHolds(ents: seq<Heapen>, later: seq<Heapen>, w: seq<nat>)
    requires Holds(ents, w) && |ents| <= |later|
    requires forall e :: 0 <= e < |ents| ==> later[e].freq == ents[e].freq
    ensures Holds(later, w)
  {
  }

  method BuildTree(ents: array<Heapen>, heap: array<nat>, asize: nat, first: nat,
                   ghost leaves: set<nat>, ghost start: map<nat, Tree>, ghost total: nat, ghost w: seq<nat>)
    returns (size: nat, ghost forest: map<nat, Tree>, ghost light: nat)
    requires 1 <= first <= asize && 2 * asize <= ents.Length
    requires Growing(ents[..asize + 1], heap[..], first, asize, start, leaves, 1, total) && Holds(ents[..asize + 1], w)
    modifies ents, heap
    ensures asize < size <= 2 * asize
    ensures Growing(ents[..size], heap[..], 1, asize, forest, leaves, light, total)
    ensures Holds(ents[..size], w)
  {
    hide *;
    var last := first;
    size, forest, light := asize + 1, start, 1;
    while last > 1
      invariant 1 <= last && size + last == asize + 1 + first && asize < size
      invariant Growing(ents[..size], heap[..], last, asize, forest, leaves, light, total)
      invariant Holds(ents[..size], w)
      decreases last
    {
      last := last - 1;
      forest, light := MergeLightest(ents, heap, size, last - 1, asize, forest, leaves, light, total, w);
      size := size + 1;
    }
  }

  lemma RootsBelow(ents: seq<Heapen>, asize: nat, forest: map<nat, Tree>, leaves: set<nat>, n: nat)
    requires Planted(ents, asize, forest, leaves) && |ents| <= n
    ensures n !in forest.Keys
  {
  }

  lemma GrowingFacts(ents: seq<Heapen>, heap: seq<nat>, last: nat, asize: nat,
                     forest: map<nat, Tree>, leaves: set<nat>, light: nat, total: nat)
    requires Growing(ents, heap, last, asize, forest, leaves, light, total)
    ensures asize < |ents| && Planted(ents, asize, forest, leaves) && Greedy(ents, forest.Keys, light)
    ensures Ordered(ents, heap, last) && last < |heap| && Entries(heap, last) == multiset(forest.Keys)
    ensures SumOver(Weights(ents), leaves) == total < UINT32
    ensures forall i :: i in leaves ==> i <= asize
    ensures Frugal(ents, asize, forest, leaves)
  {
    hide Planted, Greedy, Frugal;
  }

  lemma GrowingAgain(ents: seq<Heapen>, heap: seq<nat>, last: nat, asize: nat,
                     forest: map<nat, Tree>, leaves: set<nat>, light: nat, total: nat)
    requires asize < |ents| && Planted(ents, asize, forest, leaves) && Greedy(ents, forest.Keys, light)
    requires Ordered(ents, heap, last) && last < |heap| && Entries(heap, last) == multiset(forest.Keys)
    requires SumOver(Weights(ents), leaves) == total < UINT32
    requires forall i :: i in leaves ==> i <= asize
    requires Frugal(ents, asize, forest, leaves)
    ensures Growing(ents, heap, last, asize, forest, leaves, light, total)
  {
    hide Planted, Greedy, Ordered, Frugal;
  }

  lemma MergedInPlace(ents: seq<Heapen>, later: seq<Heapen>, a: nat, b: nat)
    requires a < |ents| && b < |ents| && a != b && |later| == |ents| + 1
    requires later[|ents|] == Heapen(1 + Larger(ents[a].depth, ents[b].depth), ents[a].freq + ents[b].freq, 0)
    requires later[a] == ents[a].(parent := |ents|) && later[b] == ents[b].(parent := |ents|)
    requires forall e :: 0 <= e < |ents| && e != a && e != b ==> later[e] == ents[e]
    ensures later == Merged(ents, a, b)
  {
  }

  lemma MergedKeys(forest: map<nat, Tree>, n: nat, a: nat, b: nat)
    requires a in forest && b in forest && n !in forest.Keys
    ensures multiset(forest.Keys - {a, b}) + multiset{n} == multiset(MergedForest(forest, n, a, b).Keys)
  {
    assert MergedForest(forest, n, a, b).Keys == forest.Keys - {a, b} + {n};
  }

  // ----- Code lengths, and flattening the weights

  lemma {:induction false} WeightsInUse(ents: seq<Heapen>, w: seq<nat>, k: nat)
    requires Holds(ents, w) && k <= |w|
    ensures SumOver(Weights(ents)[..k + 1], InUse(w)) == Total(w[..k])
  {
    var vals := Weights(ents)[..k + 1];
    if k == 0 {
      assert vals[..0] == [] && 0 !in InUse(w);
    } else {
      WeightsInUse(ents, w, k - 1);
      assert vals[..k] == Weights(ents)[..k];
      assert w[..k][..k - 1] == w[..k - 1];
      assert vals[k] == w[k - 1];
    }
  }

  lemma SeededFacts(ents: seq<Heapen>, heap: seq<nat>, w: seq<nat>, last: nat)
    requires Seeded(ents, heap, w, |w|, last)
    ensures |w| < |ents| && last <= |w| && last < |heap|
    ensures ents[..|w| + 1] == Seeds(w) && Holds(ents[..|w| + 1], w) && Holds(ents, w)
    ensures Ordered(Seeds(w), heap, last) && Entries(heap, last) == multiset(InUse(w))
    ensures last == |InUse(w)|
  {
    assert w[..|w|] == w;
    assert |Entries(heap, last)| == last;
    hide Seeds, Ordered, InUse, Entries;
  }

  lemma UseFacts(w: seq<nat>)
    ensures Seedlings(w).Keys == InUse(w) && forall i :: i in Seedlings(w) ==> Seedlings(w)[i] == Leaf(i)
    ensures forall i :: i in InUse(w) ==> i <= |w|
  {
  }

  lemma StartGrowing(ents: seq<Heapen>, heap: seq<nat>, w: seq<nat>, last: nat)
    requires Seeded(ents, heap, w, |w|, last) && Total(w) < UINT32
    ensures |w| < |ents|
    ensures Growing(ents[..|w| + 1], heap, last, |w|, Seedlings(w), InUse(w), 1, Total(w))
    ensures Holds(ents[..|w| + 1], w) && Holds(ents, w)
    ensures last == |InUse(w)| && last <= |w|
  {
    hide *;
    SeededFacts(ents, heap, w, last);
    var seeds := ents[..|w| + 1];
    UseFacts(w);
    StartPlanted(w);
    StartGreedy(w);
    FrugalStart(seeds, |w|, Seedlings(w), InUse(w));
    WeightsInUse(seeds, w, |w|);
    assert Weights(seeds)[..|w| + 1] == Weights(seeds) && w[..|w|] == w;
    GrowingAgain(seeds, heap, last, |w|, Seedlings(w), InUse(w), 1, Total(w));
  }

  function LengthOf(w: seq<nat>, ents: seq<Heapen>, i: nat): nat
    requires i < |w| < |ents| && Linked(ents)
  {
    if w[i] > 0 then Hops(ents, i + 1) else 0
  }

  /** What the code lengths say once the tree is complete. */
  ghost predicate Lengths(clen: seq<nat>, w: seq<nat>, ents: seq<Heapen>) {
    && |clen| == |w| < |ents| && Linked(ents)
    && (forall i :: 0 <= i < |w| ==> clen[i] == LengthOf(w, ents, i))
  }

  function Cost(clen: seq<nat>, freq: seq<nat>): nat
    requires |clen| == |freq|
  {
    if clen == [] then 0
    else
      var n := |clen| - 1;
      Cost(clen[..n], freq[..n]) + clen[n] * freq[n]
  }

  method CountHops(ents: array<Heapen>, i: nat, ghost size: nat) returns (b: nat)
    requires i < size <= ents.Length && Linked(ents[..size])
    ensures b == Hops(ents[..size], i)
  {
    b := 0;
    var p := ents[i].parent;
    ghost var q := i;
    while p != 0
      invariant q < size && p == ents[q].parent
      invariant b + Hops(ents[..size], q) == Hops(ents[..size], i)
      decreases size - q
    {
      b := b + 1;
      q := p;
      p := ents[p].parent;
    }
  }

  lemma CostStep(clen: seq<nat>, freq: seq<nat>, i: nat)
    requires i < |clen| == |freq|
    ensures Cost(clen[..i + 1], freq[..i + 1]) == Cost(clen[..i], freq[..i]) + clen[i] * freq[i]
  {
    assert clen[..i + 1][..i] == clen[..i] && freq[..i + 1][..i] == freq[..i];
  }

  method ComputeLengths(ents: array<Heapen>, clen: array<nat>, freq: seq<nat>, maxlen: nat,
                        ghost w: seq<nat>, ghost size: nat)
    returns (overflow: bool, totalBits: nat)
    requires |w| == |freq| == clen.Length && |w| < size <= ents.Length
    requires Linked(ents[..size]) && Holds(ents[..size], w)
    modifies clen
    ensures Lengths(clen[..], w, ents[..size])
    ensures overflow <==> exists i :: 0 <= i < |w| && clen[i] > maxlen
    ensures totalBits == Cost(clen[..], freq)
  {
    hide *;
    overflow, totalBits := false, 0;
    ghost var table := ents[..size];
    NoCost(clen[..0], freq[..0]);
    for i := 0 to clen.Length
      invariant forall j :: 0 <= j < i ==> clen[j] == LengthOf(w, table, j)
      invariant overflow <==> exists j :: 0 <= j < i && clen[j] > maxlen
      invariant totalBits == Cost(clen[..i], freq[..i])
    {
      ghost var done := clen[..i];
      var b: nat := 0;
      WeightHeld(table, w, i);
      if ents[i + 1].freq != 0 {
        b := CountHops(ents, i + 1, size);
        if b > maxlen {
          overflow := true;
        }
        totalBits := totalBits + b * freq[i];
      }
      clen[i] := b;
      CostStep(clen[..], freq, i);
      assert clen[..][..i] == done && clen[..][..i + 1] == clen[..i + 1];
    }
    assert clen[..clen.Length] == clen[..] && freq[..|freq|] == freq;
    AllLengths(clen[..], w, table);
  }

  lemma NoCost(clen: seq<nat>, freq: seq<nat>)
    requires clen == [] && freq == []
    ensures Cost(clen, freq) == 0
  {
  }

  lemma WeightHeld(ents: seq<Heapen>, w: seq<nat>, i: nat)
    requires Holds(ents, w) && Linked(ents) && i < |w| < |ents|
    ensures ents[i + 1].freq == w[i]
    ensures LengthOf(w, ents, i) == if w[i] > 0 then Hops(ents, i + 1) else 0
  {
  }

  lemma AllLengths(clen: seq<nat>, w: seq<nat>, ents: seq<Heapen>)
    requires |clen| == |w| < |ents| && Linked(ents)
    requires forall i :: 0 <= i < |w| ==> clen[i] == LengthOf(w, ents, i)
    ensures Lengths(clen, w, ents)
  {
  }

  function Flattened(w: seq<nat>): (r: seq<nat>)
    ensures |r| == |w|
  {
    seq(|w|, i requires 0 <= i < |w| => w[i] / 2 + 1)
  }

  /** The weights after `k` attempts have failed. */
  function Shrunk(w: seq<nat>, k: nat): (r: seq<nat>)
    ensures |r| == |w|
  {
    if k == 0 then w else Flattened(Shrunk(w, k - 1))
  }

  lemma HalfQuotient(y: int, p: nat)
    requires p > 0
    ensures y / (2 * p) == (y / p) / 2
  {
    var q := y / p;
    assert y == p * q + y % p && q == 2 * (q / 2) + q % 2;
    assert p * q == (2 * p) * (q / 2) + p * (q % 2);
    assert p * (q % 2) + y % p < 2 * p;
    DivUnique(2 * p, y, q / 2, p * (q % 2) + y % p);
  }

  /** All weights, also those of nothing at all, are drawn to two by halves. */
  lemma {:induction false} ShrunkAt(w: seq<nat>, k: nat, i: nat)
    requires i < |w|
    ensures Shrunk(w, k)[i] == 2 + (w[i] - 2) / Pow2(k)
  {
    if k > 0 {
      ShrunkAt(w, k - 1, i);
      var y: int := w[i];
      HalfQuotient(y - 2, Pow2(k - 1));
      var x := (y - 2) / Pow2(k - 1);
      assert (2 + x) / 2 + 1 == 2 + x / 2;
    }
  }

  /** Flattening never adds weight where there is some, and stops lowering it only when all weights are one or two. */
  lemma {:induction false} FlattenedTotal(w: seq<nat>)
    ensures 2 * Total(Flattened(w)) <= Total(w) + 2 * |w|
    ensures 0 !in w ==> Total(Flattened(w)) <= Total(w)
    ensures 0 !in w && Total(Flattened(w)) == Total(w) ==> Total(w) <= 2 * |w|
  {
    if w != [] {
      var n := |w| - 1;
      FlattenedTotal(w[..n]);
      assert Flattened(w)[..n] == Flattened(w[..n]);
      assert w[n] in w;
    }
  }

  lemma {:induction false} NoZeros(w: seq<nat>)
    ensures CountOf(w, 0) == 0 <==> 0 !in w
  {
    if w != [] {
      NoZeros(w[..|w| - 1]);
      assert w == w[..|w| - 1] + [w[|w| - 1]];
    }
  }

  /** When flattening is due, the weights get closer to the end: no zeros are left, and the total falls. */
  lemma FlatteningDescends(w: seq<nat>)
    requires 0 !in w ==> Total(w) > 2 * |w|
    ensures CountOf(Flattened(w), 0) == 0
    ensures CountOf(w, 0) == 0 ==> Total(Flattened(w)) < Total(w)
  {
    NoZeros(w);
    NoZeros(Flattened(w));
    FlattenedTotal(w);
  }

  method Rescale(ents: array<Heapen>, asize: nat, ghost w: seq<nat>)
    requires |w| == asize && Holds(ents[..], w)
    modifies ents
    ensures Holds(ents[..], Flattened(w))
  {
    for i := 0 to asize
      invariant forall j :: 0 <= j < i ==> ents[j + 1].freq == w[j] / 2 + 1
      invariant forall j :: i <= j < asize ==> ents[j + 1].freq == w[j]
    {
      ents[i + 1] := ents[i + 1].(freq := ents[i + 1].freq / 2 + 1);
    }
  }

  // ----- What the finished tree guarantees

  lemma OnlyRoot(forest: map<nat, Tree>, heap: seq<nat>)
    requires 1 < |heap| && Entries(heap, 1) == multiset(forest.Keys)
    ensures forest.Keys == {heap[1]}
  {
    assert heap[1..2] == [heap[1]];
    assert Entries(heap, 1) == multiset{heap[1]};
    assert forall r :: r in forest.Keys <==> r in multiset(forest.Keys);
  }

  lemma AllLeaves(ents: seq<Heapen>, asize: nat, forest: map<nat, Tree>, leaves: set<nat>, r: nat)
    requires Planted(ents, asize, forest, leaves) && forest.Keys == {r}
    ensures Leaves(forest[r]) == leaves && forest[r].id == r && Linked(ents) && RootsGrown(ents, asize, forest)
  {
    hide Leaves, Grown, Linked, Apart;
    assert r in forest;
    assert forall i :: i in leaves ==> i in Leaves(forest[r]);
  }

  lemma GreedyRoot(ents: seq<Heapen>, roots: set<nat>, light: nat, r: nat)
    requires Greedy(ents, roots, light) && r in roots
    ensures InTurn(ents) && r < |ents| && ents[r].freq >= Fib(ents[r].depth + 2)
  {
    hide InTurn, Fib;
  }

  /** At the end the only tree has all leaves. */
  lemma OnlyTree(ents: seq<Heapen>, heap: seq<nat>, asize: nat, forest: map<nat, Tree>, leaves: set<nat>,
                 light: nat, total: nat)
    returns (r: nat)
    requires Growing(ents, heap, 1, asize, forest, leaves, light, total)
    ensures forest.Keys == {r} && Leaves(forest[r]) == leaves && asize < |ents| && r < |ents|
    ensures Linked(ents) && RootsGrown(ents, asize, forest) && Frugal(ents, asize, forest, leaves) && InTurn(ents)
    ensures forest[r].id == r && Grown(forest[r], ents, asize) && Hops(ents, r) == 0
    ensures ents[r].freq == total >= Fib(ents[r].depth + 2)
  {
    hide *;
    GrowingFacts(ents, heap, 1, asize, forest, leaves, light, total);
    OnlyRoot(forest, heap);
    r := heap[1];
    GreedyRoot(ents, forest.Keys, light, r);
    AllLeaves(ents, asize, forest, leaves, r);
    RootHops(ents, asize, forest, r);
    RootInside(ents, asize, forest, r);
    WeightOfTree(forest[r], ents, asize);
  }

  lemma WholeTree(ents: seq<Heapen>, heap: seq<nat>, asize: nat, forest: map<nat, Tree>, leaves: set<nat>,
                  light: nat, total: nat)
    returns (t: Tree)
    requires Growing(ents, heap, 1, asize, forest, leaves, light, total)
    ensures Linked(ents) && Grown(t, ents, asize) && Leaves(t) == leaves && Hops(ents, t.id) == 0 && InTurn(ents)
    ensures total >= Fib(ents[t.id].depth + 2)
  {
    hide Growing, Frugal, InTurn, Leaves, Grown, Linked;
    var r := OnlyTree(ents, heap, asize, forest, leaves, light, total);
    t := forest[r];
  }

  /** A code longer than the limit needs a total weight that grows like the Fibonacci numbers. */
  lemma TooLongNeedsWeight(t: Tree, ents: seq<Heapen>, asize: nat, i: nat, maxlen: nat)
    requires Linked(ents) && Grown(t, ents, asize) && i in Leaves(t) && Hops(ents, t.id) == 0
    requires i < |ents| && Hops(ents, i) > maxlen
    ensures Fib(ents[t.id].depth + 2) >= Fib(maxlen + 3)
  {
    HopsOfLeaves(t, ents, asize, i);
    FibMonotone(maxlen + 3, ents[t.id].depth + 2);
  }

  lemma {:induction false} FibMonotone(a: nat, b: nat)
    requires a <= b
    ensures Fib(a) <= Fib(b)
    decreases b
  {
    if a < b {
      FibMonotone(a, b - 1);
      FibGrows(b - 1);
    }
  }

  lemma ShareAt(clen: seq<nat>, w: seq<nat>, ents: seq<Heapen>, m: nat, k: nat)
    requires Lengths(clen, w, ents) && AtMost(clen, m) && 1 <= k <= |w|
    requires forall i :: 0 <= i < |w| && w[i] > 0 ==> clen[i] > 0
    ensures clen[k - 1] > 0 <==> k in InUse(w)
    ensures clen[k - 1] > 0 ==> Shares(ents, m)[k] == Pow2(m - clen[k - 1])
  {
    assert Weighs(w, k) <==> w[k - 1] > 0;
  }

  lemma NoShareYet(vals: seq<nat>, w: seq<nat>)
    requires |vals| > 0
    ensures SumOver(vals[..1], InUse(w)) == 0
  {
    assert vals[..1][..0] == [] && 0 !in InUse(w);
  }

  lemma {:induction false} KraftIsShares(clen: seq<nat>, w: seq<nat>, ents: seq<Heapen>, m: nat, k: nat)
    requires Lengths(clen, w, ents) && AtMost(clen, m) && k <= |w|
    requires forall i :: 0 <= i < |w| && w[i] > 0 ==> clen[i] > 0
    ensures AtMost(clen[..k], m)
    ensures KraftSum(clen[..k], m) == SumOver(Shares(ents, m)[..k + 1], InUse(w))
  {
    var shares := Shares(ents, m);
    if k == 0 {
      NoShareYet(shares, w);
    } else {
      KraftIsShares(clen, w, ents, m, k - 1);
      ShareAt(clen, w, ents, m, k);
      hide Shares, InUse, Lengths, Pow2;
      assert shares[..k + 1][..k] == shares[..k];
      assert clen[..k][..k - 1] == clen[..k - 1];
    }
  }

  lemma {:induction false} SumOverAbove(vals: seq<nat>, k: nat, s: set<nat>)
    requires k <= |vals| && forall i :: i in s ==> i < k
    ensures SumOver(vals, s) == SumOver(vals[..k], s)
    decreases |vals|
  {
    if k < |vals| {
      SumOverAbove(vals[..|vals| - 1], k, s);
      assert vals[..|vals| - 1][..k] == vals[..k];
    } else {
      assert vals[..k] == vals;
    }
  }

  /** The lengths read off the finished tree use up the code space exactly. */
  lemma CompleteCode(t: Tree, ents: seq<Heapen>, clen: seq<nat>, w: seq<nat>, m: nat)
    requires Lengths(clen, w, ents) && AtMost(clen, m)
    requires Grown(t, ents, |w|) && t.Node? && Leaves(t) == InUse(w) && Hops(ents, t.id) == 0
    ensures forall i :: 0 <= i < |w| && w[i] > 0 ==> clen[i] > 0
    ensures KraftSum(clen, m) == Pow2(m)
  {
    forall i | 0 <= i < |w| && w[i] > 0 ensures clen[i] == Hops(ents, i + 1) > 0 {
      assert Weighs(w, i + 1);
      HopsOfLeaves(t, ents, |w|, i + 1);
    }
    forall i | i in Leaves(t) && i < |ents| ensures Hops(ents, i) <= m {
      assert Weighs(w, i);
      assert clen[i - 1] == Hops(ents, i);
    }
    ShareOfTree(t, ents, |w|, m);
    KraftIsShares(clen, w, ents, m, |w|);
    SumOverAbove(Shares(ents, m), |w| + 1, InUse(w));
    assert clen[..|w|] == clen;
  }

  // ----- The cheapest code

  /** No code lengths for the symbols that have a weight cost less, whatever the longest of them. */
  ghost predicate Least(clen: seq<nat>, w: seq<nat>) {
    |clen| == |w| &&
    forall l: seq<nat>, m: nat ::
      |l| == |w| && Feasible(l, m) && (forall i :: 0 <= i < |w| && w[i] > 0 ==> l[i] > 0) ==> Cost(clen, w) <= Cost(l, w)
  }

  lemma {:induction false} SpaceIsKraft(l: seq<nat>, w: seq<nat>, m: nat, k: nat)
    requires |l| == |w| && AtMost(l, m) && k <= |w| && forall i :: 0 <= i < |w| && w[i] > 0 ==> l[i] > 0
    ensures AtMost(l[..k], m)
    ensures SumOver(Spaces([0] + l, m)[..k + 1], InUse(w)) <= KraftSum(l[..k], m)
  {
    var spaces := Spaces([0] + l, m);
    if k == 0 {
      NoShareYet(spaces, w);
    } else {
      SpaceIsKraft(l, w, m, k - 1);
      assert Weighs(w, k) <==> w[k - 1] > 0;
      assert spaces[k] == Share(l[k - 1], m);
      hide Spaces, InUse, Pow2;
      assert spaces[..k + 1][..k] == spaces[..k];
      assert l[..k][..k - 1] == l[..k - 1];
    }
  }

  lemma {:induction false} WorkIsCost(l: seq<nat>, w: seq<nat>, ents: seq<Heapen>, k: nat)
    requires |l| == |w| && Holds(ents, w) && k <= |w|
    ensures SumOver(Works([0] + l, ents)[..k + 1], InUse(w)) == Cost(l[..k], w[..k])
  {
    var works := Works([0] + l, ents);
    if k == 0 {
      NoShareYet(works, w);
    } else {
      WorkIsCost(l, w, ents, k - 1);
      assert Weighs(w, k) <==> w[k - 1] > 0;
      assert works[k] == l[k - 1] * w[k - 1];
      hide Works, InUse;
      assert works[..k + 1][..k] == works[..k];
      CostStep(l, w, k - 1);
    }
  }

  lemma CostOf(l: seq<nat>, w: seq<nat>, ents: seq<Heapen>)
    requires |l| == |w| && Holds(ents, w)
    ensures Work([0] + l, ents, InUse(w)) == Cost(l, w)
  {
    WorkIsCost(l, w, ents, |w|);
    assert Works([0] + l, ents)[..|w| + 1] == Works([0] + l, ents) && l[..|w|] == l && w[..|w|] == w;
  }

  lemma FitsTogether(l: seq<nat>, w: seq<nat>, m: nat)
    requires |l| == |w| && Feasible(l, m) && forall i :: 0 <= i < |w| && w[i] > 0 ==> l[i] > 0
    ensures Fits([0] + l, InUse(w), m)
  {
    SpaceIsKraft(l, w, m, |w|);
    assert Spaces([0] + l, m)[..|w| + 1] == Spaces([0] + l, m) && l[..|w|] == l;
    hide KraftSum, SumOver, Spaces;
  }

  lemma HopsCost(clen: seq<nat>, w: seq<nat>, ents: seq<Heapen>)
    requires Lengths(clen, w, ents) && Holds(ents, w)
    ensures Work(HopsAt(ents, |ents|), ents, InUse(w)) == Cost(clen, w)
  {
    CostOf(clen, w, ents);
    var mine, all := Works([0] + clen, ents), Works(HopsAt(ents, |ents|), ents);
    forall i | i in InUse(w) && i < |all| ensures i < |mine| && mine[i] == all[i] {
      assert Weighs(w, i) && clen[i - 1] == LengthOf(w, ents, i - 1);
    }
    SumSame(mine, all, InUse(w));
  }

  /** The lengths read off the finished tree cost least. */
  lemma FinishedLeast(ents: seq<Heapen>, heap: seq<nat>, forest: map<nat, Tree>, light: nat, clen: seq<nat>, w: seq<nat>)
    requires Growing(ents, heap, 1, |w|, forest, InUse(w), light, Total(w))
    requires Lengths(clen, w, ents) && Holds(ents, w)
    ensures Least(clen, w)
  {
    hide Growing, Lengths, Holds, Frugal, RootsGrown, Leaves, InUse, Fits, Work, Feasible;
    var r := OnlyTree(ents, heap, |w|, forest, InUse(w), light, Total(w));
    HopsCost(clen, w, ents);
    SameSize(clen, w, ents);
    forall l: seq<nat>, m: nat |
      |l| == |w| && Feasible(l, m) && (forall i :: 0 <= i < |w| && w[i] > 0 ==> l[i] > 0)
      ensures Cost(clen, w) <= Cost(l, w)
    {
      FitsTogether(l, w, m);
      CostOf(l, w, ents);
      FrugalEnd(ents, |w|, forest, InUse(w), r, [0] + l, m);
    }
  }

  lemma SameSize(clen: seq<nat>, w: seq<nat>, ents: seq<Heapen>)
    requires Lengths(clen, w, ents)
    ensures |clen| == |w|
  {
  }

  lemma {:induction false} KraftUpdate(l: seq<nat>, s: nat, x: nat, m: nat)
    requires AtMost(l, m) && s < |l| && 0 < x <= m && l[s] > 0
    ensures AtMost(l[s := x], m) && KraftSum(l[s := x], m) + Pow2(m - l[s]) == KraftSum(l, m) + Pow2(m - x)
  {
    var n := |l| - 1;
    if s < n {
      assert l[s := x][..n] == l[..n][s := x];
      KraftUpdate(l[..n], s, x, m);
    } else {
      assert l[s := x][..n] == l[..n];
    }
  }

  lemma {:induction false} CostChange(l: seq<nat>, w: seq<nat>, s: nat, x: nat)
    requires |l| == |w| && s < |l|
    ensures Cost(l[s := x], w) + l[s] * w[s] == Cost(l, w) + x * w[s]
  {
    var n := |w| - 1;
    if s < n {
      assert l[s := x][..n] == l[..n][s := x];
      CostChange(l[..n], w[..n], s, x);
    } else {
      assert l[s := x][..n] == l[..n];
    }
  }

  lemma CrossProducts(p: nat, q: nat, u: nat, v: nat)
    requires p > q && u > v
    ensures q * u + p * v < p * u + q * v
  {
    assert (p - q) * (u - v) > 0;
  }

  /** Giving the shorter code to the heavier of two symbols saves bits. */
  lemma SwapSaves(clen: seq<nat>, w: seq<nat>, m: nat, i: nat, j: nat)
    requires |clen| == |w| && Feasible(clen, m) && i < |w| && j < |w|
    requires w[i] > w[j] && clen[i] > clen[j] > 0
    ensures Feasible(clen[i := clen[j]][j := clen[i]], m) && Cost(clen[i := clen[j]][j := clen[i]], w) < Cost(clen, w)
  {
    hide KraftSum, Cost, Pow2;
    var p, q := clen[i], clen[j];
    var once := clen[i := q];
    KraftUpdate(clen, i, q, m);
    KraftUpdate(once, j, p, m);
    CostChange(clen, w, i, q);
    CostChange(once, w, j, p);
    CrossProducts(p, q, w[i], w[j]);
  }

  /** Of two symbols with codes the one with more weight never has the longer code. */
  lemma HeavierIsShorter(clen: seq<nat>, w: seq<nat>, m: nat, i: nat, j: nat)
    requires Least(clen, w) && Feasible(clen, m) && (forall k :: 0 <= k < |w| && w[k] > 0 ==> clen[k] > 0)
    requires i < |w| && j < |w| && w[i] > w[j] && clen[j] > 0
    ensures clen[i] <= clen[j]
  {
    hide Feasible, Cost;
    if clen[i] > clen[j] {
      SwapSaves(clen, w, m, i, j);
    }
  }

  // ----- The whole loop

  /** The weights of one attempt: every symbol that occurs has one, and only the first attempt may see a single one. */
  ghost predicate Attempt(freq: seq<nat>, w: seq<nat>) {
    && |w| == |freq| && Total(w) < UINT32
    && (forall i :: 0 <= i < |w| && freq[i] > 0 ==> w[i] > 0)
    && (w == freq || |InUse(w)| >= 2)
  }

  lemma {:induction false} TotalUpdate(w: seq<nat>, s: nat, x: nat)
    requires s < |w|
    ensures Total(w[s := x]) + w[s] == Total(w) + x
  {
    var n := |w| - 1;
    if s < n {
      assert w[s := x][..n] == w[..n][s := x];
      TotalUpdate(w[..n], s, x);
    } else {
      assert w[s := x][..n] == w[..n];
    }
  }

  lemma {:induction false} ZerosUpdate(w: seq<nat>, s: nat)
    requires s < |w| && w[s] == 0
    ensures CountOf(w[s := 1], 0) + 1 == CountOf(w, 0)
  {
    var n := |w| - 1;
    if s < n {
      assert w[s := 1][..n] == w[..n][s := 1];
      ZerosUpdate(w[..n], s);
    } else {
      assert w[s := 1][..n] == w[..n];
    }
  }

  lemma SingleSymbol(w: seq<nat>, i: nat, j: nat)
    requires |InUse(w)| == 1 && i < |w| && j < |w| && w[i] > 0 && w[j] > 0
    ensures i == j
  {
    assert Weighs(w, i + 1) && Weighs(w, j + 1);
    if i != j {
      assert |{i + 1, j + 1}| == 2;
      SubsetSize({i + 1, j + 1}, InUse(w));
    }
  }

  lemma {:induction false} SubsetSize<T>(a: set<T>, b: set<T>)
    requires a <= b
    ensures |a| <= |b|
  {
    if a != {} {
      var x :| x in a;
      SubsetSize(a - {x}, b - {x});
    }
  }

  lemma TwoSymbols(w: seq<nat>, i: nat, j: nat)
    requires i < |w| && j < |w| && i != j && w[i] > 0 && w[j] > 0
    ensures |InUse(w)| >= 2
  {
    assert Weighs(w, i + 1) && Weighs(w, j + 1);
    SubsetSize({i + 1, j + 1}, InUse(w));
    assert |{i + 1, j + 1}| == 2;
  }

  /** With a single symbol, giving weight one to the first or the last symbol adds a second one. */
  lemma FakeSecond(freq: seq<nat>, w: seq<nat>)
    requires 2 <= |freq| && Attempt(freq, w) && |InUse(w)| == 1 && Total(freq) + 1 < UINT32
    requires exists i :: 0 <= i < |freq| && freq[i] > 0
    ensures
      var s := if freq[0] != 0 then |freq| - 1 else 0;
      && Attempt(freq, w[s := 1])
      && CountOf(w[s := 1], 0) < CountOf(w, 0)
  {
    var s := if freq[0] != 0 then |freq| - 1 else 0;
    var i :| 0 <= i < |freq| && freq[i] > 0;
    if w[s] > 0 {
      SingleSymbol(w, s, i);
      if freq[0] != 0 {
        SingleSymbol(w, 0, s);
      }
    }
    TotalUpdate(w, s, 1);
    ZerosUpdate(w, s);
    TwoSymbols(w[s := 1], s, i);
  }

  lemma FlattenedAttempt(freq: seq<nat>, w: seq<nat>)
    requires 2 <= |freq| <= ALPHABET_SIZE && Attempt(freq, w)
    ensures Attempt(freq, Flattened(w)) && |InUse(Flattened(w))| >= 2
  {
    FlattenedTotal(w);
    TwoSymbols(Flattened(w), 0, 1);
  }

  /** Overflow means there is enough weight for the flattening to lower it. */
  lemma OverflowDescends(ents: seq<Heapen>, heap: seq<nat>, forest: map<nat, Tree>, light: nat,
                         clen: seq<nat>, w: seq<nat>, maxlen: nat, i: nat)
    requires Growing(ents, heap, 1, |w|, forest, InUse(w), light, Total(w))
    requires Lengths(clen, w, ents) && i < |w| && clen[i] > maxlen
    requires 2 * |w| < Fib(maxlen + 3)
    ensures CountOf(Flattened(w), 0) == 0 && Total(w) >= Fib(maxlen + 3)
    ensures CountOf(w, 0) == 0 ==> Total(Flattened(w)) < Total(w)
  {
    var t := WholeTree(ents, heap, |w|, forest, InUse(w), light, Total(w));
    assert Weighs(w, i + 1);
    TooLongNeedsWeight(t, ents, |w|, i + 1, maxlen);
    FlatteningDescends(w);
  }

  /** The lengths are the depths of the symbols in a tree made by always merging two lightest ones. */
  ghost predicate ByTree(clen: seq<nat>, w: seq<nat>, ents: seq<Heapen>, t: Tree) {
    && Linked(ents) && Grown(t, ents, |w|) && Leaves(t) == InUse(w) && Hops(ents, t.id) == 0 && InTurn(ents)
    && Holds(ents, w) && Lengths(clen, w, ents)
  }

  ghost predicate Huffman(clen: seq<nat>, w: seq<nat>) {
    exists ents, t :: ByTree(clen, w, ents, t)
  }

  lemma FinishedCode(ents: seq<Heapen>, heap: seq<nat>, forest: map<nat, Tree>, light: nat,
                     clen: seq<nat>, w: seq<nat>, maxlen: nat)
    requires Growing(ents, heap, 1, |w|, forest, InUse(w), light, Total(w))
    requires Lengths(clen, w, ents) && AtMost(clen, maxlen) && |InUse(w)| >= 2 && Holds(ents, w)
    ensures forall i :: 0 <= i < |w| ==> (clen[i] > 0 <==> w[i] > 0)
    ensures KraftSum(clen, maxlen) == Pow2(maxlen)
    ensures Huffman(clen, w) && Least(clen, w)
  {
    hide Growing, Least, KraftSum;
    var t := WholeTree(ents, heap, |w|, forest, InUse(w), light, Total(w));
    assert t.Leaf? ==> |Leaves(t)| == 1;
    CompleteCode(t, ents, clen, w, maxlen);
    FinishedLeast(ents, heap, forest, light, clen, w);
    assert ByTree(clen, w, ents, t);
  }

  lemma OverflowTooLong(ents: seq<Heapen>, heap: seq<nat>, forest: map<nat, Tree>, light: nat,
                        clen: seq<nat>, w: seq<nat>, maxlen: nat, i: nat)
    requires Growing(ents, heap, 1, |w|, forest, InUse(w), light, Total(w))
    requires Lengths(clen, w, ents) && Holds(ents, w) && i < |w| && clen[i] > maxlen
    ensures TooLong(w, maxlen)
  {
    hide Growing, Holds, InUse, Grown, Linked, Leaves, InTurn;
    var t := WholeTree(ents, heap, |w|, forest, InUse(w), light, Total(w));
    assert ByTree(clen, w, ents, t);
    assert Huffman(clen, w) && !AtMost(clen, maxlen);
  }

  /** The symbol that stands in for a second one. */
  function StandIn(freq: seq<nat>): (s: nat)
    requires freq != []
    ensures s < |freq|
  {
    if freq[0] != 0 then |freq| - 1 else 0
  }

  /** Which symbols have a weight before any rescaling: those that occur, and with a single one its stand-in. */
  predicate Weighed(freq: seq<nat>, i: nat)
    requires i < |freq|
  {
    freq[i] > 0 || (|InUse(freq)| == 1 && i == StandIn(freq))
  }

  /** The weights of the first attempt with two symbols. */
  function Weighted(freq: seq<nat>): (w: seq<nat>)
    requires freq != []
    ensures |w| == |freq|
  {
    if |InUse(freq)| == 1 then freq[StandIn(freq) := 1] else freq
  }

  /** A code for these weights is too long. */
  ghost predicate TooLong(w: seq<nat>, maxlen: nat) {
    exists l :: Huffman(l, w) && !AtMost(l, maxlen)
  }

  /** The weights are the frequencies, with a stand-in if need be, flattened after every attempt that gave too long a
      code, which a heavy tree only can do. */
  ghost predicate Scaled(freq: seq<nat>, w: seq<nat>, maxlen: nat, retries: nat) {
    && |w| == |freq| > 0 && w == Shrunk(Weighted(freq), retries)
    && (retries > 0 ==> 0 !in w && Total(freq) + 1 >= Fib(maxlen + 3))
    && (retries == 0 ==> Total(w) <= Total(freq) + 1 && forall i :: 0 <= i < |w| ==> (w[i] > 0 <==> Weighed(freq, i)))
    && (forall k :: 0 <= k < retries ==> TooLong(Shrunk(Weighted(freq), k), maxlen))
  }

  lemma NotYetScaled(freq: seq<nat>, maxlen: nat)
    requires 2 <= |freq|
    ensures Scaled(freq, Weighted(freq), maxlen, 0)
  {
    TotalUpdate(freq, StandIn(freq), 1);
  }

  lemma FakedScaled(freq: seq<nat>, w: seq<nat>, maxlen: nat)
    requires 2 <= |freq| && Attempt(freq, w) && |InUse(w)| == 1
    ensures Scaled(freq, w[StandIn(freq) := 1], maxlen, 0)
  {
    NotYetScaled(freq, maxlen);
  }

  lemma StartScaled(freq: seq<nat>, maxlen: nat)
    requires 2 <= |freq|
    ensures |InUse(freq)| != 1 ==> Scaled(freq, freq, maxlen, 0)
  {
    NotYetScaled(freq, maxlen);
  }

  function Ones(w: seq<nat>): (l: seq<nat>)
    ensures |l| == |w| && forall i :: 0 <= i < |w| ==> l[i] == if w[i] > 0 then 1 else 0
  {
    seq(|w|, i requires 0 <= i < |w| => if w[i] > 0 then 1 else 0)
  }

  lemma {:induction false} OnesKraft(w: seq<nat>, k: nat)
    requires k <= |w|
    ensures AtMost(Ones(w)[..k], 1) && KraftSum(Ones(w)[..k], 1) == |InUse(w[..k])|
    ensures Cost(Ones(w)[..k], w[..k]) == Total(w[..k])
  {
    if k == 0 {
      assert InUse(w[..0]) == {};
    } else {
      hide InUse;
      OnesKraft(w, k - 1);
      NextInUse(w, k - 1);
      assert Ones(w)[..k][..k - 1] == Ones(w)[..k - 1] && w[..k][..k - 1] == w[..k - 1];
    }
  }

  lemma {:induction false} CostUpdate(l: seq<nat>, w: seq<nat>, s: nat, x: nat)
    requires |l| == |w| && s < |w|
    ensures Cost(l, w[s := x]) + l[s] * w[s] == Cost(l, w) + l[s] * x
  {
    var n := |w| - 1;
    if s < n {
      assert w[s := x][..n] == w[..n][s := x];
      CostUpdate(l[..n], w[..n], s, x);
    } else {
      assert w[s := x][..n] == w[..n];
    }
  }

  lemma {:induction false} AtLeastTotal(l: seq<nat>, w: seq<nat>)
    requires |l| == |w| && forall i :: 0 <= i < |w| && w[i] > 0 ==> l[i] > 0
    ensures Cost(l, w) >= Total(w)
  {
    if w != [] {
      var n := |w| - 1;
      AtLeastTotal(l[..n], w[..n]);
      assert l[n] * w[n] >= w[n];
    }
  }

  lemma OneMoreInUse(freq: seq<nat>, s: nat)
    requires s < |freq| && |InUse(freq)| == 1
    ensures |InUse(freq[s := 1])| <= 2
  {
    var w := freq[s := 1];
    forall i | i in InUse(w) ensures i in InUse(freq) + {s + 1} {
      assert Weighs(w, i);
      if i != s + 1 {
        assert Weighs(freq, i);
      }
    }
    SubsetSize(InUse(w), InUse(freq) + {s + 1});
  }

  /** With a single symbol and its stand-in the cheapest code gives the symbol one bit. */
  lemma LeastAlone(freq: seq<nat>, clen: seq<nat>)
    requires 2 <= |freq| == |clen| && |InUse(freq)| == 1 && Least(clen, freq[StandIn(freq) := 1])
    requires freq[StandIn(freq)] == 0 && clen[StandIn(freq)] > 0
    ensures Least(clen, freq)
  {
    hide InUse, KraftSum, Cost, StandIn;
    var s := StandIn(freq);
    var w := freq[s := 1];
    var ones := Ones(w);
    OnesKraft(w, |w|);
    assert ones[..|w|] == ones && w[..|w|] == w;
    OneMoreInUse(freq, s);
    assert Pow2(1) == 2;
    assert Feasible(ones, 1);
    TotalUpdate(freq, s, 1);
    CostUpdate(clen, freq, s, 1);
    assert Cost(clen, freq) <= Total(freq);
    forall l: seq<nat>, m: nat |
      |l| == |freq| && Feasible(l, m) && (forall i :: 0 <= i < |freq| && freq[i] > 0 ==> l[i] > 0)
      ensures Cost(clen, freq) <= Cost(l, freq)
    {
      AtLeastTotal(l, freq);
    }
  }

  lemma StandInUnused(freq: seq<nat>)
    requires 2 <= |freq| && |InUse(freq)| == 1
    ensures freq[StandIn(freq)] == 0
  {
    var i :| i in InUse(freq);
    assert Weighs(freq, i);
    if freq[StandIn(freq)] > 0 {
      SingleSymbol(freq, StandIn(freq), i - 1);
      if freq[0] > 0 {
        SingleSymbol(freq, 0, |freq| - 1);
      }
    }
  }

  lemma LeastWeighted(freq: seq<nat>, clen: seq<nat>)
    requires 2 <= |freq| == |clen| && Least(clen, Weighted(freq))
    requires forall i :: 0 <= i < |freq| ==> (clen[i] > 0 <==> Weighed(freq, i))
    ensures Least(clen, freq)
  {
    hide Least;
    if |InUse(freq)| == 1 {
      StandInUnused(freq);
      assert Weighed(freq, StandIn(freq));
      LeastAlone(freq, clen);
    }
  }

  /** After `k` retries a symbol that is more frequent than another by 2^k or more never has the longer code. */
  lemma MoreFrequentIsShorter(freq: seq<nat>, clen: seq<nat>, k: nat, m: nat, i: nat, j: nat)
    requires 2 <= |freq| && i < |freq| && j < |freq| && freq[j] > 0 && freq[i] >= freq[j] + Pow2(k)
    requires Least(clen, Shrunk(Weighted(freq), k)) && Feasible(clen, m)
    requires forall s :: 0 <= s < |freq| && Shrunk(Weighted(freq), k)[s] > 0 ==> clen[s] > 0
    ensures clen[i] <= clen[j]
  {
    hide Least, Shrunk, Feasible, InUse;
    if |InUse(freq)| == 1 {
      StandInUnused(freq);
    }
    var w := Weighted(freq);
    assert w[i] == freq[i] && w[j] == freq[j];
    var p, x: int, y: int := Pow2(k), w[i], w[j];
    ShrunkAt(w, k, i);
    ShrunkAt(w, k, j);
    FartherQuotient(x - 2, y - 2, p);
    PositiveShrunk(w, k, j);
    HeavierIsShorter(clen, Shrunk(w, k), m, i, j);
  }

  lemma FartherQuotient(x: int, y: int, p: nat)
    requires p > 0 && x >= y + p
    ensures x / p > y / p
  {
    DivOfSum(p, 1, y);
    var k := (y + p) / p - x / p;
    Multiple(p, k);
    assert p * k == p * ((y + p) / p) - p * (x / p);
  }

  lemma PositiveShrunk(w: seq<nat>, k: nat, i: nat)
    requires i < |w| && w[i] > 0
    ensures Shrunk(w, k)[i] > 0
  {
  }

  lemma RetryScaled(freq: seq<nat>, w: seq<nat>, maxlen: nat, retries: nat)
    requires Scaled(freq, w, maxlen, retries) && Total(w) >= Fib(maxlen + 3) && TooLong(w, maxlen)
    ensures Scaled(freq, Flattened(w), maxlen, retries + 1)
  {
    hide Weighted, TooLong, Fib;
    assert Shrunk(Weighted(freq), retries + 1) == Flattened(w);
  }

  lemma LengthsOfScaled(freq: seq<nat>, w: seq<nat>, maxlen: nat, retries: nat, clen: seq<nat>)
    requires 2 <= |freq| && Scaled(freq, w, maxlen, retries)
    requires |clen| == |w| && forall i :: 0 <= i < |w| ==> (clen[i] > 0 <==> w[i] > 0)
    requires Huffman(clen, w) && Least(clen, w)
    ensures w == Shrunk(Weighted(freq), retries)
    ensures retries == 0 ==> w == Weighted(freq) && Least(clen, freq)
    ensures retries > 0 ==> Total(freq) + 1 >= Fib(maxlen + 3) && forall i :: 0 <= i < |freq| ==> clen[i] > 0
    ensures retries == 0 ==> forall i :: 0 <= i < |freq| ==> (clen[i] > 0 <==> Weighed(freq, i))
    ensures forall k :: 0 <= k < retries ==> TooLong(Shrunk(Weighted(freq), k), maxlen)
  {
    hide Least, Huffman, Weighted, Weighed, TooLong;
    if retries == 0 {
      LeastWeighted(freq, clen);
    }
  }

  /** Code lengths of a complete prefix code, none above the limit, for every symbol that occurs; the cost is returned.
      Other symbols have none, but for a stand-in, and no code for the symbols that occur costs less, unless too long a code
      made the weights be flattened: then all symbols have one, and it is the flattened weights for which no code costs
      less. The bound on the alphabet is what makes the loop end. */
  method BuildPrefix(freq: seq<nat>, clen: array<nat>, maxlen: nat) returns (totalBits: nat, ghost retries: nat)
    requires 2 <= |freq| == clen.Length <= ALPHABET_SIZE
    requires exists i :: 0 <= i < |freq| && freq[i] > 0
    requires Total(freq) + 1 < UINT32
    requires 2 * |freq| < Fib(maxlen + 3)
    modifies clen
    ensures AtMost(clen[..], maxlen) && KraftSum(clen[..], maxlen) == Pow2(maxlen)
    ensures forall i :: 0 <= i < |freq| && freq[i] > 0 ==> clen[i] > 0
    ensures retries > 0 ==> Total(freq) + 1 >= Fib(maxlen + 3) && forall i :: 0 <= i < |freq| ==> clen[i] > 0
    ensures retries == 0 ==> forall i :: 0 <= i < |freq| ==> (clen[i] > 0 <==> Weighed(freq, i))
    ensures retries == 0 ==> Least(clen[..], freq)
    ensures Huffman(clen[..], Shrunk(Weighted(freq), retries)) && Least(clen[..], Shrunk(Weighted(freq), retries))
    ensures forall k :: 0 <= k < retries ==> TooLong(Shrunk(Weighted(freq), k), maxlen)
    ensures totalBits == Cost(clen[..], freq)
  {
    hide *;
    var ents := new Heapen[2 * ALPHABET_SIZE];
    var heap := new nat[ALPHABET_SIZE + 1];
    var asize := |freq|;
    LoadWeights(ents, freq);
    ghost var w := freq;
    FirstAttempt(freq);
    StartScaled(freq, maxlen);
    retries := 0;
    while true
      invariant Attempt(freq, w) && |w| == asize && Holds(ents[..], w)
      invariant if |InUse(w)| == 1 then retries == 0 else Scaled(freq, w, maxlen, retries)
      decreases CountOf(w, 0), Total(w)
    {
      var last := InitHeap(ents, heap, asize, w);
      AttemptFacts(freq, w);
      StartGrowing(ents[..], heap[..], w, last);
      if last == 1 {
        FakeSecond(freq, w);
        FakedScaled(freq, w, maxlen);
        StandInIs(freq);
        var s := if freq[0] != 0 then asize - 1 else 0;
        ghost var before := ents[..];
        ents[s + 1] := ents[s + 1].(freq := 1);
        assert ents[..] == before[s + 1 := before[s + 1].(freq := 1)];
        HoldsUpdate(before, w, s);
        w := w[s := 1];
        continue;
      }
      assert ents[..][..asize + 1] == ents[..asize + 1];
      var size, forest, light := BuildTree(ents, heap, asize, last, InUse(w), Seedlings(w), Total(w), w);
      ghost var table := ents[..size];
      TableLinked(table, heap[..], 1, asize, forest, InUse(w), light, Total(w));
      var overflow: bool;
      overflow, totalBits := ComputeLengths(ents, clen, freq, maxlen, w, size);
      if !overflow {
        assert AtMost(clen[..], maxlen) by { AllAtMost(clen[..], maxlen); }
        FinishedCode(table, heap[..], forest, light, clen[..], w, maxlen);
        LengthsOfScaled(freq, w, maxlen, retries, clen[..]);
        return;
      }
      ghost var i :| 0 <= i < |w| && clen[i] > maxlen;
      OverflowDescends(table, heap[..], forest, light, clen[..], w, maxlen, i);
      HoldsWhole(ents[..], size, w);
      Rescale(ents, asize, w);
      FlattenedAttempt(freq, w);
      OverflowTooLong(table, heap[..], forest, light, clen[..], w, maxlen, i);
      RetryScaled(freq, w, maxlen, retries);
      retries := retries + 1;
      w := Flattened(w);
    }
  }

  /** The lengths that `BuildPrefix` arrives at after `k` retries. */
  ghost predicate BuiltAfter(clen: seq<nat>, freq: seq<nat>, maxlen: nat, k: nat)
    requires freq != []
  {
    && Huffman(clen, Shrunk(Weighted(freq), k)) && Least(clen, Shrunk(Weighted(freq), k))
    && (forall j :: 0 <= j < k ==> TooLong(Shrunk(Weighted(freq), j), maxlen))
  }

  ghost predicate Built(clen: seq<nat>, freq: seq<nat>, maxlen: nat) {
    |clen| == |freq| > 0 && exists k: nat :: BuiltAfter(clen, freq, maxlen, k)
  }

  lemma IsBuilt(clen: seq<nat>, freq: seq<nat>, maxlen: nat, k: nat)
    requires |clen| == |freq| > 0 && Huffman(clen, Shrunk(Weighted(freq), k)) && Least(clen, Shrunk(Weighted(freq), k))
    requires forall j :: 0 <= j < k ==> TooLong(Shrunk(Weighted(freq), j), maxlen)
    ensures Built(clen, freq, maxlen)
  {
    hide Huffman, Least, Shrunk, Weighted, TooLong;
    assert BuiltAfter(clen, freq, maxlen, k);
  }

  lemma StandInIs(freq: seq<nat>)
    requires freq != []
    ensures StandIn(freq) == if freq[0] != 0 then |freq| - 1 else 0
  {
  }

  method LoadWeights(ents: array<Heapen>, freq: seq<nat>)
    requires |freq| < ents.Length
    modifies ents
    ensures Holds(ents[..], freq)
  {
    for i := 0 to |freq|
      invariant forall j :: 0 <= j < i ==> ents[j + 1].freq == freq[j]
    {
      ents[i + 1] := ents[i + 1].(freq := freq[i]);
    }
  }

  lemma FirstAttempt(freq: seq<nat>)
    requires Total(freq) < UINT32
    ensures Attempt(freq, freq)
  {
  }

  lemma AttemptFacts(freq: seq<nat>, w: seq<nat>)
    requires Attempt(freq, w)
    ensures |w| == |freq| && Total(w) < UINT32
    ensures forall i :: 0 <= i < |w| && freq[i] > 0 ==> w[i] > 0
    ensures (exists i :: 0 <= i < |freq| && freq[i] > 0) ==> |InUse(w)| >= 1
  {
    if i :| 0 <= i < |freq| && freq[i] > 0 {
      assert Weighs(w, i + 1);
      assert i + 1 in InUse(w);
    }
  }

  lemma HoldsUpdate(ents: seq<Heapen>, w: seq<nat>, s: nat)
    requires Holds(ents, w) && s < |w|
    ensures Holds(ents[s + 1 := ents[s + 1].(freq := 1)], w[s := 1])
  {
  }

  lemma HoldsWhole(ents: seq<Heapen>, size: nat, w: seq<nat>)
    requires size <= |ents| && Holds(ents[..size], w)
    ensures Holds(ents, w)
  {
  }

  lemma TableLinked(ents: seq<Heapen>, heap: seq<nat>, last: nat, asize: nat,
                    forest: map<nat, Tree>, leaves: set<nat>, light: nat, total: nat)
    requires Growing(ents, heap, last, asize, forest, leaves, light, total)
    ensures Linked(ents) && asize < |ents|
  {
  }

  lemma AllAtMost(clen: seq<nat>, m: nat)
    requires forall i :: 0 <= i < |clen| ==> clen[i] <= m
    ensures AtMost(clen, m)
  {
  }

  /** The limits in use leave room enough for the alphabets they are used with. */
  lemma LimitsSuffice()
    ensures 2 * 256 < Fib(20 + 3) && 2 * 22 < Fib(15 + 3) && 2 * 9 < Fib(7 + 3)
  {
    assert Fib(6) == 8 && Fib(7) == 13;
    assert Fib(9) == 34 && Fib(10) == 55;
    assert Fib(12) == 144 && Fib(13) == 233;
    assert Fib(15) == 610 && Fib(16) == 987;
    assert Fib(18) == 2584 && Fib(19) == 4181;
    assert Fib(21) == 10946 && Fib(22) == 17711;
  }
}
