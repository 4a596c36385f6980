/** Why merging the two lightest roots is the cheapest: any choice of code lengths can be pushed up the forest, merge by
    merge, without making it dearer. */
module PrefixCost {
  import opened Arithmetic
  import opened PrefixHeap
  import opened PrefixTree

  function Freq(ents: seq<Heapen>, i: nat): nat {
    if i < |ents| then ents[i].freq else 0
  }

  /** What entry by entry a code of the lengths `l` costs, and how much of the code space it takes. */
  function Works(l: seq<nat>, ents: seq<Heapen>): (s: seq<nat>)
    ensures |s| == |l| && forall i :: 0 <= i < |l| ==> s[i] == l[i] * Freq(ents, i)
  {
    seq(|l|, i requires 0 <= i < |l| => l[i] * Freq(ents, i))
  }

  function Spaces(l: seq<nat>, m: nat): (s: seq<nat>)
    ensures |s| == |l| && forall i :: 0 <= i < |l| ==> s[i] == Share(l[i], m)
  {
    seq(|l|, i requires 0 <= i < |l| => Share(l[i], m))
  }

  function Work(l: seq<nat>, ents: seq<Heapen>, s: set<nat>): nat {
    SumOver(Works(l, ents), s)
  }

  /** The entries in `s` find room together. */
  ghost predicate Fits(l: seq<nat>, s: set<nat>, m: nat) {
    && (forall i :: i in s ==> i < |l| && l[i] <= m)
    && SumOver(Spaces(l, m), s) <= Pow2(m)
  }

  // ----- Sums

  lemma {:induction false} SumSame(vals: seq<nat>, others: seq<nat>, s: set<nat>)
    requires |vals| <= |others| && forall i :: i in s ==> (i < |others| ==> i < |vals| && vals[i] == others[i])
    ensures SumOver(vals, s) == SumOver(others, s)
    decreases |others|
  {
    if |others| > |vals| {
      SumSame(vals, others[..|others| - 1], s);
    } else if vals != [] {
      SumSame(vals[..|vals| - 1], others[..|vals| - 1], s);
    }
  }

  lemma SumTwo(vals: seq<nat>, s: set<nat>, x: nat, y: nat)
    requires x in s && y in s && x != y && x < |vals| && y < |vals|
    ensures SumOver(vals, s) == SumOver(vals, s - {x, y}) + vals[x] + vals[y]
  {
    var rest := s - {x, y};
    assert s == (rest + {x}) + {y};
    SumOverUnion(vals, rest + {x}, {y});
    SumOverUnion(vals, rest, {x});
    SumOverOne(vals, x);
    SumOverOne(vals, y);
  }

  lemma SumApart(vals: seq<nat>, s: set<nat>, x: nat)
    requires x in s && x < |vals|
    ensures SumOver(vals, s) == SumOver(vals, s - {x}) + vals[x]
  {
    assert s == (s - {x}) + {x};
    SumOverUnion(vals, s - {x}, {x});
    SumOverOne(vals, x);
  }

  // ----- Moving the two lightest entries down to the longest codes

  function Swapped(l: seq<nat>, x: nat, y: nat): (r: seq<nat>)
    requires x < |l| && y < |l|
    ensures |r| == |l| && r[x] == l[y] && r[y] == l[x]
    ensures forall i :: 0 <= i < |l| && i != x && i != y ==> r[i] == l[i]
  {
    l[x := l[y]][y := l[x]]
  }

  lemma Product(p: nat, q: nat, fx: nat, fy: nat)
    requires p <= q && fx <= fy
    ensures q * fx + p * fy <= p * fx + q * fy
  {
    assert (q - p) * (fy - fx) >= 0;
  }

  /** Giving the lighter of two entries the longer code costs no more. */
  lemma SwapCheaper(l: seq<nat>, ents: seq<Heapen>, s: set<nat>, m: nat, x: nat, y: nat)
    requires Fits(l, s, m) && x in s && y in s && Freq(ents, x) <= Freq(ents, y)
    requires x < |l| && y < |l| && l[x] <= l[y]
    ensures Fits(Swapped(l, x, y), s, m) && Work(Swapped(l, x, y), ents, s) <= Work(l, ents, s)
  {
    hide SumOver, Share, Freq, Swapped;
    var r := Swapped(l, x, y);
    if x == y {
      assert r == l;
    } else {
      SumTwo(Spaces(l, m), s, x, y);
      SumTwo(Spaces(r, m), s, x, y);
      SumSame(Spaces(l, m), Spaces(r, m), s - {x, y});
      SumTwo(Works(l, ents), s, x, y);
      SumTwo(Works(r, ents), s, x, y);
      SumSame(Works(l, ents), Works(r, ents), s - {x, y});
      Product(l[x], l[y], Freq(ents, x), Freq(ents, y));
    }
  }

  lemma {:induction false} LongestIn(l: seq<nat>, s: set<nat>) returns (x: nat)
    requires s != {} && forall i :: i in s ==> i < |l|
    ensures x in s && forall i :: i in s ==> l[i] <= l[x]
  {
    var y :| y in s;
    if s == {y} {
      x := y;
    } else {
      x := LongestIn(l, s - {y});
      if l[y] > l[x] {
        x := y;
      }
    }
  }

  lemma {:induction false} Pow2Sum(a: nat, b: nat)
    ensures Pow2(a + b) == Pow2(a) * Pow2(b)
  {
    if a > 0 {
      Pow2Sum(a - 1, b);
    }
  }

  /** Entries with codes no longer than `k` take the space in whole parts of that size. */
  lemma {:induction false} WholeParts(l: seq<nat>, s: set<nat>, k: nat, m: nat)
    requires k <= m && forall i :: i in s && i < |l| ==> l[i] <= k
    ensures SumOver(Spaces(l, m), s) == Pow2(m - k) * SumOver(Spaces(l, k), s)
  {
    if l != [] {
      var n := |l| - 1;
      WholeParts(l[..n], s, k, m);
      assert Spaces(l, m)[..n] == Spaces(l[..n], m) && Spaces(l, k)[..n] == Spaces(l[..n], k);
      if n in s {
        Pow2Sum(m - k, k - l[n]);
        Distributed(Pow2(m - k), SumOver(Spaces(l[..n], k), s), Pow2(k - l[n]));
      }
    }
  }

  lemma Distributed(p: nat, a: nat, b: nat)
    ensures p * (a + b) == p * a + p * b
  {
  }

  lemma RoomForOne(p: nat, parts: nat, whole: nat)
    requires p * parts < p * whole
    ensures p * parts + p <= p * whole && parts < whole
  {
    assert parts < whole;
    assert p * (parts + 1) <= p * whole;
  }

  /** A single entry with the longest code of all can do with the second longest length. */
  lemma Shorten(l: seq<nat>, ents: seq<Heapen>, s: set<nat>, m: nat, a: nat, b: nat)
    requires Fits(l, s, m) && a in s && b in s && a != b && a < |l| && b < |l| && l[b] <= l[a]
    requires forall i :: i in s && i != a ==> l[i] <= l[b]
    ensures l[b] >= 1
    ensures Fits(l[a := l[b]], s, m) && Work(l[a := l[b]], ents, s) <= Work(l, ents, s)
  {
    hide SumOver, Freq;
    var k, r, rest := l[b], l[a := l[b]], s - {a};
    var p, parts := Pow2(m - k), SumOver(Spaces(l, k), rest);
    SumApart(Spaces(l, m), s, a);
    SumApart(Spaces(r, m), s, a);
    SumSame(Spaces(l, m), Spaces(r, m), rest);
    WholeParts(l, rest, k, m);
    Pow2Sum(m - k, k);
    RoomForOne(p, parts, Pow2(k));
    SumApart(Spaces(l, k), rest, b);
    SumApart(Works(l, ents), s, a);
    SumApart(Works(r, ents), s, a);
    SumSame(Works(l, ents), Works(r, ents), rest);
    NotMore(k, l[a], Freq(ents, a));
  }

  lemma NotMore(p: nat, q: nat, f: nat)
    requires p <= q
    ensures p * f <= q * f
  {
  }

  /** Lengths that cost no more and give the two lightest entries equally long codes. */
  lemma Exchange(l: seq<nat>, ents: seq<Heapen>, s: set<nat>, m: nat, a: nat, b: nat) returns (r: seq<nat>)
    requires Fits(l, s, m) && a in s && b in s && a != b
    requires forall i :: i in s ==> Freq(ents, a) <= Freq(ents, i)
    requires forall i :: i in s && i != a ==> Freq(ents, b) <= Freq(ents, i)
    ensures |r| == |l| && Fits(r, s, m) && a < |r| && b < |r| && r[a] == r[b] >= 1
    ensures Work(r, ents, s) <= Work(l, ents, s)
  {
    hide Swapped, Work, Freq;
    FitsInside(l, s, m);
    var x := LongestIn(l, s);
    SwapCheaper(l, ents, s, m, a, x);
    var l1 := Swapped(l, a, x);
    FitsInside(l1, s, m);
    assert b in s - {a};
    var y := LongestIn(l1, s - {a});
    SwapCheaper(l1, ents, s, m, b, y);
    var l2 := Swapped(l1, b, y);
    Shorten(l2, ents, s, m, a, b);
    r := l2[a := l2[b]];
  }

  lemma FitsInside(l: seq<nat>, s: set<nat>, m: nat)
    requires Fits(l, s, m)
    ensures forall i :: i in s ==> i < |l| && l[i] <= m
  {
  }

  // ----- Up the forest

  /** What the inner entries of a tree weigh together: each of them lengthens the codes below it by one. */
  function InnerSum(t: Tree, ents: seq<Heapen>): nat {
    match t
    case Leaf(_) => 0
    case Node(id, l, r) => Freq(ents, id) + InnerSum(l, ents) + InnerSum(r, ents)
  }

  function Inners(forest: map<nat, Tree>, ents: seq<Heapen>): (s: seq<nat>)
    ensures |s| == |ents|
    ensures forall i :: 0 <= i < |s| ==> s[i] == if i in forest then InnerSum(forest[i], ents) else 0
  {
    seq(|ents|, i requires 0 <= i < |ents| => if i in forest then InnerSum(forest[i], ents) else 0)
  }

  function Inner(forest: map<nat, Tree>, ents: seq<Heapen>): nat {
    SumOver(Inners(forest, ents), forest.Keys)
  }

  /** Lengths for the roots which, together with what has been merged, cost no more than `l` does for the leaves. */
  ghost predicate Covers(l: seq<nat>, m: nat, ents: seq<Heapen>, forest: map<nat, Tree>, leaves: set<nat>, up: seq<nat>) {
    && |up| == |ents| && Fits(up, forest.Keys, m)
    && Work(up, ents, forest.Keys) + Inner(forest, ents) <= Work(l, ents, leaves)
  }

  ghost predicate Afforded(l: seq<nat>, m: nat, ents: seq<Heapen>, forest: map<nat, Tree>, leaves: set<nat>) {
    exists up :: Covers(l, m, ents, forest, leaves, up)
  }

  /** No lengths for the leaves that find room beat the forest. */
  ghost predicate Frugal(ents: seq<Heapen>, asize: nat, forest: map<nat, Tree>, leaves: set<nat>) {
    forall l: seq<nat>, m: nat :: |l| == asize + 1 && Fits(l, leaves, m) ==> Afforded(l, m, ents, forest, leaves)
  }

  lemma {:induction false} InnerStays(t: Tree, ents: seq<Heapen>, later: seq<Heapen>, asize: nat)
    requires Grown(t, ents, asize) && |ents| <= |later|
    requires forall e :: 0 <= e < |ents| ==> later[e].freq == ents[e].freq
    ensures InnerSum(t, later) == InnerSum(t, ents)
  {
    if t.Node? {
      InnerStays(t.left, ents, later, asize);
      InnerStays(t.right, ents, later, asize);
    }
  }

  lemma MergedFreqs(ents: seq<Heapen>, a: nat, b: nat)
    requires a < |ents| && b < |ents| && a != b
    ensures
      var later := Merged(ents, a, b);
      && Freq(later, |ents|) == Freq(ents, a) + Freq(ents, b)
      && (forall e :: 0 <= e < |ents| ==> later[e].freq == ents[e].freq && Freq(later, e) == Freq(ents, e))
  {
  }

  lemma GroveTrees(forest: map<nat, Tree>, n: nat, a: nat, b: nat)
    requires a in forest && b in forest && n !in forest
    ensures
      var grove := MergedForest(forest, n, a, b);
      && grove.Keys == forest.Keys - {a, b} + {n} && grove[n] == Node(n, forest[a], forest[b])
      && (forall r :: r in forest && r != a && r != b ==> r in grove && grove[r] == forest[r])
  {
  }

  lemma MergedTrees(ents: seq<Heapen>, asize: nat, forest: map<nat, Tree>, a: nat, b: nat)
    requires RootsGrown(ents, asize, forest) && a in forest && b in forest && a != b
    ensures a < |ents| && b < |ents| && |ents| !in forest
    ensures forall r :: r in forest ==> r < |ents| && InnerSum(forest[r], Merged(ents, a, b)) == InnerSum(forest[r], ents)
  {
    RootInside(ents, asize, forest, a);
    RootInside(ents, asize, forest, b);
    MergedFreqs(ents, a, b);
    hide Merged, Grown, RootsGrown, InnerSum;
    forall r | r in forest ensures r < |ents| && InnerSum(forest[r], Merged(ents, a, b)) == InnerSum(forest[r], ents) {
      RootInside(ents, asize, forest, r);
      InnerStays(forest[r], ents, Merged(ents, a, b), asize);
    }
  }

  /** A merge adds the weight of the new entry. */
  lemma MergedInner(ents: seq<Heapen>, asize: nat, forest: map<nat, Tree>, a: nat, b: nat)
    requires RootsGrown(ents, asize, forest) && a in forest && b in forest && a != b
    ensures a < |ents| && b < |ents| && |ents| !in forest
    ensures Inner(MergedForest(forest, |ents|, a, b), Merged(ents, a, b)) == Inner(forest, ents) + Freq(ents, a) + Freq(ents, b)
  {
    hide RootsGrown, SumOver, Merged, Freq, MergedForest;
    MergedTrees(ents, asize, forest, a, b);
    var n, later, grove := |ents|, Merged(ents, a, b), MergedForest(forest, |ents|, a, b);
    MergedFreqs(ents, a, b);
    GroveTrees(forest, n, a, b);
    var rest := forest.Keys - {a, b};
    assert grove.Keys - {n} == rest;
    assert InnerSum(grove[n], later) == Freq(later, n) + InnerSum(forest[a], ents) + InnerSum(forest[b], ents);
    hide InnerSum;
    SumTwo(Inners(forest, ents), forest.Keys, a, b);
    SumApart(Inners(grove, later), grove.Keys, n);
    SumSame(Inners(forest, ents), Inners(grove, later), rest);
  }

  lemma RootInside(ents: seq<Heapen>, asize: nat, forest: map<nat, Tree>, r: nat)
    requires RootsGrown(ents, asize, forest) && r in forest
    ensures r < |ents| && Grown(forest[r], ents, asize)
  {
  }

  lemma HalfSpace(x: nat, m: nat)
    requires 1 <= x <= m
    ensures Share(x - 1, m) == 2 * Share(x, m)
  {
  }

  /** Two entries with equally long codes become one with a code one bit shorter. */
  lemma Joined(l: seq<nat>, ents: seq<Heapen>, s: set<nat>, m: nat, a: nat, b: nat)
    requires Fits(l, s, m) && |l| == |ents| && a in s && b in s && a != b && a < |l| && b < |l| && l[a] == l[b] >= 1
    requires |ents| !in s
    ensures
      var up, later, t := l + [l[a] - 1], Merged(ents, a, b), s - {a, b} + {|ents|};
      Fits(up, t, m) && Work(up, later, t) + Freq(ents, a) + Freq(ents, b) == Work(l, ents, s)
  {
    hide SumOver;
    FitsInside(l, s, m);
    var n, up, later := |ents|, l + [l[a] - 1], Merged(ents, a, b);
    var rest := s - {a, b};
    var t := rest + {n};
    assert t - {n} == rest;
    MergedFreqs(ents, a, b);
    HalfSpace(l[a], m);
    hide Merged, Freq, Share;
    SumTwo(Spaces(l, m), s, a, b);
    SumApart(Spaces(up, m), t, n);
    SumSame(Spaces(l, m), Spaces(up, m), rest);
    SumTwo(Works(l, ents), s, a, b);
    SumApart(Works(up, later), t, n);
    SumSame(Works(l, ents), Works(up, later), rest);
    OneLess(l[a], Freq(ents, a), Freq(ents, b));
  }

  lemma OneLess(x: nat, f: nat, g: nat)
    requires x >= 1
    ensures (x - 1) * (f + g) + f + g == x * f + x * g
  {
  }

  lemma LeavesStay(l: seq<nat>, ents: seq<Heapen>, leaves: set<nat>, a: nat, b: nat)
    requires a < |ents| && b < |ents| && a != b && |l| <= |ents|
    ensures Work(l, Merged(ents, a, b), leaves) == Work(l, ents, leaves)
  {
    MergedFreqs(ents, a, b);
    SumSame(Works(l, ents), Works(l, Merged(ents, a, b)), leaves);
  }

  lemma CoveredStep(l: seq<nat>, m: nat, ents: seq<Heapen>, asize: nat, forest: map<nat, Tree>, leaves: set<nat>, a: nat, b: nat)
    requires RootsGrown(ents, asize, forest) && a in forest && b in forest && a != b && |l| <= |ents|
    requires forall r :: r in forest.Keys ==> Freq(ents, a) <= Freq(ents, r)
    requires forall r :: r in forest.Keys && r != a ==> Freq(ents, b) <= Freq(ents, r)
    requires Afforded(l, m, ents, forest, leaves)
    ensures a < |ents| && b < |ents|
    ensures Afforded(l, m, Merged(ents, a, b), MergedForest(forest, |ents|, a, b), leaves)
  {
    hide RootsGrown, Fits, Work, Inner, Freq, Merged;
    var up :| Covers(l, m, ents, forest, leaves, up);
    MergedInner(ents, asize, forest, a, b);
    var r := Exchange(up, ents, forest.Keys, m, a, b);
    Joined(r, ents, forest.Keys, m, a, b);
    LeavesStay(l, ents, leaves, a, b);
    GroveTrees(forest, |ents|, a, b);
    hide MergedForest;
    assert Covers(l, m, Merged(ents, a, b), MergedForest(forest, |ents|, a, b), leaves, r + [r[a] - 1]);
  }

  /** Merging the two lightest roots keeps the forest unbeaten. */
  lemma FrugalStep(ents: seq<Heapen>, asize: nat, forest: map<nat, Tree>, leaves: set<nat>, a: nat, b: nat)
    requires RootsGrown(ents, asize, forest) && Frugal(ents, asize, forest, leaves) && asize < |ents|
    requires a in forest && b in forest && a != b
    requires forall r :: r in forest.Keys ==> Freq(ents, a) <= Freq(ents, r)
    requires forall r :: r in forest.Keys && r != a ==> Freq(ents, b) <= Freq(ents, r)
    ensures a < |ents| && b < |ents|
    ensures Frugal(Merged(ents, a, b), asize, MergedForest(forest, |ents|, a, b), leaves)
  {
    hide RootsGrown, Afforded, Fits, Merged, MergedForest, Freq;
    MergedTrees(ents, asize, forest, a, b);
    forall l: seq<nat>, m: nat | |l| == asize + 1 && Fits(l, leaves, m)
      ensures Afforded(l, m, Merged(ents, a, b), MergedForest(forest, |ents|, a, b), leaves)
    {
      CoveredStep(l, m, ents, asize, forest, leaves, a, b);
    }
  }

  lemma {:induction false} SumNothing(vals: seq<nat>, s: set<nat>)
    requires forall i :: 0 <= i < |vals| ==> vals[i] == 0
    ensures SumOver(vals, s) == 0
  {
    if vals != [] {
      SumNothing(vals[..|vals| - 1], s);
    }
  }

  /** Before the first merge the roots are the leaves. */
  lemma FrugalStart(ents: seq<Heapen>, asize: nat, forest: map<nat, Tree>, leaves: set<nat>)
    requires |ents| == asize + 1 && forest.Keys == leaves && forall r :: r in forest ==> forest[r] == Leaf(r)
    ensures Frugal(ents, asize, forest, leaves)
  {
    SumNothing(Inners(forest, ents), forest.Keys);
    hide Fits, Work;
    forall l: seq<nat>, m: nat | |l| == asize + 1 && Fits(l, leaves, m) ensures Afforded(l, m, ents, forest, leaves) {
      assert Covers(l, m, ents, forest, leaves, l);
    }
  }

  // ----- The finished tree

  function HopsAt(ents: seq<Heapen>, n: nat): (s: seq<nat>)
    requires Linked(ents) && n <= |ents|
    ensures |s| == n && forall i :: 0 <= i < n ==> s[i] == Hops(ents, i)
  {
    seq(n, i requires 0 <= i < n => Hops(ents, i))
  }

  /** What the inner entries of a tree weigh is what its leaves cost below it. */
  lemma {:induction false} InnerIsWork(t: Tree, ents: seq<Heapen>, asize: nat)
    requires Linked(ents) && Grown(t, ents, asize)
    ensures Work(HopsAt(ents, |ents|), ents, Leaves(t)) == InnerSum(t, ents) + Hops(ents, t.id) * Freq(ents, t.id)
  {
    hide Linked, SumOver;
    var works := Works(HopsAt(ents, |ents|), ents);
    if t.Leaf? {
      SumOverOne(works, t.id);
    } else {
      var h := Hops(ents, t.id);
      assert Hops(ents, t.left.id) == Hops(ents, t.right.id) == h + 1;
      InnerIsWork(t.left, ents, asize);
      InnerIsWork(t.right, ents, asize);
      SumOverUnion(works, Leaves(t.left), Leaves(t.right));
      OneMore(h, ents[t.left.id].freq, ents[t.right.id].freq);
    }
  }

  lemma OneMore(h: nat, f: nat, g: nat)
    ensures (h + 1) * f + (h + 1) * g == f + g + h * (f + g)
  {
  }

  lemma OneRoot(forest: map<nat, Tree>, ents: seq<Heapen>, r: nat)
    requires forest.Keys == {r} && r < |ents|
    ensures Inner(forest, ents) == InnerSum(forest[r], ents)
  {
    SumOverOne(Inners(forest, ents), r);
  }

  /** The finished tree costs no more than any lengths for its leaves that find room. */
  lemma FrugalEnd(ents: seq<Heapen>, asize: nat, forest: map<nat, Tree>, leaves: set<nat>, r: nat, l: seq<nat>, m: nat)
    requires Linked(ents) && RootsGrown(ents, asize, forest) && Frugal(ents, asize, forest, leaves)
    requires forest.Keys == {r} && Leaves(forest[r]) == leaves && asize < |ents|
    requires |l| == asize + 1 && Fits(l, leaves, m)
    ensures Work(HopsAt(ents, |ents|), ents, leaves) <= Work(l, ents, leaves)
  {
    hide Fits, Work, Inner, InnerSum, Grown, Linked;
    var up :| Covers(l, m, ents, forest, leaves, up);
    RootInside(ents, asize, forest, r);
    OneRoot(forest, ents, r);
    InnerIsWork(forest[r], ents, asize);
    RootHops(ents, asize, forest, r);
  }

  lemma RootHops(ents: seq<Heapen>, asize: nat, forest: map<nat, Tree>, r: nat)
    requires Linked(ents) && RootsGrown(ents, asize, forest) && r in forest
    ensures r < |ents| && forest[r].id == r && Hops(ents, r) == 0
  {
  }
}
