/** The forest that merging two lightest subtrees at a time builds, and what its final tree says about code lengths. */
module PrefixTree {
  import opened Arithmetic
  import opened BitStream
  import opened CanonicalCode
  import opened PrefixHeap

  datatype Tree = Leaf(id: nat) | Node(id: nat, left: Tree, right: Tree)

  function Leaves(t: Tree): set<nat> {
    match t
    case Leaf(id) => {id}
    case Node(_, l, r) => Leaves(l) + Leaves(r)
  }

  function Fib(n: nat): nat {
    if n == 0 then 0 else if n == 1 then 1 else Fib(n - 1) + Fib(n - 2)
  }

  function Larger(a: nat, b: nat): nat {
    if a > b then a else b
  }

  /** The tree is recorded in the entries: parent links, weights that add up, and heights. */
  predicate Grown(t: Tree, ents: seq<Heapen>, asize: nat) {
    && 0 < t.id < |ents|
    && match t {
      case Leaf(id) => id <= asize && ents[id].depth == 0
      case Node(id, l, r) =>
        && asize < id && l.id < id && r.id < id
        && Grown(l, ents, asize) && Grown(r, ents, asize) && Leaves(l) !! Leaves(r)
        && ents[l.id].parent == id && ents[r.id].parent == id
        && ents[id].freq == ents[l.id].freq + ents[r.id].freq
        && ents[id].depth == 1 + Larger(ents[l.id].depth, ents[r.id].depth)
    }
  }

  predicate Linked(ents: seq<Heapen>) {
    forall e :: 0 <= e < |ents| ==> ents[e].parent == 0 || e < ents[e].parent < |ents|
  }

  predicate RootsGrown(ents: seq<Heapen>, asize: nat, forest: map<nat, Tree>) {
    forall r :: r in forest ==> forest[r].id == r && Grown(forest[r], ents, asize) && ents[r].parent == 0
  }

  predicate Apart(forest: map<nat, Tree>) {
    forall r, q :: r in forest && q in forest && r != q ==> Leaves(forest[r]) !! Leaves(forest[q])
  }

  predicate Covered(forest: map<nat, Tree>, leaves: set<nat>) {
    && (forall r :: r in forest ==> Leaves(forest[r]) <= leaves)
    && (forall i :: i in leaves ==> exists r :: r in forest && i in Leaves(forest[r]))
  }

  /** The trees share out the leaves in use. */
  predicate Shared(forest: map<nat, Tree>, leaves: set<nat>) {
    Apart(forest) && Covered(forest, leaves)
  }

  predicate Planted(ents: seq<Heapen>, asize: nat, forest: map<nat, Tree>, leaves: set<nat>) {
    Linked(ents) && RootsGrown(ents, asize, forest) && Shared(forest, leaves)
  }

  /** Entries that got their parent earlier are not heavier. */
  predicate InTurn(ents: seq<Heapen>) {
    forall x, y :: 0 <= x < |ents| && 0 <= y < |ents| && 0 < ents[x].parent < ents[y].parent ==>
      ents[x].freq <= ents[y].freq
  }

  /** What taking the lightest roots first guarantees: `light` is the heaviest weight taken so far. */
  predicate Greedy(ents: seq<Heapen>, roots: set<nat>, light: nat) {
    && (forall r :: r in roots ==>
          && r < |ents| && ents[r].freq >= light && ents[r].freq >= Fib(ents[r].depth + 2)
          && (ents[r].depth > 0 ==> light >= Fib(ents[r].depth + 1)))
    && (forall x :: 0 <= x < |ents| && ents[x].parent > 0 ==> ents[x].freq <= light)
    && InTurn(ents)
  }

  function Merged(ents: seq<Heapen>, a: nat, b: nat): (r: seq<Heapen>)
    requires a < |ents| && b < |ents|
    ensures |r| == |ents| + 1
  {
    var n := |ents|;
    ents[a := ents[a].(parent := n)][b := ents[b].(parent := n)]
      + [Heapen(1 + Larger(ents[a].depth, ents[b].depth), ents[a].freq + ents[b].freq, 0)]
  }

  function MergedForest(forest: map<nat, Tree>, n: nat, a: nat, b: nat): map<nat, Tree>
    requires a in forest && b in forest
  {
    (forest - {a, b})[n := Node(n, forest[a], forest[b])]
  }

  /** Linking up roots does not disturb a tree, because inner nodes already have a parent. */
  lemma {:induction false} GrownStays(t: Tree, ents: seq<Heapen>, later: seq<Heapen>, asize: nat)
    requires Grown(t, ents, asize) && |ents| <= |later|
    requires forall e :: 0 <= e < |ents| ==> later[e].freq == ents[e].freq && later[e].depth == ents[e].depth
    requires forall e :: 0 <= e < |ents| && ents[e].parent != 0 ==> later[e].parent == ents[e].parent
    ensures Grown(t, later, asize)
  {
    if t.Node? {
      GrownStays(t.left, ents, later, asize);
      GrownStays(t.right, ents, later, asize);
    }
  }

  lemma MergedEntries(ents: seq<Heapen>, a: nat, b: nat)
    requires a < |ents| && b < |ents| && a != b
    ensures
      var later := Merged(ents, a, b);
      && later[|ents|] == Heapen(1 + Larger(ents[a].depth, ents[b].depth), ents[a].freq + ents[b].freq, 0)
      && later[a].parent == |ents| && later[b].parent == |ents|
      && (forall e :: 0 <= e < |ents| ==> later[e].freq == ents[e].freq && later[e].depth == ents[e].depth)
      && (forall e :: 0 <= e < |ents| && e != a && e != b ==> later[e].parent == ents[e].parent)
  {
  }

  lemma MergeGrown(ents: seq<Heapen>, asize: nat, forest: map<nat, Tree>, leaves: set<nat>, a: nat, b: nat)
    requires RootsGrown(ents, asize, forest) && Linked(ents) && asize < |ents|
    requires a in forest && b in forest && a != b && Leaves(forest[a]) !! Leaves(forest[b])
    ensures Linked(Merged(ents, a, b))
    ensures RootsGrown(Merged(ents, a, b), asize, MergedForest(forest, |ents|, a, b))
  {
    var n, later, grove := |ents|, Merged(ents, a, b), MergedForest(forest, |ents|, a, b);
    MergedEntries(ents, a, b);
    hide Merged;
    forall r | r in forest ensures Grown(forest[r], later, asize) {
      GrownStays(forest[r], ents, later, asize);
    }
    assert Grown(grove[n], later, asize);
    assert forall r :: r in grove && r != n ==> r in forest && grove[r] == forest[r] && r != a && r != b;
  }

  lemma GroveFacts(forest: map<nat, Tree>, n: nat, a: nat, b: nat)
    requires a in forest && b in forest && n !in forest
    ensures
      var grove := MergedForest(forest, n, a, b);
      && n in grove && Leaves(grove[n]) == Leaves(forest[a]) + Leaves(forest[b])
      && (forall r :: r in forest && r != a && r != b ==> r in grove)
      && (forall r :: r in grove && r != n ==> r in forest && grove[r] == forest[r] && r != a && r != b)
  {
  }

  lemma MergeApart(forest: map<nat, Tree>, n: nat, a: nat, b: nat)
    requires Apart(forest) && a in forest && b in forest && a != b && n !in forest
    ensures Apart(MergedForest(forest, n, a, b))
  {
    hide Leaves, MergedForest;
    GroveFacts(forest, n, a, b);
    var grove := MergedForest(forest, n, a, b);
    forall r, q | r in grove && q in grove && r != q ensures Leaves(grove[r]) !! Leaves(grove[q]) {
      if r == n {
        assert Leaves(forest[a]) !! Leaves(forest[q]) && Leaves(forest[b]) !! Leaves(forest[q]);
      } else if q == n {
        assert Leaves(forest[a]) !! Leaves(forest[r]) && Leaves(forest[b]) !! Leaves(forest[r]);
      }
    }
  }

  lemma MergeCovered(forest: map<nat, Tree>, n: nat, leaves: set<nat>, a: nat, b: nat)
    requires Covered(forest, leaves) && a in forest && b in forest && a != b && n !in forest
    ensures Covered(MergedForest(forest, n, a, b), leaves)
  {
    hide Leaves, MergedForest;
    GroveFacts(forest, n, a, b);
    var grove := MergedForest(forest, n, a, b);
    forall i | i in leaves ensures exists r :: r in grove && i in Leaves(grove[r]) {
      var r :| r in forest && i in Leaves(forest[r]);
      assert i in Leaves(grove[if r == a || r == b then n else r]);
    }
  }

  lemma MergePlanted(ents: seq<Heapen>, asize: nat, forest: map<nat, Tree>, leaves: set<nat>, a: nat, b: nat)
    requires Planted(ents, asize, forest, leaves) && asize < |ents|
    requires a in forest && b in forest && a != b
    ensures a < |ents| && b < |ents|
    ensures Planted(Merged(ents, a, b), asize, MergedForest(forest, |ents|, a, b), leaves)
  {
    MergeGrown(ents, asize, forest, leaves, a, b);
    MergeApart(forest, |ents|, a, b);
    MergeCovered(forest, |ents|, leaves, a, b);
  }

  lemma {:induction false} FibGrows(n: nat)
    ensures Fib(n) <= Fib(n + 1) && (n > 0 ==> Fib(n) >= 1)
  {
    if n > 0 {
      FibGrows(n - 1);
    }
  }

  lemma MergeInTurn(ents: seq<Heapen>, roots: set<nat>, light: nat, a: nat, b: nat)
    requires Greedy(ents, roots, light) && Linked(ents) && a in roots && b in roots && a != b
    requires ents[a].parent == 0 && ents[b].parent == 0 && ents[a].freq <= ents[b].freq
    ensures
      var later := Merged(ents, a, b);
      && InTurn(later)
      && (forall x :: 0 <= x < |later| && later[x].parent > 0 ==> later[x].freq <= ents[b].freq)
  {
    hide Fib;
    MergedEntries(ents, a, b);
    hide Merged;
  }

  /** Two roots and their parent-to-be are heavy enough for their heights. */
  lemma HeightWeighs(ents: seq<Heapen>, roots: set<nat>, light: nat, a: nat, b: nat)
    requires Greedy(ents, roots, light) && a in roots && b in roots && ents[a].freq <= ents[b].freq
    ensures
      var d := Larger(ents[a].depth, ents[b].depth);
      ents[b].freq >= Fib(d + 2) && ents[a].freq + ents[b].freq >= Fib(d + 3)
  {
    hide InTurn;
    var d := Larger(ents[a].depth, ents[b].depth);
    FibGrows(d + 1);
    FibGrows(d + 2);
    FibGrows(ents[a].depth + 2);
    FibGrows(ents[b].depth + 2);
    assert Fib(d + 3) == Fib(d + 2) + Fib(d + 1);
  }

  lemma MergeGreedy(ents: seq<Heapen>, roots: set<nat>, light: nat, a: nat, b: nat)
    requires Greedy(ents, roots, light) && Linked(ents) && a in roots && b in roots && a != b
    requires ents[a].parent == 0 && ents[b].parent == 0
    requires forall r :: r in roots ==> ents[a].freq <= ents[r].freq
    requires forall r :: r in roots && r != a ==> ents[b].freq <= ents[r].freq
    ensures Greedy(Merged(ents, a, b), roots - {a, b} + {|ents|}, ents[b].freq)
  {
    hide Fib, InTurn, Linked;
    HeightWeighs(ents, roots, light, a, b);
    MergeInTurn(ents, roots, light, a, b);
    MergedEntries(ents, a, b);
    hide Merged;
  }

  // ----- From the tree to the code lengths

  function Hops(ents: seq<Heapen>, p: nat): nat
    requires Linked(ents) && p < |ents|
    decreases |ents| - p
  {
    if ents[p].parent == 0 then 0 else 1 + Hops(ents, ents[p].parent)
  }

  lemma {:induction false} HopsOfLeaves(t: Tree, ents: seq<Heapen>, asize: nat, i: nat)
    requires Linked(ents) && Grown(t, ents, asize) && i in Leaves(t)
    ensures 0 < i <= asize && i < |ents|
    ensures Hops(ents, i) <= Hops(ents, t.id) + ents[t.id].depth
    ensures t.Node? ==> Hops(ents, i) > Hops(ents, t.id)
  {
    if t.Node? {
      HopsOfLeaves(if i in Leaves(t.left) then t.left else t.right, ents, asize, i);
    }
  }

  /** The sum of the values at the positions in `s`. */
  function SumOver(vals: seq<nat>, s: set<nat>): nat {
    if vals == [] then 0
    else
      var last := |vals| - 1;
      SumOver(vals[..last], s) + (if last in s then vals[last] else 0)
  }

  lemma {:induction false} SumOverUnion(vals: seq<nat>, s: set<nat>, t: set<nat>)
    requires s !! t
    ensures SumOver(vals, s + t) == SumOver(vals, s) + SumOver(vals, t)
  {
    if vals != [] {
      SumOverUnion(vals[..|vals| - 1], s, t);
    }
  }

  lemma {:induction false} SumOverSubset(vals: seq<nat>, s: set<nat>, t: set<nat>)
    requires s <= t
    ensures SumOver(vals, s) <= SumOver(vals, t)
  {
    if vals != [] {
      SumOverSubset(vals[..|vals| - 1], s, t);
    }
  }

  lemma {:induction false} SumOverOne(vals: seq<nat>, i: nat)
    ensures SumOver(vals, {i}) == if i < |vals| then vals[i] else 0
  {
    if vals != [] {
      SumOverOne(vals[..|vals| - 1], i);
    }
  }

  function Weights(ents: seq<Heapen>): (s: seq<nat>)
    ensures |s| == |ents|
  {
    seq(|ents|, i requires 0 <= i < |ents| => ents[i].freq)
  }

  lemma {:induction false} WeightOfTree(t: Tree, ents: seq<Heapen>, asize: nat)
    requires Grown(t, ents, asize)
    ensures SumOver(Weights(ents), Leaves(t)) == ents[t.id].freq
  {
    if t.Leaf? {
      SumOverOne(Weights(ents), t.id);
    } else {
      WeightOfTree(t.left, ents, asize);
      WeightOfTree(t.right, ents, asize);
      SumOverUnion(Weights(ents), Leaves(t.left), Leaves(t.right));
    }
  }

  /** The share of the code space that an entry so far down the tree takes. */
  function Share(h: nat, m: nat): nat {
    if h <= m then Pow2(m - h) else 0
  }

  function Shares(ents: seq<Heapen>, m: nat): (s: seq<nat>)
    requires Linked(ents)
    ensures |s| == |ents|
  {
    seq(|ents|, i requires 0 <= i < |ents| => Share(Hops(ents, i), m))
  }

  lemma SharesOf(ents: seq<Heapen>, m: nat, i: nat)
    requires Linked(ents)
    ensures SumOver(Shares(ents, m), {i}) == if i < |ents| then Share(Hops(ents, i), m) else 0
  {
    SumOverOne(Shares(ents, m), i);
  }

  lemma HalfShare(h: nat, m: nat)
    requires h < m
    ensures Share(h, m) == 2 * Share(h + 1, m)
  {
  }

  lemma {:induction false} ShareOfTree(t: Tree, ents: seq<Heapen>, asize: nat, m: nat)
    requires Linked(ents) && Grown(t, ents, asize)
    requires forall i :: i in Leaves(t) && i < |ents| ==> Hops(ents, i) <= m
    ensures Hops(ents, t.id) <= m
    ensures SumOver(Shares(ents, m), Leaves(t)) == Share(Hops(ents, t.id), m)
  {
    hide Shares, Share, SumOver, Linked;
    if t.Leaf? {
      SharesOf(ents, m, t.id);
    } else {
      var h := Hops(ents, t.id);
      assert Hops(ents, t.left.id) == Hops(ents, t.right.id) == 1 + h;
      ShareOfTree(t.left, ents, asize, m);
      ShareOfTree(t.right, ents, asize, m);
      SumOverUnion(Shares(ents, m), Leaves(t.left), Leaves(t.right));
      HalfShare(h, m);
    }
  }
}
