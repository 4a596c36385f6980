/** Weights that double from symbol to symbol give the deepest tree, so that a limit on the lengths is exceeded. */
module PrefixDepth {
  import opened Arithmetic
  import opened CanonicalCode
  import opened PrefixHeap
  import opened PrefixTree
  import opened PrefixBuilder

  function UpTo(k: nat): (s: set<nat>)
    ensures forall i :: i in s <==> 1 <= i <= k
  {
    if k == 0 then {} else UpTo(k - 1) + {k}
  }

  ghost predicate Doubling(ents: seq<Heapen>, k: nat) {
    k < |ents| && forall i :: 1 <= i <= k ==> ents[i].freq == Pow2(i - 1)
  }

  lemma {:induction false} AllBefore(ents: seq<Heapen>, k: nat, n: nat)
    requires Doubling(ents, k) && k < n <= |ents|
    ensures SumOver(Weights(ents)[..n], UpTo(k)) == Pow2(k) - 1
    decreases k, n
  {
    var vals := Weights(ents)[..n];
    assert vals[..n - 1] == Weights(ents)[..n - 1];
    if n > k + 1 {
      AllBefore(ents, k, n - 1);
    } else if k == 0 {
      NoneIn(vals, UpTo(0));
    } else {
      AllBefore(ents, k - 1, k);
      SameBelow(vals[..k], UpTo(k), UpTo(k - 1));
    }
  }

  lemma {:induction false} NoneIn(vals: seq<nat>, s: set<nat>)
    requires s == {}
    ensures SumOver(vals, s) == 0
  {
    if vals != [] {
      NoneIn(vals[..|vals| - 1], s);
    }
  }

  lemma {:induction false} SameBelow(vals: seq<nat>, s: set<nat>, t: set<nat>)
    requires forall i :: 0 <= i < |vals| ==> (i in s <==> i in t)
    ensures SumOver(vals, s) == SumOver(vals, t)
  {
    if vals != [] {
      SameBelow(vals[..|vals| - 1], s, t);
    }
  }

  /** A tree without the heaviest leaf is lighter than that leaf alone. */
  lemma LighterThanLast(t: Tree, ents: seq<Heapen>, asize: nat, k: nat)
    requires Grown(t, ents, asize) && Doubling(ents, k) && 1 <= k && Leaves(t) <= UpTo(k - 1)
    ensures ents[t.id].freq < Pow2(k - 1)
  {
    WeightOfTree(t, ents, asize);
    SumOverSubset(Weights(ents), Leaves(t), UpTo(k - 1));
    AllBefore(ents, k - 1, |ents|);
    assert Weights(ents)[..|ents|] == Weights(ents);
  }

  lemma HeavyWithLast(t: Tree, ents: seq<Heapen>, asize: nat, k: nat)
    requires Grown(t, ents, asize) && Doubling(ents, k) && k >= 1 && k in Leaves(t)
    ensures ents[t.id].freq >= Pow2(k - 1)
  {
    WeightOfTree(t, ents, asize);
    SumOverSubset(Weights(ents), {k}, Leaves(t));
    SumOverOne(Weights(ents), k);
  }

  /** What was taken to make one child of a node is not heavier than the other child. */
  lemma TakenEarlier(t: Tree, ents: seq<Heapen>, asize: nat, with: Tree, other: Tree, part: Tree)
    requires Linked(ents) && InTurn(ents) && Grown(t, ents, asize) && t.Node?
    requires (with == t.left && other == t.right) || (with == t.right && other == t.left)
    requires with.Node? && (part == with.left || part == with.right)
    ensures part.id < |ents| && other.id < |ents| && ents[part.id].freq <= ents[other.id].freq
    ensures Grown(part, ents, asize)
  {
    assert ents[part.id].parent == with.id < t.id == ents[other.id].parent;
  }

  /** The heaviest leaf hangs right under the root. */
  lemma LastOnTop(t: Tree, ents: seq<Heapen>, asize: nat, k: nat, with: Tree, other: Tree)
    requires Linked(ents) && InTurn(ents) && Grown(t, ents, asize) && Doubling(ents, k) && k >= 1
    requires t.Node? && ((with == t.left && other == t.right) || (with == t.right && other == t.left))
    requires Leaves(t) == UpTo(k) && k in Leaves(with)
    ensures with == Leaf(k) && Leaves(other) == UpTo(k - 1)
  {
    assert Leaves(other) <= UpTo(k - 1);
    LighterThanLast(other, ents, asize, k);
    if with.Node? {
      var part := if k in Leaves(with.left) then with.left else with.right;
      TakenEarlier(t, ents, asize, with, other, part);
      HeavyWithLast(part, ents, asize, k);
    }
  }

  lemma {:induction false} DoublingDepth(t: Tree, ents: seq<Heapen>, asize: nat, k: nat)
    requires Linked(ents) && InTurn(ents) && Grown(t, ents, asize) && Doubling(ents, k) && k >= 1
    requires Leaves(t) == UpTo(k)
    ensures Hops(ents, 1) == Hops(ents, t.id) + k - 1
    decreases k
  {
    if t.Leaf? {
      assert 1 in UpTo(k) && k in UpTo(k);
    } else {
      var with, other := if k in Leaves(t.left) then t.left else t.right, if k in Leaves(t.left) then t.right else t.left;
      LastOnTop(t, ents, asize, k, with, other);
      SomeLeaf(other);
      assert k > 1;
      DoublingDepth(other, ents, asize, k - 1);
    }
  }

  lemma {:induction false} SomeLeaf(t: Tree)
    ensures Leaves(t) != {}
  {
    if t.Node? {
      SomeLeaf(t.left);
    }
  }

  /** The first `k` symbols have weights one, two, four and so on, and the others do not occur. */
  predicate Doubles(w: seq<nat>, k: nat) {
    k <= |w| && forall i :: 0 <= i < |w| ==> w[i] == if i < k then Pow2(i) else 0
  }

  lemma DoublesInUse(w: seq<nat>, k: nat)
    requires Doubles(w, k)
    ensures InUse(w) == UpTo(k)
  {
    forall i | 1 <= i <= |w| ensures Weighs(w, i) <==> i <= k {
      assert w[i - 1] == if i - 1 < k then Pow2(i - 1) else 0;
    }
  }

  /** The first of `k` symbols with doubling weights gets a code of `k - 1` bits. */
  lemma DoublingLength(clen: seq<nat>, w: seq<nat>, k: nat)
    requires Huffman(clen, w) && Doubles(w, k) && k >= 1
    ensures |clen| == |w| && clen[0] == k - 1
  {
    var ents: seq<Heapen>, t: Tree :| ByTree(clen, w, ents, t);
    DoublesInUse(w, k);
    forall i | 1 <= i <= k ensures ents[i].freq == Pow2(i - 1) {
      assert w[i - 1] == Pow2(i - 1);
    }
    DoublingDepth(t, ents, |w|, k);
    assert w[0] == 1 && clen[0] == LengthOf(w, ents, 0);
  }

  lemma {:induction false} DoublesTotal(w: seq<nat>, k: nat, n: nat)
    requires Doubles(w, k) && n <= |w|
    ensures Total(w[..n]) == Pow2(if n < k then n else k) - 1
  {
    if n > 0 {
      DoublesTotal(w, k, n - 1);
      assert w[..n][..n - 1] == w[..n - 1];
    }
  }

  /** More symbols with doubling weights than the limit has bits, and one more, have to be rescaled. */
  lemma DoublingIsTooLong(clen: seq<nat>, freq: seq<nat>, k: nat, maxlen: nat)
    requires freq != [] && Huffman(clen, Weighted(freq)) && AtMost(clen, maxlen)
    requires Doubles(freq, k) && k >= 2
    ensures k <= maxlen + 1
  {
    hide Huffman;
    DoublesInUse(freq, k);
    assert {1, 2} <= UpTo(k);
    SubsetSize({1, 2}, UpTo(k));
    DoublingLength(clen, freq, k);
  }
}
