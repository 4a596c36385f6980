/** What holds of the adaptive coder's tree between symbols and on the way up from one: the sibling order, the blocks,
    and the sums of weights. */
module FgkOrder {
  import opened Arithmetic
  import opened FgkTree

  /** The nodes of the tree from the lightest to the root, where each of them stands, and the unseen symbols. */
  datatype Order = Order(ord: seq<int>, pos: seq<int>, zs: seq<int>)

  predicate In(o: Order, x: int) {
    0 <= x < |o.pos| && 0 <= o.pos[x]
  }

  ghost predicate Placed(t: Tree, o: Order) {
    && t.Sized() && |o.pos| == |t.w| && o.ord != []
    && (forall k :: 0 <= k < |o.ord| ==> t.Node(o.ord[k]) && o.pos[o.ord[k]] == k)
    && (forall x :: In(o, x) ==> o.pos[x] < |o.ord| && o.ord[o.pos[x]] == x)
    && t.root == o.ord[|o.ord| - 1]
  }

  /** Neighbours in the order are linked. */
  ghost predicate Linked(t: Tree, o: Order)
    requires Placed(t, o)
  {
    && (forall k :: 0 <= k < |o.ord| - 1 ==> t.right[o.ord[k]] == o.ord[k + 1])
    && (forall k :: 0 < k < |o.ord| ==> t.left[o.ord[k]] == o.ord[k - 1])
    && t.left[o.ord[0]] == NIL
  }

  ghost predicate Kids(t: Tree, o: Order, x: int)
    requires t.Sized() && t.Node(x) && |o.pos| == |t.w|
  {
    && In(o, t.lc[x]) && In(o, t.rc[x]) && t.lc[x] != t.rc[x]
    && o.pos[t.lc[x]] < o.pos[x] && o.pos[t.rc[x]] < o.pos[x]
    && t.par[t.lc[x]] == x && t.par[t.rc[x]] == x
  }

  ghost predicate Child(t: Tree, o: Order, x: int)
    requires t.Sized() && t.Node(x) && |o.pos| == |t.w|
  {
    In(o, t.par[x]) && t.par[x] >= t.n && (t.lc[t.par[x]] == x || t.rc[t.par[x]] == x)
  }

  /** Parents and children know each other, and children come before their parents. */
  ghost predicate Family(t: Tree, o: Order)
    requires Placed(t, o)
  {
    && (forall x :: In(o, x) && x >= t.n ==> Kids(t, o, x))
    && (forall x :: In(o, x) && x != t.root ==> Child(t, o, x))
  }

  function Weight(t: Tree, x: int): nat {
    if 0 <= x < |t.w| then t.w[x] else 0
  }

  /** An inner node weighs what its children weigh; `stale`, if it is one, lacks the occurrence being counted. */
  ghost predicate Summed(t: Tree, o: Order, stale: int)
    requires Placed(t, o)
  {
    forall x :: In(o, x) && x >= t.n ==>
      Weight(t, t.lc[x]) + Weight(t, t.rc[x]) == t.w[x] + if x == stale then 1 else 0
  }

  /** Only the head of the unseen symbols weighs nothing; it comes first, with its sibling and their parent behind it. */
  ghost predicate Lit(t: Tree, o: Order)
    requires Placed(t, o)
  {
    && (t.zeros != NIL ==> o.ord[0] == t.zeros && t.w[t.zeros] == 0)
    && (forall k :: 0 <= k < |o.ord| && (k > 0 || t.zeros == NIL) ==> t.w[o.ord[k]] > 0)
    && (t.zeros != NIL && |o.ord| >= 3 ==>
          o.ord[2] >= t.n && t.lc[o.ord[2]] == o.ord[0] && t.rc[o.ord[2]] == o.ord[1])
    && (t.zeros == NIL || |o.ord| > 1 ==> |o.ord| >= 3)
  }

  /** Weights grow along the order, leaving out the first node and the root. */
  ghost predicate Sorted(t: Tree, o: Order)
    requires Placed(t, o)
  {
    forall a, b :: 1 <= a < b <= |o.ord| - 2 ==> t.w[o.ord[a]] <= t.w[o.ord[b]]
  }

  /** The block of the node at `a` is led by the last node of the same weight. */
  ghost predicate Led(t: Tree, o: Order, a: int)
    requires Placed(t, o) && 0 <= a < |o.ord|
  {
    var b := t.blk[o.ord[a]];
    && t.Block(b)
    && var m := t.lead[b];
       && In(o, m) && a <= o.pos[m] <= |o.ord| - 2 && t.w[m] == t.w[o.ord[a]] && t.blk[m] == b
       && (o.pos[m] + 1 <= |o.ord| - 2 ==> t.w[o.ord[o.pos[m] + 1]] > t.w[m])
  }

  /** When all symbols have been seen the first node shares the block of the second, or has one to itself. */
  ghost predicate First(t: Tree, o: Order)
    requires Placed(t, o) && |o.ord| >= 3
  {
    var b := t.blk[o.ord[0]];
    && t.Block(b)
    && (if b == t.blk[o.ord[1]] then t.w[o.ord[0]] == t.w[o.ord[1]]
        else t.lead[b] == o.ord[0] && forall a :: 1 <= a <= |o.ord| - 2 ==> t.blk[o.ord[a]] != b)
  }

  /** Nodes are in one block exactly if they weigh the same; the root is in no block with others. */
  ghost predicate Grouped(t: Tree, o: Order)
    requires Placed(t, o)
  {
    && (forall a :: 1 <= a <= |o.ord| - 2 ==> Led(t, o, a))
    && (forall a, b :: 1 <= a < b <= |o.ord| - 2 ==>
          (t.blk[o.ord[a]] == t.blk[o.ord[b]] <==> t.w[o.ord[a]] == t.w[o.ord[b]]))
    && (t.zeros == NIL && |o.ord| >= 3 ==> First(t, o))
    && (forall a :: 0 <= a <= |o.ord| - 2 && (a > 0 || t.zeros == NIL) ==> t.blk[o.ord[a]] != t.blk[t.root])
  }

  predicate Named(t: Tree, o: Order, b: int) {
    exists k :: 0 <= k < |o.ord| && 0 <= o.ord[k] < |t.blk| && t.blk[o.ord[k]] == b
  }

  /** No block is both free and used, and none is lost. */
  ghost predicate Stocked(t: Tree, o: Order)
    requires Placed(t, o)
  {
    && (forall i :: 0 <= i < |t.free| ==> t.Block(t.free[i]))
    && (forall i, j :: 0 <= i < j < |t.free| ==> t.free[i] != t.free[j])
    && (forall k :: 0 <= k < |o.ord| && (k > 0 || t.zeros == NIL) ==> t.blk[o.ord[k]] !in t.free)
    && (forall b :: t.Block(b) ==> b in t.free || Named(t, o, b))
  }

  /** The list through the child links. */
  predicate Listed(t: Tree, zs: seq<int>)
    requires t.Sized()
  {
    forall k :: 0 <= k < |zs| ==> t.Node(zs[k]) && t.rc[zs[k]] == At(zs, k + 1) && t.lc[zs[k]] == At(zs, k - 1)
  }

  function At(zs: seq<int>, k: int): int {
    if 0 <= k < |zs| then zs[k] else NIL
  }

  /** The unseen symbols form a list in which every one of them is found; seen symbols are leaves of the tree. */
  ghost predicate Unseen(t: Tree, o: Order)
    requires Placed(t, o)
  {
    && (t.zeros == NIL <==> o.zs == [])
    && (o.zs != [] ==> o.zs[0] == t.zeros && |o.zs| == t.count)
    && (forall k :: 0 <= k < |o.zs| ==> 0 <= o.zs[k] < t.n && t.w[o.zs[k]] == 0)
    && (forall j, k :: 0 <= j < k < |o.zs| ==> o.zs[j] != o.zs[k])
    && Listed(t, o.zs)
    && (forall k :: 0 < k < |o.zs| ==> !In(o, o.zs[k]))
    && (forall x :: 0 <= x < t.n && t.w[x] == 0 ==> x in o.zs)
    && (forall x :: 0 <= x < t.n && t.w[x] > 0 ==> In(o, x) && t.lc[x] == NIL)
  }

  /** Unseen symbols are in no block and have no left neighbour. */
  ghost predicate Idle(t: Tree, o: Order)
    requires Placed(t, o)
  {
    forall k :: 0 <= k < |o.zs| ==> t.Node(o.zs[k]) && t.blk[o.zs[k]] == NIL && t.left[o.zs[k]] == NIL
  }

  /** How many nodes there are, and the number of unseen symbols in two parts. */
  ghost predicate Counted(t: Tree, o: Order)
    requires Placed(t, o)
  {
    && 1 <= t.count <= t.n && t.count == Pow2(t.exp) + t.rem && t.rem < Pow2(t.exp)
    && (t.zeros != NIL ==> |o.ord| == 2 * (t.n - t.count) + 1 && t.next == t.n + (t.n - t.count))
    && (forall x :: In(o, x) ==> x < t.next)
    && |o.ord| <= |t.w|
  }

  ghost predicate Inv(t: Tree, o: Order, stale: int) {
    && Placed(t, o) && Linked(t, o) && Family(t, o) && Summed(t, o, stale) && Lit(t, o) && Sorted(t, o)
    && Grouped(t, o) && Stocked(t, o) && Unseen(t, o) && Idle(t, o) && Counted(t, o)
  }

  // ----- Single facts out of the whole

  lemma KidsOf(t: Tree, o: Order, x: int)
    requires Placed(t, o) && Family(t, o) && In(o, x) && x >= t.n
    ensures Kids(t, o, x)
  {
    hide Kids, Child;
  }

  lemma ChildOf(t: Tree, o: Order, x: int)
    requires Placed(t, o) && Family(t, o) && In(o, x) && x != t.root
    ensures Child(t, o, x)
  {
    hide Kids, Child;
  }

  lemma PlacedSizes(t: Tree, o: Order)
    requires Placed(t, o)
    ensures t.Sized() && |o.pos| == |t.w| && o.ord != []
  {
  }

  lemma FamilyFrom(t: Tree, o: Order)
    requires Placed(t, o)
    requires forall x :: In(o, x) && x >= t.n ==> Kids(t, o, x)
    requires forall x :: In(o, x) && x != t.root ==> Child(t, o, x)
    ensures Family(t, o)
  {
    hide Kids, Child;
  }

  /** The unseen symbols depend on little else. */
  lemma UnseenStays(t: Tree, s: Tree, o: Order, o': Order)
    requires Placed(t, o) && Placed(s, o') && Unseen(t, o) && o'.zs == o.zs
    requires s.n == t.n && s.zeros == t.zeros && s.count == t.count
    requires forall x :: 0 <= x < t.n ==> s.lc[x] == t.lc[x] && s.rc[x] == t.rc[x] && (s.w[x] == 0 <==> t.w[x] == 0)
    requires forall x :: In(o', x) <==> In(o, x)
    ensures Unseen(s, o')
  {
    hide At;
  }

  lemma CountedStays(t: Tree, s: Tree, o: Order, o': Order)
    requires Placed(t, o) && Placed(s, o') && Counted(t, o) && |o'.ord| == |o.ord|
    requires s.n == t.n && s.zeros == t.zeros && s.count == t.count && s.exp == t.exp && s.rem == t.rem && s.next == t.next
    requires forall x :: In(o', x) <==> In(o, x)
    ensures Counted(s, o')
  {
    hide Placed;
    PlacedSizes(t, o);
    PlacedSizes(s, o');
  }

  lemma LedAt(t: Tree, o: Order, a: int)
    requires Placed(t, o) && Grouped(t, o) && 1 <= a <= |o.ord| - 2
    ensures Led(t, o, a)
  {
    hide Led;
  }

  lemma SameBlock(t: Tree, o: Order, a: int, b: int)
    requires Placed(t, o) && Grouped(t, o) && 1 <= a <= |o.ord| - 2 && 1 <= b <= |o.ord| - 2
    ensures t.blk[o.ord[a]] == t.blk[o.ord[b]] <==> t.w[o.ord[a]] == t.w[o.ord[b]]
  {
    hide Led;
  }

  lemma BlockOf(t: Tree, o: Order, a: int)
    requires Placed(t, o) && 0 <= a < |o.ord| && Led(t, o, a)
    ensures t.Block(t.blk[o.ord[a]])
  {
  }

  lemma HasWeight(t: Tree, o: Order, c: int)
    requires Placed(t, o) && Lit(t, o) && In(o, c) && t.w[c] > 0
    ensures o.pos[c] > 0 || t.zeros == NIL
  {
    assert o.ord[o.pos[c]] == c;
  }

  /** The leader of a node's block: of the same weight, not before it, the last of its weight. */
  lemma LeaderFacts(t: Tree, o: Order, x: int)
    requires Placed(t, o) && Grouped(t, o) && In(o, x) && x != t.root && |o.ord| >= 3 && (o.pos[x] > 0 || t.zeros == NIL)
    ensures t.Block(t.blk[x])
    ensures
      var m := t.lead[t.blk[x]];
      && In(o, m) && o.pos[x] <= o.pos[m] <= |o.ord| - 2 && t.w[m] == t.w[x] && t.blk[m] == t.blk[x]
      && (o.pos[m] > 0 && o.pos[m] + 1 <= |o.ord| - 2 ==> t.w[o.ord[o.pos[m] + 1]] > t.w[m])
      && (o.pos[x] == 0 && m != x ==> t.w[x] == t.w[o.ord[1]])
  {
    assert o.ord[o.pos[x]] == x;
    if o.pos[x] > 0 {
      assert Led(t, o, o.pos[x]);
    } else {
      assert First(t, o) && Led(t, o, 1);
    }
  }

  /** `c` is the last of its weight. */
  lemma LastOfWeight(t: Tree, o: Order, c: int)
    requires Placed(t, o) && Grouped(t, o) && In(o, c) && 1 <= o.pos[c] <= |o.ord| - 2
    requires t.Block(t.blk[c]) && t.lead[t.blk[c]] == c
    ensures o.pos[c] + 1 <= |o.ord| - 2 ==> t.w[o.ord[o.pos[c] + 1]] > t.w[c]
  {
    assert o.ord[o.pos[c]] == c;
    assert Led(t, o, o.pos[c]);
  }

  /** Counting `c` once more settles its own sum and makes its parent stale. */
  lemma CountedOnce(t: Tree, s: Tree, o: Order, c: int)
    requires Placed(t, o) && Placed(s, o) && Family(t, o) && Summed(t, o, c) && In(o, c) && c != t.root
    requires s.n == t.n && s.lc == t.lc && s.rc == t.rc && s.w == t.w[c := t.w[c] + 1]
    ensures Summed(s, o, t.par[c])
  {
    hide Family;
    forall x | In(o, x) && x >= s.n
      ensures Weight(s, s.lc[x]) + Weight(s, s.rc[x]) == s.w[x] + if x == t.par[c] then 1 else 0
    {
      KidsOf(t, o, x);
      ChildOf(t, o, c);
    }
  }

  lemma NotThird(t: Tree, o: Order, f: int)
    requires Placed(t, o) && Lit(t, o) && Summed(t, o, f) && Sorted(t, o) && t.zeros != NIL && |o.ord| >= 4
    ensures f != o.ord[2]
  {
    assert In(o, o.ord[2]);
  }

  /** Both children of any other node weigh something. */
  lemma KidsWeigh(t: Tree, o: Order, m: int)
    requires Placed(t, o) && Family(t, o) && Lit(t, o) && In(o, m) && m >= t.n && (t.zeros == NIL || m != o.ord[2])
    requires |o.ord| >= 3
    ensures Kids(t, o, m) && t.w[t.lc[m]] > 0 && t.w[t.rc[m]] > 0
  {
    hide Family;
    KidsOf(t, o, m);
    var l, r := t.lc[m], t.rc[m];
    assert o.ord[o.pos[l]] == l && o.ord[o.pos[r]] == r;
    if t.zeros != NIL {
      KidsOf(t, o, o.ord[2]);
    }
  }

  lemma IdleStays(t: Tree, s: Tree, o: Order, o': Order)
    requires Placed(t, o) && Placed(s, o') && Idle(t, o) && o'.zs == o.zs && |s.w| == |t.w|
    requires forall k :: 0 <= k < |o.zs| && t.Node(o.zs[k]) ==>
               s.blk[o.zs[k]] == t.blk[o.zs[k]] && s.left[o.zs[k]] == t.left[o.zs[k]]
    ensures Idle(s, o')
  {
    hide Placed;
    PlacedSizes(t, o);
    PlacedSizes(s, o');
  }
}
