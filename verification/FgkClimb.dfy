/** The way up from a leaf that has occurred once more: every step keeps the order, and the climb ends at the root. */
module FgkClimb {
  import opened FgkTree
  import opened FgkOrder
  import opened FgkMove
  import opened FgkRise

  lemma UpwardPlace(t: Tree, o: Order, c: int)
    requires Placed(t, o) && Family(t, o) && In(o, c) && c != t.root
    ensures In(o, t.par[c]) && o.pos[c] < o.pos[t.par[c]] && t.par[c] >= t.n
  {
    hide Family;
    ChildOf(t, o, c);
    KidsOf(t, o, t.par[c]);
  }

  lemma PromoteKeepsParents(t: Tree, c: int)
    requires PromoteSafe(t, c)
    ensures Promote(t, c).par == t.par && Grown(Promote(t, c), c).par == t.par
  {
  }

  /** One step up from a node whose parent does not lead its block. */
  lemma StepKeeps(t: Tree, o: Order, c: int) returns (o': Order)
    requires Inv(t, o, c) && In(o, c) && c != t.root && |o.ord| >= 3 && t.w[c] > 0
    requires t.Block(t.blk[c]) && t.par[c] != t.lead[t.blk[c]]
    ensures StepSafe(t, c) && |o'.ord| == |o.ord|
    ensures
      var s := Step(t, c);
      && Inv(s, o', s.par[c]) && In(o', s.par[c]) && o'.pos[s.par[c]] > o.pos[c] && s.zeros == t.zeros
      && s.par[c] >= s.n
  {
    hide Inv, Promote, MoveRight;
    InvParts(t, o, c);
    o' := MoveKeeps(t, o, c);
    var m := MoveRight(t, c);
    InvParts(m, o', c);
    PlacedSizes(m, o');
    PromoteKeeps(m, o', c);
    PromoteKeepsParents(m, c);
    UpwardPlace(m, o', c);
    ZerosStay(m, c);
  }

  lemma ZerosStay(t: Tree, c: int)
    requires PromoteSafe(t, c)
    ensures Promote(t, c).zeros == t.zeros
  {
  }

  // ----- The leaf beside the unseen symbols, and its parent above it

  /** A parent of the same weight leads the block only above the unseen symbols. */
  lemma ParentLeads(t: Tree, o: Order, c: int)
    requires Inv(t, o, c) && In(o, c) && c != t.root && |o.ord| >= 3 && t.w[c] > 0
    requires t.Block(t.blk[c]) && t.par[c] == t.lead[t.blk[c]]
    ensures t.zeros != NIL && |o.ord| >= 4 && o.pos[c] == 1 && t.par[c] == o.ord[2]
    ensures t.w[o.ord[2]] == t.w[c] && t.blk[o.ord[2]] == t.blk[c]
    ensures 3 <= |o.ord| - 2 ==> t.w[o.ord[3]] > t.w[c]
  {
    hide Inv, Placed, Family, Summed, Lit, Sorted, Grouped, Stocked, Unseen, Idle, Counted, Linked;
    InvParts(t, o, c);
    PlacedSizes(t, o);
    HasWeight(t, o, c);
    LeaderFacts(t, o, c);
    UpwardPlace(t, o, c);
    EqualParent(t, o, c);
    InOrder(t, o, c);
  }

  lemma InOrder(t: Tree, o: Order, c: int)
    requires Placed(t, o) && In(o, c)
    ensures o.pos[c] < |o.ord| && o.ord[o.pos[c]] == c
    ensures |o.ord| >= 3 ==> t.Node(o.ord[2]) && o.pos[o.ord[2]] == 2 && t.Node(o.ord[1]) && o.pos[o.ord[1]] == 1
  {
  }

  lemma EqualParent(t: Tree, o: Order, c: int)
    requires Placed(t, o) && Family(t, o) && Summed(t, o, c) && Lit(t, o) && |o.ord| >= 3
    requires In(o, c) && c != t.root && t.w[c] > 0 && t.Node(t.par[c]) && t.w[t.par[c]] == t.w[c]
    ensures t.zeros != NIL && t.par[c] == o.ord[2] && c == o.ord[1]
  {
    hide Family, Summed;
    var p := t.par[c];
    ChildOf(t, o, c);
    SumAt(t, o, c, p);
    KidsOf(t, o, p);
    if t.zeros == NIL || p != o.ord[2] {
      KidsWeigh(t, o, p);
    }
  }

  lemma SumAt(t: Tree, o: Order, stale: int, x: int)
    requires Placed(t, o) && Summed(t, o, stale) && In(o, x) && x >= t.n
    ensures Weight(t, t.lc[x]) + Weight(t, t.rc[x]) == t.w[x] + if x == stale then 1 else 0
  {
  }

  /** The pair above the unseen symbols counted once more: they pass to the next block together, or keep theirs. */
  function Paired(t: Tree, c: int, p: int): Tree
    requires t.Sized() && t.Node(c) && t.Node(p) && t.Node(t.right[p])
  {
    var g := t.(w := t.w[c := t.w[c] + 1][p := t.w[p] + 1]);
    if Joins(t, p) then g.(free := [t.blk[p]] + t.free, blk := t.blk[p := t.blk[t.right[p]]][c := t.blk[t.right[p]]])
    else g
  }

  ghost predicate Pair(t: Tree, o: Order, c: int, p: int) {
    && Placed(t, o) && |o.ord| >= 4 && t.zeros != NIL && o.ord[1] == c && o.ord[2] == p && t.par[c] == p
    && t.Block(t.blk[c]) && t.lead[t.blk[c]] == p && t.blk[p] == t.blk[c] && t.w[p] == t.w[c] > 0
    && (3 <= |o.ord| - 2 ==> t.w[o.ord[3]] > t.w[c]) && t.right[p] == o.ord[3]
  }

  lemma FirstStep(t: Tree, o: Order, c: int, p: int)
    requires Pair(t, o, c, p) && Linked(t, o) && !AboveZeros(t, c) && Lit(t, o)
    ensures StepSafe(t, c) && Step(t, c) == Grown(t, c)
  {
    assert o.pos[c] == 1;
  }

  lemma SecondStep(t: Tree, o: Order, c: int, p: int)
    requires Pair(t, o, c, p) && Linked(t, o) && Lit(t, o)
    ensures StepSafe(Grown(t, c), p) && t.Node(t.right[p]) && Step(Grown(t, c), p) == Paired(t, c, p)
  {
    assert o.pos[c] == 1 && o.pos[p] == 2;
    assert t.left[p] == c && t.lc[p] == o.ord[0] == t.zeros && t.rc[p] == c;
  }

  lemma PairedPlaced(t: Tree, o: Order, c: int, p: int)
    requires Pair(t, o, c, p) && Linked(t, o) && Lit(t, o)
    ensures t.Node(t.right[p])
    ensures
      var s := Paired(t, c, p);
      Placed(s, o) && Linked(s, o) && Lit(s, o)
  {
  }

  lemma PairedSummed(t: Tree, o: Order, c: int, p: int)
    requires Pair(t, o, c, p) && Family(t, o) && Summed(t, o, c) && t.Node(t.right[p]) && Placed(Paired(t, c, p), o)
    ensures Summed(Paired(t, c, p), o, t.par[p])
  {
    hide Family, Placed, Summed;
    PlacedSizes(t, o);
    PairPlaces(t, o, c, p);
    var s := Paired(t, c, p);
    var g, h := Grown(t, c), Grown(Grown(t, c), p);
    OtherWeights(t, g, o);
    CountedOnce(t, g, o, c);
    OtherFamily(t, g, o);
    OtherWeights(t, h, o);
    CountedOnce(g, h, o, p);
    SumsCopied(h, s, o, t.par[p]);
  }

  lemma PairPlaces(t: Tree, o: Order, c: int, p: int)
    requires Pair(t, o, c, p)
    ensures Placed(t, o) && In(o, c) && In(o, p) && c != t.root && p != t.root && t.par[c] == p && c != p
    ensures t.Node(c) && t.Node(p) && o.pos[c] == 1 && o.pos[p] == 2
  {
    assert o.pos[t.root] == |o.ord| - 1;
  }

  lemma OtherWeights(t: Tree, s: Tree, o: Order)
    requires Placed(t, o) && s == t.(w := s.w) && |s.w| == |t.w|
    ensures Placed(s, o)
  {
  }

  lemma OtherFamily(t: Tree, s: Tree, o: Order)
    requires Placed(t, o) && Placed(s, o) && Family(t, o)
    requires s.n == t.n && s.root == t.root && s.par == t.par && s.lc == t.lc && s.rc == t.rc
    ensures Family(s, o)
  {
    hide Family, Placed;
    GrownFamily(t, s, o);
  }

  lemma SumsCopied(t: Tree, s: Tree, o: Order, stale: int)
    requires Placed(t, o) && Placed(s, o) && Summed(t, o, stale)
    requires s.n == t.n && s.w == t.w && s.lc == t.lc && s.rc == t.rc
    ensures Summed(s, o, stale)
  {
    hide Placed;
    PlacedSizes(t, o);
    PlacedSizes(s, o);
  }

  lemma PairedSorted(t: Tree, o: Order, c: int, p: int)
    requires Pair(t, o, c, p) && Sorted(t, o) && t.Node(t.right[p]) && Placed(Paired(t, c, p), o)
    ensures Sorted(Paired(t, c, p), o)
  {
    var s := Paired(t, c, p);
    forall a, b | 1 <= a < b <= |o.ord| - 2 ensures s.w[o.ord[a]] <= s.w[o.ord[b]] {
      if b > 3 {
        assert t.w[o.ord[3]] <= t.w[o.ord[b]];
      }
    }
  }

  /** Blocks and weights behind the pair. */
  lemma BehindPair(t: Tree, o: Order, c: int, p: int, a: int)
    requires Pair(t, o, c, p) && Sorted(t, o) && Grouped(t, o) && 3 <= a <= |o.ord| - 2
    ensures t.w[o.ord[a]] >= t.w[o.ord[3]] > t.w[c] && t.blk[o.ord[a]] != t.blk[c]
    ensures t.blk[o.ord[a]] == t.blk[o.ord[3]] <==> t.w[o.ord[a]] == t.w[o.ord[3]]
    ensures o.ord[a] != c && o.ord[a] != p && o.ord[3] != t.root
  {
    hide Grouped;
    SameBlock(t, o, 1, a);
    SameBlock(t, o, 3, a);
    assert o.pos[t.root] == |o.ord| - 1 && o.pos[c] == 1 && o.pos[p] == 2 && o.pos[o.ord[3]] == 3;
  }

  lemma PairedFar(t: Tree, o: Order, c: int, p: int, a: int)
    requires Pair(t, o, c, p) && Sorted(t, o) && Grouped(t, o) && 3 <= a <= |o.ord| - 2
    requires t.Node(t.right[p]) && Placed(Paired(t, c, p), o)
    ensures Led(Paired(t, c, p), o, a)
  {
    hide Grouped, Sorted;
    LedAt(t, o, a);
    BehindPair(t, o, c, p, a);
    BesidePair(t, o, c, p);
  }

  lemma BesidePair(t: Tree, o: Order, c: int, p: int)
    requires Pair(t, o, c, p)
    ensures o.pos[c] == 1 && o.pos[p] == 2 && t.Node(c) && t.Node(p) && o.pos[t.root] == |o.ord| - 1
  {
  }

  lemma PairedNear(t: Tree, o: Order, c: int, p: int, a: int)
    requires Pair(t, o, c, p) && Sorted(t, o) && Grouped(t, o) && 1 <= a <= 2
    requires t.Node(t.right[p]) && Placed(Paired(t, c, p), o)
    ensures Led(Paired(t, c, p), o, a)
  {
    hide Grouped, Sorted;
    BesidePair(t, o, c, p);
    if 3 <= |o.ord| - 2 {
      LedAt(t, o, 3);
      BehindPair(t, o, c, p, 3);
    }
  }

  lemma PairedWith(t: Tree, o: Order, c: int, p: int, b: int)
    requires Pair(t, o, c, p) && Sorted(t, o) && Grouped(t, o) && 3 <= b <= |o.ord| - 2
    requires t.Node(t.right[p]) && Placed(Paired(t, c, p), o)
    ensures
      var s := Paired(t, c, p);
      && s.blk[c] == s.blk[p] && s.w[c] == s.w[p] && s.blk[o.ord[b]] == t.blk[o.ord[b]] && s.w[o.ord[b]] == t.w[o.ord[b]]
      && (s.blk[c] == s.blk[o.ord[b]] <==> s.w[c] == s.w[o.ord[b]])
  {
    hide Grouped, Sorted;
    BesidePair(t, o, c, p);
    BehindPair(t, o, c, p, b);
  }

  lemma PairedRoot(t: Tree, o: Order, c: int, p: int, a: int)
    requires Pair(t, o, c, p) && Grouped(t, o) && 1 <= a <= |o.ord| - 2
    requires t.Node(t.right[p]) && Placed(Paired(t, c, p), o)
    ensures Paired(t, c, p).blk[o.ord[a]] != Paired(t, c, p).blk[t.root]
  {
    hide Led, First;
    BesidePair(t, o, c, p);
  }

  lemma PairedGrouped(t: Tree, o: Order, c: int, p: int)
    requires Pair(t, o, c, p) && Sorted(t, o) && Grouped(t, o)
    requires t.Node(t.right[p]) && Placed(Paired(t, c, p), o)
    ensures Grouped(Paired(t, c, p), o)
  {
    hide Led, First, Sorted;
    var s := Paired(t, c, p);
    BesidePair(t, o, c, p);
    forall a | 1 <= a <= |o.ord| - 2 ensures Led(s, o, a) {
      if a <= 2 {
        PairedNear(t, o, c, p, a);
      } else {
        PairedFar(t, o, c, p, a);
      }
    }
    forall a, b | 1 <= a < b <= |o.ord| - 2
      ensures s.blk[o.ord[a]] == s.blk[o.ord[b]] <==> s.w[o.ord[a]] == s.w[o.ord[b]]
    {
      PairedPairs(t, o, c, p, a, b);
    }
    forall a | 0 <= a <= |o.ord| - 2 && (a > 0 || s.zeros == NIL) ensures s.blk[o.ord[a]] != s.blk[s.root] {
      PairedRoot(t, o, c, p, a);
    }
  }

  lemma PairedPairs(t: Tree, o: Order, c: int, p: int, a: int, b: int)
    requires Pair(t, o, c, p) && Sorted(t, o) && Grouped(t, o) && 1 <= a < b <= |o.ord| - 2
    requires t.Node(t.right[p]) && Placed(Paired(t, c, p), o)
    ensures
      var s := Paired(t, c, p);
      s.blk[o.ord[a]] == s.blk[o.ord[b]] <==> s.w[o.ord[a]] == s.w[o.ord[b]]
  {
    hide Grouped, Sorted;
    BesidePair(t, o, c, p);
    if b >= 3 {
      PairedWith(t, o, c, p, b);
      if a >= 3 {
        PairedWith(t, o, c, p, a);
        SameBlock(t, o, a, b);
      }
    }
  }

  lemma PairedStocked(t: Tree, o: Order, c: int, p: int)
    requires Pair(t, o, c, p) && Sorted(t, o) && Grouped(t, o) && Stocked(t, o)
    requires t.Node(t.right[p]) && Placed(Paired(t, c, p), o)
    ensures Stocked(Paired(t, c, p), o)
  {
    hide Grouped, Sorted;
    var s := Paired(t, c, p);
    BesidePair(t, o, c, p);
    forall k | 0 < k < |o.ord| ensures s.blk[o.ord[k]] !in s.free {
      if 3 <= k <= |o.ord| - 2 {
        BehindPair(t, o, c, p, k);
      } else {
        PairRoot(t, o, c, p);
        if 3 <= |o.ord| - 2 {
          BehindPair(t, o, c, p, 3);
        }
      }
    }
    forall b | s.Block(b) ensures b in s.free || Named(s, o, b) {
      if b !in s.free {
        assert Named(t, o, b);
        var k :| 0 <= k < |o.ord| && 0 <= o.ord[k] < |t.blk| && t.blk[o.ord[k]] == b;
        assert k == 1 || k == 2 || s.blk[o.ord[k]] == b;
        assert s.blk[o.ord[1]] == b || k != 1;
        assert s.blk[o.ord[2]] == b || k != 2;
      }
    }
  }

  lemma PairRoot(t: Tree, o: Order, c: int, p: int)
    requires Pair(t, o, c, p) && Grouped(t, o)
    ensures t.blk[t.root] != t.blk[c] && o.ord[|o.ord| - 1] == t.root
  {
    hide Led, First;
  }

  /** Both steps together. */
  lemma PairKeeps(t: Tree, o: Order, c: int)
    requires Inv(t, o, c) && In(o, c) && c != t.root && |o.ord| >= 3 && t.w[c] > 0
    requires t.Block(t.blk[c]) && t.par[c] == t.lead[t.blk[c]]
    ensures StepSafe(t, c) && Step(t, c).par[c] == t.par[c] && t.par[c] != t.root && t.Node(t.par[c])
    ensures StepSafe(Step(t, c), t.par[c])
    ensures
      var p := t.par[c];
      var s := Step(Step(t, c), p);
      && Inv(s, o, s.par[p]) && In(o, s.par[p]) && o.pos[s.par[p]] > o.pos[c] + 1 && s.zeros == t.zeros
      && p >= t.n && s.par[p] >= t.n
  {
    hide Inv, Placed, Linked, Family, Summed, Lit, Sorted, Grouped, Stocked, Unseen, Idle, Counted, Step, StepSafe, Paired;
    InvParts(t, o, c);
    PlacedSizes(t, o);
    ParentLeads(t, o, c);
    InOrder(t, o, c);
    var p := t.par[c];
    NotAboveZeros(t, o, c);
    MakePair(t, o, c);
    FirstStep(t, o, c, p);
    SecondStep(t, o, c, p);
    PairPlaces(t, o, c, p);
    var s := Paired(t, c, p);
    PairedSame(t, c, p);
    PairedPlaced(t, o, c, p);
    OtherFamily(t, s, o);
    PairedSummed(t, o, c, p);
    PairedSorted(t, o, c, p);
    PairedGrouped(t, o, c, p);
    PairedStocked(t, o, c, p);
    UnseenStays(t, s, o, o);
    WeightlessList(t, o);
    IdleStays(t, s, o, o);
    CountedStays(t, s, o, o);
    UpwardPlace(t, o, c);
    UpwardPlace(t, o, p);
    AllOfIt(s, o, s.par[p]);
  }

  lemma AllOfIt(t: Tree, o: Order, stale: int)
    requires Placed(t, o) && Linked(t, o) && Family(t, o) && Summed(t, o, stale) && Lit(t, o) && Sorted(t, o)
    requires Grouped(t, o) && Stocked(t, o) && Unseen(t, o) && Idle(t, o) && Counted(t, o)
    ensures Inv(t, o, stale)
  {
  }

  lemma PairedSame(t: Tree, c: int, p: int)
    requires t.Sized() && t.Node(c) && t.Node(p) && t.Node(t.right[p])
    ensures
      var s := Paired(t, c, p);
      && s.n == t.n && s.root == t.root && s.par == t.par && s.lc == t.lc && s.rc == t.rc && s.zeros == t.zeros
      && s.count == t.count && s.exp == t.exp && s.rem == t.rem && s.next == t.next && |s.w| == |t.w|
      && Grown(t, c).par == t.par && s.left == t.left
      && (forall x :: t.Node(x) && x != c && x != p ==> s.blk[x] == t.blk[x])
      && (t.w[c] > 0 && t.w[p] > 0 ==> forall x :: t.Node(x) ==> (s.w[x] == 0 <==> t.w[x] == 0))
  {
  }

  lemma MakePair(t: Tree, o: Order, c: int)
    requires Placed(t, o) && Linked(t, o) && In(o, c) && |o.ord| >= 4 && t.zeros != NIL && o.pos[c] == 1
    requires t.par[c] == o.ord[2] && t.w[o.ord[2]] == t.w[c] > 0 && t.blk[o.ord[2]] == t.blk[c]
    requires t.Block(t.blk[c]) && t.par[c] == t.lead[t.blk[c]] && (3 <= |o.ord| - 2 ==> t.w[o.ord[3]] > t.w[c])
    ensures Pair(t, o, c, t.par[c]) && t.Node(t.right[t.par[c]])
  {
  }

  // ----- To the root

  lemma GrownRoot(t: Tree, o: Order)
    requires Inv(t, o, t.root) && |o.ord| >= 3
    ensures t.Node(t.root) && Inv(Grown(t, t.root), o, NIL)
  {
    hide Placed, Linked, Family, Summed, Lit, Sorted, Grouped, Stocked, Unseen, Idle, Counted;
    PlacedSizes(t, o);
    RootOnly(t, o);
    RootInner(t, o);
    var s := Grown(t, t.root);
    GrownFamily(t, s, o);
    GrownStocked(t, s, o);
    RootSummed(t, o);
    RootGrouped(t, o);
    RootUnseen(t, o);
    CountedStays(t, s, o, o);
    IdleStays(t, s, o, o);
  }

  lemma RootOnly(t: Tree, o: Order)
    requires Placed(t, o)
    ensures t.Node(t.root) && Placed(Grown(t, t.root), o)
    ensures Linked(t, o) ==> Linked(Grown(t, t.root), o)
    ensures Sorted(t, o) ==> Sorted(Grown(t, t.root), o)
    ensures Lit(t, o) && (t.zeros != NIL ==> |o.ord| >= 3) ==> Lit(Grown(t, t.root), o)
    ensures t.root == o.ord[|o.ord| - 1]
  {
    assert o.pos[t.root] == |o.ord| - 1;
  }

  lemma RootInner(t: Tree, o: Order)
    requires Placed(t, o) && Family(t, o) && |o.ord| >= 3
    ensures t.root >= t.n
  {
    hide Family;
    var y := o.ord[|o.ord| - 2];
    assert o.pos[y] == |o.ord| - 2 && o.pos[t.root] == |o.ord| - 1;
    UpwardPlace(t, o, y);
  }

  lemma RootSummed(t: Tree, o: Order)
    requires Placed(t, o) && Family(t, o) && Summed(t, o, t.root) && t.Node(t.root) && Placed(Grown(t, t.root), o)
    ensures Summed(Grown(t, t.root), o, NIL)
  {
    hide Family, Placed;
    PlacedSizes(t, o);
    var s := Grown(t, t.root);
    forall x | In(o, x) && x >= s.n
      ensures Weight(s, s.lc[x]) + Weight(s, s.rc[x]) == s.w[x] + if x == NIL then 1 else 0
    {
      KidsOf(t, o, x);
      BelowRoot(t, o, x);
    }
  }

  lemma BelowRoot(t: Tree, o: Order, x: int)
    requires Placed(t, o) && In(o, x) && Kids(t, o, x)
    ensures t.lc[x] != t.root && t.rc[x] != t.root
  {
  }

  lemma RootLed(t: Tree, o: Order, a: int)
    requires Placed(t, o) && Placed(Grown(t, t.root), o) && 0 <= a <= |o.ord| - 2 && Led(t, o, a)
    ensures Led(Grown(t, t.root), o, a)
  {
    assert o.pos[t.root] == |o.ord| - 1;
  }

  lemma RootGrouped(t: Tree, o: Order)
    requires Placed(t, o) && Grouped(t, o) && t.Node(t.root) && Placed(Grown(t, t.root), o)
    ensures Grouped(Grown(t, t.root), o)
  {
    hide Led;
    assert o.pos[t.root] == |o.ord| - 1;
    forall a | 1 <= a <= |o.ord| - 2 ensures Led(Grown(t, t.root), o, a) {
      RootLed(t, o, a);
    }
  }

  lemma RootUnseen(t: Tree, o: Order)
    requires Placed(t, o) && Unseen(t, o) && t.Node(t.root) && Placed(Grown(t, t.root), o) && t.root >= t.n
    ensures Unseen(Grown(t, t.root), o)
  {
    hide Unseen;
    UnseenStays(t, Grown(t, t.root), o, o);
  }

  lemma NextHasWeight(t: Tree, o: Order, x: int)
    requires Placed(t, o) && Lit(t, o) && In(o, x) && o.pos[x] > 0
    ensures t.w[x] > 0
  {
    assert o.ord[o.pos[x]] == x;
  }

  lemma ClimbOn(t: Tree, c: int, fuel: nat)
    requires StepSafe(t, c) && c != t.root && fuel > 0
    ensures t.Sized() && t.Node(c) && Climb(t, c, fuel) == Climb(Step(t, c), Step(t, c).par[c], fuel - 1)
    ensures Climbs(t, c, fuel) == Climbs(Step(t, c), Step(t, c).par[c], fuel - 1)
  {
    hide Step;
  }

  lemma AtRoot(t: Tree, fuel: nat)
    requires t.Sized() && t.Node(t.root)
    ensures Climb(t, t.root, fuel) == Grown(t, t.root) && Climbs(t, t.root, fuel)
  {
  }

  lemma Onward(t: Tree, o: Order, x: int, c: int)
    requires Inv(t, o, x) && In(o, x) && o.pos[x] > 0
    ensures t.Node(x) && t.w[x] > 0
  {
    hide Placed, Linked, Family, Summed, Sorted, Grouped, Stocked, Unseen, Idle, Counted, Lit;
    PlacedSizes(t, o);
    NextHasWeight(t, o, x);
  }

  /** A step counts one node, and the root only if it is that node. */
  lemma StepAside(t: Tree, c: int)
    requires StepSafe(t, c)
    ensures t.Sized() && t.Node(c) && Step(t, c).w == t.w[c := t.w[c] + 1] && Step(t, c).root == t.root
  {
  }

  /** On the way up at `x`, with enough fuel to get to the root. */
  ghost predicate Underway(t: Tree, o: Order, x: int, fuel: nat) {
    && Inv(t, o, x) && In(o, x) && Weight(t, x) > 0 && |o.ord| >= 3 && fuel + o.pos[x] >= |o.ord|
  }

  function Total(t: Tree): nat {
    Weight(t, t.root)
  }

  /** The leaves count the occurrences: that of `c`, if it is one, one more. */
  predicate OneMore(t: Tree, s: Tree, c: int) {
    s.n == t.n && forall y :: 0 <= y < t.n ==> Weight(s, y) == Weight(t, y) + if y == c then 1 else 0
  }

  lemma StepCounts(t: Tree, s: Tree, c: int)
    requires t.Sized() && t.Node(c) && s.n == t.n && s.w == t.w[c := t.w[c] + 1]
    ensures OneMore(t, s, c)
  {
  }

  /** Above the leaves the way up does not change their counts. */
  lemma OneMoreThen(t: Tree, s: Tree, s': Tree, c: int, p: int)
    requires OneMore(t, s, c) && OneMore(s, s', p) && p >= t.n
    ensures OneMore(t, s', c)
  {
  }

  lemma StillUnderway(t: Tree, o: Order, x: int, fuel: nat)
    requires Inv(t, o, x) && In(o, x) && o.pos[x] > 0 && |o.ord| >= 3 && fuel + o.pos[x] >= |o.ord|
    ensures Underway(t, o, x, fuel)
  {
    hide Inv;
    Onward(t, o, x, x);
  }

  lemma UnderwayFacts(t: Tree, o: Order, c: int, fuel: nat)
    requires Underway(t, o, c, fuel) && c != t.root
    ensures Inv(t, o, c) && In(o, c) && Placed(t, o) && t.Sized() && t.Node(c) && t.Node(t.root) && t.w[c] > 0
    ensures t.Block(t.blk[c]) && |o.ord| >= 3 && fuel >= 2 && fuel + o.pos[c] >= |o.ord| && o.pos[c] < |o.ord|
  {
    hide Linked, Family, Summed, Lit, Sorted, Grouped, Stocked, Unseen, Idle, Counted;
    assert o.ord[o.pos[c]] == c && o.pos[t.root] == |o.ord| - 1;
    HasWeight(t, o, c);
    LeaderFacts(t, o, c);
  }

  lemma NextAlone(t: Tree, o: Order, c: int, fuel: nat) returns (o': Order)
    requires Underway(t, o, c, fuel) && c != t.root
    requires t.Sized() && t.Node(c) && t.Block(t.blk[c]) && t.par[c] != t.lead[t.blk[c]]
    ensures StepSafe(t, c)
    ensures Underway(Step(t, c), o', Step(t, c).par[c], fuel - 1) && fuel > 0
    ensures Climb(t, c, fuel) == Climb(Step(t, c), Step(t, c).par[c], fuel - 1)
    ensures Climbs(t, c, fuel) == Climbs(Step(t, c), Step(t, c).par[c], fuel - 1)
    ensures Step(t, c).root == t.root && Total(Step(t, c)) == Total(t)
    ensures OneMore(t, Step(t, c), c) && Step(t, c).par[c] >= t.n
  {
    hide Underway, Inv, Step, StepSafe, Climb, Climbs, OneMore;
    UnderwayFacts(t, o, c, fuel);
    o' := StepKeeps(t, o, c);
    StepAside(t, c);
    StepCounts(t, Step(t, c), c);
    ClimbOn(t, c, fuel);
    StillUnderway(Step(t, c), o', Step(t, c).par[c], fuel - 1);
  }

  lemma NextPair(t: Tree, o: Order, c: int, fuel: nat) returns (s: Tree, x: int)
    requires Underway(t, o, c, fuel) && c != t.root
    requires t.Sized() && t.Node(c) && t.Block(t.blk[c]) && t.par[c] == t.lead[t.blk[c]]
    ensures fuel >= 2 && Underway(s, o, x, fuel - 2) && Climb(t, c, fuel) == Climb(s, x, fuel - 2)
    ensures s.Sized() && Climbs(t, c, fuel) == Climbs(s, x, fuel - 2)
    ensures s.root == t.root && Total(s) == Total(t) && OneMore(t, s, c) && x >= t.n
  {
    hide Underway, Inv, Step, StepSafe, Climb, Climbs, OneMore;
    UnderwayFacts(t, o, c, fuel);
    PairKeeps(t, o, c);
    var p := t.par[c];
    s, x := Step(Step(t, c), p), Step(Step(t, c), p).par[p];
    StepAside(t, c);
    StepAside(Step(t, c), p);
    StepCounts(t, Step(t, c), c);
    StepCounts(Step(t, c), s, p);
    OneMoreThen(t, Step(t, c), s, c, p);
    ClimbOn(t, c, fuel);
    ClimbOn(Step(t, c), p, fuel - 1);
    StillUnderway(s, o, x, fuel - 2);
  }

  /** The climb reaches the root, and what it leaves is a tree in order again, with one more occurrence. */
  lemma {:induction false} ClimbKeeps(t: Tree, o: Order, c: int, fuel: nat) returns (o': Order)
    requires Underway(t, o, c, fuel)
    ensures t.Sized() && Climbs(t, c, fuel) && Inv(Climb(t, c, fuel), o', NIL)
    ensures
      var s := Climb(t, c, fuel);
      s.root == t.root && Total(s) == Total(t) + 1 && OneMore(t, s, c)
    decreases fuel
  {
    hide Underway, Inv, Climb, Climbs, Step, Total, OneMore;
    if c == t.root {
      o' := o;
      RootClimbs(t, o, fuel);
    } else {
      UnderwayFacts(t, o, c, fuel);
      if t.par[c] == t.lead[t.blk[c]] {
        var s, x := NextPair(t, o, c, fuel);
        o' := ClimbKeeps(s, o, x, fuel - 2);
        OneMoreThen(t, s, Climb(t, c, fuel), c, x);
      } else {
        var o1 := NextAlone(t, o, c, fuel);
        o' := ClimbKeeps(Step(t, c), o1, Step(t, c).par[c], fuel - 1);
        OneMoreThen(t, Step(t, c), Climb(t, c, fuel), c, Step(t, c).par[c]);
      }
    }
  }

  lemma RootClimbs(t: Tree, o: Order, fuel: nat)
    requires Underway(t, o, t.root, fuel)
    ensures t.Sized() && Climbs(t, t.root, fuel) && Inv(Climb(t, t.root, fuel), o, NIL)
    ensures
      var s := Climb(t, t.root, fuel);
      s.root == t.root && Total(s) == Total(t) + 1 && OneMore(t, s, t.root)
  {
    hide Inv, Climb, Climbs, OneMore;
    GrownRoot(t, o);
    InvParts(t, o, t.root);
    PlacedSizes(t, o);
    AtRoot(t, fuel);
    StepCounts(t, Grown(t, t.root), t.root);
  }
}
