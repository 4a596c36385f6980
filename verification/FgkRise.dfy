/** The leader of a block passes to the next weight: the order, the blocks and the sums of weights survive. */
module FgkRise {
  import opened FgkTree
  import opened FgkOrder

  /** `c` leads its block from place `j`; `y` is to its left and weighs something. */
  ghost predicate CanRise(t: Tree, o: Order, c: int, y: int) {
    && Placed(t, o) && |o.ord| >= 3 && In(o, c) && 1 <= o.pos[c] <= |o.ord| - 2
    && t.Block(t.blk[c]) && t.lead[t.blk[c]] == c
    && y == o.ord[o.pos[c] - 1] && (t.zeros != NIL ==> o.pos[c] >= 2)
  }

  /** The tree with `c` in its new block, counted once more. */
  function Risen(t: Tree, c: int): (s: Tree)
    requires t.Sized() && t.Node(c) && t.Block(t.blk[c]) && t.Node(t.left[c]) && t.Node(t.right[c])
    requires Joins(t, c) || t.blk[t.left[c]] != t.blk[c] || (t.free != [] && t.Block(t.free[0]))
  {
    Grown(EnterBlock(LeftBlock(t, c), c), c)
  }

  ghost predicate Rising(t: Tree, s: Tree, o: Order, c: int, y: int) {
    && CanRise(t, o, c, y) && t.left[c] == y && t.right[c] == o.ord[o.pos[c] + 1]
    && (Joins(t, c) || t.blk[y] != t.blk[c] || (t.free != [] && t.Block(t.free[0])))
    && s == Risen(t, c)
  }

  /** What rising does to weights and blocks. */
  lemma RisenParts(t: Tree, s: Tree, o: Order, c: int, y: int)
    requires Rising(t, s, o, c, y)
    ensures
      var b, r := t.blk[c], t.right[c];
      var lead := if t.blk[y] == b then t.lead[b := y] else t.lead;
      var free := if t.blk[y] == b then t.free else [b] + t.free;
      && s == t.(w := t.w[c := t.w[c] + 1], blk := s.blk, lead := s.lead, free := s.free)
      && (Joins(t, c) ==> s.blk == t.blk[c := t.blk[r]] && s.lead == lead && s.free == free)
      && (!Joins(t, c) ==> free != [] && s.blk == t.blk[c := free[0]] && t.Block(free[0])
                           && s.lead == lead[free[0] := c] && s.free == free[1..])
      && |s.lead| == |t.lead| && |s.blk| == |t.blk|
  {
  }

  lemma RisenPlaced(t: Tree, s: Tree, o: Order, c: int, y: int)
    requires Rising(t, s, o, c, y) && Linked(t, o)
    ensures Placed(s, o) && Linked(s, o)
  {
    hide Risen;
    RisenParts(t, s, o, c, y);
  }

  lemma RisenFamily(t: Tree, s: Tree, o: Order, c: int, y: int)
    requires Rising(t, s, o, c, y) && Family(t, o) && Placed(s, o)
    ensures Family(s, o)
  {
    hide Family, Risen, Placed;
    RisenParts(t, s, o, c, y);
    PlacedSizes(s, o);
    forall x | In(o, x) && x >= s.n ensures Kids(s, o, x) {
      KidsOf(t, o, x);
    }
    forall x | In(o, x) && x != s.root ensures Child(s, o, x) {
      ChildOf(t, o, x);
    }
    assert Family(s, o) by {
      FamilyFrom(s, o);
    }
  }

  lemma RisenLit(t: Tree, s: Tree, o: Order, c: int, y: int)
    requires Rising(t, s, o, c, y) && Lit(t, o) && Placed(s, o)
    ensures Lit(s, o)
  {
    hide Risen;
    RisenParts(t, s, o, c, y);
  }

  lemma RisenSorted(t: Tree, s: Tree, o: Order, c: int, y: int)
    requires Rising(t, s, o, c, y) && Grouped(t, o) && Sorted(t, o) && Placed(s, o)
    ensures Sorted(s, o)
  {
    hide Risen, Grouped;
    RisenParts(t, s, o, c, y);
    LastOfWeight(t, o, c);
    forall a, b | 1 <= a < b <= |o.ord| - 2 ensures s.w[o.ord[a]] <= s.w[o.ord[b]] {
      if a == o.pos[c] && b > a + 1 {
        assert t.w[o.ord[a + 1]] <= t.w[o.ord[b]];
      }
    }
  }

  lemma WeightlessList(t: Tree, o: Order)
    requires Placed(t, o) && Unseen(t, o)
    ensures forall k :: 0 <= k < |o.zs| ==> t.Node(o.zs[k]) && t.w[o.zs[k]] == 0
  {
    hide Listed;
  }

  lemma RisenUnseen(t: Tree, s: Tree, o: Order, c: int, y: int)
    requires Rising(t, s, o, c, y) && Unseen(t, o) && Idle(t, o) && Counted(t, o) && Placed(s, o) && t.w[c] > 0
    ensures Unseen(s, o) && Idle(s, o) && Counted(s, o)
  {
    hide Risen, Unseen, Idle, Counted;
    RisenParts(t, s, o, c, y);
    WeightlessList(t, o);
    IdleStays(t, s, o, o);
    UnseenStays(t, s, o, o);
    CountedStays(t, s, o, o);
  }

  /** Who shares the block of `c` stands to its left, next to it, and weighs the same. */
  lemma BlockMates(t: Tree, o: Order, c: int, y: int, a: int)
    requires CanRise(t, o, c, y) && Grouped(t, o) && Sorted(t, o) && t.w[c] > 0
    requires 0 <= a <= |o.ord| - 1 && a != o.pos[c] && (a > 0 || t.zeros == NIL)
    ensures t.blk[o.ord[a]] == t.blk[c] ==> a < o.pos[c] && t.w[o.ord[a]] == t.w[c] && t.blk[y] == t.blk[c]
  {
    var j := o.pos[c];
    assert o.ord[j] == c && o.ord[|o.ord| - 1] == t.root;
    LastOfWeight(t, o, c);
    if t.blk[o.ord[a]] == t.blk[c] && a <= |o.ord| - 2 {
      if a == 0 {
        assert First(t, o);
        SharedFirst(t, o, c, y);
      } else {
        assert t.w[o.ord[a]] == t.w[c];
        BetweenEqual(t, o, a, j);
      }
    }
  }

  lemma BetweenEqual(t: Tree, o: Order, a: int, j: int)
    requires Placed(t, o) && Grouped(t, o) && Sorted(t, o)
    requires 1 <= a <= |o.ord| - 2 && 1 <= j <= |o.ord| - 2 && a != j && t.w[o.ord[a]] == t.w[o.ord[j]]
    requires j + 1 <= |o.ord| - 2 ==> t.w[o.ord[j + 1]] > t.w[o.ord[j]]
    ensures a < j && t.blk[o.ord[j - 1]] == t.blk[o.ord[j]]
  {
    HeavierBehind(t, o, a, j);
    assert t.w[o.ord[a]] <= t.w[o.ord[j - 1]] <= t.w[o.ord[j]];
  }

  lemma HeavierBehind(t: Tree, o: Order, a: int, j: int)
    requires Placed(t, o) && Sorted(t, o) && 1 <= a <= |o.ord| - 2 && 1 <= j <= |o.ord| - 2
    requires j + 1 <= |o.ord| - 2 ==> t.w[o.ord[j + 1]] > t.w[o.ord[j]]
    ensures a > j ==> t.w[o.ord[a]] > t.w[o.ord[j]]
  {
    if a > j + 1 {
      assert t.w[o.ord[j + 1]] <= t.w[o.ord[a]];
    }
  }

  lemma SharedFirst(t: Tree, o: Order, c: int, y: int)
    requires CanRise(t, o, c, y) && Grouped(t, o) && Sorted(t, o) && t.zeros == NIL
    requires t.blk[o.ord[0]] == t.blk[c]
    ensures t.w[o.ord[0]] == t.w[c] && t.blk[y] == t.blk[c]
  {
    var j := o.pos[c];
    assert o.ord[j] == c && First(t, o);
    LastOfWeight(t, o, c);
    if j > 1 {
      assert t.blk[o.ord[1]] == t.blk[o.ord[j]];
      BetweenEqual(t, o, 1, j);
    }
  }

  /** A new block is no other node's. */
  lemma FreshBlock(t: Tree, s: Tree, o: Order, c: int, y: int, a: int)
    requires Rising(t, s, o, c, y) && Grouped(t, o) && Sorted(t, o) && Stocked(t, o) && t.w[c] > 0 && !Joins(t, c)
    requires 0 <= a <= |o.ord| - 1 && a != o.pos[c] && (a > 0 || t.zeros == NIL)
    ensures t.blk[o.ord[a]] != s.blk[c]
  {
    hide Risen, Grouped, Sorted;
    RisenParts(t, s, o, c, y);
    BlockMates(t, o, c, y, a);
  }

  /** The block that `c` joins is its right neighbour's. */
  lemma JoinedBlock(t: Tree, s: Tree, o: Order, c: int, y: int)
    requires Rising(t, s, o, c, y) && Joins(t, c)
    ensures
      var j := o.pos[c];
      j + 1 <= |o.ord| - 2 && t.w[o.ord[j + 1]] == t.w[c] + 1 && s.blk[c] == t.blk[o.ord[j + 1]]
  {
    hide Risen, Rising, Placed;
    JoinedKeeps(t, s, o, c, y);
    NotTheLast(t, s, o, c, y);
  }

  lemma NotTheLast(t: Tree, s: Tree, o: Order, c: int, y: int)
    requires Rising(t, s, o, c, y)
    ensures o.ord != [] && t.root == o.ord[|o.ord| - 1]
  {
    hide Risen;
  }

  lemma RisenAlone(t: Tree, s: Tree, o: Order, c: int, y: int)
    requires Rising(t, s, o, c, y) && Grouped(t, o) && !Joins(t, c) && Placed(s, o)
    ensures Led(s, o, o.pos[c])
  {
    hide Risen, Grouped;
    RisenParts(t, s, o, c, y);
    LastOfWeight(t, o, c);
    assert o.ord[o.pos[c]] == c;
  }

  /** The block of the right neighbour is not the one that `c` leaves, and keeps its leader. */
  lemma NextBlock(t: Tree, s: Tree, o: Order, c: int, y: int)
    requires Rising(t, s, o, c, y) && Grouped(t, o) && Joins(t, c)
    ensures
      var j := o.pos[c];
      && j + 1 <= |o.ord| - 2 && t.w[o.ord[j + 1]] == t.w[c] + 1 && Led(t, o, j + 1)
      && s.blk == t.blk[c := t.blk[o.ord[j + 1]]] && s.w == t.w[c := t.w[c] + 1]
      && t.Block(t.blk[o.ord[j + 1]]) && |s.lead| == |t.lead|
      && s.lead[t.blk[o.ord[j + 1]]] == t.lead[t.blk[o.ord[j + 1]]]
  {
    hide Risen, Rising, Grouped, Led, Placed;
    JoinedKeeps(t, s, o, c, y);
    JoinedBlock(t, s, o, c, y);
    RisingFacts(t, s, o, c, y, 0);
    LedAt(t, o, o.pos[c] + 1);
    SameBlock(t, o, o.pos[c], o.pos[c] + 1);
    BlockOf(t, o, o.pos[c] + 1);
  }

  lemma JoinedKeeps(t: Tree, s: Tree, o: Order, c: int, y: int)
    requires Rising(t, s, o, c, y) && Joins(t, c)
    ensures t.Sized() && t.Node(c) && t.Node(t.right[c]) && 0 <= c < |o.pos|
    ensures 1 <= o.pos[c] && o.pos[c] + 1 < |o.ord| && t.right[c] == o.ord[o.pos[c] + 1]
    ensures s.blk == t.blk[c := t.blk[t.right[c]]] && s.w == t.w[c := t.w[c] + 1] && |s.lead| == |t.lead|
    ensures forall b :: 0 <= b < |t.lead| && b != t.blk[c] ==> s.lead[b] == t.lead[b]
    ensures t.right[c] != t.root
  {
    hide Risen, Rising, Placed;
    RisingPlace(t, s, o, c, y);
    RisenParts(t, s, o, c, y);
  }

  lemma RisingPlace(t: Tree, s: Tree, o: Order, c: int, y: int)
    requires Rising(t, s, o, c, y)
    ensures t.Sized() && t.Node(c) && t.Node(t.right[c]) && 0 <= c < |o.pos|
    ensures 1 <= o.pos[c] && o.pos[c] + 1 < |o.ord| && t.right[c] == o.ord[o.pos[c] + 1]
  {
    hide Risen;
  }

  lemma RisenJoined(t: Tree, s: Tree, o: Order, c: int, y: int)
    requires Rising(t, s, o, c, y) && Grouped(t, o) && Joins(t, c) && Placed(s, o)
    ensures Led(s, o, o.pos[c])
  {
    hide Risen, Grouped, Rising, Joins;
    NextBlock(t, s, o, c, y);
    RisingFacts(t, s, o, c, y, 0);
    LedNext(t, s, o, c, o.pos[c]);
  }

  lemma LedNext(t: Tree, s: Tree, o: Order, c: int, j: int)
    requires Placed(t, o) && Placed(s, o) && 0 <= j < |o.ord| - 2 && o.ord[j] == c && Led(t, o, j + 1)
    requires t.w[o.ord[j + 1]] == t.w[c] + 1 && s.w == t.w[c := t.w[c] + 1]
    requires s.blk == t.blk[c := t.blk[o.ord[j + 1]]] && |s.lead| == |t.lead|
    requires t.Block(t.blk[o.ord[j + 1]]) && s.lead[t.blk[o.ord[j + 1]]] == t.lead[t.blk[o.ord[j + 1]]]
    ensures Led(s, o, j)
  {
  }

  lemma LeftBehind(t: Tree, s: Tree, o: Order, c: int, y: int, a: int)
    requires Rising(t, s, o, c, y) && Grouped(t, o) && Sorted(t, o) && Placed(s, o) && t.w[c] > 0
    requires 1 <= a <= |o.ord| - 2 && a != o.pos[c] && t.blk[o.ord[a]] == t.blk[c]
    requires s.blk[c] != t.blk[c]
    ensures Led(s, o, a)
  {
    hide Risen, Grouped, Sorted;
    RisenParts(t, s, o, c, y);
    BlockMates(t, o, c, y, a);
    BlockMates(t, o, c, y, o.pos[c] - 1);
    assert o.ord[o.pos[c]] == c && o.pos[y] == o.pos[c] - 1;
  }

  lemma Elsewhere(t: Tree, s: Tree, o: Order, c: int, y: int, a: int)
    requires Rising(t, s, o, c, y) && Grouped(t, o) && Placed(s, o)
    requires 1 <= a <= |o.ord| - 2 && a != o.pos[c] && t.blk[o.ord[a]] != t.blk[c]
    requires !Joins(t, c) ==> t.blk[o.ord[a]] != s.blk[c]
    ensures Led(s, o, a)
  {
    hide Risen, Grouped;
    RisenParts(t, s, o, c, y);
    LedAt(t, o, a);
    assert o.ord[o.pos[c]] == c;
  }

  lemma RisenLed(t: Tree, s: Tree, o: Order, c: int, y: int, a: int)
    requires Rising(t, s, o, c, y) && Grouped(t, o) && Sorted(t, o) && Stocked(t, o) && Placed(s, o) && t.w[c] > 0
    requires 1 <= a <= |o.ord| - 2
    ensures Led(s, o, a)
  {
    hide Rising, Grouped, Sorted, Stocked, Placed, Led;
    RisingFacts(t, s, o, c, y, a);
    if a == o.pos[c] {
      if Joins(t, c) {
        RisenJoined(t, s, o, c, y);
      } else {
        RisenAlone(t, s, o, c, y);
      }
    } else {
      if !Joins(t, c) {
        FreshBlock(t, s, o, c, y, a);
      } else {
        JoinedBlock(t, s, o, c, y);
        SameBlock(t, o, o.pos[c], o.pos[c] + 1);
      }
      if t.blk[o.ord[a]] == t.blk[c] {
        LeftBehind(t, s, o, c, y, a);
      } else {
        Elsewhere(t, s, o, c, y, a);
      }
    }
  }

  lemma RisingFacts(t: Tree, s: Tree, o: Order, c: int, y: int, a: int)
    requires Rising(t, s, o, c, y) && 0 <= a <= |o.ord| - 1
    ensures Placed(t, o) && t.Sized() && t.Node(c) && t.Node(o.ord[a]) && t.Node(t.right[c]) && 0 <= c < |o.pos|
    ensures 1 <= o.pos[c] <= |o.ord| - 2 && o.ord[o.pos[c]] == c && 0 <= c < |s.blk|
    ensures o.pos[c] + 1 <= |o.ord| - 1 && t.Node(o.ord[o.pos[c] + 1])
  {
    hide Risen;
    RisenParts(t, s, o, c, y);
  }

  /** No node weighs what `c` weighs now, unless its right neighbour does and `c` joins it. */
  lemma NewWeight(t: Tree, o: Order, c: int, y: int, a: int)
    requires CanRise(t, o, c, y) && Grouped(t, o) && Sorted(t, o) && t.right[c] == o.ord[o.pos[c] + 1] && !Joins(t, c)
    requires 1 <= a <= |o.ord| - 2 && a != o.pos[c]
    ensures t.w[o.ord[a]] != t.w[c] + 1
  {
    hide Grouped;
    var j := o.pos[c];
    assert o.ord[j] == c;
    LastOfWeight(t, o, c);
    if a > j {
      assert t.w[o.ord[j + 1]] <= t.w[o.ord[a]];
      assert o.pos[o.ord[j + 1]] == j + 1;
    } else {
      assert t.w[o.ord[a]] <= t.w[o.ord[j]];
    }
  }

  lemma RisenPair(t: Tree, s: Tree, o: Order, c: int, y: int, a: int)
    requires Rising(t, s, o, c, y) && Grouped(t, o) && Sorted(t, o) && Stocked(t, o) && Placed(s, o) && t.w[c] > 0
    requires 1 <= a <= |o.ord| - 2 && a != o.pos[c]
    ensures s.blk[o.ord[a]] == s.blk[c] <==> s.w[o.ord[a]] == s.w[c]
    ensures s.blk[o.ord[a]] == t.blk[o.ord[a]] && s.w[o.ord[a]] == t.w[o.ord[a]]
  {
    hide Risen, Grouped, Sorted, Stocked;
    RisenParts(t, s, o, c, y);
    assert o.ord[o.pos[c]] == c;
    if Joins(t, c) {
      JoinedBlock(t, s, o, c, y);
      SameBlock(t, o, a, o.pos[c] + 1);
    } else {
      FreshBlock(t, s, o, c, y, a);
      NewWeight(t, o, c, y, a);
    }
  }

  lemma RisenPairs(t: Tree, s: Tree, o: Order, c: int, y: int, a: int, b: int)
    requires Rising(t, s, o, c, y) && Grouped(t, o) && Sorted(t, o) && Stocked(t, o) && Placed(s, o) && t.w[c] > 0
    requires 1 <= a < b <= |o.ord| - 2
    ensures s.blk[o.ord[a]] == s.blk[o.ord[b]] <==> s.w[o.ord[a]] == s.w[o.ord[b]]
  {
    hide Rising, Grouped, Sorted, Stocked;
    RisingFacts(t, s, o, c, y, a);
    if a != o.pos[c] {
      RisenPair(t, s, o, c, y, a);
    }
    if b != o.pos[c] {
      RisenPair(t, s, o, c, y, b);
    }
    SameBlock(t, o, a, b);
  }

  /** The new block of `c` is not the first node's own. */
  lemma NotFirsts(t: Tree, s: Tree, o: Order, c: int, y: int)
    requires Rising(t, s, o, c, y) && Grouped(t, o) && Sorted(t, o) && Stocked(t, o) && t.w[c] > 0
    requires t.zeros == NIL && forall a :: 1 <= a <= |o.ord| - 2 ==> t.blk[o.ord[a]] != t.blk[o.ord[0]]
    ensures s.blk[c] != t.blk[o.ord[0]]
  {
    hide Risen, Grouped, Sorted, Stocked;
    if Joins(t, c) {
      JoinedBlock(t, s, o, c, y);
    } else {
      FreshBlock(t, s, o, c, y, 0);
    }
  }

  lemma RisenFirstAlone(t: Tree, s: Tree, o: Order, c: int, y: int)
    requires Rising(t, s, o, c, y) && Grouped(t, o) && Sorted(t, o) && Stocked(t, o) && Placed(s, o) && t.w[c] > 0
    requires t.zeros == NIL && First(t, o) && t.blk[o.ord[0]] != t.blk[o.ord[1]]
    ensures First(s, o)
  {
    hide Risen, Grouped, Sorted, Stocked;
    RisenParts(t, s, o, c, y);
    NotFirsts(t, s, o, c, y);
    var j := o.pos[c];
    assert o.ord[j] == c && o.pos[o.ord[0]] == 0;
    if !Joins(t, c) {
      FreshBlock(t, s, o, c, y, 0);
    }
  }

  lemma RisenFirstShared(t: Tree, s: Tree, o: Order, c: int, y: int)
    requires Rising(t, s, o, c, y) && Placed(s, o)
    requires First(t, o) && t.blk[o.ord[0]] == t.blk[o.ord[1]] && o.pos[c] > 1
    ensures First(s, o)
  {
    hide Risen;
    RisenParts(t, s, o, c, y);
    assert o.pos[o.ord[0]] == 0 && o.pos[o.ord[1]] == 1;
  }

  /** The first node is left alone in its block. */
  lemma RisenFirstLeft(t: Tree, s: Tree, o: Order, c: int, y: int)
    requires Rising(t, s, o, c, y) && Grouped(t, o) && Sorted(t, o) && Stocked(t, o) && Placed(s, o) && t.w[c] > 0
    requires t.zeros == NIL && First(t, o) && t.blk[o.ord[0]] == t.blk[o.ord[1]] && o.pos[c] == 1
    ensures First(s, o)
  {
    hide Risen, Grouped, Sorted, Stocked;
    RisenParts(t, s, o, c, y);
    assert o.ord[1] == c && y == o.ord[0] && o.pos[o.ord[0]] == 0;
    forall a | 1 <= a <= |o.ord| - 2 && a != 1 ensures t.blk[o.ord[a]] != t.blk[c] {
      BlockMates(t, o, c, y, a);
    }
    if Joins(t, c) {
      JoinedBlock(t, s, o, c, y);
      SameBlock(t, o, 1, 2);
    } else {
      FreshBlock(t, s, o, c, y, 0);
    }
  }

  lemma RisenFirst(t: Tree, s: Tree, o: Order, c: int, y: int)
    requires Rising(t, s, o, c, y) && Grouped(t, o) && Sorted(t, o) && Stocked(t, o) && Placed(s, o) && t.w[c] > 0
    requires t.zeros == NIL && First(t, o)
    ensures First(s, o)
  {
    hide Rising, Grouped, Sorted, Stocked, First;
    RisingFacts(t, s, o, c, y, 0);
    if t.blk[o.ord[0]] != t.blk[o.ord[1]] {
      RisenFirstAlone(t, s, o, c, y);
    } else if o.pos[c] > 1 {
      RisenFirstShared(t, s, o, c, y);
    } else {
      RisenFirstLeft(t, s, o, c, y);
    }
  }

  lemma RisenRoot(t: Tree, s: Tree, o: Order, c: int, y: int, a: int)
    requires Rising(t, s, o, c, y) && Grouped(t, o) && Sorted(t, o) && Stocked(t, o) && Placed(s, o) && t.w[c] > 0
    requires 0 <= a <= |o.ord| - 2 && (a > 0 || t.zeros == NIL)
    ensures s.blk[o.ord[a]] != s.blk[s.root]
  {
    hide Risen, Sorted, Stocked, Led, First;
    RisenParts(t, s, o, c, y);
    assert o.ord[o.pos[c]] == c && o.ord[|o.ord| - 1] == t.root && o.pos[t.root] == |o.ord| - 1;
    if a == o.pos[c] {
      if Joins(t, c) {
        JoinedBlock(t, s, o, c, y);
      } else {
        FreshBlock(t, s, o, c, y, |o.ord| - 1);
      }
    }
  }

  lemma RisenGrouped(t: Tree, s: Tree, o: Order, c: int, y: int)
    requires Rising(t, s, o, c, y) && Grouped(t, o) && Sorted(t, o) && Stocked(t, o) && Placed(s, o) && t.w[c] > 0
    ensures Grouped(s, o)
  {
    hide Rising, Sorted, Stocked, Led, First;
    RisingFacts(t, s, o, c, y, 0);
    RisingSame(t, s, o, c, y);
    forall a | 1 <= a <= |o.ord| - 2 ensures Led(s, o, a) {
      RisenLed(t, s, o, c, y, a);
    }
    forall a, b | 1 <= a < b <= |o.ord| - 2
      ensures s.blk[o.ord[a]] == s.blk[o.ord[b]] <==> s.w[o.ord[a]] == s.w[o.ord[b]]
    {
      RisenPairs(t, s, o, c, y, a, b);
    }
    if t.zeros == NIL {
      RisenFirst(t, s, o, c, y);
    }
    forall a | 0 <= a <= |o.ord| - 2 && (a > 0 || t.zeros == NIL) ensures s.blk[o.ord[a]] != s.blk[s.root] {
      RisenRoot(t, s, o, c, y, a);
    }
  }

  lemma RisingSame(t: Tree, s: Tree, o: Order, c: int, y: int)
    requires Rising(t, s, o, c, y)
    ensures s.zeros == t.zeros && s.root == t.root && s.n == t.n && s.par == t.par && s.lc == t.lc && s.rc == t.rc
    ensures s.w == t.w[c := t.w[c] + 1] && |o.ord| >= 3
  {
    hide Risen;
    RisenParts(t, s, o, c, y);
  }

  /** Which blocks are free and used after rising. */
  lemma RisenSupply(t: Tree, s: Tree, o: Order, c: int, y: int)
    requires Rising(t, s, o, c, y) && Grouped(t, o) && Sorted(t, o) && Stocked(t, o) && t.w[c] > 0
    ensures forall i :: 0 <= i < |s.free| ==> t.Block(s.free[i])
    ensures forall i, j :: 0 <= i < j < |s.free| ==> s.free[i] != s.free[j]
    ensures forall x :: x in s.free <==>
              (x in t.free && (Joins(t, c) || x != s.blk[c])) || (x == t.blk[c] && t.blk[y] != t.blk[c] && Joins(t, c))
    ensures !Joins(t, c) && t.blk[y] == t.blk[c] ==> s.blk[c] in t.free
    ensures !Joins(t, c) && t.blk[y] != t.blk[c] ==> s.blk[c] == t.blk[c]
    ensures t.blk[c] !in t.free && t.Block(t.blk[c]) && |s.lead| == |t.lead|
  {
    hide Risen, Grouped, Sorted;
    RisenParts(t, s, o, c, y);
    assert o.ord[o.pos[c]] == c;
  }

  lemma UsedBlocks(t: Tree, o: Order)
    requires Placed(t, o) && Stocked(t, o)
    ensures forall k :: 0 <= k < |o.ord| && (k > 0 || t.zeros == NIL) ==> t.blk[o.ord[k]] !in t.free
    ensures forall i, j :: 0 <= i < j < |t.free| ==> t.free[i] != t.free[j]
  {
  }

  lemma RisenUsed(t: Tree, s: Tree, o: Order, c: int, y: int, k: int)
    requires Rising(t, s, o, c, y) && Grouped(t, o) && Sorted(t, o) && Stocked(t, o) && t.w[c] > 0 && Placed(s, o)
    requires 0 <= k < |o.ord| && (k > 0 || t.zeros == NIL)
    ensures s.blk[o.ord[k]] !in s.free
  {
    hide Risen, Grouped, Sorted, Stocked, Named;
    RisenParts(t, s, o, c, y);
    RisenSupply(t, s, o, c, y);
    UsedBlocks(t, o);
    assert o.ord[o.pos[c]] == c;
    if k != o.pos[c] {
      BlockMates(t, o, c, y, k);
    } else if Joins(t, c) {
      JoinedBlock(t, s, o, c, y);
      BlockMates(t, o, c, y, k + 1);
    }
  }

  /** The blocks of `c` and its left neighbour, and that no other node changes its block. */
  lemma RisenBlocks(t: Tree, s: Tree, o: Order, c: int, y: int)
    requires Rising(t, s, o, c, y)
    ensures 0 <= c < |o.pos|
    ensures
      var j := o.pos[c];
      && 1 <= j < |o.ord| && o.ord[j] == c && o.ord[j - 1] == y && 0 <= c < |t.blk| == |s.blk| && 0 <= y < |t.blk|
      && (forall k :: 0 <= k < |o.ord| && k != j && 0 <= o.ord[k] < |t.blk| ==> s.blk[o.ord[k]] == t.blk[o.ord[k]])
  {
    hide Risen;
    RisenParts(t, s, o, c, y);
  }

  lemma RisenNamed(t: Tree, s: Tree, o: Order, c: int, y: int, b: int)
    requires Rising(t, s, o, c, y) && Grouped(t, o) && Sorted(t, o) && Stocked(t, o) && t.w[c] > 0 && Placed(s, o)
    requires t.Block(b)
    ensures b in s.free || Named(s, o, b)
  {
    hide Risen, Grouped, Sorted, Rising, Placed;
    RisenSupply(t, s, o, c, y);
    RisenBlocks(t, s, o, c, y);
    var j := o.pos[c];
    if b != t.blk[c] && b !in t.free {
      assert Named(t, o, b);
      var k :| 0 <= k < |o.ord| && 0 <= o.ord[k] < |t.blk| && t.blk[o.ord[k]] == b;
      assert s.blk[o.ord[k]] == b;
    }
  }

  lemma RisenStocked(t: Tree, s: Tree, o: Order, c: int, y: int)
    requires Rising(t, s, o, c, y) && Grouped(t, o) && Sorted(t, o) && Stocked(t, o) && t.w[c] > 0 && Placed(s, o)
    ensures Stocked(s, o)
  {
    hide Rising, Grouped, Sorted, Named;
    RisenSupply(t, s, o, c, y);
    RisingSame(t, s, o, c, y);
    forall k | 0 <= k < |o.ord| && (k > 0 || s.zeros == NIL) ensures s.blk[o.ord[k]] !in s.free {
      RisenUsed(t, s, o, c, y, k);
    }
    forall b | s.Block(b) ensures b in s.free || Named(s, o, b) {
      RisenNamed(t, s, o, c, y, b);
    }
  }

  // ----- There is always a free block

  lemma {:induction false} ElementsOf(s: seq<int>)
    ensures |set x | x in s| <= |s|
  {
    if s == [] {
      assert (set x | x in s) == {};
    } else {
      var last := |s| - 1;
      ElementsOf(s[..last]);
      assert (set x | x in s) == (set x | x in s[..last]) + {s[last]};
    }
  }

  function Below(n: nat): (s: set<int>)
    ensures |s| == n && forall x :: x in s <==> 0 <= x < n
  {
    if n == 0 then {} else Below(n - 1) + {n - 1}
  }

  lemma Smaller(a: set<int>, b: set<int>)
    requires a <= b
    ensures |a| <= |b|
  {
    assert b == a + (b - a) && a * (b - a) == {};
  }

  /** There are twice as many blocks as nodes, so half of them are free. */
  lemma FreeBlocks(t: Tree, o: Order)
    requires Placed(t, o) && Stocked(t, o) && Counted(t, o)
    ensures |t.free| >= 2 && t.Block(t.free[0]) && t.Block(t.free[1]) && t.free[0] != t.free[1]
  {
    var used := seq(|o.ord|, k requires 0 <= k < |o.ord| => t.blk[o.ord[k]]);
    var all := Below(|t.lead|);
    var both := (set x | x in t.free) + (set x | x in used);
    forall b | b in all ensures b in both {
      if b !in t.free {
        assert Named(t, o, b);
        var k :| 0 <= k < |o.ord| && 0 <= o.ord[k] < |t.blk| && t.blk[o.ord[k]] == b;
        assert used[k] == b;
      }
    }
    ElementsOf(t.free);
    ElementsOf(used);
    Smaller(all, both);
  }

  // ----- Promoting a leader

  /** No node on the way up stands above the list of unseen symbols, unless its child there was counted first. */
  lemma NotAboveZeros(t: Tree, o: Order, c: int)
    requires Placed(t, o) && Family(t, o) && Summed(t, o, c) && Lit(t, o) && Sorted(t, o) && Unseen(t, o)
    requires In(o, c) && c != t.root && t.w[c] > 0 && |o.ord| >= 3
    ensures !AboveZeros(t, c)
  {
    hide Family, Sorted, Summed, Lit, Unseen;
    if c >= t.n {
      NotThirdEither(t, o, c);
      KidsWeigh(t, o, c);
    } else {
      SeenLeaf(t, o, c);
    }
  }

  lemma NotThirdEither(t: Tree, o: Order, c: int)
    requires Placed(t, o) && Summed(t, o, c) && Lit(t, o) && Sorted(t, o) && In(o, c) && c != t.root && |o.ord| >= 3
    ensures t.zeros == NIL || c != o.ord[2]
  {
    hide Sorted, Summed, Lit;
    if t.zeros != NIL && |o.ord| >= 4 {
      NotThird(t, o, c);
    }
  }

  lemma SeenLeaf(t: Tree, o: Order, c: int)
    requires Placed(t, o) && Unseen(t, o) && 0 <= c < t.n && t.w[c] > 0
    ensures t.lc[c] == NIL && In(o, c)
  {
  }

  lemma OnlyThree(t: Tree, o: Order, c: int)
    requires Placed(t, o) && Summed(t, o, c) && Lit(t, o) && Grouped(t, o) && t.zeros != NIL && |o.ord| >= 3
    requires In(o, c) && o.pos[c] == 1 && t.Block(t.blk[c]) && t.lead[t.blk[c]] == c
    ensures |o.ord| == 3
  {
    hide Grouped;
    LastOfWeight(t, o, c);
    assert o.ord[1] == c && In(o, o.ord[2]);
  }

  ghost predicate Leads(t: Tree, o: Order, c: int) {
    && Placed(t, o) && In(o, c) && c != t.root && |o.ord| >= 3 && t.w[c] > 0
    && t.Block(t.blk[c]) && t.lead[t.blk[c]] == c
  }

  lemma GrownLed(t: Tree, o: Order, c: int, a: int)
    requires Placed(t, o) && In(o, c) && o.pos[c] == 0 && Placed(Grown(t, c), o)
    requires 1 <= a <= |o.ord| - 2 && Led(t, o, a)
    ensures Led(Grown(t, c), o, a)
  {
    assert o.ord[0] == c;
  }

  lemma FirstOwns(t: Tree, o: Order, c: int)
    requires Leads(t, o, c) && Grouped(t, o) && t.zeros == NIL && o.pos[c] == 0
    ensures First(t, o) && t.blk[o.ord[0]] != t.blk[o.ord[1]] && First(Grown(t, c), o)
  {
    assert o.ord[0] == c && First(t, o);
    LedAt(t, o, 1);
  }

  /** The first node grows where it is, when it has a block to itself. */
  lemma GrownFirst(t: Tree, o: Order, c: int)
    requires Leads(t, o, c) && Sorted(t, o) && Grouped(t, o) && Lit(t, o) && t.zeros == NIL && o.pos[c] == 0
    ensures
      var s := Grown(t, c);
      Placed(s, o) && Sorted(s, o) && Grouped(s, o)
  {
    hide Led, First;
    var s := Grown(t, c);
    assert o.ord[0] == c;
    FirstOwns(t, o, c);
    forall a | 1 <= a <= |o.ord| - 2 ensures Led(s, o, a) {
      LedAt(t, o, a);
      GrownLed(t, o, c, a);
    }
  }

  /** The first leaf beside the unseen symbols grows where it is, when there is nothing else. */
  lemma GrownSecond(t: Tree, o: Order, c: int)
    requires Leads(t, o, c) && Sorted(t, o) && Grouped(t, o) && t.zeros != NIL && o.pos[c] == 1 && |o.ord| == 3
    ensures
      var s := Grown(t, c);
      Placed(s, o) && Sorted(s, o) && Grouped(s, o)
  {
    LedAt(t, o, 1);
    assert o.ord[1] == c;
    assert Led(Grown(t, c), o, 1);
  }

  lemma GrownLinked(t: Tree, o: Order, c: int)
    requires Leads(t, o, c) && Linked(t, o) && Lit(t, o)
    ensures
      var s := Grown(t, c);
      Placed(s, o) && Linked(s, o) && Lit(s, o)
  {
    assert o.ord[o.pos[c]] == c;
  }

  lemma GrownFamily(t: Tree, s: Tree, o: Order)
    requires Placed(t, o) && Family(t, o) && Placed(s, o) && s.n == t.n && s.root == t.root
    requires s.par == t.par && s.lc == t.lc && s.rc == t.rc
    ensures Family(s, o)
  {
    hide Family, Placed;
    PlacedSizes(t, o);
    PlacedSizes(s, o);
    forall x | In(o, x) && x >= s.n ensures Kids(s, o, x) {
      KidsOf(t, o, x);
    }
    forall x | In(o, x) && x != s.root ensures Child(s, o, x) {
      ChildOf(t, o, x);
    }
    FamilyFrom(s, o);
  }

  lemma GrownStocked(t: Tree, s: Tree, o: Order)
    requires Placed(t, o) && Stocked(t, o) && Placed(s, o)
    requires s.blk == t.blk && s.free == t.free && s.lead == t.lead && s.zeros == t.zeros
    ensures Stocked(s, o)
  {
    forall b | s.Block(b) ensures b in s.free || Named(s, o, b) {
      assert b in t.free || Named(t, o, b);
    }
  }

  lemma GrowKeeps(t: Tree, o: Order, c: int)
    requires Leads(t, o, c) && Inv(t, o, c)
    requires if t.zeros == NIL then o.pos[c] == 0 else o.pos[c] == 1
    ensures Inv(Grown(t, c), o, t.par[c])
  {
    hide Placed, Linked, Family, Summed, Lit, Sorted, Grouped, Stocked, Unseen, Idle, Counted;
    PlacedSizes(t, o);
    var s := Grown(t, c);
    if t.zeros != NIL {
      OnlyThree(t, o, c);
      GrownSecond(t, o, c);
    } else {
      GrownFirst(t, o, c);
    }
    GrownLinked(t, o, c);
    GrownFamily(t, s, o);
    GrownStocked(t, s, o);
    CountedOnce(t, s, o, c);
    UnseenStays(t, s, o, o);
    IdleStays(t, s, o, o);
    CountedStays(t, s, o, o);
  }

  lemma BesideIt(t: Tree, o: Order, c: int)
    requires Placed(t, o) && Linked(t, o) && In(o, c) && c != t.root
    ensures o.pos[c] + 1 <= |o.ord| - 1 && t.right[c] == o.ord[o.pos[c] + 1] && t.Node(t.right[c]) && t.Node(c)
    ensures t.left[c] == if o.pos[c] > 0 then o.ord[o.pos[c] - 1] else NIL
    ensures o.pos[c] > 0 ==> t.Node(t.left[c]) && o.pos[t.left[c]] == o.pos[c] - 1
  {
    assert o.ord[o.pos[c]] == c && o.ord[|o.ord| - 1] == t.root;
  }

  lemma MakeCanRise(t: Tree, o: Order, c: int)
    requires Leads(t, o, c) && Linked(t, o) && o.pos[c] >= 1 && (t.zeros != NIL ==> o.pos[c] >= 2)
    ensures CanRise(t, o, c, t.left[c]) && t.Node(t.left[c]) && t.right[c] == o.ord[o.pos[c] + 1] && t.Node(t.right[c])
  {
    BesideIt(t, o, c);
  }

  lemma LeftIsSeen(t: Tree, o: Order, c: int)
    requires Placed(t, o) && Linked(t, o) && Lit(t, o) && In(o, c) && c != t.root
    requires o.pos[c] >= 1 && (t.zeros != NIL ==> o.pos[c] >= 2)
    ensures t.left[c] != t.zeros
  {
    BesideIt(t, o, c);
  }

  lemma LeftIsZeros(t: Tree, o: Order, c: int)
    requires Placed(t, o) && Linked(t, o) && Lit(t, o) && In(o, c) && c != t.root
    requires if t.zeros == NIL then o.pos[c] == 0 else o.pos[c] == 1
    ensures t.left[c] == t.zeros
  {
    BesideIt(t, o, c);
  }

  /** A leader counted once more passes to the next block, and everything still holds above it. */
  lemma RiseKeeps(t: Tree, o: Order, c: int)
    requires Leads(t, o, c) && Inv(t, o, c) && o.pos[c] >= 1 && (t.zeros != NIL ==> o.pos[c] >= 2)
    ensures PromoteSafe(t, c) && Inv(Grown(Promote(t, c), c), o, t.par[c])
  {
    hide Placed, Linked, Family, Summed, Lit, Sorted, Grouped, Stocked, Unseen, Idle, Counted, CanRise, Risen;
    PlacedSizes(t, o);
    NotAboveZeros(t, o, c);
    LeftIsSeen(t, o, c);
    MakeCanRise(t, o, c);
    FreeBlocks(t, o);
    var y, s := t.left[c], Risen(t, c);
    PromoteIsRise(t, c);
    assert Rising(t, s, o, c, y);
    RisingSame(t, s, o, c, y);
    RisenPlaced(t, s, o, c, y);
    RisenFamily(t, s, o, c, y);
    CountedOnce(t, s, o, c);
    RisenLit(t, s, o, c, y);
    RisenSorted(t, s, o, c, y);
    RisenGrouped(t, s, o, c, y);
    RisenStocked(t, s, o, c, y);
    RisenUnseen(t, s, o, c, y);
  }

  lemma PromoteIsRise(t: Tree, c: int)
    requires t.Sized() && t.Node(c) && t.Block(t.blk[c]) && t.Node(t.left[c]) && t.Node(t.right[c])
    requires t.w[c] > 0 && !AboveZeros(t, c) && t.left[c] != t.zeros && t.free != [] && t.Block(t.free[0])
    ensures PromoteSafe(t, c) && Grown(Promote(t, c), c) == Risen(t, c)
  {
  }

  lemma PromoteKeeps(t: Tree, o: Order, c: int)
    requires Leads(t, o, c) && Inv(t, o, c)
    ensures PromoteSafe(t, c) && Inv(Grown(Promote(t, c), c), o, t.par[c])
  {
    hide Inv, Placed, Linked, Family, Summed, Lit, Sorted, Grouped, Stocked, Unseen, Idle, Counted;
    InvParts(t, o, c);
    PlacedSizes(t, o);
    HasWeight(t, o, c);
    if o.pos[c] >= 1 && (t.zeros != NIL ==> o.pos[c] >= 2) {
      RiseKeeps(t, o, c);
    } else {
      NotAboveZeros(t, o, c);
      LeftIsZeros(t, o, c);
      BesideIt(t, o, c);
      GrowKeeps(t, o, c);
    }
  }

  lemma InvParts(t: Tree, o: Order, c: int)
    requires Inv(t, o, c)
    ensures Placed(t, o) && Linked(t, o) && Family(t, o) && Summed(t, o, c) && Lit(t, o) && Sorted(t, o)
    ensures Grouped(t, o) && Stocked(t, o) && Unseen(t, o) && Idle(t, o) && Counted(t, o)
  {
  }
}
