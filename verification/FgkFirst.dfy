/** The leftmost node of the adaptive coder's tree: when it parts from the block of its weight, and that it does. */
module FgkFirst {
  import opened FgkTree
  import opened FgkOrder
  import opened FgkRise
  import opened FgkClimb
  import opened FgkInit
  import opened FgkCodec

  /** The first node weighs as much as the second, or more, and is in another block. */
  ghost predicate Parted(t: Tree, o: Order) {
    && Placed(t, o) && |o.ord| >= 3
    && t.zeros == NIL && t.w[o.ord[0]] >= t.w[o.ord[1]] && t.blk[o.ord[0]] != t.blk[o.ord[1]]
  }

  lemma PromotedBeside(t: Tree, o: Order, c: int)
    requires Leads(t, o, c) && Linked(t, o) && t.zeros == NIL && !AboveZeros(t, c) && PromoteSafe(t, c)
    ensures o.pos[c] == 0 ==> Promote(t, c) == t
    ensures o.pos[c] > 0 ==> forall x :: t.Node(x) && x != c ==> Promote(t, c).blk[x] == t.blk[x]
  {
    assert o.ord[o.pos[c]] == c;
  }

  /** The first node of a tree whose first two nodes have not parted. */
  lemma FirstBefore(t: Tree, o: Order, c: int)
    requires Leads(t, o, c) && Grouped(t, o) && t.zeros == NIL && !Parted(t, o)
    ensures t.blk[o.ord[0]] == t.blk[o.ord[1]] ==> t.w[o.ord[0]] == t.w[o.ord[1]] && o.ord[0] != c
    ensures t.blk[o.ord[0]] != t.blk[o.ord[1]] ==> t.w[o.ord[0]] < t.w[o.ord[1]]
  {
    assert First(t, o);
    LedAt(t, o, 1);
  }

  /** Counting a promoted leader makes the first two nodes part exactly when all symbols have been seen, the leader is
      the first node, and it catches up with the second. */
  lemma PartsExactly(t: Tree, o: Order, c: int)
    requires Leads(t, o, c) && Inv(t, o, c) && !Parted(t, o)
    ensures PromoteSafe(t, c)
    ensures Parted(Grown(Promote(t, c), c), o) <==> t.zeros == NIL && o.ord[0] == c && t.w[c] + 1 == t.w[o.ord[1]]
  {
    hide Linked, Family, Summed, Lit, Grouped, Stocked, Unseen, Idle, Counted, Promote;
    PromoteKeeps(t, o, c);
    ZerosStay(t, c);
    NotAboveZeros(t, o, c);
    if t.zeros == NIL {
      FirstBefore(t, o, c);
      PromotedBeside(t, o, c);
      assert o.ord[o.pos[c]] == c;
    }
  }

  // ----- The shortest run that gets there: an alphabet of two symbols, seen in turn

  /** The tree of an alphabet of two, symbol 1 before symbol 0, with weights `w`. */
  predicate TwoLeaves(t: Tree, w: seq<nat>) {
    && t.Sized() && t.n == 2 && t.root == 2 && t.w == w
    && t.par[0] == 2 && t.par[1] == 2 && t.lc[2] == 1 && t.rc[2] == 0
    && t.lc[0] == NIL && t.rc[0] == NIL && t.lc[1] == NIL && t.rc[1] == NIL
    && t.left[1] == NIL && t.right[1] == 0 && t.left[0] == 1 && t.right[0] == 2
    && t.Block(t.blk[0])
  }

  /** Both symbols have been seen; each of them leads a block, or they share one that symbol 0 leads. */
  predicate TwoBlocks(t: Tree) {
    && t.Sized() && t.zeros == NIL && t.Block(t.blk[0]) && t.Block(t.blk[1])
    && t.lead[t.blk[0]] == 0 && (t.blk[0] != t.blk[1] ==> t.lead[t.blk[1]] == 1)
  }

  lemma FirstEnters(h: Tree)
    requires h.Sized() && h.n == 2 && EnterSafe(Initial(h), 0)
    ensures
      var t := Enter(Initial(h), 0);
      TwoLeaves(t, [0, 0, 0]) && t.zeros == 1 && t.count == 1 && t.lead[t.blk[0]] == 0
  {
  }

  lemma SecondEnters(t: Tree)
    requires TwoLeaves(t, [1, 0, 1]) && t.zeros == 1 && t.count == 1 && t.lead[t.blk[0]] == 0 && EnterSafe(t, 1)
    ensures
      var s := Enter(t, 1);
      TwoLeaves(s, [1, 0, 1]) && TwoBlocks(s) && s.blk[0] == s.blk[1]
  {
  }

  /** Counting a leaf that leads its block, or weighs nothing yet: it is promoted, and the root counts as well. */
  lemma LeafCounted(t: Tree, w: seq<nat>, x: int)
    requires TwoLeaves(t, w) && 0 <= x < 2 && Climbs(t, x, 3)
    requires t.w[x] > 0 ==> t.lead[t.blk[x]] == x
    ensures PromoteSafe(t, x) && Promote(t, x).Sized()
    ensures Climb(t, x, 3) == Promote(t, x).(w := w[x := w[x] + 1][2 := w[2] + 1])
  {
    hide Promote, PromoteSafe;
    assert MoveRight(t, x) == t;
    var s := Step(t, x);
    assert s.par[x] == 2 by { PromoteKeepsParents(t, x); }
    assert Climb(t, x, 3) == Climb(s, 2, 2);
  }

  /** One update of a tree of two leaves. */
  lemma Once(t: Tree, w: seq<nat>, x: int)
    requires Settled(t) && TwoLeaves(t, w) && 0 <= x < 2 && w[x] > 0 && t.lead[t.blk[x]] == x
    ensures PromoteSafe(t, x) && Promote(t, x).Sized()
    ensures Update(t, x) == Promote(t, x).(w := w[x := w[x] + 1][2 := w[2] + 1]) && Settled(Update(t, x))
  {
    hide Settled, Promote, PromoteSafe, Climb, Climbs, OneMore, Total;
    UpdateSettles(t, x);
    LeafCounted(t, w, x);
  }

  lemma UsedBlock(t: Tree, w: seq<nat>)
    requires Settled(t) && TwoLeaves(t, w) && w[0] > 0
    ensures t.blk[0] !in t.free
  {
    hide Linked, Family, Summed, Sorted, Grouped, Idle, Counted, Listed;
    var o := OrderOf(t);
    assert In(o, 0) && o.ord[o.pos[0]] == 0;
  }

  /** After the first two symbols. */
  lemma BothSeen(h: Tree)
    requires h.Sized() && h.n == 2
    ensures
      var t := Counting(Initial(h), [0, 1]);
      Settled(t) && TwoLeaves(t, [1, 1, 2]) && TwoBlocks(t) && t.blk[0] == t.blk[1]
  {
    hide Settled, Initial, Enter, EnterSafe, Climb, Climbs, OneMore, Total, Promote, PromoteSafe;
    var t := Initial(h);
    InitialSettles(h);
    InitialParts(h);
    UpdateSettles(t, 0);
    FirstEnters(h);
    LeafCounted(Enter(t, 0), [0, 0, 0], 0);
    WeightlessStays(Enter(t, 0), 0);
    var u := Update(t, 0);
    UpdateSettles(u, 1);
    SecondEnters(u);
    LeafCounted(Enter(u, 1), [1, 0, 1], 1);
    WeightlessStays(Enter(u, 1), 1);
    assert [0, 1][1..] == [1];
  }

  lemma InitialParts(h: Tree)
    requires h.Sized() && h.n == 2
    ensures
      var t := Initial(h);
      t.Sized() && t.n == 2 && t.Node(0) && t.w[0] == 0 && |t.w| == 3
  {
  }

  lemma WeightlessStays(t: Tree, x: int)
    requires PromoteSafe(t, x) && t.w[x] == 0
    ensures Promote(t, x) == t
  {
  }

  /** Symbol 0 is counted once more than symbol 1 and takes a block of its own. */
  lemma TakesBlock(t: Tree)
    requires TwoLeaves(t, [1, 1, 2]) && TwoBlocks(t) && t.blk[0] == t.blk[1] && PromoteSafe(t, 0) && t.blk[0] !in t.free
    ensures
      var s := Promote(t, 0);
      TwoLeaves(s, [1, 1, 2]) && TwoBlocks(s) && s.blk[0] != s.blk[1]
  {
  }

  lemma FirstStaysBehind(t: Tree, w: seq<nat>)
    requires TwoLeaves(t, w) && w[1] > 0 && t.zeros == NIL && PromoteSafe(t, 1)
    ensures Promote(t, 1) == t
  {
  }

  lemma PartedOrder(t: Tree, w: seq<nat>)
    requires Settled(t) && TwoLeaves(t, w) && 0 < w[0] <= w[1] && t.zeros == NIL && t.blk[0] != t.blk[1]
    ensures exists o :: Inv(t, o, NIL) && Parted(t, o) && o.ord[0] == 1 && o.ord[1] == 0
  {
    hide Family, Summed, Sorted, Grouped, Stocked, Idle, Counted, Listed;
    var o := OrderOf(t);
    assert In(o, 1) && o.ord[o.pos[1]] == 1 && In(o, 0) && o.ord[o.pos[0]] == 0;
    assert o.pos[1] == 0;
    assert o.ord[1] == 0;
  }

  /** Two symbols seen in turn: the second time round their leaves weigh the same in different blocks, and the third
      occurrence of symbol 1 makes the first node the heavier one. */
  lemma PartingIsReached(h: Tree)
    requires h.Sized() && h.n == 2
    ensures
      var t := Counting(Initial(h), [0, 1, 0, 1]);
      exists o :: Inv(t, o, NIL) && Parted(t, o) && t.w[o.ord[0]] == t.w[o.ord[1]] == 2
    ensures
      var t := Counting(Initial(h), [0, 1, 0, 1, 1]);
      exists o :: Inv(t, o, NIL) && Parted(t, o) && t.w[o.ord[0]] == 3 && t.w[o.ord[1]] == 2
  {
    hide Settled, Initial, Update, Promote, PromoteSafe, Inv, Parted;
    var t := Counting(Initial(h), [0, 1]);
    BothSeen(h);
    UsedBlock(t, [1, 1, 2]);
    Once(t, [1, 1, 2], 0);
    TakesBlock(t);
    var t3 := Update(t, 0);
    Once(t3, [2, 1, 3], 1);
    FirstStaysBehind(t3, [2, 1, 3]);
    var t4 := Update(t3, 1);
    Once(t4, [2, 2, 4], 1);
    FirstStaysBehind(t4, [2, 2, 4]);
    var t5 := Update(t4, 1);
    PartedOrder(t4, [2, 2, 4]);
    PartedOrder(t5, [2, 3, 5]);
    CountingTwo(h, t);
  }

  lemma CountingTwo(h: Tree, t: Tree)
    requires h.Sized() && h.n == 2 && t == Counting(Initial(h), [0, 1])
    ensures Counting(Initial(h), [0, 1, 0, 1]) == Counting(t, [0, 1])
    ensures Counting(Initial(h), [0, 1, 0, 1, 1]) == Counting(t, [0, 1, 1])
  {
    hide Update, Initial;
    InitialParts(h);
    assert [0, 1, 0, 1][1..] == [1, 0, 1] && [1, 0, 1][1..] == [0, 1];
    assert [0, 1, 0, 1, 1][1..] == [1, 0, 1, 1] && [1, 0, 1, 1][1..] == [0, 1, 1];
    assert [0, 1][1..] == [1];
  }
}
