/** A symbol occurs for the first time: it leaves the list of unseen symbols and becomes a leaf of the tree. */
module FgkEnter {
  import opened FgkTree
  import opened FgkOrder
  import opened FgkRise
  import opened FgkClimb

  /** A node that weighs nothing grows where it is. */
  lemma StepWeightless(t: Tree, c: int)
    requires t.Sized() && t.Node(c) && t.Block(t.blk[c]) && t.Node(t.right[c]) && t.w[c] == 0
    ensures StepSafe(t, c) && Step(t, c) == Grown(t, c)
  {
  }

  // ----- The last unseen symbol

  /** The last unseen symbol is the head of the list, below the third node. */
  ghost predicate OneLeft(t: Tree, o: Order, x: int) {
    && Placed(t, o) && |o.ord| >= 3 && t.zeros == x == o.ord[0] && 0 <= x < t.n && t.w[x] == 0 && t.count == 1
    && o.zs == [x] && t.right[x] == o.ord[1] && t.par[x] == o.ord[2] && t.blk[x] == NIL && t.lc[x] == NIL && t.rc[x] == NIL
  }

  lemma MakeOneLeft(t: Tree, o: Order, x: int)
    requires Inv(t, o, NIL) && 0 <= x < t.n && t.w[x] == 0 && t.count == 1
    ensures OneLeft(t, o, x)
  {
    hide Placed, Linked, Family, Summed, Lit, Sorted, Grouped, Stocked, Unseen, Idle, Counted;
    PlacedSizes(t, o);
    OneListed(t, o, x);
    LongEnough(t, o);
    HeadFacts(t, o);
  }

  lemma OneListed(t: Tree, o: Order, x: int)
    requires Placed(t, o) && Unseen(t, o) && Idle(t, o) && 0 <= x < t.n && t.w[x] == 0 && t.count == 1
    ensures o.zs == [x] && t.zeros == x && t.blk[x] == NIL && t.lc[x] == NIL && t.rc[x] == NIL
  {
    assert x in o.zs;
    assert |o.zs| == 1 && o.zs[0] == x;
  }

  lemma LongEnough(t: Tree, o: Order)
    requires Placed(t, o) && Counted(t, o) && t.zeros != NIL && t.count < t.n
    ensures |o.ord| >= 3
  {
  }

  lemma HeadFacts(t: Tree, o: Order)
    requires Placed(t, o) && Linked(t, o) && Family(t, o) && Lit(t, o) && t.zeros != NIL && |o.ord| >= 3
    ensures t.zeros == o.ord[0] && t.Node(o.ord[0]) && t.Node(o.ord[1]) && t.Node(o.ord[2])
    ensures t.right[o.ord[0]] == o.ord[1] && t.par[o.ord[0]] == o.ord[2] && t.par[o.ord[1]] == o.ord[2]
    ensures o.ord[2] >= t.n && t.lc[o.ord[2]] == o.ord[0] && t.rc[o.ord[2]] == o.ord[1]
    ensures In(o, o.ord[2]) && In(o, o.ord[1]) && In(o, o.ord[0]) && o.ord[0] != o.ord[1] && o.ord[1] != o.ord[2]
  {
    hide Family;
    KidsOf(t, o, o.ord[2]);
  }

  /** The tree with `x` seen once: in the block of weight one, or in one of its own. */
  function Last(t: Tree, x: int): (s: Tree)
    requires t.Sized() && t.Node(x) && t.Node(t.right[x])
    requires t.w[t.right[x]] == 1 || (t.free != [] && t.Block(t.free[0]))
  {
    if t.w[t.right[x]] == 1 then t.(w := t.w[x := 1], zeros := NIL, blk := t.blk[x := t.blk[t.right[x]]])
    else t.(w := t.w[x := 1], zeros := NIL, blk := t.blk[x := t.free[0]], lead := t.lead[t.free[0] := x], free := t.free[1..])
  }

  lemma EnterIsLast(t: Tree, o: Order, x: int)
    requires OneLeft(t, o, x) && t.free != [] && t.Block(t.free[0]) && t.Block(t.blk[o.ord[1]])
    ensures EnterSafe(t, x) && t.Node(t.right[x])
    ensures
      var e := Enter(t, x);
      StepSafe(e, x) && Step(e, x) == Last(t, x) && e.root == t.root && x != e.root
  {
    var e := Enter(t, x);
    assert t.rc[x := NIL] == t.rc;
    StepWeightless(e, x);
    assert o.pos[x] == 0 && o.pos[t.root] == |o.ord| - 1;
  }

  lemma LastPlaced(t: Tree, o: Order, x: int)
    requires OneLeft(t, o, x) && t.free != [] && t.Block(t.free[0]) && Linked(t, o)
    ensures t.Node(t.right[x])
    ensures
      var s, o' := Last(t, x), o.(zs := []);
      Placed(s, o') && Linked(s, o')
  {
    assert o.pos[x] == 0;
  }

  lemma LastSorted(t: Tree, o: Order, x: int)
    requires OneLeft(t, o, x) && t.free != [] && t.Block(t.free[0]) && Lit(t, o) && Sorted(t, o) && t.Node(t.right[x])
    requires Placed(Last(t, x), o.(zs := []))
    ensures Lit(Last(t, x), o.(zs := [])) && Sorted(Last(t, x), o.(zs := []))
  {
    var s := Last(t, x);
    forall a | 1 <= a < |o.ord| ensures s.w[o.ord[a]] == t.w[o.ord[a]] {
      assert o.pos[x] == 0 && o.pos[o.ord[a]] == a;
    }
  }

  lemma LastFamily(t: Tree, o: Order, x: int)
    requires OneLeft(t, o, x) && t.free != [] && t.Block(t.free[0]) && Family(t, o) && t.Node(t.right[x])
    requires Placed(Last(t, x), o.(zs := []))
    ensures Family(Last(t, x), o.(zs := []))
  {
    hide Family;
    var s, o' := Last(t, x), o.(zs := []);
    forall y | In(o', y) && y >= s.n ensures Kids(s, o', y) {
      KidsOf(t, o, y);
    }
    forall y | In(o', y) && y != s.root ensures Child(s, o', y) {
      ChildOf(t, o, y);
    }
    FamilyFrom(s, o');
  }

  lemma LastSummed(t: Tree, o: Order, x: int)
    requires OneLeft(t, o, x) && t.free != [] && t.Block(t.free[0]) && Family(t, o) && Summed(t, o, NIL)
    requires t.Node(t.right[x]) && Placed(Last(t, x), o.(zs := []))
    ensures Summed(Last(t, x), o.(zs := []), t.par[x])
  {
    hide Family;
    var s, o' := Last(t, x), o.(zs := []);
    NotRootFirst(t, o, x);
    forall y | In(o', y) && y >= s.n
      ensures Weight(s, s.lc[y]) + Weight(s, s.rc[y]) == s.w[y] + if y == t.par[x] then 1 else 0
    {
      KidsOf(t, o, y);
      ChildOf(t, o, x);
    }
  }

  lemma NotRootFirst(t: Tree, o: Order, x: int)
    requires Placed(t, o) && |o.ord| >= 3 && o.ord[0] == x
    ensures x != t.root && In(o, x) && o.pos[x] == 0
  {
    assert o.pos[x] == 0 && o.pos[t.root] == |o.ord| - 1;
  }

  lemma LastLed(t: Tree, o: Order, x: int, a: int)
    requires OneLeft(t, o, x) && t.free != [] && t.Block(t.free[0]) && t.Node(t.right[x])
    requires Placed(Last(t, x), o.(zs := [])) && 1 <= a <= |o.ord| - 2 && Led(t, o, a) && t.blk[o.ord[a]] !in t.free
    ensures Led(Last(t, x), o.(zs := []), a)
  {
    assert o.pos[x] == 0;
  }

  lemma LastFirst(t: Tree, o: Order, x: int)
    requires OneLeft(t, o, x) && t.free != [] && t.Block(t.free[0]) && t.Node(t.right[x])
    requires Placed(Last(t, x), o.(zs := [])) && Led(t, o, 1)
    requires forall a :: 1 <= a < |o.ord| ==> t.blk[o.ord[a]] !in t.free
    ensures First(Last(t, x), o.(zs := []))
  {
    assert o.pos[x] == 0 && o.pos[o.ord[1]] == 1;
  }

  lemma UsedNotFree(t: Tree, o: Order)
    requires Placed(t, o) && Stocked(t, o)
    ensures forall a :: 1 <= a < |o.ord| ==> t.blk[o.ord[a]] !in t.free
  {
  }

  lemma LastGrouped(t: Tree, o: Order, x: int)
    requires OneLeft(t, o, x) && t.free != [] && t.Block(t.free[0]) && t.Node(t.right[x]) && Grouped(t, o) && Stocked(t, o)
    requires Placed(Last(t, x), o.(zs := []))
    ensures Grouped(Last(t, x), o.(zs := []))
  {
    hide Led, First, Stocked;
    var s, o' := Last(t, x), o.(zs := []);
    UsedNotFree(t, o);
    NotRootFirst(t, o, x);
    forall a | 1 <= a <= |o'.ord| - 2 ensures Led(s, o', a) {
      LastLed(t, o, x, a);
    }
    LastFirst(t, o, x);
    forall a | 1 <= a < |o.ord| ensures o.ord[a] != x && s.blk[o.ord[a]] == t.blk[o.ord[a]] && s.w[o.ord[a]] == t.w[o.ord[a]] {
      assert o.pos[o.ord[a]] == a;
    }
    assert s.blk[x] != s.blk[s.root] && o.ord[|o.ord| - 1] == t.root;
  }

  lemma LastStocked(t: Tree, o: Order, x: int)
    requires OneLeft(t, o, x) && t.free != [] && t.Block(t.free[0]) && t.Node(t.right[x]) && Stocked(t, o)
    requires Placed(Last(t, x), o.(zs := []))
    ensures Stocked(Last(t, x), o.(zs := []))
  {
    var s, o' := Last(t, x), o.(zs := []);
    assert s.blk[o'.ord[0]] == s.blk[x];
    forall b | s.Block(b) ensures b in s.free || Named(s, o', b) {
      if b !in s.free && b != s.blk[x] {
        assert b !in t.free;
        assert Named(t, o, b);
        var k :| 0 <= k < |o.ord| && 0 <= o.ord[k] < |t.blk| && t.blk[o.ord[k]] == b;
        assert k != 0 && o.pos[o.ord[k]] == k;
        assert s.blk[o'.ord[k]] == b;
      }
    }
  }

  lemma LastUnseen(t: Tree, o: Order, x: int)
    requires OneLeft(t, o, x) && t.free != [] && t.Block(t.free[0]) && t.Node(t.right[x])
    requires Unseen(t, o) && Counted(t, o) && Placed(Last(t, x), o.(zs := []))
    ensures Unseen(Last(t, x), o.(zs := [])) && Counted(Last(t, x), o.(zs := [])) && Idle(Last(t, x), o.(zs := []))
  {
    assert o.pos[x] == 0;
    assert forall y :: In(o.(zs := []), y) <==> In(o, y);
  }

  lemma OneLeftFacts(t: Tree, o: Order, x: int)
    requires OneLeft(t, o, x)
    ensures Placed(t, o) && t.Sized() && t.Node(x) && |o.ord| >= 3 && In(o, t.par[x]) && o.pos[t.par[x]] == 2
    ensures t.Node(t.right[x]) && t.Node(o.ord[1]) && x != t.root && t.Node(t.root) && In(o, x)
  {
    NotRootFirst(t, o, x);
  }

  lemma LastSame(t: Tree, x: int)
    requires t.Sized() && t.Node(x) && t.Node(t.right[x])
    requires t.w[t.right[x]] == 1 || (t.free != [] && t.Block(t.free[0]))
    ensures Last(t, x).Sized() && Last(t, x).par == t.par && Last(t, x).root == t.root && |Last(t, x).w| == |t.w|
    ensures forall y :: t.Node(y) && y != x ==> Last(t, x).w[y] == t.w[y]
  {
  }

  /** After the last unseen symbol there is no list, and all still holds above its leaf. */
  lemma LastInv(t: Tree, o: Order, x: int)
    requires OneLeft(t, o, x) && Inv(t, o, NIL) && t.Node(t.right[x]) && t.free != [] && t.Block(t.free[0])
    ensures Inv(Last(t, x), o.(zs := []), t.par[x])
  {
    hide OneLeft, Placed, Linked, Family, Summed, Lit, Sorted, Grouped, Stocked, Unseen, Idle, Counted, Last;
    OneLeftFacts(t, o, x);
    LedAt(t, o, 1);
    LastPlaced(t, o, x);
    LastSorted(t, o, x);
    LastFamily(t, o, x);
    LastSummed(t, o, x);
    LastGrouped(t, o, x);
    LastStocked(t, o, x);
    LastUnseen(t, o, x);
  }

  lemma UpdateEnters(t: Tree, x: int)
    requires t.Sized() && t.Node(x) && t.w[x] == 0 && EnterSafe(t, x)
    ensures Update(t, x) == Climb(Enter(t, x), x, |t.w|) && Updates(t, x) == Climbs(Enter(t, x), x, |t.w|)
  {
  }

  /** Updating for the last unseen symbol is climbing from the node above its leaf. */
  lemma LastClimbs(t: Tree, o: Order, x: int)
    requires OneLeft(t, o, x) && t.Sized() && t.Node(x) && t.Node(t.right[x]) && x != t.root
    requires t.free != [] && t.Block(t.free[0]) && t.Block(t.blk[o.ord[1]]) && t.Node(o.ord[1]) && t.w[x] == 0
    ensures Update(t, x) == Climb(Last(t, x), t.par[x], |t.w| - 1)
    ensures Last(t, x).Sized() && Updates(t, x) == Climbs(Last(t, x), t.par[x], |t.w| - 1)
  {
    hide OneLeft, Step, StepSafe, Enter, EnterSafe, Last, Climb, Climbs, Update, Updates;
    EnterIsLast(t, o, x);
    LastSame(t, x);
    UpdateEnters(t, x);
    ClimbOn(Enter(t, x), x, |t.w|);
  }

  lemma LastUnderway(t: Tree, o: Order, x: int)
    requires OneLeft(t, o, x) && Inv(t, o, NIL) && t.Node(t.right[x]) && t.free != [] && t.Block(t.free[0])
    ensures Underway(Last(t, x), o.(zs := []), t.par[x], |t.w| - 1)
    ensures Last(t, x).root == t.root && Total(Last(t, x)) == Total(t) && OneMore(t, Last(t, x), x) && t.par[x] >= t.n
  {
    hide OneLeft, Inv, Last, Underway, Placed, Linked, Family, Summed, Lit, Sorted, Grouped, Stocked, Unseen, Idle, Counted;
    LastInv(t, o, x);
    OneLeftFacts(t, o, x);
    LastSame(t, x);
    InvParts(t, o, NIL);
    LengthFits(t, o);
    StillUnderway(Last(t, x), o.(zs := []), t.par[x], |t.w| - 1);
    UpwardPlace(t, o, x);
    LastCounts(t, o, x);
  }

  lemma LastCounts(t: Tree, o: Order, x: int)
    requires OneLeft(t, o, x) && t.Node(x) && t.Node(t.right[x]) && t.free != [] && t.Block(t.free[0])
    ensures OneMore(t, Last(t, x), x)
  {
  }

  lemma LastStarts(t: Tree, o: Order, x: int)
    requires Inv(t, o, NIL) && 0 <= x < t.n && t.w[x] == 0 && t.count == 1
    ensures OneLeft(t, o, x) && t.Sized() && t.Node(x) && t.Node(t.right[x]) && x != t.root && In(o, x)
    ensures t.free != [] && t.Block(t.free[0]) && |o.ord| >= 3 && t.Node(o.ord[1]) && t.Block(t.blk[o.ord[1]])
  {
    hide Inv, OneLeft, Placed, Linked, Family, Summed, Lit, Sorted, Grouped, Stocked, Unseen, Idle, Counted, Led;
    InvParts(t, o, NIL);
    MakeOneLeft(t, o, x);
    OneLeftFacts(t, o, x);
    FreeBlocks(t, o);
    LedAt(t, o, 1);
    BlockOf(t, o, 1);
  }

  lemma LastKeeps(t: Tree, o: Order, x: int) returns (o': Order)
    requires Inv(t, o, NIL) && 0 <= x < t.n && t.w[x] == 0 && t.count == 1
    ensures t.Sized() && t.Node(x) && Inv(Update(t, x), o', NIL)
    ensures Updates(t, x) && Total(Update(t, x)) == Total(t) + 1 && OneMore(t, Update(t, x), x)
  {
    hide Inv, OneLeft, Last, Climb, Climbs, Update, Updates, Underway, Total, OneMore;
    LastStarts(t, o, x);
    LastClimbs(t, o, x);
    LastUnderway(t, o, x);
    o' := ClimbKeeps(Last(t, x), o.(zs := []), t.par[x], |t.w| - 1);
    OneMoreThen(t, Last(t, x), Update(t, x), x, t.par[x]);
  }

  lemma LengthFits(t: Tree, o: Order)
    requires Placed(t, o) && Counted(t, o)
    ensures |o.ord| <= |t.w| && |t.w| >= 3
  {
  }
}
