/** The first codes of the adaptive coder written out: a symbol's own bits, then one turn to the right for the symbol
    seen, and a turn to the left and the place in the list for all others. */
module FgkExample {
  import opened Arithmetic
  import opened BitStream
  import opened FgkTree
  import opened FgkClimb
  import opened FgkInit
  import opened FgkCodec

  /** The list of unseen symbols from `lo` on, without `x`, goes up one by one. */
  predicate Ascends(t: Tree, x: int) {
    && t.Sized() && t.n == 256
    && (forall j :: 0 <= j < 255 && j != x && j + 1 != x ==> t.rc[j] == j + 1)
    && (0 < x < 255 ==> t.rc[x - 1] == x + 1)
  }

  lemma {:induction false} WalksUp(t: Tree, x: int, from: int, y: int, fuel: nat)
    requires Ascends(t, x) && 0 <= from <= y < 256 && from != x && y != x && y - from <= fuel
    ensures FindZero(t, from, y, fuel) == if from < x < y then y - from - 1 else y - from
    decreases fuel
  {
    if from < y {
      var next := if from + 1 == x then x + 1 else from + 1;
      assert Link(t.rc, from) == next;
      WalksUp(t, x, next, y, fuel - 1);
    }
  }

  /** A leaf right below the root that weighs nothing yet is counted, and the root with it. */
  lemma CountsTwo(t: Tree, x: int, fuel: nat)
    requires t.Sized() && t.Node(x) && x != t.root && t.w[x] == 0 && t.par[x] == t.root && Climbs(t, x, fuel)
    ensures t.Node(t.root) && Climb(t, x, fuel) == t.(w := t.w[x := 1][t.root := t.w[t.root] + 1])
  {
    assert MoveRight(t, x) == t && Promote(t, x) == t;
    var s := Step(t, x);
    assert s == t.(w := t.w[x := 1]);
    assert Climb(t, x, fuel) == Climb(s, t.root, fuel - 1);
  }

  /** The first symbol hangs right of the list, below a new root. */
  ghost predicate FirstIn(t: Tree, x: int) {
    && t.Sized() && 0 <= x < 256 && t.n == 256 && t.root == 256 && t.par[x] == 256 && t.rc[256] == x && t.w[x] == 0
    && t.zeros == (if x == 0 then 1 else 0) && t.par[t.zeros] == 256 && t.lc[256] == t.zeros
    && (forall y :: 0 <= y < 256 ==> t.w[y] == 0) && t.count == 255 && t.rem > 0 && t.exp == 7 && Ascends(t, x)
  }

  lemma FirstEntered(h: Tree, x: int)
    requires h.Sized() && h.n == 256 && 0 <= x < 256 && EnterSafe(Initial(h), x)
    ensures FirstIn(Enter(Initial(h), x), x)
  {
  }

  lemma FreshIndex(t: Tree, x: int)
    requires t.Sized() && t.n == 256 && 0 <= x < 256 && forall j :: 0 <= j < 255 ==> t.rc[j] == j + 1
    ensures FindZero(t, 0, x, 256) == x
  {
    if x < 255 {
      WalksUp(t, 255, 0, x, 256);
    } else {
      assert Link(t.rc, 0) == 1;
      WalksUp(t, 0, 1, 255, 255);
    }
  }

  lemma FreshParts(h: Tree, x: int)
    requires h.Sized() && h.n == 256 && 0 <= x < 256
    ensures
      var t := Initial(h);
      && t.root == t.zeros == 0 && t.exp == 8 && t.rem == 0 && t.n == 256 && t.w[x] == 0 && |t.w| == 511
      && forall j :: 0 <= j < 255 ==> t.rc[j] == j + 1
  {
    ByteMasks();
    Log2OfPow2(8);
  }

  lemma FreshCode(h: Tree, x: int)
    requires h.Sized() && h.n == 256 && 0 <= x < 256
    ensures Code(Initial(h), x) == Bits(x, 8)
  {
    hide Bits, FindZero, Initial;
    var t := Initial(h);
    FreshParts(h, x);
    FreshIndex(t, x);
    assert Path(t, t.zeros, 511) == [];
    assert [] + Bits(x, 8) == Bits(x, 8);
  }

  lemma OneTurn(t: Tree, y: int, fuel: nat)
    requires y != t.root && fuel > 0 && Link(t.par, y) == t.root
    ensures Path(t, y, fuel) == [Link(t.rc, t.root) == y]
  {
    assert Path(t, t.root, fuel - 1) == [];
  }

  lemma NextCodes(t: Tree, x: int, y: int)
    requires FirstIn(t, x) && 0 <= y < 256 && y != x
    ensures
      var u := t.(w := t.w[x := 1][256 := t.w[256] + 1]);
      && Code(u, x) == [true]
      && Code(u, y) == [false] + Bits(if y < x then y else y - 1, 8)
  {
    hide Bits, FindZero;
    var u := t.(w := t.w[x := 1][256 := t.w[256] + 1]);
    WalksUp(u, x, u.zeros, y, 256);
    OneTurn(u, x, 511);
    OneTurn(u, u.zeros, 511);
  }

  /** In an alphabet of 256 the first symbol is sent as its eight bits, most significant first; from then on it has the
      code 1, and every other symbol a 0 and its place among those not seen. */
  lemma FirstCodes(h: Tree, x: int, y: int)
    requires h.Sized() && h.n == 256 && 0 <= x < 256 && 0 <= y < 256 && y != x
    ensures Code(Initial(h), x) == Bits(x, 8)
    ensures Code(Update(Initial(h), x), x) == [true]
    ensures Code(Update(Initial(h), x), y) == [false] + Bits(if y < x then y else y - 1, 8)
  {
    hide Code, Bits, Initial, Enter, EnterSafe, Climb, Climbs, Settled, OneMore, Total;
    var t := Initial(h);
    FreshCode(h, x);
    InitialSettles(h);
    FreshParts(h, x);
    UpdateSettles(t, x);
    FirstEntered(h, x);
    CountsTwo(Enter(t, x), x, 511);
    NextCodes(Enter(t, x), x, y);
  }
}
