/** Codes are shorter than the alphabet, and the decoder stays on the tree whatever bits it is given. */
module FgkReach {
  import opened Arithmetic
  import opened BitStream
  import opened FgkTree
  import opened FgkOrder
  import opened FgkRise
  import opened FgkClimb
  import opened FgkEnter
  import opened FgkGrow
  import opened FgkCodec

  // ----- The length of a code

  /** The inner nodes of the tree behind place `k`. */
  ghost function InnerBehind(t: Tree, o: Order, k: int): set<int> {
    set x | 0 <= x < |o.pos| && x >= t.n && o.pos[x] > k
  }

  lemma {:induction false} PathShort(t: Tree, o: Order, y: int, fuel: nat)
    requires Stands(t, o, y, fuel)
    ensures |Path(t, y, fuel)| <= |InnerBehind(t, o, o.pos[y])|
    decreases fuel
  {
    hide Stands, InnerBehind;
    if y != t.root {
      StandsFacts(t, o, y, fuel);
      PathShort(t, o, t.par[y], fuel - 1);
      FewerBehind(t, o, y, fuel);
    }
  }

  lemma FewerBehind(t: Tree, o: Order, y: int, fuel: nat)
    requires Stands(t, o, y, fuel) && y != t.root && fuel > 0
    ensures t.Sized() && t.Node(y) && In(o, t.par[y])
    ensures |InnerBehind(t, o, o.pos[t.par[y]])| < |InnerBehind(t, o, o.pos[y])|
  {
    hide Linked, Family, Summed, Lit, Sorted, Grouped, Stocked, Unseen, Idle, Counted;
    UpwardPlace(t, o, y);
    var p := t.par[y];
    Smaller(InnerBehind(t, o, o.pos[p]) + {p}, InnerBehind(t, o, o.pos[y]));
  }

  lemma FewInner(t: Tree, o: Order, k: int)
    requires Placed(t, o) && Counted(t, o) && k >= -1
    ensures |InnerBehind(t, o, k)| < t.n
    ensures t.zeros != NIL ==> |InnerBehind(t, o, k)| <= t.n - t.count
  {
    InnerRange(t, o, k);
    Between(InnerBehind(t, o, k), t.n, if t.zeros != NIL then t.next else |t.w|);
  }

  lemma InnerRange(t: Tree, o: Order, k: int)
    requires Placed(t, o) && Counted(t, o) && k >= -1
    ensures t.Sized() && forall x :: x in InnerBehind(t, o, k) ==> t.n <= x < if t.zeros != NIL then t.next else |t.w|
  {
    forall x | x in InnerBehind(t, o, k) ensures t.n <= x < if t.zeros != NIL then t.next else |t.w| {
      assert In(o, x);
    }
  }

  lemma Between(s: set<int>, a: nat, b: nat)
    requires a <= b && forall x :: x in s ==> a <= x < b
    ensures |s| <= b - a
  {
    Smaller(s + Below(a), Below(b));
    assert s * Below(a) == {};
  }

  lemma {:induction false} ExpBelowPower(e: nat)
    ensures e + 1 <= Pow2(e)
  {
    if e > 0 {
      ExpBelowPower(e - 1);
    }
  }

  lemma WidthBelowCount(t: Tree, o: Order)
    requires Placed(t, o) && Counted(t, o)
    ensures Width(t) < t.count <= t.n
  {
    ExpBelowPower(t.exp);
  }

  lemma UnseenHead(t: Tree, o: Order, x: int)
    requires Placed(t, o) && Unseen(t, o) && 0 <= x < t.n && t.w[x] == 0
    ensures t.zeros != NIL
  {
  }

  /** There is a bit at least, and there are fewer than symbols: the bits of a code fit where the coder keeps them. */
  lemma CodeLength(t: Tree, x: int)
    requires Settled(t) && 0 <= x < t.n
    ensures 0 < |Code(t, x)| < t.n
  {
    hide Inv, Placed, Linked, Family, Summed, Lit, Sorted, Grouped, Stocked, Unseen, Idle, Counted, Stands, Settled;
    var o := OrderOf(t);
    InvParts(t, o, NIL);
    StandsAt(t, o, x);
    CodeNotEmpty(t, x);
    WidthBelowCount(t, o);
    if t.w[x] > 0 {
      PathShort(t, o, x, |t.w|);
      StandsPlace(t, o, x, |t.w|);
      FewInner(t, o, o.pos[x]);
    } else {
      UnseenHead(t, o, x);
      PathShort(t, o, t.zeros, |t.w|);
      StandsPlace(t, o, t.zeros, |t.w|);
      FewInner(t, o, o.pos[t.zeros]);
    }
  }

  /** The parts a code is made of, and that they have room. */
  lemma CodeParts(t: Tree, x: int) returns (o: Order)
    requires Settled(t) && 0 <= x < t.n
    ensures t.Sized() && |Code(t, x)| < t.n
    ensures t.w[x] > 0 ==> Code(t, x) == Path(t, x, |t.w|) && Stands(t, o, x, |t.w|)
    ensures t.w[x] == 0 ==> Code(t, x) == Path(t, t.zeros, |t.w|) + Bits(Index(t, x), Width(t))
    ensures t.w[x] == 0 ==> Stands(t, o, t.zeros, |t.w|)
  {
    hide Inv, Stands, Settled, Index, Width, Path;
    CodeLength(t, x);
    o := OrderOf(t);
    StandsAt(t, o, x);
  }

  lemma StandsPlace(t: Tree, o: Order, y: int, fuel: nat)
    requires Stands(t, o, y, fuel)
    ensures In(o, y)
  {
  }

  lemma CodeNotEmpty(t: Tree, x: int)
    requires Settled(t) && 0 <= x < t.n
    ensures Code(t, x) != []
  {
    hide Settled, Code;
    SymbolReadBack(t, x, []);
    NoBits(Begin(t));
  }

  lemma NoBits(d: Decoder)
    ensures DecodeSymbol(d, []) == More(d)
  {
  }

  // ----- The decoder on any bits

  /** Between two bits: at an inner node, or at the head of the list with bits of the index missing. */
  ghost predicate Awaiting(d: Decoder, o: Order) {
    && Inv(d.t, o, NIL) && In(o, d.ptr)
    && (if d.ptr >= d.t.n then d.bits == [] else d.ptr == d.t.zeros && d.t.count > 1 && |d.bits| < Width(d.t))
  }

  /** With the last bit of a symbol: at its leaf, or at the head of the list with all bits. */
  ghost predicate Complete(d: Decoder, o: Order) {
    && Inv(d.t, o, NIL) && In(o, d.ptr) && d.ptr < d.t.n
    && (d.ptr == d.t.zeros ==> |d.bits| == Width(d.t))
  }

  lemma BeginAwaits(t: Tree, o: Order)
    requires Inv(t, o, NIL)
    ensures Awaiting(Begin(t), o)
  {
    hide Linked, Summed, Sorted, Grouped, Stocked, Idle, Listed, Family;
    assert In(o, t.root);
    if |o.ord| >= 3 {
      RootInner(t, o);
    } else {
      CountParts(t, o);
    }
  }

  lemma AwaitingNode(d: Decoder, o: Order)
    requires Awaiting(d, o)
    ensures d.t.Sized() && d.t.Node(d.ptr) && (d.t.w[d.ptr] == 0 <==> d.ptr == d.t.zeros) && d.t.zeros < d.t.n
    ensures d.ptr >= d.t.n <==> d.ptr != d.t.zeros
    ensures d.ptr >= d.t.n ==> In(o, d.t.lc[d.ptr]) && In(o, d.t.rc[d.ptr])
    ensures d.ptr >= d.t.n ==> d.t.Node(d.t.lc[d.ptr]) && d.t.Node(d.t.rc[d.ptr])
  {
    hide Linked, Family, Summed, Sorted, Grouped, Stocked, Idle, Counted, Listed;
    var t, y := d.t, d.ptr;
    assert o.ord[o.pos[y]] == y;
    if y >= t.n {
      KidsOf(t, o, y);
    }
  }

  lemma StandsAnywhere(t: Tree, o: Order, y: int)
    requires Inv(t, o, NIL) && In(o, y)
    ensures t.Sized() && Stands(t, o, y, |t.w|)
  {
    hide Linked, Family, Summed, Sorted, Grouped, Stocked, Idle, Lit, Unseen;
  }

  /** Any bit leaves the decoder at a node of the tree, and completes a symbol or leaves it waiting. */
  lemma BitKeeps(d: Decoder, o: Order, b: bool)
    requires Awaiting(d, o)
    ensures
      var (e, done) := DecodeBit(d, b);
      e.t == d.t && if done then Complete(e, o) else Awaiting(e, o)
  {
    hide Inv;
    AwaitingNode(d, o);
    if d.ptr >= d.t.n {
      var y := if b then d.t.rc[d.ptr] else d.t.lc[d.ptr];
      StandsAnywhere(d.t, o, y);
      NodeFacts(d.t, o, y, |d.t.w|);
      InvSizes(d.t, o);
      SingleWidth(d.t, o);
    }
  }

  /** There is room for another bit of the index. */
  lemma AwaitingRoom(d: Decoder, o: Order)
    requires Awaiting(d, o)
    ensures |d.bits| < d.t.n
  {
    hide Linked, Family, Summed, Sorted, Grouped, Stocked, Idle, Lit, Unseen;
    WidthBelowCount(d.t, o);
  }

  lemma CompleteFacts(d: Decoder, o: Order)
    requires Complete(d, o)
    ensures Settled(d.t) && d.t.Sized() && d.t.Node(d.ptr) && (d.t.w[d.ptr] == 0 <==> d.ptr == d.t.zeros)
    ensures d.ptr == d.t.zeros ==> d.t.zeros >= 0
  {
    hide Inv;
    StandsAnywhere(d.t, o, d.ptr);
    NodeFacts(d.t, o, d.ptr, |d.t.w|);
  }

  /** Without bits of an index there is one unseen symbol only, and any index finds it. */
  lemma NoIndexNeeded(d: Decoder, o: Order, i: nat)
    requires Complete(d, o) && d.ptr == d.t.zeros && d.t.zeros >= 0
    requires d.bits != [] ==> i == ValueOf(d.bits)
    ensures NthZero(d.t, d.t.zeros, i) == NthZero(d.t, d.t.zeros, ValueOf(d.bits))
  {
    hide Inv, NthZero;
    SingleWidth(d.t, o);
    if d.bits == [] {
      AnyPlace(d.t, o, i);
      AnyPlace(d.t, o, ValueOf(d.bits));
    }
  }

  lemma SingleWidth(t: Tree, o: Order)
    requires Inv(t, o, NIL)
    ensures t.count >= 1 && (t.count == 1 ==> Width(t) == 0) && (t.count > 1 ==> Width(t) > 0)
  {
    hide Linked, Family, Summed, Sorted, Grouped, Stocked, Idle, Lit, Unseen;
    CountParts(t, o);
  }

  /** A complete symbol is one of the alphabet, even where the index is out of range. */
  lemma PickedInRange(d: Decoder, o: Order)
    requires Complete(d, o)
    ensures 0 <= Picked(d) < d.t.n && d.t.Sized()
  {
    hide Inv, Listed, NthZero;
    StandsAnywhere(d.t, o, d.ptr);
    NodeFacts(d.t, o, d.ptr, |d.t.w|);
    if d.ptr == d.t.zeros {
      AnyPlace(d.t, o, ValueOf(d.bits));
    }
  }

  lemma AnyPlace(t: Tree, o: Order, i: nat)
    requires Inv(t, o, NIL) && 0 <= t.zeros
    ensures 0 <= NthZero(t, t.zeros, i) < t.n
    ensures t.count == 1 ==> NthZero(t, t.zeros, i) == t.zeros
  {
    hide Linked, Family, Summed, Sorted, Grouped, Stocked, Idle, Lit, Listed, Counted, NthZero;
    PicksPlace(t, o.zs, 0, i);
  }

  /** Whatever bits come, the decoder goes on with a tree in order. */
  lemma {:induction false} SymbolKeeps(d: Decoder, o: Order, bits: seq<bool>)
    requires Awaiting(d, o)
    ensures
      match DecodeSymbol(d, bits)
      case More(e) => Awaiting(e, o)
      case Symbol(x, e, rest) => 0 <= x < d.t.n && e == Begin(Update(d.t, x)) && Settled(e.t) && |rest| < |bits|
    decreases bits
  {
    hide Inv, Awaiting, Complete, Settled, Update, Picked;
    if bits != [] {
      BitKeeps(d, o, bits[0]);
      var (e, done) := DecodeBit(d, bits[0]);
      if done {
        PickedInRange(e, o);
        CompleteSettles(e, o);
        UpdateSettles(e.t, Picked(e));
      } else {
        SymbolKeeps(e, o, bits[1..]);
      }
    }
  }

  lemma CompleteSettles(d: Decoder, o: Order)
    requires Complete(d, o)
    ensures Settled(d.t)
  {
    hide Inv;
  }
}
