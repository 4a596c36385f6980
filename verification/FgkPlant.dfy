/** A symbol occurs for the first time while others wait: it and a new inner node come in behind the unseen symbols. */
module FgkPlant {
  import opened Arithmetic
  import opened Sequences
  import opened FgkTree
  import opened FgkOrder
  import opened FgkRise
  import opened FgkClimb
  import opened FgkEnter

  /** Who heads the list then. */
  function Head(zs: seq<int>, k: nat): int {
    if k == 0 then At(zs, 1) else At(zs, 0)
  }

  function Shifted(o: Order, z: int, x: int, i: int, y: int): int {
    if y == z then 0 else if y == x then 1 else if y == i then 2 else if At(o.pos, y) > 0 then At(o.pos, y) + 2 else -1
  }

  /** The order with `z`, `x` and `i` in place of the first node. */
  function Widened(o: Order, x: int, i: int, k: nat): Order
    requires k < |o.zs| && o.ord != []
  {
    var z := Head(o.zs, k);
    Order([z, x, i] + o.ord[1..], seq(|o.pos|, y => Shifted(o, z, x, i, y)), Without(o.zs, k))
  }

  /** Symbol `x` is the `k`-th of at least two unseen ones. */
  ghost predicate Waiting(t: Tree, o: Order, x: int, k: nat) {
    && Placed(t, o) && t.zeros == o.ord[0] && t.w[o.ord[0]] == 0 && (|o.ord| == 1 || |o.ord| >= 3)
    && 2 <= |o.zs| == t.count && k < |o.zs| && x == o.zs[k] && o.zs[0] == t.zeros
    && (forall j :: 0 <= j < |o.zs| ==> 0 <= o.zs[j] < t.n && t.w[o.zs[j]] == 0)
    && (forall j, l :: 0 <= j < l < |o.zs| ==> o.zs[j] != o.zs[l])
    && (forall j :: 0 < j < |o.zs| ==> !In(o, o.zs[j]))
    && t.n <= t.next < |t.w| && |o.ord| + 2 <= |t.w|
    && (forall y :: In(o, y) ==> y < t.next)
  }

  // ----- The tree with the new leaf and the new inner node

  function Put(a: seq<int>, j: int, v: int): (b: seq<int>)
    ensures |b| == |a|
  {
    if 0 <= j < |a| then a[j := v] else a
  }

  function NewLeft(t: Tree, o: Order, x: int, k: nat): seq<int>
    requires t.Sized() && t.Node(t.next) && t.Node(x)
  {
    var l := t.left[t.next := x];
    (if |o.ord| >= 3 && t.Node(o.ord[1]) then l[o.ord[1] := t.next] else l)[x := Head(o.zs, k)]
  }

  function NewLc(t: Tree, o: Order, x: int, k: nat): seq<int>
    requires t.Sized() && t.Node(t.next) && t.Node(x)
  {
    var l := if |o.ord| >= 3 && t.Node(o.ord[2]) then t.lc[o.ord[2] := t.next] else t.lc;
    Put(l, At(o.zs, k + 1), At(o.zs, k - 1))[t.next := Head(o.zs, k)][x := NIL]
  }

  function NewRc(t: Tree, o: Order, x: int, k: nat): seq<int>
    requires t.Sized() && t.Node(t.next) && t.Node(x)
  {
    Put(t.rc[t.next := x], At(o.zs, k - 1), At(o.zs, k + 1))[x := NIL]
  }

  /** The new nodes join the block of weight one, or get a new block; the first two nodes get one each. */
  predicate Shares(t: Tree, o: Order) {
    |o.ord| >= 3 && Weight(t, o.ord[1]) == 1
  }

  function NewBlk(t: Tree, o: Order, x: int): (b: seq<int>)
    requires t.Sized() && t.Node(t.next) && t.Node(x) && |t.free| >= 2
    ensures |b| == |t.blk|
  {
    if Shares(t, o) && t.Node(o.ord[1]) then t.blk[t.next := t.blk[o.ord[1]]][x := t.blk[o.ord[1]]]
    else if |o.ord| >= 3 then t.blk[t.next := t.free[0]][x := t.free[0]]
    else t.blk[x := t.free[0]][t.next := t.free[1]]
  }

  function NewLead(t: Tree, o: Order, x: int): (l: seq<int>)
    requires t.Sized() && |t.free| >= 2 && t.Block(t.free[0]) && t.Block(t.free[1])
    ensures |l| == |t.lead|
  {
    if Shares(t, o) then t.lead
    else if |o.ord| >= 3 then t.lead[t.free[0] := t.next]
    else t.lead[t.free[0] := x][t.free[1] := t.next]
  }

  predicate CanPlant(t: Tree, o: Order, x: int, k: nat) {
    && t.Sized() && t.Node(t.next) && t.Node(x) && t.Node(t.zeros) && t.count > 1
    && |t.free| >= 2 && t.Block(t.free[0]) && t.Block(t.free[1]) && t.Node(Head(o.zs, k))
  }

  /** The tree after the symbol's first occurrence has been counted at its leaf and at the node above it. */
  function Planted(t: Tree, o: Order, x: int, k: nat): (s: Tree)
    requires CanPlant(t, o, x, k)
    ensures s.Sized() && s.n == t.n
  {
    var i, z := t.next, Head(o.zs, k);
    Tree(t.n, t.w[i := 1][x := 1], t.par[i := t.par[t.zeros]][x := i][z := i], NewLc(t, o, x, k), NewRc(t, o, x, k),
         NewLeft(t, o, x, k), t.right[i := t.right[t.zeros]][x := i][z := x], NewBlk(t, o, x), NewLead(t, o, x),
         if Shares(t, o) then t.free else if |o.ord| >= 3 then t.free[1..] else t.free[2..],
         if |o.ord| >= 3 then t.root else i, i + 1, z, t.count - 1, Log2(t.count - 1), t.count - 1 - Pow2(Log2(t.count - 1)))
  }

  // ----- What entering does

  /** The links around the head of the list. */
  ghost predicate HeadLinked(t: Tree, o: Order) {
    && Placed(t, o) && |o.ord| >= 3 && t.Node(t.zeros) && t.zeros == o.ord[0]
    && t.right[t.zeros] == o.ord[1] && t.par[t.zeros] == o.ord[2] && t.lc[o.ord[2]] == t.zeros
    && t.rc[o.ord[2]] == o.ord[1] && o.ord[1] != o.ord[0] && o.ord[2] != o.ord[0] && t.root != o.ord[0]
    && o.ord[1] != o.ord[2] && o.ord[2] >= t.n && o.ord[1] < t.next && o.ord[2] < t.next && t.root != t.next
  }

  ghost predicate Supplied(t: Tree) {
    t.Sized() && |t.free| >= 2 && t.Block(t.free[0]) && t.Block(t.free[1]) && t.free[0] != t.free[1]
  }

  /** The tree with the inner node hung in. */
  function Hanging(t: Tree, o: Order, x: int): Tree
    requires Supplied(t) && t.Node(t.next) && t.Node(x) && t.Node(t.zeros)
  {
    var i := t.next;
    var l := t.left[i := x];
    t.(par := t.par[i := t.par[t.zeros]], right := t.right[i := t.right[t.zeros]], w := t.w[i := 0], rc := t.rc[i := x],
       lc := if |o.ord| >= 3 && t.Node(o.ord[2]) then t.lc[o.ord[2] := i] else t.lc,
       left := if |o.ord| >= 3 && t.Node(o.ord[1]) then l[o.ord[1] := i] else l,
       blk := NewBlk(t, o, x), lead := NewLead(t, o, x),
       free := if Shares(t, o) then t.free else if |o.ord| >= 3 then t.free[1..] else t.free[2..],
       root := if |o.ord| >= 3 then t.root else i, next := i + 1)
  }

  lemma HangsBelow(t: Tree, o: Order, x: int, k: nat)
    requires Waiting(t, o, x, k) && HeadLinked(t, o) && Supplied(t) && t.Block(t.blk[o.ord[1]])
    ensures t.Node(x) && HangSafe(Grafted(t, x), x, t.next, t.zeros)
    ensures Hung(Grafted(t, x), x, t.next, t.zeros) == Hanging(t, o, x)
  {
    var g := Grafted(t, x);
    assert g.right[t.next] == o.ord[1] && g.w[o.ord[1]] == t.w[o.ord[1]] && g.par[t.zeros] == o.ord[2];
    assert g.rc[o.ord[2]] == o.ord[1] && g.rc[o.ord[2]] != t.zeros;
  }

  lemma HangsAlone(t: Tree, o: Order, x: int, k: nat)
    requires Waiting(t, o, x, k) && |o.ord| == 1 && Supplied(t)
    ensures t.Node(x) && HangSafe(Grafted(t, x), x, t.next, t.zeros)
    ensures Hung(Grafted(t, x), x, t.next, t.zeros) == Hanging(t, o, x)
  {
  }

  lemma Eliminates(h: Tree, zs: seq<int>, x: int, k: nat)
    requires h.Sized() && 2 <= |zs| == h.count && k < |zs| && x == zs[k] && h.zeros == zs[0] && Listed(h, zs)
    ensures EliminateSafe(h, x) && h.Node(x)
    ensures
      Eliminated(h, x) == Factored(h).(zeros := Head(zs, k), lc := Put(h.lc, At(zs, k + 1), At(zs, k - 1)),
                                       rc := Put(h.rc, At(zs, k - 1), At(zs, k + 1)))
    ensures h.Node(Head(zs, k))
  {
    assert h.Node(zs[0]) && h.rc[zs[0]] == At(zs, 1);
  }

  /** Taking the symbol out of the list and seating it. */
  lemma EliminatesAndSeats(h: Tree, zs: seq<int>, x: int, k: nat, i: int)
    requires h.Sized() && 2 <= |zs| == h.count && k < |zs| && x == zs[k] && h.zeros == zs[0] && Listed(h, zs) && h.Node(i)
    ensures EliminateSafe(h, x) && h.Node(x) && h.Node(Head(zs, k)) && h.Node(Eliminated(h, x).zeros)
    ensures
      var z := Head(zs, k);
      && Seated(Eliminated(h, x), x, i) ==
           Factored(h).(zeros := z, lc := Put(h.lc, At(zs, k + 1), At(zs, k - 1))[i := z][x := NIL],
                        rc := Put(h.rc, At(zs, k - 1), At(zs, k + 1))[x := NIL], par := h.par[x := i][z := i],
                        right := h.right[x := i][z := x], left := h.left[x := z])
  {
    hide Eliminated, EliminateSafe, Listed, At, Head, Put;
    Eliminates(h, zs, x, k);
  }

  lemma HangingIs(t: Tree, o: Order, x: int, k: nat)
    requires Waiting(t, o, x, k) && Supplied(t) && t.Node(Head(o.zs, k))
    ensures t.Node(x) && Hanging(t, o, x).Sized()
    ensures
      var h, i, z := Hanging(t, o, x), t.next, Head(o.zs, k);
      var e := Factored(h).(zeros := z, lc := Put(h.lc, At(o.zs, k + 1), At(o.zs, k - 1))[i := z][x := NIL],
                            rc := Put(h.rc, At(o.zs, k - 1), At(o.zs, k + 1))[x := NIL], par := h.par[x := i][z := i],
                            right := h.right[x := i][z := x], left := h.left[x := z]);
      e.(w := e.w[x := 1][i := 1]) == Planted(t, o, x, k) && e.w == t.w[i := 0]
  {
    hide Placed, At, Head, Put, NewBlk, NewLead, Log2;
    PlacedSizes(t, o);
    assert t.w[t.next := 0][x := 1][t.next := 1] == t.w[t.next := 1][x := 1];
  }

  lemma HangingListed(t: Tree, o: Order, x: int)
    requires Placed(t, o) && Supplied(t) && t.n <= t.next < |t.w| && t.Node(x) && t.Node(t.zeros) && Listed(t, o.zs)
    requires forall j :: 0 <= j < |o.zs| ==> 0 <= o.zs[j] < t.n
    requires |o.ord| >= 3 ==> o.ord[2] >= t.n
    ensures Listed(Hanging(t, o, x), o.zs)
  {
    hide At;
  }

  ghost predicate Ready(t: Tree, o: Order, x: int, k: nat) {
    && Waiting(t, o, x, k) && Supplied(t) && Listed(t, o.zs)
    && (|o.ord| >= 3 ==> HeadLinked(t, o) && t.Block(t.blk[o.ord[1]]))
  }

  lemma ReadyFacts(t: Tree, o: Order, x: int, k: nat)
    requires Ready(t, o, x, k)
    ensures CanPlant(t, o, x, k) && t.Sized() && t.Node(x) && t.Node(t.next) && x != t.next && t.Node(t.zeros) && t.count > 1 && Supplied(t)
    ensures t.Node(Head(o.zs, k)) && Head(o.zs, k) != x && t.w[x] == 0 && |o.zs| == t.count
    ensures 0 <= x < t.n <= t.next && 0 <= Head(o.zs, k) < t.n && t.w[Head(o.zs, k)] == 0
  {
  }

  lemma EntersSeated(t: Tree, o: Order, x: int, k: nat)
    requires Ready(t, o, x, k)
    ensures EnterSafe(t, x) && t.Node(x) && t.Node(t.next)
    ensures CanPlant(t, o, x, k)
    ensures
      var e := Enter(t, x);
      e.(w := e.w[x := 1][t.next := 1]) == Planted(t, o, x, k) && e.w == t.w[t.next := 0]
  {
    hide Planted, Hanging, Grafted, Hung, Eliminated, EliminateSafe, Seated, HangSafe, Listed, Head, Put, At;
    ReadyFacts(t, o, x, k);
    if |o.ord| >= 3 {
      HangsBelow(t, o, x, k);
    } else {
      HangsAlone(t, o, x, k);
    }
    HangingListed(t, o, x);
    HangingIs(t, o, x, k);
    HangingSame(t, o, x);
    EliminatesAndSeats(Hanging(t, o, x), o.zs, x, k, t.next);
  }

  lemma HangingSame(t: Tree, o: Order, x: int)
    requires Supplied(t) && t.Node(t.next) && t.Node(x) && t.Node(t.zeros)
    ensures
      var h := Hanging(t, o, x);
      h.Sized() && h.count == t.count && h.zeros == t.zeros && |h.w| == |t.w|
  {
  }

  /** The two new nodes and what they are linked to. */
  lemma PlantedAround(t: Tree, o: Order, x: int, k: nat)
    requires Ready(t, o, x, k)
    ensures t.Node(x) && t.Node(t.next) && CanPlant(t, o, x, k)
    ensures
      var s, i := Planted(t, o, x, k), t.next;
      && s.par[x] == i && s.right[x] == i && t.Block(s.blk[x]) && s.w[x] == 1 && s.w[i] == 1 && |s.lead| == |t.lead|
      && (|o.ord| == 1 ==> s.root == i)
      && (|o.ord| >= 3 ==> s.root == t.root && s.root != x && s.root != i && s.par[i] == o.ord[2]
                           && s.right[i] == o.ord[1] && t.Node(o.ord[1]) && t.Block(s.blk[i]))
  {
    hide Put, At, Listed;
    ReadyFacts(t, o, x, k);
    assert |o.ord| >= 3 && o.pos[t.root] == |o.ord| - 1 ==> t.root != x;
  }

  /** Both new nodes weigh nothing when they are counted, and stay where they are. */
  lemma CountsWeightless(e: Tree, s: Tree, x: int, i: int, fuel: nat)
    requires e.Sized() && e.Node(x) && e.Node(i) && x != i && e.w[x] == 0 && e.w[i] == 0 && s == e.(w := e.w[x := 1][i := 1])
    requires s.par[x] == i && s.right[x] == i && s.Block(s.blk[x]) && x != s.root && fuel >= 2
    requires i != s.root ==> s.Block(s.blk[i]) && s.Node(s.right[i])
    ensures Climb(e, x, fuel) == if i == s.root then s else Climb(s, s.par[i], fuel - 2)
    ensures Climbs(e, x, fuel) == (i == s.root || Climbs(s, s.par[i], fuel - 2))
  {
    hide Step, StepSafe, Climb, Climbs;
    StepWeightless(e, x);
    ClimbOn(e, x, fuel);
    var g := Grown(e, x);
    if i == s.root {
      AtRoot(g, fuel - 1);
    } else {
      StepWeightless(g, i);
      ClimbOn(g, i, fuel - 1);
    }
  }

  /** Counting a symbol for the first time. */
  lemma EnteringClimbs(t: Tree, o: Order, x: int, k: nat)
    requires Ready(t, o, x, k)
    ensures t.Node(x) && CanPlant(t, o, x, k) && |o.ord| < |t.w|
    ensures
      Update(t, x) ==
        if |o.ord| == 1 then Planted(t, o, x, k) else Climb(Planted(t, o, x, k), o.ord[2], |t.w| - 2)
    ensures Updates(t, x) == (|o.ord| == 1 || Climbs(Planted(t, o, x, k), o.ord[2], |t.w| - 2))
  {
    hide Planted, Enter, EnterSafe, Climb, Climbs, At, Head, Listed, Update, Updates;
    ReadyFacts(t, o, x, k);
    EntersSeated(t, o, x, k);
    PlantedAround(t, o, x, k);
    UpdateEnters(t, x);
    CountsWeightless(Enter(t, x), Planted(t, o, x, k), x, t.next, |t.w|);
  }
}
