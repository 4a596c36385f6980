/** The tree with a new leaf and a new inner node is in order again. */
module FgkGrow {
  import opened Arithmetic
  import opened Sequences
  import opened FgkTree
  import opened FgkOrder
  import opened FgkRise
  import opened FgkClimb
  import opened FgkEnter
  import opened FgkPlant

  // ----- Places

  /** The nodes behind the first keep their order, two places further on. */
  lemma OldOne(t: Tree, o: Order, x: int, k: nat, j: int)
    requires Waiting(t, o, x, k) && 1 <= j < |o.ord|
    ensures t.Node(o.ord[j]) && o.pos[o.ord[j]] == j && In(o, o.ord[j]) && o.ord[j] < t.next
    ensures o.ord[j] != x && o.ord[j] != t.next && o.ord[j] != Head(o.zs, k) && o.ord[j] != t.zeros
    ensures forall l :: 0 <= l < |o.zs| ==> o.ord[j] != o.zs[l]
  {
    assert o.pos[o.ord[j]] == j && o.pos[o.ord[0]] == 0 && In(o, o.ord[j]);
    forall l | 0 <= l < |o.zs| ensures o.ord[j] != o.zs[l] {
      assert l > 0 ==> !In(o, o.zs[l]);
    }
  }

  lemma ReadyWaits(t: Tree, o: Order, x: int, k: nat)
    requires Ready(t, o, x, k)
    ensures Waiting(t, o, x, k) && Placed(t, o) && k < |o.zs| && o.ord != [] && (|o.ord| == 1 || |o.ord| >= 3)
  {
  }

  lemma NewOnes(t: Tree, o: Order, x: int, k: nat)
    requires Waiting(t, o, x, k)
    ensures var z, i := Head(o.zs, k), t.next; t.Node(z) && t.Node(x) && t.Node(i) && z != x && x != i && z != i
    ensures Head(o.zs, k) < t.n && x < t.n <= t.next && t.w[Head(o.zs, k)] == 0
    ensures t.Node(t.zeros) && t.count > 1 && o.ord != [] && k < |o.zs|
    ensures x == t.zeros || Head(o.zs, k) == t.zeros
  {
  }

  lemma WidenedPlaces(t: Tree, o: Order, x: int, k: nat, y: int)
    requires Waiting(t, o, x, k) && 0 <= y < |t.w|
    ensures o.ord != [] && |o.pos| == |t.w|
    ensures
      var o' := Widened(o, x, t.next, k);
      && |o'.pos| == |t.w|
      && (In(o', y) <==> y == Head(o.zs, k) || y == x || y == t.next || (In(o, y) && o.pos[y] > 0))
      && (In(o, y) && o.pos[y] > 0 ==> y == o.ord[o.pos[y]] && o.pos[y] < |o.ord| && o'.pos[y] == o.pos[y] + 2)
      && o'.pos[y] <= |o'.ord| - 1
  {
    if In(o, y) && o.pos[y] > 0 {
      OldOne(t, o, x, k, o.pos[y]);
    }
  }

  lemma WidenedOrder(t: Tree, o: Order, x: int, k: nat, j: int)
    requires Waiting(t, o, x, k) && 0 <= j < |o.ord| + 2
    ensures
      var o' := Widened(o, x, t.next, k);
      && |o'.ord| == |o.ord| + 2 && |o'.pos| == |t.w|
      && o'.ord[j] == (if j == 0 then Head(o.zs, k) else if j == 1 then x else if j == 2 then t.next else o.ord[j - 2])
      && t.Node(o'.ord[j]) && o'.pos[o'.ord[j]] == j && In(o', o'.ord[j])
  {
    NewOnes(t, o, x, k);
    if j > 2 {
      OldOne(t, o, x, k, j - 2);
      WidenedPlaces(t, o, x, k, o.ord[j - 2]);
    }
  }

  lemma PlantedPlaced(t: Tree, o: Order, x: int, k: nat)
    requires Ready(t, o, x, k)
    ensures CanPlant(t, o, x, k)
    ensures Placed(Planted(t, o, x, k), Widened(o, x, t.next, k))
  {
    hide CanPlant, Planted, Widened, Placed, Waiting, Ready;
    ReadyFacts(t, o, x, k);
    ReadyWaits(t, o, x, k);
    PlantedAround(t, o, x, k);
    PlacedSizes(t, o);
    var s, o' := Planted(t, o, x, k), Widened(o, x, t.next, k);
    WidenedOrder(t, o, x, k, 0);
    WidenedOrder(t, o, x, k, 1);
    WidenedOrder(t, o, x, k, 2);
    forall j | 0 <= j < |o'.ord| ensures s.Node(o'.ord[j]) && o'.pos[o'.ord[j]] == j {
      WidenedOrder(t, o, x, k, j);
    }
    forall y | In(o', y) ensures o'.pos[y] < |o'.ord| && o'.ord[o'.pos[y]] == y {
      WidenedPlaces(t, o, x, k, y);
      WidenedOrder(t, o, x, k, o'.pos[y]);
    }
    WidenedOrder(t, o, x, k, |o'.ord| - 1);
    RootLast(t, o);
    PlacedFrom(s, o');
  }

  lemma RootLast(t: Tree, o: Order)
    requires Placed(t, o)
    ensures o.ord != [] && t.root == o.ord[|o.ord| - 1]
  {
  }

  lemma PlacedFrom(t: Tree, o: Order)
    requires t.Sized() && |o.pos| == |t.w| && o.ord != []
    requires forall k :: 0 <= k < |o.ord| ==> t.Node(o.ord[k]) && o.pos[o.ord[k]] == k
    requires forall x :: In(o, x) ==> o.pos[x] < |o.ord| && o.ord[o.pos[x]] == x
    requires t.root == o.ord[|o.ord| - 1]
    ensures Placed(t, o)
  {
  }

  // ----- Links

  /** The links of the nodes behind the first stay, but the second's to the left. */
  lemma PlantedOld(t: Tree, o: Order, x: int, k: nat, j: int)
    requires Ready(t, o, x, k) && 1 <= j < |o.ord|
    ensures t.Node(o.ord[j]) && CanPlant(t, o, x, k)
    ensures
      var s, y := Planted(t, o, x, k), o.ord[j];
      && s.right[y] == t.right[y] && s.left[y] == (if j == 1 && |o.ord| >= 3 then t.next else t.left[y])
      && s.w[y] == t.w[y] && s.blk[y] == t.blk[y] && s.par[y] == t.par[y]
  {
    hide Put, At, Listed, Head;
    ReadyFacts(t, o, x, k);
    ReadyWaits(t, o, x, k);
    OldOne(t, o, x, k, j);
    if |o.ord| >= 3 {
      OldOne(t, o, x, k, 1);
    }
  }

  lemma PlantedNewLeft(t: Tree, o: Order, x: int, k: nat)
    requires Ready(t, o, x, k)
    ensures CanPlant(t, o, x, k)
    ensures
      var s, i, z := Planted(t, o, x, k), t.next, Head(o.zs, k);
      s.left[i] == x && s.left[x] == z && s.left[z] == t.left[z]
  {
    hide At, Listed, Head, NewLc, NewRc, NewBlk, NewLead, Placed;
    ReadyFacts(t, o, x, k);
    ReadyWaits(t, o, x, k);
    NewOnes(t, o, x, k);
    if |o.ord| >= 3 {
      OldOne(t, o, x, k, 1);
    }
  }

  lemma PlantedNewRight(t: Tree, o: Order, x: int, k: nat)
    requires Ready(t, o, x, k)
    ensures CanPlant(t, o, x, k)
    ensures
      var s, i, z := Planted(t, o, x, k), t.next, Head(o.zs, k);
      && s.right[z] == x && s.right[x] == i && s.right[i] == t.right[t.zeros]
      && s.w[x] == 1 && s.w[i] == 1 && s.w[z] == 0 && s.par[x] == i && s.par[z] == i && s.par[i] == t.par[t.zeros]
  {
    hide At, Listed, Head, NewLc, NewRc, NewBlk, NewLead, NewLeft, Placed, Ready;
    ReadyFacts(t, o, x, k);
    ReadyWaits(t, o, x, k);
    NewOnes(t, o, x, k);
  }

  lemma PlantedNew(t: Tree, o: Order, x: int, k: nat)
    requires Ready(t, o, x, k)
    ensures CanPlant(t, o, x, k)
    ensures
      var s, i, z := Planted(t, o, x, k), t.next, Head(o.zs, k);
      && s.right[z] == x && s.right[x] == i && s.right[i] == t.right[t.zeros]
      && s.left[i] == x && s.left[x] == z && s.left[z] == t.left[z]
      && s.w[x] == 1 && s.w[i] == 1 && s.w[z] == 0 && s.par[x] == i && s.par[z] == i && s.par[i] == t.par[t.zeros]
  {
    hide Planted, Ready, CanPlant;
    PlantedNewLeft(t, o, x, k);
    PlantedNewRight(t, o, x, k);
  }

  lemma PlantedNewKids(t: Tree, o: Order, x: int, k: nat)
    requires Ready(t, o, x, k)
    ensures CanPlant(t, o, x, k)
    ensures
      var s, i, z := Planted(t, o, x, k), t.next, Head(o.zs, k);
      s.lc[i] == z && s.rc[i] == x && s.lc[x] == NIL && s.rc[x] == NIL
  {
    hide At, Listed, Head, NewLeft, NewBlk, NewLead, Placed;
    ReadyFacts(t, o, x, k);
    ReadyWaits(t, o, x, k);
    ListStaysBelow(t, o, x, k);
  }

  lemma ListStaysBelow(t: Tree, o: Order, x: int, k: nat)
    requires Waiting(t, o, x, k)
    ensures At(o.zs, k + 1) < t.n && At(o.zs, k - 1) < t.n && At(o.zs, k + 1) != x && At(o.zs, k - 1) != x
  {
  }

  ghost predicate LinkedAt(t: Tree, o: Order, j: int)
    requires Placed(t, o) && 0 <= j < |o.ord|
  {
    && (j + 1 < |o.ord| ==> t.right[o.ord[j]] == o.ord[j + 1])
    && t.left[o.ord[j]] == (if j > 0 then o.ord[j - 1] else NIL)
  }

  lemma LinkedAtPlace(t: Tree, o: Order, j: int)
    requires Placed(t, o) && Linked(t, o) && 0 <= j < |o.ord|
    ensures LinkedAt(t, o, j)
  {
  }

  lemma PlantedLink(t: Tree, o: Order, x: int, k: nat, j: int)
    requires Ready(t, o, x, k) && Linked(t, o) && Idle(t, o) && 0 <= j < |o.ord| + 2
    ensures CanPlant(t, o, x, k)
    ensures Placed(Planted(t, o, x, k), Widened(o, x, t.next, k))
    ensures LinkedAt(Planted(t, o, x, k), Widened(o, x, t.next, k), j)
  {
    hide CanPlant, Planted, Widened, Placed, Waiting, Ready, Idle;
    ReadyFacts(t, o, x, k);
    ReadyWaits(t, o, x, k);
    PlantedPlaced(t, o, x, k);
    WidenedOrder(t, o, x, k, j);
    PlantedNew(t, o, x, k);
    IdleHead(t, o, k);
    if j > 2 {
      PlantedOld(t, o, x, k, j - 2);
      LinkedAtPlace(t, o, j - 2);
    }
    if j > 0 {
      WidenedOrder(t, o, x, k, j - 1);
    }
    if j < |o.ord| + 1 {
      WidenedOrder(t, o, x, k, j + 1);
    }
    if |o.ord| >= 3 {
      ReadyHead(t, o, x, k);
    }
  }

  lemma ReadyHead(t: Tree, o: Order, x: int, k: nat)
    requires Ready(t, o, x, k) && |o.ord| >= 3
    ensures HeadLinked(t, o) && t.right[t.zeros] == o.ord[1]
  {
  }

  lemma IdleHead(t: Tree, o: Order, k: nat)
    requires Placed(t, o) && Idle(t, o) && |o.zs| >= 2
    ensures t.Node(Head(o.zs, k)) && t.left[Head(o.zs, k)] == NIL && t.blk[Head(o.zs, k)] == NIL
  {
  }

  lemma PlantedLinked(t: Tree, o: Order, x: int, k: nat)
    requires Ready(t, o, x, k) && Linked(t, o) && Idle(t, o)
    ensures CanPlant(t, o, x, k) && k < |o.zs| && o.ord != []
    ensures Placed(Planted(t, o, x, k), Widened(o, x, t.next, k)) && Linked(Planted(t, o, x, k), Widened(o, x, t.next, k))
  {
    hide CanPlant, Planted, Widened, Placed, Waiting, Ready, Idle, Linked, LinkedAt;
    ReadyFacts(t, o, x, k);
    PlantedPlaced(t, o, x, k);
    ReadyWaits(t, o, x, k);
    var s, o' := Planted(t, o, x, k), Widened(o, x, t.next, k);
    WidenedOrder(t, o, x, k, 0);
    forall j | 0 <= j < |o'.ord| ensures LinkedAt(s, o', j) {
      PlantedLink(t, o, x, k, j);
    }
    LinkedFrom(s, o');
  }

  lemma LinkedFrom(t: Tree, o: Order)
    requires Placed(t, o) && forall j :: 0 <= j < |o.ord| ==> LinkedAt(t, o, j)
    ensures Linked(t, o)
  {
    assert LinkedAt(t, o, 0);
    forall j | 0 <= j < |o.ord|
      ensures (j + 1 < |o.ord| ==> t.right[o.ord[j]] == o.ord[j + 1])
      ensures t.left[o.ord[j]] == (if j > 0 then o.ord[j - 1] else NIL)
    {
      assert LinkedAt(t, o, j);
    }
  }

  // ----- Parents and children

  /** Only the third node has a new child among the inner nodes of before. */
  lemma PlantedOldKids(t: Tree, o: Order, x: int, k: nat, y: int)
    requires Ready(t, o, x, k) && t.n <= y < t.next
    ensures CanPlant(t, o, x, k)
    ensures
      var s := Planted(t, o, x, k);
      s.lc[y] == (if |o.ord| >= 3 && y == o.ord[2] then t.next else t.lc[y]) && s.rc[y] == t.rc[y]
  {
    hide At, Listed, Head, NewLeft, NewBlk, NewLead, Placed;
    ReadyFacts(t, o, x, k);
    ReadyWaits(t, o, x, k);
    ListStaysBelow(t, o, x, k);
  }

  lemma PlantedKids(t: Tree, o: Order, x: int, k: nat, y: int)
    requires Ready(t, o, x, k) && Family(t, o) && t.n <= y < |t.w|
    ensures CanPlant(t, o, x, k) && o.ord != [] && k < |o.zs| && |o.pos| == |t.w|
    ensures In(Widened(o, x, t.next, k), y) ==> Kids(Planted(t, o, x, k), Widened(o, x, t.next, k), y)
  {
    hide CanPlant, Planted, Widened, Placed, Waiting, Ready, Family;
    ReadyFacts(t, o, x, k);
    ReadyWaits(t, o, x, k);
    PlacedSizes(t, o);
    WidenedPlaces(t, o, x, k, y);
    WidenedOrder(t, o, x, k, 0);
    WidenedOrder(t, o, x, k, 1);
    WidenedOrder(t, o, x, k, 2);
    PlantedNew(t, o, x, k);
    PlantedNewKids(t, o, x, k);
    if In(o, y) && o.pos[y] > 0 {
      OldKids(t, o, x, k, y);
    }
  }

  lemma OldKids(t: Tree, o: Order, x: int, k: nat, y: int)
    requires Ready(t, o, x, k) && Family(t, o) && t.n <= y < |t.w| && |o.pos| == |t.w| && In(o, y) && o.pos[y] > 0
    ensures CanPlant(t, o, x, k) && o.ord != [] && k < |o.zs|
    ensures Kids(Planted(t, o, x, k), Widened(o, x, t.next, k), y)
  {
    hide CanPlant, Planted, Widened, Placed, Waiting, Ready, Family;
    ReadyFacts(t, o, x, k);
    ReadyWaits(t, o, x, k);
    WidenedPlaces(t, o, x, k, y);
    OldOne(t, o, x, k, o.pos[y]);
    PlantedOldKids(t, o, x, k, y);
    KidsOf(t, o, y);
    var l, r := t.lc[y], t.rc[y];
    OldKid(t, o, x, k, y, r);
    if |o.ord| >= 3 && y == o.ord[2] {
      ReadyHead(t, o, x, k);
      WidenedOrder(t, o, x, k, 2);
      PlantedNew(t, o, x, k);
    } else {
      OldKid(t, o, x, k, y, l);
    }
  }

  /** A child that is not the head of the list stays a child. */
  lemma OldKid(t: Tree, o: Order, x: int, k: nat, y: int, c: int)
    requires Ready(t, o, x, k) && In(o, y) && o.pos[y] > 0 && In(o, c) && t.Node(c) && t.par[c] == y && o.pos[c] < o.pos[y]
    requires c == t.rc[y] || (|o.ord| >= 3 ==> y != o.ord[2])
    requires t.Node(y) && |o.pos| == |t.w|
    ensures CanPlant(t, o, x, k) && o.ord != [] && k < |o.zs|
    ensures
      var s, o' := Planted(t, o, x, k), Widened(o, x, t.next, k);
      In(o', c) && s.par[c] == y && o'.pos[c] == o.pos[c] + 2 && c != t.next
  {
    hide CanPlant, Planted, Widened, Placed, Waiting, Ready;
    ReadyFacts(t, o, x, k);
    ReadyWaits(t, o, x, k);
    NotHead(t, o, x, k, y, c);
    WidenedPlaces(t, o, x, k, c);
    OldOne(t, o, x, k, o.pos[c]);
    PlantedOld(t, o, x, k, o.pos[c]);
  }

  lemma NotHead(t: Tree, o: Order, x: int, k: nat, y: int, c: int)
    requires Ready(t, o, x, k) && t.Node(y) && t.Node(c) && In(o, c) && t.par[c] == y && o.pos[c] < o.pos[y] && In(o, y)
    requires c == t.rc[y] || (|o.ord| >= 3 ==> y != o.ord[2])
    ensures o.pos[c] > 0 && o.pos[c] < |o.ord| && o.ord[o.pos[c]] == c
  {
    hide Ready, Waiting, HeadLinked;
    ReadyWaits(t, o, x, k);
    assert o.ord[o.pos[c]] == c && o.ord[o.pos[y]] == y;
    if |o.ord| >= 3 {
      HeadBelow(t, o, x, k);
    }
  }

  lemma HeadBelow(t: Tree, o: Order, x: int, k: nat)
    requires Ready(t, o, x, k) && |o.ord| >= 3
    ensures t.Node(o.ord[0]) && t.Node(o.ord[2]) && t.par[o.ord[0]] == o.ord[2] && t.rc[o.ord[2]] != o.ord[0]
  {
    hide Listed, Supplied;
    assert o.ord[0] == t.zeros && o.pos[o.ord[0]] == 0 && o.pos[o.ord[1]] == 1;
  }

  lemma PlantedChild(t: Tree, o: Order, x: int, k: nat, y: int)
    requires Ready(t, o, x, k) && Family(t, o) && t.Node(y)
    ensures CanPlant(t, o, x, k) && o.ord != [] && k < |o.zs| && |o.pos| == |t.w|
    ensures
      var s, o' := Planted(t, o, x, k), Widened(o, x, t.next, k);
      In(o', y) && y != s.root ==> Child(s, o', y)
  {
    hide CanPlant, Planted, Widened, Placed, Waiting, Ready, Family;
    ReadyFacts(t, o, x, k);
    ReadyWaits(t, o, x, k);
    PlacedSizes(t, o);
    WidenedPlaces(t, o, x, k, y);
    WidenedOrder(t, o, x, k, 2);
    PlantedAround(t, o, x, k);
    PlantedNew(t, o, x, k);
    PlantedNewKids(t, o, x, k);
    if |o.ord| >= 3 {
      ReadyHead(t, o, x, k);
      WidenedOrder(t, o, x, k, 4);
      OldOne(t, o, x, k, 2);
      PlantedOldKids(t, o, x, k, o.ord[2]);
      if In(o, y) && o.pos[y] > 0 && y != t.root {
        OldChild(t, o, x, k, y);
      }
    }
    OnlyRoot(t, o);
  }

  lemma OnlyRoot(t: Tree, o: Order)
    requires Placed(t, o)
    ensures |o.ord| == 1 ==> forall y :: In(o, y) ==> o.pos[y] == 0
  {
  }

  lemma OldChild(t: Tree, o: Order, x: int, k: nat, y: int)
    requires Ready(t, o, x, k) && Family(t, o) && t.Node(y) && |o.pos| == |t.w| && In(o, y) && o.pos[y] > 0 && y != t.root
    requires |o.ord| >= 3
    ensures CanPlant(t, o, x, k) && o.ord != [] && k < |o.zs|
    ensures Child(Planted(t, o, x, k), Widened(o, x, t.next, k), y)
  {
    hide CanPlant, Planted, Widened, Placed, Waiting, Ready, Family;
    ReadyFacts(t, o, x, k);
    ReadyWaits(t, o, x, k);
    ReadyHead(t, o, x, k);
    WidenedPlaces(t, o, x, k, y);
    OldOne(t, o, x, k, o.pos[y]);
    PlantedOld(t, o, x, k, o.pos[y]);
    ChildOf(t, o, y);
    UpwardPlace(t, o, y);
    var q := t.par[y];
    WidenedPlaces(t, o, x, k, q);
    OldOne(t, o, x, k, o.pos[q]);
    PlantedOldKids(t, o, x, k, q);
  }

  lemma PlantedFamily(t: Tree, o: Order, x: int, k: nat)
    requires Ready(t, o, x, k) && Family(t, o)
    ensures CanPlant(t, o, x, k) && k < |o.zs| && o.ord != []
    ensures Placed(Planted(t, o, x, k), Widened(o, x, t.next, k)) && Family(Planted(t, o, x, k), Widened(o, x, t.next, k))
  {
    hide CanPlant, Planted, Widened, Placed, Waiting, Ready, Family, Kids, Child;
    ReadyFacts(t, o, x, k);
    ReadyWaits(t, o, x, k);
    PlacedSizes(t, o);
    PlantedPlaced(t, o, x, k);
    var s, o' := Planted(t, o, x, k), Widened(o, x, t.next, k);
    PlacedSizes(s, o');
    WidenedOrder(t, o, x, k, 0);
    forall y | In(o', y) && y >= s.n ensures Kids(s, o', y) {
      PlantedKids(t, o, x, k, y);
    }
    forall y | In(o', y) && y != s.root ensures Child(s, o', y) {
      PlantedChild(t, o, x, k, y);
    }
    FamilyFrom(s, o');
  }

  // ----- Weights

  /** The node that is left one occurrence short: the parent of the new inner node. */
  function Short(o: Order): int {
    if |o.ord| >= 3 then o.ord[2] else NIL
  }

  lemma OldKidWeighs(t: Tree, o: Order, x: int, k: nat, y: int, c: int)
    requires Ready(t, o, x, k) && In(o, y) && o.pos[y] > 0 && In(o, c) && t.Node(c) && t.par[c] == y && o.pos[c] < o.pos[y]
    requires c == t.rc[y] || (|o.ord| >= 3 ==> y != o.ord[2])
    requires t.Node(y) && |o.pos| == |t.w|
    ensures CanPlant(t, o, x, k) && Weight(Planted(t, o, x, k), c) == Weight(t, c)
  {
    hide CanPlant, Planted, Placed, Waiting, Ready;
    ReadyFacts(t, o, x, k);
    NotHead(t, o, x, k, y, c);
    PlantedOld(t, o, x, k, o.pos[c]);
  }

  lemma OldSum(t: Tree, o: Order, x: int, k: nat, y: int)
    requires Ready(t, o, x, k) && Family(t, o) && Summed(t, o, NIL)
    requires t.n <= y < |t.w| && |o.pos| == |t.w| && In(o, y) && o.pos[y] > 0
    ensures CanPlant(t, o, x, k)
    ensures
      var s := Planted(t, o, x, k);
      Weight(s, s.lc[y]) + Weight(s, s.rc[y]) == s.w[y] + if y == Short(o) then 1 else 0
  {
    hide CanPlant, Planted, Placed, Waiting, Ready, Family, Summed;
    ReadyFacts(t, o, x, k);
    ReadyWaits(t, o, x, k);
    WidenedPlaces(t, o, x, k, y);
    OldOne(t, o, x, k, o.pos[y]);
    PlantedOld(t, o, x, k, o.pos[y]);
    PlantedOldKids(t, o, x, k, y);
    KidsOf(t, o, y);
    SumAt(t, o, NIL, y);
    OldKidWeighs(t, o, x, k, y, t.rc[y]);
    if |o.ord| >= 3 && y == o.ord[2] {
      ReadyHead(t, o, x, k);
      HeadWeightless(t, o, x, k);
      PlantedNew(t, o, x, k);
    } else {
      OldKidWeighs(t, o, x, k, y, t.lc[y]);
    }
  }

  lemma HeadWeightless(t: Tree, o: Order, x: int, k: nat)
    requires Ready(t, o, x, k)
    ensures Weight(t, t.zeros) == 0
  {
  }

  lemma PlantedSummed(t: Tree, o: Order, x: int, k: nat)
    requires Ready(t, o, x, k) && Family(t, o) && Summed(t, o, NIL)
    ensures CanPlant(t, o, x, k) && k < |o.zs| && o.ord != []
    ensures Placed(Planted(t, o, x, k), Widened(o, x, t.next, k))
    ensures Summed(Planted(t, o, x, k), Widened(o, x, t.next, k), Short(o))
  {
    hide CanPlant, Planted, Widened, Placed, Waiting, Ready, Family;
    ReadyFacts(t, o, x, k);
    ReadyWaits(t, o, x, k);
    PlacedSizes(t, o);
    PlantedPlaced(t, o, x, k);
    var s, o' := Planted(t, o, x, k), Widened(o, x, t.next, k);
    PlacedSizes(s, o');
    PlantedNew(t, o, x, k);
    PlantedNewKids(t, o, x, k);
    NotShort(t, o, x, k);
    forall y | In(o', y) && y >= s.n
      ensures Weight(s, s.lc[y]) + Weight(s, s.rc[y]) == s.w[y] + if y == Short(o) then 1 else 0
    {
      WidenedPlaces(t, o, x, k, y);
      if y != t.next {
        OldSum(t, o, x, k, y);
      }
    }
  }

  lemma NotShort(t: Tree, o: Order, x: int, k: nat)
    requires Ready(t, o, x, k)
    ensures t.next != Short(o)
  {
  }

  lemma PlantedLit(t: Tree, o: Order, x: int, k: nat)
    requires Ready(t, o, x, k) && Lit(t, o)
    ensures CanPlant(t, o, x, k) && k < |o.zs| && o.ord != []
    ensures Placed(Planted(t, o, x, k), Widened(o, x, t.next, k)) && Lit(Planted(t, o, x, k), Widened(o, x, t.next, k))
  {
    hide CanPlant, Planted, Widened, Placed, Waiting, Ready;
    ReadyFacts(t, o, x, k);
    ReadyWaits(t, o, x, k);
    PlantedPlaced(t, o, x, k);
    PlantedNew(t, o, x, k);
    PlantedNewKids(t, o, x, k);
    PlantedZeros(t, o, x, k);
    var s, o' := Planted(t, o, x, k), Widened(o, x, t.next, k);
    WidenedOrder(t, o, x, k, 0);
    WidenedOrder(t, o, x, k, 1);
    WidenedOrder(t, o, x, k, 2);
    forall j | 0 < j < |o'.ord| ensures s.Node(o'.ord[j]) && s.w[o'.ord[j]] > 0 {
      WidenedOrder(t, o, x, k, j);
      if j > 2 {
        PlantedOld(t, o, x, k, j - 2);
      }
    }
  }

  lemma PlantedZeros(t: Tree, o: Order, x: int, k: nat)
    requires Ready(t, o, x, k)
    ensures CanPlant(t, o, x, k)
    ensures
      var s := Planted(t, o, x, k);
      && s.zeros == Head(o.zs, k) >= 0 && s.next == t.next + 1 && s.count == t.count - 1 && |s.w| == |t.w|
      && s.count == Pow2(s.exp) + s.rem && s.rem < Pow2(s.exp)
  {
    hide At, Listed, Head, NewLeft, NewBlk, NewLead, Placed, NewLc, NewRc;
    ReadyFacts(t, o, x, k);
  }

  lemma PlantedSorted(t: Tree, o: Order, x: int, k: nat)
    requires Ready(t, o, x, k) && Lit(t, o) && Sorted(t, o)
    ensures CanPlant(t, o, x, k) && k < |o.zs| && o.ord != []
    ensures Placed(Planted(t, o, x, k), Widened(o, x, t.next, k))
    ensures Sorted(Planted(t, o, x, k), Widened(o, x, t.next, k))
  {
    hide CanPlant, Planted, Widened, Placed, Waiting, Ready;
    ReadyFacts(t, o, x, k);
    ReadyWaits(t, o, x, k);
    PlantedPlaced(t, o, x, k);
    PlantedNew(t, o, x, k);
    PlantedZeros(t, o, x, k);
    var s, o' := Planted(t, o, x, k), Widened(o, x, t.next, k);
    WidenedOrder(t, o, x, k, 1);
    forall a, b | 1 <= a < b <= |o'.ord| - 2
      ensures s.Node(o'.ord[a]) && s.Node(o'.ord[b]) && s.w[o'.ord[a]] <= s.w[o'.ord[b]]
    {
      WidenedOrder(t, o, x, k, a);
      WidenedOrder(t, o, x, k, b);
      if b > 2 {
        PlantedOld(t, o, x, k, b - 2);
      }
      if a > 2 {
        PlantedOld(t, o, x, k, a - 2);
      }
    }
  }

  // ----- Blocks

  lemma PlantedBlocks(t: Tree, o: Order, x: int, k: nat)
    requires Ready(t, o, x, k)
    ensures CanPlant(t, o, x, k) && Supplied(t) && (|o.ord| >= 3 ==> t.Node(o.ord[1]))
    ensures
      var s, i := Planted(t, o, x, k), t.next;
      && |s.lead| == |t.lead| && |s.blk| == |t.blk|
      && (Shares(t, o) ==> s.blk[x] == s.blk[i] == t.blk[o.ord[1]] && s.lead == t.lead && s.free == t.free)
      && (!Shares(t, o) && |o.ord| >= 3 ==>
            s.blk[x] == s.blk[i] == t.free[0] && s.lead == t.lead[t.free[0] := i] && s.free == t.free[1..])
      && (|o.ord| == 1 ==> s.blk[x] == t.free[0] && s.blk[i] == t.free[1] && s.free == t.free[2..]
                           && s.lead[t.free[0]] == x)
  {
    hide At, Listed, Head, NewLeft, NewLc, NewRc, Placed;
    ReadyFacts(t, o, x, k);
    ReadyWaits(t, o, x, k);
    if |o.ord| >= 3 {
      OldOne(t, o, x, k, 1);
    }
  }

  ghost predicate BlockLed(t: Tree, o: Order, a: int) {
    Placed(t, o) && 0 <= a < |o.ord| && Led(t, o, a)
  }

  /** The leader of an old block stays and so does what it leads. */
  lemma OldLed(t: Tree, o: Order, x: int, k: nat, a: int)
    requires Ready(t, o, x, k) && BlockLed(t, o, a) && 1 <= a <= |o.ord| - 2
    requires t.Node(o.ord[a]) && t.blk[o.ord[a]] !in t.free
    ensures CanPlant(t, o, x, k) && k < |o.zs| && o.ord != []
    ensures BlockLed(Planted(t, o, x, k), Widened(o, x, t.next, k), a + 2)
  {
    hide CanPlant, Planted, Widened, Placed, Waiting, Ready;
    ReadyFacts(t, o, x, k);
    ReadyWaits(t, o, x, k);
    PlantedPlaced(t, o, x, k);
    WidenedOrder(t, o, x, k, a + 2);
    PlantedOld(t, o, x, k, a);
    PlantedBlocks(t, o, x, k);
    LeaderPlace(t, o, a);
    var m := t.lead[t.blk[o.ord[a]]];
    OldOne(t, o, x, k, o.pos[m]);
    PlantedOld(t, o, x, k, o.pos[m]);
    WidenedPlaces(t, o, x, k, m);
    if o.pos[m] + 1 <= |o.ord| - 2 {
      PlantedOld(t, o, x, k, o.pos[m] + 1);
      WidenedOrder(t, o, x, k, o.pos[m] + 3);
    }
  }

  lemma LeaderPlace(t: Tree, o: Order, a: int)
    requires BlockLed(t, o, a) && 1 <= a <= |o.ord| - 2
    ensures t.Node(o.ord[a]) && t.Block(t.blk[o.ord[a]])
    ensures
      var m := t.lead[t.blk[o.ord[a]]];
      && In(o, m) && t.Node(m) && a <= o.pos[m] <= |o.ord| - 2 && o.ord[o.pos[m]] == m
  {
  }

  /** The new nodes in the block of weight one. */
  lemma SharedLed(t: Tree, o: Order, x: int, k: nat, a: int)
    requires Ready(t, o, x, k) && |o.ord| >= 3 && Shares(t, o) && BlockLed(t, o, 1) && 1 <= a <= 2
    requires t.Node(o.ord[1]) && t.blk[o.ord[1]] !in t.free
    ensures CanPlant(t, o, x, k) && k < |o.zs| && o.ord != []
    ensures BlockLed(Planted(t, o, x, k), Widened(o, x, t.next, k), a)
  {
    hide CanPlant, Planted, Widened, Placed, Waiting, Ready;
    ReadyFacts(t, o, x, k);
    ReadyWaits(t, o, x, k);
    PlantedPlaced(t, o, x, k);
    OldLed(t, o, x, k, 1);
    WidenedOrder(t, o, x, k, a);
    WidenedOrder(t, o, x, k, 3);
    PlantedNew(t, o, x, k);
    PlantedOld(t, o, x, k, 1);
    PlantedBlocks(t, o, x, k);
  }

  /** The new nodes in a block of their own. */
  lemma AloneLed(t: Tree, o: Order, x: int, k: nat, a: int)
    requires Ready(t, o, x, k) && !Shares(t, o) && Lit(t, o) && 1 <= a <= 2 && a <= |o.ord|
    ensures CanPlant(t, o, x, k) && k < |o.zs| && o.ord != []
    ensures BlockLed(Planted(t, o, x, k), Widened(o, x, t.next, k), a)
  {
    hide CanPlant, Planted, Widened, Placed, Waiting, Ready;
    ReadyFacts(t, o, x, k);
    ReadyWaits(t, o, x, k);
    PlantedPlaced(t, o, x, k);
    WidenedOrder(t, o, x, k, 1);
    WidenedOrder(t, o, x, k, 2);
    PlantedNew(t, o, x, k);
    PlantedBlocks(t, o, x, k);
    if |o.ord| >= 3 {
      PlantedOld(t, o, x, k, 1);
      WidenedOrder(t, o, x, k, 3);
    }
  }

  lemma PlantedLed(t: Tree, o: Order, x: int, k: nat, a: int)
    requires Ready(t, o, x, k) && Lit(t, o) && Grouped(t, o) && Stocked(t, o) && 1 <= a <= |o.ord|
    ensures CanPlant(t, o, x, k) && k < |o.zs| && o.ord != []
    ensures BlockLed(Planted(t, o, x, k), Widened(o, x, t.next, k), a)
  {
    hide CanPlant, Planted, Widened, Placed, Waiting, Ready, Grouped, Stocked, Led, Lit;
    ReadyWaits(t, o, x, k);
    UsedNotFree(t, o);
    if a > 2 {
      LedAt(t, o, a - 2);
      OldLed(t, o, x, k, a - 2);
    } else if Shares(t, o) {
      LedAt(t, o, 1);
      SharedLed(t, o, x, k, a);
    } else {
      AloneLed(t, o, x, k, a);
    }
  }

  /** A new node and an old one share a block exactly if they weigh the same. */
  lemma NewWithOld(t: Tree, o: Order, x: int, k: nat, b: int)
    requires Ready(t, o, x, k) && Lit(t, o) && Sorted(t, o) && Grouped(t, o) && Stocked(t, o) && 1 <= b <= |o.ord| - 2
    ensures CanPlant(t, o, x, k) && t.Node(o.ord[b])
    ensures
      var s, y := Planted(t, o, x, k), o.ord[b];
      s.blk[x] == s.blk[t.next] && s.w[x] == s.w[t.next] && (s.blk[x] == s.blk[y] <==> s.w[x] == s.w[y])
  {
    hide CanPlant, Planted, Placed, Waiting, Ready, Grouped, Stocked;
    ReadyWaits(t, o, x, k);
    ReadyHead(t, o, x, k);
    PlantedNew(t, o, x, k);
    PlantedOld(t, o, x, k, b);
    PlantedBlocks(t, o, x, k);
    UsedNotFree(t, o);
    SameBlock(t, o, 1, b);
  }

  lemma PlantedPairs(t: Tree, o: Order, x: int, k: nat, a: int, b: int)
    requires Ready(t, o, x, k) && Lit(t, o) && Sorted(t, o) && Grouped(t, o) && Stocked(t, o) && 1 <= a < b <= |o.ord|
    ensures CanPlant(t, o, x, k) && k < |o.zs| && o.ord != [] && |Widened(o, x, t.next, k).ord| == |o.ord| + 2
    ensures
      var s, o' := Planted(t, o, x, k), Widened(o, x, t.next, k);
      && t.Node(o'.ord[a]) && t.Node(o'.ord[b]) && |s.blk| == |s.w| == |t.w|
      && (s.blk[o'.ord[a]] == s.blk[o'.ord[b]] <==> s.w[o'.ord[a]] == s.w[o'.ord[b]])
  {
    hide CanPlant, Planted, Widened, Placed, Waiting, Ready, Grouped, Stocked, Lit, Sorted;
    ReadyFacts(t, o, x, k);
    ReadyWaits(t, o, x, k);
    WidenedOrder(t, o, x, k, a);
    WidenedOrder(t, o, x, k, b);
    PlantedZeros(t, o, x, k);
    if b > 2 {
      NewWithOld(t, o, x, k, b - 2);
      if a > 2 {
        PlantedOld(t, o, x, k, a - 2);
        PlantedOld(t, o, x, k, b - 2);
        SameBlock(t, o, a - 2, b - 2);
      }
    } else {
      NewWithOld(t, o, x, k, 1);
    }
  }

  lemma RootBlock(t: Tree, o: Order, x: int, k: nat, a: int)
    requires Ready(t, o, x, k) && Lit(t, o) && Grouped(t, o) && Stocked(t, o) && 1 <= a <= |o.ord|
    ensures CanPlant(t, o, x, k) && k < |o.zs| && o.ord != [] && |Widened(o, x, t.next, k).ord| == |o.ord| + 2
    ensures
      var s, o' := Planted(t, o, x, k), Widened(o, x, t.next, k);
      t.Node(o'.ord[a]) && t.Node(s.root) && |s.blk| == |t.w| && s.blk[o'.ord[a]] != s.blk[s.root]
  {
    hide CanPlant, Planted, Widened, Placed, Waiting, Ready, Stocked, Led, First;
    ReadyFacts(t, o, x, k);
    ReadyWaits(t, o, x, k);
    RootLast(t, o);
    WidenedOrder(t, o, x, k, a);
    PlantedAround(t, o, x, k);
    PlantedBlocks(t, o, x, k);
    PlantedZeros(t, o, x, k);
    UsedNotFree(t, o);
    if |o.ord| >= 3 {
      OldOne(t, o, x, k, |o.ord| - 1);
      PlantedOld(t, o, x, k, |o.ord| - 1);
      OldOne(t, o, x, k, 1);
      PlantedOld(t, o, x, k, 1);
      if a > 2 {
        PlantedOld(t, o, x, k, a - 2);
      }
    }
  }

  lemma PlantedGrouped(t: Tree, o: Order, x: int, k: nat)
    requires Ready(t, o, x, k) && Lit(t, o) && Sorted(t, o) && Grouped(t, o) && Stocked(t, o)
    ensures CanPlant(t, o, x, k) && k < |o.zs| && o.ord != []
    ensures Placed(Planted(t, o, x, k), Widened(o, x, t.next, k))
    ensures Grouped(Planted(t, o, x, k), Widened(o, x, t.next, k))
  {
    hide CanPlant, Planted, Widened, Placed, Waiting, Ready, Stocked, Led, Lit, Sorted, First;
    ReadyFacts(t, o, x, k);
    ReadyWaits(t, o, x, k);
    PlantedPlaced(t, o, x, k);
    PlantedZeros(t, o, x, k);
    var s, o' := Planted(t, o, x, k), Widened(o, x, t.next, k);
    WidenedOrder(t, o, x, k, 0);
    GroupedFrom(s, o') by {
      forall a | 1 <= a <= |o'.ord| - 2 ensures BlockLed(s, o', a) {
        PlantedLed(t, o, x, k, a);
      }
      forall a, b | 1 <= a < b <= |o'.ord| - 2
        ensures Weight(s, o'.ord[a]) == Weight(s, o'.ord[b]) <==> BlockAt(s, o'.ord[a]) == BlockAt(s, o'.ord[b])
      {
        PlantedPairs(t, o, x, k, a, b);
      }
      forall a | 1 <= a <= |o'.ord| - 2 ensures BlockAt(s, o'.ord[a]) != BlockAt(s, s.root) {
        RootBlock(t, o, x, k, a);
      }
    }
  }

  function BlockAt(t: Tree, x: int): int {
    if 0 <= x < |t.blk| then t.blk[x] else NIL
  }

  lemma GroupedFrom(t: Tree, o: Order)
    requires Placed(t, o) && t.zeros != NIL
    requires forall a :: 1 <= a <= |o.ord| - 2 ==> BlockLed(t, o, a)
    requires forall a, b :: 1 <= a < b <= |o.ord| - 2 ==>
               (Weight(t, o.ord[a]) == Weight(t, o.ord[b]) <==> BlockAt(t, o.ord[a]) == BlockAt(t, o.ord[b]))
    requires forall a :: 1 <= a <= |o.ord| - 2 ==> BlockAt(t, o.ord[a]) != BlockAt(t, t.root)
    ensures Grouped(t, o)
  {
    hide Led, First;
    forall a | 1 <= a <= |o.ord| - 2 ensures Led(t, o, a) {
      assert BlockLed(t, o, a);
    }
    forall a, b | 1 <= a < b <= |o.ord| - 2
      ensures t.blk[o.ord[a]] == t.blk[o.ord[b]] <==> t.w[o.ord[a]] == t.w[o.ord[b]]
    {
      assert Weight(t, o.ord[a]) == t.w[o.ord[a]] && Weight(t, o.ord[b]) == t.w[o.ord[b]];
      assert BlockAt(t, o.ord[a]) == t.blk[o.ord[a]] && BlockAt(t, o.ord[b]) == t.blk[o.ord[b]];
    }
    forall a | 1 <= a <= |o.ord| - 2 ensures t.blk[o.ord[a]] != t.blk[t.root] {
      assert BlockAt(t, o.ord[a]) == t.blk[o.ord[a]] && BlockAt(t, t.root) == t.blk[t.root];
    }
  }

  /** Every block that was used still is, now behind the new nodes. */
  lemma StillNamed(t: Tree, o: Order, x: int, k: nat, b: int)
    requires Ready(t, o, x, k) && Idle(t, o) && Named(t, o, b) && b >= 0
    ensures CanPlant(t, o, x, k) && k < |o.zs| && o.ord != []
    ensures Named(Planted(t, o, x, k), Widened(o, x, t.next, k), b)
  {
    hide CanPlant, Planted, Widened, Placed, Waiting, Ready;
    ReadyFacts(t, o, x, k);
    ReadyWaits(t, o, x, k);
    PlantedZeros(t, o, x, k);
    FirstUnnamed(t, o, x, k);
    var j :| 0 <= j < |o.ord| && 0 <= o.ord[j] < |t.blk| && t.blk[o.ord[j]] == b;
    PlantedOld(t, o, x, k, j);
    WidenedOrder(t, o, x, k, j + 2);
    NamedAt(Planted(t, o, x, k), Widened(o, x, t.next, k), j + 2, b);
  }

  lemma FirstUnnamed(t: Tree, o: Order, x: int, k: nat)
    requires Ready(t, o, x, k) && Idle(t, o)
    ensures o.ord != [] && t.Sized() && t.Node(o.ord[0]) && t.blk[o.ord[0]] == NIL
  {
  }

  lemma NamedAt(t: Tree, o: Order, j: int, b: int)
    requires 0 <= j < |o.ord| && 0 <= o.ord[j] < |t.blk| && t.blk[o.ord[j]] == b
    ensures Named(t, o, b)
  {
  }

  lemma NewNamed(t: Tree, o: Order, x: int, k: nat, b: int)
    requires Ready(t, o, x, k) && b in t.free
    ensures CanPlant(t, o, x, k) && k < |o.zs| && o.ord != []
    ensures b in Planted(t, o, x, k).free || Named(Planted(t, o, x, k), Widened(o, x, t.next, k), b)
  {
    hide CanPlant, Planted, Widened, Placed, Waiting, Ready, Named;
    ReadyFacts(t, o, x, k);
    ReadyWaits(t, o, x, k);
    PlantedBlocks(t, o, x, k);
    PlantedZeros(t, o, x, k);
    WidenedOrder(t, o, x, k, 1);
    WidenedOrder(t, o, x, k, 2);
    var s, o' := Planted(t, o, x, k), Widened(o, x, t.next, k);
    NamedAt(s, o', 1, s.blk[x]);
    NamedAt(s, o', 2, s.blk[t.next]);
  }

  lemma PlantedUsed(t: Tree, o: Order, x: int, k: nat, j: int)
    requires Ready(t, o, x, k) && Stocked(t, o) && 0 < j < |o.ord| + 2
    ensures CanPlant(t, o, x, k) && k < |o.zs| && o.ord != [] && |Widened(o, x, t.next, k).ord| == |o.ord| + 2
    ensures BlockAt(Planted(t, o, x, k), Widened(o, x, t.next, k).ord[j]) !in Planted(t, o, x, k).free
  {
    hide CanPlant, Planted, Widened, Placed, Waiting, Ready;
    ReadyFacts(t, o, x, k);
    ReadyWaits(t, o, x, k);
    PlantedBlocks(t, o, x, k);
    PlantedZeros(t, o, x, k);
    WidenedOrder(t, o, x, k, j);
    UsedNotFree(t, o);
    if j > 2 {
      PlantedOld(t, o, x, k, j - 2);
    }
  }

  lemma PlantedStocked(t: Tree, o: Order, x: int, k: nat)
    requires Ready(t, o, x, k) && Stocked(t, o) && Idle(t, o)
    ensures CanPlant(t, o, x, k) && k < |o.zs| && o.ord != []
    ensures Placed(Planted(t, o, x, k), Widened(o, x, t.next, k))
    ensures Stocked(Planted(t, o, x, k), Widened(o, x, t.next, k))
  {
    hide CanPlant, Planted, Widened, Placed, Waiting, Ready, Idle, Named;
    ReadyFacts(t, o, x, k);
    ReadyWaits(t, o, x, k);
    PlantedPlaced(t, o, x, k);
    PlantedZeros(t, o, x, k);
    PlantedBlocks(t, o, x, k);
    var s, o' := Planted(t, o, x, k), Widened(o, x, t.next, k);
    WidenedOrder(t, o, x, k, 0);
    forall j | 0 < j < |o'.ord| ensures s.Node(o'.ord[j]) && s.blk[o'.ord[j]] !in s.free {
      PlantedUsed(t, o, x, k, j);
      WidenedOrder(t, o, x, k, j);
    }
    forall b | s.Block(b) ensures b in s.free || Named(s, o', b) {
      if b in t.free {
        NewNamed(t, o, x, k, b);
      } else {
        StillNamed(t, o, x, k, b);
      }
    }
  }

  // ----- The list

  lemma DroppedAt(zs: seq<int>, k: nat, j: int)
    requires k < |zs|
    ensures |Without(zs, k)| == |zs| - 1
    ensures j < |zs| ==> At(Without(zs, k), j) == At(zs, if j < k then j else j + 1)
  {
  }

  lemma DroppedIn(zs: seq<int>, k: nat, y: int)
    requires k < |zs| && y in zs && y != zs[k]
    ensures y in Without(zs, k)
  {
    var j :| 0 <= j < |zs| && zs[j] == y;
    assert Without(zs, k)[if j < k then j else j - 1] == y;
  }

  /** Where a symbol of the new list stood in the old one. */
  function Was(k: nat, j: int): int {
    if j < k then j else j + 1
  }

  lemma DroppedIs(zs: seq<int>, k: nat, j: int)
    requires k < |zs| && 0 <= j < |zs| - 1
    ensures |Without(zs, k)| == |zs| - 1 && 0 <= Was(k, j) < |zs| && Was(k, j) != k && Without(zs, k)[j] == zs[Was(k, j)]
  {
  }

  lemma SamePlace(t: Tree, o: Order, x: int, k: nat, j: int, l: int)
    requires Waiting(t, o, x, k) && 0 <= j < |o.zs|
    ensures o.zs[j] == At(o.zs, l) <==> l == j
    ensures 0 <= o.zs[j] < t.n <= t.next < |t.w| && (j != k ==> o.zs[j] != x)
  {
  }

  lemma ListLinks(t: Tree, o: Order, x: int, k: nat, j: int)
    requires Ready(t, o, x, k) && 0 <= j < |o.zs|
    ensures t.Sized() && t.Node(o.zs[j]) && t.rc[o.zs[j]] == At(o.zs, j + 1) && t.lc[o.zs[j]] == At(o.zs, j - 1)
  {
    hide Waiting, HeadLinked;
  }

  lemma ThirdInner(t: Tree, o: Order, x: int, k: nat)
    requires Ready(t, o, x, k)
    ensures |o.ord| >= 3 ==> o.ord[2] >= t.n
  {
  }

  /** The links of a symbol that stays in the list. */
  lemma PlantedListRc(t: Tree, o: Order, x: int, k: nat, j: int)
    requires Ready(t, o, x, k) && 0 <= j < |o.zs| && j != k
    ensures CanPlant(t, o, x, k) && t.Node(o.zs[j])
    ensures Planted(t, o, x, k).rc[o.zs[j]] == At(o.zs, if j + 1 == k then j + 2 else j + 1)
  {
    hide Head, NewLeft, NewBlk, NewLead, Placed, Ready, Waiting, At, Listed, HeadLinked, NewLc;
    ReadyFacts(t, o, x, k);
    ReadyWaits(t, o, x, k);
    SamePlace(t, o, x, k, j, k - 1);
    ListLinks(t, o, x, k, j);
  }

  lemma PlantedListLc(t: Tree, o: Order, x: int, k: nat, j: int)
    requires Ready(t, o, x, k) && 0 <= j < |o.zs| && j != k
    ensures CanPlant(t, o, x, k) && t.Node(o.zs[j])
    ensures Planted(t, o, x, k).lc[o.zs[j]] == At(o.zs, if j - 1 == k then j - 2 else j - 1)
  {
    hide Head, NewLeft, NewBlk, NewLead, Placed, Ready, Waiting, At, Listed, HeadLinked, NewRc;
    ReadyFacts(t, o, x, k);
    ReadyWaits(t, o, x, k);
    SamePlace(t, o, x, k, j, k + 1);
    ListLinks(t, o, x, k, j);
    ThirdInner(t, o, x, k);
  }

  lemma PlantedListed(t: Tree, o: Order, x: int, k: nat)
    requires Ready(t, o, x, k)
    ensures CanPlant(t, o, x, k) && k < |o.zs| && Listed(Planted(t, o, x, k), Without(o.zs, k))
  {
    hide CanPlant, Planted, Placed, Waiting, Ready, At, Without;
    ReadyFacts(t, o, x, k);
    ReadyWaits(t, o, x, k);
    PlantedZeros(t, o, x, k);
    var s, zs := Planted(t, o, x, k), Without(o.zs, k);
    DroppedAt(o.zs, k, 0);
    forall j | 0 <= j < |zs| ensures s.Node(zs[j]) && s.rc[zs[j]] == At(zs, j + 1) && s.lc[zs[j]] == At(zs, j - 1) {
      DroppedIs(o.zs, k, j);
      PlantedListRc(t, o, x, k, Was(k, j));
      PlantedListLc(t, o, x, k, Was(k, j));
      DroppedAt(o.zs, k, j + 1);
      DroppedAt(o.zs, k, j - 1);
    }
  }

  lemma PlantedSeen(t: Tree, o: Order, x: int, k: nat, y: int)
    requires Ready(t, o, x, k) && Unseen(t, o) && 0 <= y < t.n
    ensures CanPlant(t, o, x, k) && k < |o.zs| && o.ord != []
    ensures
      var s, o' := Planted(t, o, x, k), Widened(o, x, t.next, k);
      && |s.w| == |s.lc| == |t.w|
      && (s.w[y] == 0 ==> y in Without(o.zs, k))
      && (s.w[y] > 0 ==> In(o', y) && s.lc[y] == NIL)
  {
    hide CanPlant, Planted, Placed, Waiting, Ready, Without, Widened, Listed;
    ReadyFacts(t, o, x, k);
    ReadyWaits(t, o, x, k);
    PlantedZeros(t, o, x, k);
    PlantedNew(t, o, x, k);
    PlantedNewKids(t, o, x, k);
    WidenedPlaces(t, o, x, k, y);
    SymbolAt(t, o, x, k);
    if y in o.zs {
      if y != x {
        DroppedIn(o.zs, k, y);
        var j :| 0 <= j < |o.zs| && o.zs[j] == y;
        PlantedOther(t, o, x, k, y);
      }
    } else {
      PlantedOther(t, o, x, k, y);
      PlantedLeaf(t, o, x, k, y);
    }
  }

  lemma SymbolAt(t: Tree, o: Order, x: int, k: nat)
    requires Waiting(t, o, x, k)
    ensures x == o.zs[k] && o.zs[0] == t.zeros == o.ord[0]
  {
  }

  lemma PlantedOther(t: Tree, o: Order, x: int, k: nat, y: int)
    requires Ready(t, o, x, k) && 0 <= y < t.n && y != x
    ensures CanPlant(t, o, x, k)
    ensures Planted(t, o, x, k).w[y] == t.w[y]
  {
    hide Head, NewLeft, NewBlk, NewLead, NewLc, NewRc, Placed, At, Listed;
    ReadyFacts(t, o, x, k);
  }

  /** A symbol seen before is still a leaf in the tree. */
  lemma PlantedLeaf(t: Tree, o: Order, x: int, k: nat, y: int)
    requires Ready(t, o, x, k) && Unseen(t, o) && 0 <= y < t.n && y !in o.zs
    ensures CanPlant(t, o, x, k) && In(o, y) && o.pos[y] > 0 && Planted(t, o, x, k).lc[y] == NIL
  {
    hide NewLeft, NewBlk, NewLead, NewRc, Listed, Ready, Waiting, At, Placed, Unseen, Head, HeadLinked;
    ReadyFacts(t, o, x, k);
    ReadyWaits(t, o, x, k);
    SeenPlace(t, o, x, k, y);
    AtIn(o.zs, k + 1);
    ThirdInner(t, o, x, k);
  }

  lemma SeenPlace(t: Tree, o: Order, x: int, k: nat, y: int)
    requires Waiting(t, o, x, k) && Unseen(t, o) && 0 <= y < t.n && y !in o.zs
    ensures In(o, y) && o.pos[y] > 0 && t.lc[y] == NIL
  {
    hide Listed;
    assert In(o, y) && o.ord[o.pos[y]] == y && o.zs[0] in o.zs;
  }

  lemma AtIn(zs: seq<int>, j: int)
    ensures At(zs, j) == NIL || At(zs, j) in zs
  {
  }

  lemma PlantedUnseen(t: Tree, o: Order, x: int, k: nat)
    requires Ready(t, o, x, k) && Unseen(t, o)
    ensures CanPlant(t, o, x, k) && k < |o.zs| && o.ord != []
    ensures Placed(Planted(t, o, x, k), Widened(o, x, t.next, k))
    ensures Unseen(Planted(t, o, x, k), Widened(o, x, t.next, k))
  {
    hide CanPlant, Planted, Widened, Placed, Waiting, Ready, Without, Listed, Unseen;
    ReadyFacts(t, o, x, k);
    ReadyWaits(t, o, x, k);
    PlantedPlaced(t, o, x, k);
    PlantedZeros(t, o, x, k);
    PlantedListed(t, o, x, k);
    var s, o' := Planted(t, o, x, k), Widened(o, x, t.next, k);
    WidenedList(o, x, t.next, k);
    DroppedHead(t, o, x, k);
    forall j | 0 <= j < |o'.zs| ensures 0 <= o'.zs[j] < s.n && Weight(s, o'.zs[j]) == 0 && (j > 0 ==> !In(o', o'.zs[j])) {
      StillUnseen(t, o, x, k, j);
    }
    forall i, j | 0 <= i < j < |o'.zs| ensures o'.zs[i] != o'.zs[j] {
      DroppedIs(o.zs, k, i);
      DroppedIs(o.zs, k, j);
      StillApart(t, o, x, k, Was(k, i), Was(k, j));
    }
    forall y | 0 <= y < s.n
      ensures Weight(s, y) == 0 ==> y in o'.zs
      ensures Weight(s, y) > 0 ==> In(o', y) && y < |s.lc| && s.lc[y] == NIL
    {
      PlantedSeen(t, o, x, k, y);
    }
    UnseenFrom(s, o');
  }

  lemma WidenedList(o: Order, x: int, i: int, k: nat)
    requires k < |o.zs| && o.ord != []
    ensures Widened(o, x, i, k).zs == Without(o.zs, k)
  {
  }

  lemma DroppedHead(t: Tree, o: Order, x: int, k: nat)
    requires Ready(t, o, x, k)
    ensures k < |o.zs| == t.count && |Without(o.zs, k)| == |o.zs| - 1 >= 1 && Without(o.zs, k)[0] == Head(o.zs, k)
  {
  }

  lemma StillApart(t: Tree, o: Order, x: int, k: nat, i: int, j: int)
    requires Ready(t, o, x, k) && 0 <= i < j < |o.zs|
    ensures o.zs[i] != o.zs[j]
  {
  }

  lemma StillUnseen(t: Tree, o: Order, x: int, k: nat, j: int)
    requires Ready(t, o, x, k) && 0 <= j < |o.zs| - 1
    ensures CanPlant(t, o, x, k) && k < |o.zs| && o.ord != [] && |Without(o.zs, k)| == |o.zs| - 1
    ensures
      var s, o', y := Planted(t, o, x, k), Widened(o, x, t.next, k), Without(o.zs, k)[j];
      0 <= y < t.n && Weight(s, y) == 0 && (j > 0 ==> !In(o', y))
  {
    hide CanPlant, Planted, Widened, Placed, Without, Listed;
    ReadyFacts(t, o, x, k);
    DroppedIs(o.zs, k, j);
    var y := o.zs[Was(k, j)];
    PlantedOther(t, o, x, k, y);
    WidenedPlaces(t, o, x, k, y);
    assert o.zs[0] == t.zeros == o.ord[0];
    if j > 0 {
      ListPlace(t, o, x, k, Was(k, j));
    }
  }

  lemma ListPlace(t: Tree, o: Order, x: int, k: nat, j: int)
    requires Waiting(t, o, x, k) && 0 < j < |o.zs| && j != k && (k == 0 ==> j != 1)
    ensures !In(o, o.zs[j]) && o.zs[j] != Head(o.zs, k) && o.zs[j] != x && o.zs[j] != t.next
  {
  }

  lemma UnseenFrom(t: Tree, o: Order)
    requires Placed(t, o) && o.zs != [] && o.zs[0] == t.zeros >= 0 && |o.zs| == t.count && Listed(t, o.zs)
    requires forall k :: 0 <= k < |o.zs| ==> 0 <= o.zs[k] < t.n && Weight(t, o.zs[k]) == 0 && (k > 0 ==> !In(o, o.zs[k]))
    requires forall j, k :: 0 <= j < k < |o.zs| ==> o.zs[j] != o.zs[k]
    requires forall x :: 0 <= x < t.n && Weight(t, x) == 0 ==> x in o.zs
    requires forall x :: 0 <= x < t.n && Weight(t, x) > 0 ==> In(o, x) && x < |t.lc| && t.lc[x] == NIL
    ensures Unseen(t, o)
  {
    hide Listed;
    forall x | 0 <= x < t.n ensures Weight(t, x) == t.w[x] {
    }
  }

  lemma PlantedIdle(t: Tree, o: Order, x: int, k: nat)
    requires Ready(t, o, x, k) && Idle(t, o)
    ensures CanPlant(t, o, x, k) && k < |o.zs| && o.ord != []
    ensures Placed(Planted(t, o, x, k), Widened(o, x, t.next, k))
    ensures Idle(Planted(t, o, x, k), Widened(o, x, t.next, k))
  {
    hide CanPlant, Planted, Widened, Placed, Waiting, Ready, Without, Idle;
    ReadyFacts(t, o, x, k);
    ReadyWaits(t, o, x, k);
    PlantedPlaced(t, o, x, k);
    var s, o' := Planted(t, o, x, k), Widened(o, x, t.next, k);
    WidenedList(o, x, t.next, k);
    DroppedHead(t, o, x, k);
    forall j | 0 <= j < |o'.zs| ensures s.Node(o'.zs[j]) && s.blk[o'.zs[j]] == NIL && s.left[o'.zs[j]] == NIL {
      DroppedIs(o.zs, k, j);
      StillIdle(t, o, x, k, Was(k, j));
    }
    IdleFrom(s, o');
  }

  lemma IdleFrom(t: Tree, o: Order)
    requires Placed(t, o)
    requires forall k :: 0 <= k < |o.zs| ==> t.Node(o.zs[k]) && t.blk[o.zs[k]] == NIL && t.left[o.zs[k]] == NIL
    ensures Idle(t, o)
  {
  }

  lemma StillIdle(t: Tree, o: Order, x: int, k: nat, j: int)
    requires Ready(t, o, x, k) && Idle(t, o) && 0 <= j < |o.zs| && j != k
    ensures CanPlant(t, o, x, k) && t.Node(o.zs[j])
    ensures
      var s := Planted(t, o, x, k);
      s.Node(o.zs[j]) && s.blk[o.zs[j]] == NIL && s.left[o.zs[j]] == NIL
  {
    hide Head, NewLc, NewRc, NewLead, Placed, Ready, Waiting, At, Listed, HeadLinked;
    ReadyFacts(t, o, x, k);
    ReadyWaits(t, o, x, k);
    SamePlace(t, o, x, k, j, k);
    if |o.ord| >= 3 {
      OldOne(t, o, x, k, 1);
    }
  }

  lemma PlantedCounted(t: Tree, o: Order, x: int, k: nat)
    requires Ready(t, o, x, k) && Counted(t, o)
    ensures CanPlant(t, o, x, k) && k < |o.zs| && o.ord != []
    ensures Placed(Planted(t, o, x, k), Widened(o, x, t.next, k))
    ensures Counted(Planted(t, o, x, k), Widened(o, x, t.next, k))
  {
    hide CanPlant, Planted, Widened, Placed, Waiting, Ready;
    ReadyFacts(t, o, x, k);
    ReadyWaits(t, o, x, k);
    PlantedPlaced(t, o, x, k);
    PlantedZeros(t, o, x, k);
    WidenedOrder(t, o, x, k, 0);
    var s, o' := Planted(t, o, x, k), Widened(o, x, t.next, k);
    PlacedSizes(t, o);
    PlacedSizes(s, o');
    ListHasZeros(t, o, x, k);
    forall y | In(o', y) ensures y < s.next {
      WidenedPlaces(t, o, x, k, y);
    }
  }

  lemma ListHasZeros(t: Tree, o: Order, x: int, k: nat)
    requires Ready(t, o, x, k)
    ensures t.zeros != NIL
  {
  }

  /** The tree with the new leaf is in order, but for the node above the new inner node. */
  lemma PlantedInv(t: Tree, o: Order, x: int, k: nat)
    requires Ready(t, o, x, k) && Inv(t, o, NIL)
    ensures CanPlant(t, o, x, k) && k < |o.zs| && o.ord != []
    ensures Inv(Planted(t, o, x, k), Widened(o, x, t.next, k), Short(o))
  {
    hide CanPlant, Planted, Widened, Waiting, Ready, Short, Inv;
    hide Placed, Linked, Family, Summed, Lit, Sorted, Grouped, Stocked, Unseen, Idle, Counted;
    ReadyFacts(t, o, x, k);
    ReadyWaits(t, o, x, k);
    InvParts(t, o, NIL);
    PlantedLinked(t, o, x, k);
    PlantedFamily(t, o, x, k);
    PlantedSummed(t, o, x, k);
    PlantedLit(t, o, x, k);
    PlantedSorted(t, o, x, k);
    PlantedGrouped(t, o, x, k);
    PlantedStocked(t, o, x, k);
    PlantedUnseen(t, o, x, k);
    PlantedIdle(t, o, x, k);
    PlantedCounted(t, o, x, k);
    AllOfIt(Planted(t, o, x, k), Widened(o, x, t.next, k), Short(o));
  }

  // ----- The whole update

  lemma PlaceOf(zs: seq<int>, x: int) returns (k: nat)
    requires x in zs
    ensures k < |zs| && zs[k] == x
  {
    k :| k < |zs| && zs[k] == x;
  }

  lemma MakeWaiting(t: Tree, o: Order, x: int) returns (k: nat)
    requires Placed(t, o) && Lit(t, o) && Unseen(t, o) && Counted(t, o) && 0 <= x < t.n && t.w[x] == 0 && t.count >= 2
    ensures Waiting(t, o, x, k)
  {
    hide Listed;
    k := PlaceOf(o.zs, x);
  }

  lemma MakeReady(t: Tree, o: Order, x: int) returns (k: nat)
    requires Inv(t, o, NIL) && 0 <= x < t.n && t.w[x] == 0 && t.count >= 2
    ensures Ready(t, o, x, k)
  {
    hide Placed, Linked, Family, Summed, Lit, Sorted, Grouped, Stocked, Unseen, Idle, Counted, Waiting, HeadLinked, Led;
    PlacedSizes(t, o);
    k := MakeWaiting(t, o, x);
    FreeBlocks(t, o);
    UnseenList(t, o);
    if |o.ord| >= 3 {
      MakeHeadLinked(t, o, x, k);
      LedAt(t, o, 1);
      BlockOf(t, o, 1);
    }
    OneOrThree(t, o, x, k);
  }

  lemma UnseenList(t: Tree, o: Order)
    requires Placed(t, o) && Unseen(t, o)
    ensures Listed(t, o.zs)
  {
  }

  lemma OneOrThree(t: Tree, o: Order, x: int, k: nat)
    requires Waiting(t, o, x, k)
    ensures (|o.ord| == 1 || |o.ord| >= 3) && t.zeros >= 0
  {
  }

  lemma MakeHeadLinked(t: Tree, o: Order, x: int, k: nat)
    requires Waiting(t, o, x, k) && Linked(t, o) && Family(t, o) && Lit(t, o) && |o.ord| >= 3
    ensures HeadLinked(t, o)
  {
    hide Linked, Family, Lit;
    OneOrThree(t, o, x, k);
    HeadFacts(t, o);
    NotRootFirst(t, o, t.zeros);
    OldOne(t, o, x, k, 1);
    OldOne(t, o, x, k, 2);
    OldOne(t, o, x, k, |o.ord| - 1);
  }

  lemma PlantedTotal(t: Tree, o: Order, x: int, k: nat)
    requires Ready(t, o, x, k)
    ensures CanPlant(t, o, x, k)
    ensures Total(Planted(t, o, x, k)) == Total(t) + if |o.ord| == 1 then 1 else 0
    ensures OneMore(t, Planted(t, o, x, k), x)
  {
    hide CanPlant, Planted, Placed, Waiting, Ready;
    ReadyFacts(t, o, x, k);
    ReadyWaits(t, o, x, k);
    RootLast(t, o);
    PlantedNew(t, o, x, k);
    PlantedAround(t, o, x, k);
    PlantedZeros(t, o, x, k);
    if |o.ord| >= 3 {
      PlantedOld(t, o, x, k, |o.ord| - 1);
    } else {
      HeadWeightless(t, o, x, k);
      SymbolAt(t, o, x, k);
    }
    forall y | 0 <= y < t.n && y != x ensures Weight(Planted(t, o, x, k), y) == Weight(t, y) {
      PlantedOther(t, o, x, k, y);
    }
  }

  lemma PlantedUnderway(t: Tree, o: Order, x: int, k: nat)
    requires Ready(t, o, x, k) && Inv(t, o, NIL) && |o.ord| >= 3
    ensures CanPlant(t, o, x, k) && k < |o.zs| && o.ord != [] && |t.w| >= 2
    ensures Underway(Planted(t, o, x, k), Widened(o, x, t.next, k), o.ord[2], |t.w| - 2)
  {
    hide CanPlant, Planted, Widened, Placed, Waiting, Ready, Inv, Underway;
    ReadyFacts(t, o, x, k);
    ReadyWaits(t, o, x, k);
    PlantedInv(t, o, x, k);
    WidenedOrder(t, o, x, k, 4);
    FewPlaces(t, o, x, k);
    StillUnderway(Planted(t, o, x, k), Widened(o, x, t.next, k), o.ord[2], |t.w| - 2);
  }

  lemma FewPlaces(t: Tree, o: Order, x: int, k: nat)
    requires Waiting(t, o, x, k)
    ensures |o.ord| + 2 <= |t.w|
  {
  }

  /** The first occurrence of a symbol that is not the last unseen one. */
  lemma NewKeeps(t: Tree, o: Order, x: int) returns (o': Order)
    requires Inv(t, o, NIL) && 0 <= x < t.n && t.w[x] == 0 && t.count >= 2
    ensures t.Sized() && t.Node(x) && Inv(Update(t, x), o', NIL) && Updates(t, x)
    ensures Total(Update(t, x)) == Total(t) + 1 && OneMore(t, Update(t, x), x)
  {
    hide CanPlant, Planted, Widened, Waiting, Ready, Inv, Underway, Climb, Climbs, Update, Updates, Total, OneMore;
    var k := MakeReady(t, o, x);
    ReadyFacts(t, o, x, k);
    ReadyWaits(t, o, x, k);
    EnteringClimbs(t, o, x, k);
    PlantedTotal(t, o, x, k);
    if |o.ord| == 1 {
      PlantedInv(t, o, x, k);
      o' := Widened(o, x, t.next, k);
    } else {
      PlantedUnderway(t, o, x, k);
      o' := ClimbKeeps(Planted(t, o, x, k), Widened(o, x, t.next, k), o.ord[2], |t.w| - 2);
      ThirdInner(t, o, x, k);
      OneMoreThen(t, Planted(t, o, x, k), Update(t, x), x, o.ord[2]);
    }
  }

  // ----- A symbol seen before

  /** No inner node is short when the count starts at a leaf. */
  lemma LeafShort(t: Tree, o: Order, x: int)
    requires Placed(t, o) && Summed(t, o, NIL) && x < t.n
    ensures Summed(t, o, x)
  {
  }

  lemma SeenUnderway(t: Tree, o: Order, x: int)
    requires Inv(t, o, NIL) && 0 <= x < t.n && t.w[x] > 0
    ensures t.Sized() && Underway(t, o, x, |t.w|)
  {
    hide Placed, Linked, Family, Summed, Lit, Sorted, Grouped, Stocked, Unseen, Idle, Counted;
    PlacedSizes(t, o);
    SeenLeaf(t, o, x);
    LeafShort(t, o, x);
    LengthFits(t, o);
    SeenNotAlone(t, o, x);
  }

  lemma SeenNotAlone(t: Tree, o: Order, x: int)
    requires Placed(t, o) && Lit(t, o) && In(o, x) && t.w[x] > 0
    ensures |o.ord| >= 3
  {
    assert o.ord[o.pos[x]] == x;
  }

  /** Every update of a tree in order leaves a tree in order, with one occurrence more at the leaf and at the root. */
  lemma UpdateKeeps(t: Tree, o: Order, x: int) returns (o': Order)
    requires Inv(t, o, NIL) && 0 <= x < t.n
    ensures t.Sized() && t.Node(x) && Inv(Update(t, x), o', NIL) && Updates(t, x)
    ensures Total(Update(t, x)) == Total(t) + 1 && OneMore(t, Update(t, x), x)
  {
    hide Inv, Underway, Climb, Climbs, Total, EnterSafe, Enter, OneMore;
    InvSizes(t, o);
    if t.w[x] > 0 {
      SeenUnderway(t, o, x);
      o' := ClimbKeeps(t, o, x, |t.w|);
    } else if t.count == 1 {
      o' := LastKeeps(t, o, x);
    } else {
      o' := NewKeeps(t, o, x);
    }
  }

  lemma InvSizes(t: Tree, o: Order)
    requires Inv(t, o, NIL)
    ensures t.Sized() && t.count >= 1
  {
  }
}
