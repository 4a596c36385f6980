/** Two nodes of a block change places: the order, the blocks and the sums of weights survive. */
module FgkMove {
  import opened FgkTree
  import opened FgkOrder

  function Exchanged(o: Order, f: int, m: int): Order {
    if !In(o, f) || !In(o, m) || o.pos[f] >= |o.ord| || o.pos[m] >= |o.ord| then o
    else
      var i, j := o.pos[f], o.pos[m];
      o.(ord := o.ord[i := m][j := f], pos := o.pos[f := j][m := i])
  }

  /** `m` leads the block of `f` from further right, and is not its parent. */
  ghost predicate CanSwap(t: Tree, o: Order, f: int, m: int) {
    && Placed(t, o) && In(o, f) && In(o, m) && o.pos[f] < o.pos[m] <= |o.ord| - 2
    && t.w[f] == t.w[m] > 0 && t.par[f] != m
  }

  lemma ExchangedPlaced(t: Tree, o: Order, f: int, m: int)
    requires CanSwap(t, o, f, m)
    ensures Placed(t, Exchanged(o, f, m))
  {
  }

  /** The links around two neighbours `f` and `m` after they have changed places. */
  lemma RelinkedNear(t: Tree, f: int, m: int, fl: int, mr: int)
    requires t.Sized() && t.Node(f) && t.Node(m) && f != m && t.Node(mr) && mr != f && mr != m
    requires t.left[f] == fl && t.right[m] == mr && t.right[f] == m && t.left[m] == f
    requires fl == NIL || (t.Node(fl) && fl != f && fl != m)
    ensures Relinked(t, f, m)
         == t.(right := (if fl == NIL then t.right else t.right[fl := m])[f := mr][m := f],
               left := t.left[mr := f][m := fl][f := m])
  {
  }

  /** The same for nodes with others between them. */
  lemma RelinkedFar(t: Tree, f: int, m: int, fl: int, fr: int, ml: int, mr: int)
    requires t.Sized() && t.Node(f) && t.Node(m) && f != m && t.Node(mr) && mr != f && mr != m
    requires t.left[f] == fl && t.right[m] == mr && t.right[f] == fr && t.left[m] == ml
    requires t.Node(fr) && fr != m && fr != f && t.Node(ml) && ml != f && ml != m && fr != mr
    requires fl == NIL || (t.Node(fl) && fl != f && fl != m && fl != ml)
    ensures Relinked(t, f, m)
         == t.(right := (if fl == NIL then t.right else t.right[fl := m])[f := mr][m := fr][ml := f],
               left := t.left[mr := f][fr := m][m := fl][f := ml])
  {
  }

  /** A row of numbers, each of which knows its place. */
  predicate Numbered(ord: seq<int>, pos: seq<int>) {
    forall k :: 0 <= k < |ord| ==> 0 <= ord[k] < |pos| && pos[ord[k]] == k
  }

  predicate Onward(link: seq<int>, ord: seq<int>) {
    forall k :: 0 <= k < |ord| - 1 ==> 0 <= ord[k] < |link| && link[ord[k]] == ord[k + 1]
  }

  predicate Backward(link: seq<int>, ord: seq<int>) {
    forall k :: 0 < k < |ord| ==> 0 <= ord[k] < |link| && link[ord[k]] == ord[k - 1]
  }

  lemma OnwardNear(link: seq<int>, ord: seq<int>, pos: seq<int>, i: nat)
    requires Numbered(ord, pos) && Onward(link, ord) && |link| == |pos| && i + 2 < |ord|
    ensures
      var f, m := ord[i], ord[i + 1];
      Onward((if i == 0 then link else link[ord[i - 1] := m])[f := ord[i + 2]][m := f], ord[i := m][i + 1 := f])
  {
  }

  lemma BackwardNear(link: seq<int>, ord: seq<int>, pos: seq<int>, i: nat, fl: int)
    requires Numbered(ord, pos) && Backward(link, ord) && |link| == |pos| && i + 2 < |ord|
    requires i > 0 ==> fl == ord[i - 1]
    ensures
      var f, m := ord[i], ord[i + 1];
      Backward(link[ord[i + 2] := f][m := fl][f := m], ord[i := m][i + 1 := f])
  {
  }

  lemma OnwardFar(link: seq<int>, ord: seq<int>, pos: seq<int>, i: nat, j: nat)
    requires Numbered(ord, pos) && Onward(link, ord) && |link| == |pos| && i + 1 < j < |ord| - 1
    ensures
      var f, m := ord[i], ord[j];
      Onward((if i == 0 then link else link[ord[i - 1] := m])[f := ord[j + 1]][m := ord[i + 1]][ord[j - 1] := f],
             ord[i := m][j := f])
  {
  }

  lemma BackwardFar(link: seq<int>, ord: seq<int>, pos: seq<int>, i: nat, j: nat, fl: int)
    requires Numbered(ord, pos) && Backward(link, ord) && |link| == |pos| && i + 1 < j < |ord| - 1
    requires i > 0 ==> fl == ord[i - 1]
    ensures
      var f, m := ord[i], ord[j];
      Backward(link[ord[j + 1] := f][ord[i + 1] := m][m := fl][f := ord[j - 1]], ord[i := m][j := f])
  {
  }

  lemma LinkedIs(t: Tree, o: Order)
    requires Placed(t, o)
    ensures Numbered(o.ord, o.pos)
    ensures Linked(t, o) <==> Onward(t.right, o.ord) && Backward(t.left, o.ord) && t.left[o.ord[0]] == NIL
  {
  }

  /** The neighbours of two nodes at `i` and `j` of the order. */
  lemma Neighbours(t: Tree, o: Order, f: int, m: int)
    requires CanSwap(t, o, f, m) && Linked(t, o)
    ensures
      var i, j := o.pos[f], o.pos[m];
      && t.right[m] == o.ord[j + 1] && t.left[m] == o.ord[j - 1] && t.right[f] == o.ord[i + 1]
      && t.left[f] == (if i > 0 then o.ord[i - 1] else NIL)
      && o.ord[i] == f && o.ord[j] == m
      && t.Node(o.ord[j + 1]) && t.Node(o.ord[j - 1]) && t.Node(o.ord[i + 1]) && (i > 0 ==> t.Node(o.ord[i - 1]))
      && o.ord[j + 1] != f && o.ord[j + 1] != m && (i > 0 ==> o.ord[i - 1] != f && o.ord[i - 1] != m)
      && (j > i + 1 ==> o.ord[i + 1] != m && o.ord[i + 1] != f && o.ord[j - 1] != f && o.ord[j - 1] != m
                        && o.ord[i + 1] != o.ord[j + 1] && (i > 0 ==> o.ord[i - 1] != o.ord[j - 1]))
      && f != m && t.Node(f) && t.Node(m) && t.Sized() && |o.pos| == |t.w|
  {
  }

  lemma SameNodes(t: Tree, o: Order, left: seq<int>, right: seq<int>)
    requires Placed(t, o) && |left| == |right| == |t.w|
    ensures Placed(t.(left := left, right := right), o)
  {
  }

  lemma RelinkedBeside(t: Tree, o: Order, f: int, m: int)
    requires CanSwap(t, o, f, m) && Linked(t, o) && o.pos[m] == o.pos[f] + 1
    ensures t.right[m] != f && t.Node(t.right[m]) && t.Node(t.left[m]) && t.Node(t.right[f])
    ensures t.left[f] == NIL || t.Node(t.left[f])
    ensures
      var r := Relinked(t, f, m);
      && r == t.(left := r.left, right := r.right) && |r.left| == |r.right| == |t.w|
      && Placed(r, Exchanged(o, f, m)) && Linked(r, Exchanged(o, f, m))
    ensures forall x :: t.Node(x) && !In(o, x) ==> Relinked(t, f, m).left[x] == t.left[x]
  {
    hide Relinked, Linked, Numbered, Onward, Backward, Placed;
    Neighbours(t, o, f, m);
    LinkedIs(t, o);
    ExchangedPlaced(t, o, f, m);
    RelinkedNear(t, f, m, t.left[f], t.right[m]);
    OnwardNear(t.right, o.ord, o.pos, o.pos[f]);
    BackwardNear(t.left, o.ord, o.pos, o.pos[f], t.left[f]);
    var r := Relinked(t, f, m);
    SameNodes(t, Exchanged(o, f, m), r.left, r.right);
    FirstStays(t, o, f, m, r.left);
    LinkedIs(r, Exchanged(o, f, m));
  }

  lemma FirstStays(t: Tree, o: Order, f: int, m: int, left: seq<int>)
    requires CanSwap(t, o, f, m) && Linked(t, o) && |left| == |t.w|
    requires left[m] == t.left[f]
    requires forall x :: t.Node(x) && t.left[x] == NIL && x != f && x != m && x != t.right[f] && x != t.right[m] ==>
               left[x] == t.left[x]
    ensures Exchanged(o, f, m).ord != [] && t.Node(Exchanged(o, f, m).ord[0])
    ensures left[Exchanged(o, f, m).ord[0]] == NIL
  {
    assert t.right[f] == o.ord[o.pos[f] + 1] && t.right[m] == o.ord[o.pos[m] + 1];
  }

  lemma RelinkedApart(t: Tree, o: Order, f: int, m: int)
    requires CanSwap(t, o, f, m) && Linked(t, o) && o.pos[m] > o.pos[f] + 1
    ensures t.right[m] != f && t.Node(t.right[m]) && t.Node(t.left[m]) && t.Node(t.right[f])
    ensures t.left[f] == NIL || t.Node(t.left[f])
    ensures
      var r := Relinked(t, f, m);
      && r == t.(left := r.left, right := r.right) && |r.left| == |r.right| == |t.w|
      && Placed(r, Exchanged(o, f, m)) && Linked(r, Exchanged(o, f, m))
    ensures forall x :: t.Node(x) && !In(o, x) ==> Relinked(t, f, m).left[x] == t.left[x]
  {
    hide Relinked, Linked, Numbered, Onward, Backward, Placed;
    Neighbours(t, o, f, m);
    LinkedIs(t, o);
    ExchangedPlaced(t, o, f, m);
    RelinkedFar(t, f, m, t.left[f], t.right[f], t.left[m], t.right[m]);
    OnwardFar(t.right, o.ord, o.pos, o.pos[f], o.pos[m]);
    BackwardFar(t.left, o.ord, o.pos, o.pos[f], o.pos[m], t.left[f]);
    var r := Relinked(t, f, m);
    SameNodes(t, Exchanged(o, f, m), r.left, r.right);
    FirstStays(t, o, f, m, r.left);
    LinkedIs(r, Exchanged(o, f, m));
  }

  /** Two nodes that change places are linked to their new neighbours, and nothing else changes. */
  lemma RelinkedLinked(t: Tree, o: Order, f: int, m: int)
    requires CanSwap(t, o, f, m) && Linked(t, o)
    ensures t.right[m] != f && t.Node(t.right[m]) && t.Node(t.left[m]) && t.Node(t.right[f])
    ensures t.left[f] == NIL || t.Node(t.left[f])
    ensures
      var r := Relinked(t, f, m);
      && r == t.(left := r.left, right := r.right) && |r.left| == |r.right| == |t.w|
      && Placed(r, Exchanged(o, f, m)) && Linked(r, Exchanged(o, f, m))
    ensures forall x :: t.Node(x) && !In(o, x) ==> Relinked(t, f, m).left[x] == t.left[x]
  {
    hide Relinked, Linked, Placed;
    if o.pos[m] == o.pos[f] + 1 {
      RelinkedBeside(t, o, f, m);
    } else {
      RelinkedApart(t, o, f, m);
    }
  }

  /** A child lighter than `f` comes before it. */
  lemma LighterBefore(t: Tree, o: Order, f: int, y: int)
    requires Placed(t, o) && Sorted(t, o) && In(o, f) && In(o, y) && o.pos[f] <= |o.ord| - 2 && o.pos[y] <= |o.ord| - 2
    requires t.w[y] < t.w[f] && (o.pos[f] == 0 ==> |o.ord| >= 3 && t.w[f] == t.w[o.ord[1]])
    ensures o.pos[y] < o.pos[f] || o.pos[y] == 0
  {
    assert o.ord[o.pos[y]] == y && o.ord[o.pos[f]] == f;
  }

  /** The parent of the lightest pair is not among the nodes that change places. */
  lemma NotAbove(t: Tree, o: Order, f: int, m: int)
    requires CanSwap(t, o, f, m) && Family(t, o) && Lit(t, o)
    ensures t.zeros == NIL || m != o.ord[2]
  {
    hide Family;
    if t.zeros != NIL && |o.ord| >= 3 {
      KidsOf(t, o, o.ord[2]);
      assert o.ord[o.pos[f]] == f && o.ord[o.pos[m]] == m;
    }
  }

  /** The children of a node of the same weight come before `f`, unless it is the parent of `f`. */
  lemma KidsBefore(t: Tree, o: Order, f: int, m: int)
    requires CanSwap(t, o, f, m) && Family(t, o) && Summed(t, o, f) && Lit(t, o) && Sorted(t, o) && m >= t.n
    requires o.pos[f] == 0 ==> t.zeros == NIL && t.w[f] == t.w[o.ord[1]]
    ensures Kids(t, o, m) && o.pos[t.lc[m]] < o.pos[f] && o.pos[t.rc[m]] < o.pos[f]
  {
    hide Family;
    NotAbove(t, o, f, m);
    KidsWeigh(t, o, m);
    var l, r := t.lc[m], t.rc[m];
    assert t.w[l] + t.w[r] == t.w[m];
    LighterBefore(t, o, f, l);
    LighterBefore(t, o, f, r);
    LighterThanSecond(t, o, m, l, r);
  }

  lemma LighterThanSecond(t: Tree, o: Order, m: int, l: int, r: int)
    requires Placed(t, o) && Sorted(t, o) && In(o, l) && In(o, r) && l != r && 3 <= |o.ord|
    requires o.pos[l] <= |o.ord| - 2 && o.pos[r] <= |o.ord| - 2 && In(o, m)
    requires t.w[l] > 0 && t.w[r] > 0 && t.w[l] + t.w[r] == t.w[m]
    ensures t.w[m] > t.w[o.ord[1]]
  {
    assert o.ord[o.pos[l]] == l && o.ord[o.pos[r]] == r;
  }

  /** The other of two nodes that change places. */
  function Other(f: int, m: int, x: int): int {
    if x == f then m else if x == m then f else x
  }

  lemma SwappedParts(t: Tree, f: int, m: int)
    requires t.Sized() && t.Node(f) && t.Node(m) && f != m && t.Node(t.par[f]) && t.Node(t.par[m])
    requires t.lc[t.par[f]] == f || t.rc[t.par[f]] == f
    requires t.lc[t.par[m]] == m || t.rc[t.par[m]] == m
    requires t.lc[t.par[f]] != t.rc[t.par[f]] && t.lc[t.par[m]] != t.rc[t.par[m]]
    requires t.par[f] != t.par[m] ==>
               t.lc[t.par[f]] != m && t.rc[t.par[f]] != m && t.lc[t.par[m]] != f && t.rc[t.par[m]] != f
    ensures
      var s, pf, pm := Swapped(t, f, m), t.par[f], t.par[m];
      && s == t.(par := t.par[f := pm][m := pf], lc := s.lc, rc := s.rc)
      && |s.lc| == |s.rc| == |t.w|
      && s.lc[pf] == Other(f, m, t.lc[pf]) && s.rc[pf] == Other(f, m, t.rc[pf])
      && s.lc[pm] == Other(f, m, t.lc[pm]) && s.rc[pm] == Other(f, m, t.rc[pm])
      && forall x :: t.Node(x) && x != pf && x != pm ==> s.lc[x] == t.lc[x] && s.rc[x] == t.rc[x]
  {
  }

  /** After the exchange every link reads as before with the two nodes renamed. */
  ghost predicate Renamed(t: Tree, s: Tree, o: Order, f: int, m: int)
    requires t.Sized() && |o.pos| == |t.w| && t.Node(f) && t.Node(m)
  {
    && s.Sized() && s.n == t.n && s.root == t.root && s.w == t.w && s.zeros == t.zeros
    && (forall x :: In(o, x) && x >= t.n ==>
          s.lc[x] == Other(f, m, t.lc[x]) && s.rc[x] == Other(f, m, t.rc[x]))
    && (forall x :: In(o, x) ==> s.par[x] == if x == f then t.par[m] else if x == m then t.par[f] else t.par[x])
    && (forall x :: 0 <= x < t.n ==> s.lc[x] == t.lc[x] && s.rc[x] == t.rc[x])
  }

  lemma OnlyParents(t: Tree, o: Order, f: int, m: int, x: int)
    requires Placed(t, o) && Family(t, o) && In(o, x) && x >= t.n && t.Node(f) && t.Node(m)
    requires x != t.par[f] && x != t.par[m]
    ensures Other(f, m, t.lc[x]) == t.lc[x] && Other(f, m, t.rc[x]) == t.rc[x]
  {
    hide Family;
    KidsOf(t, o, x);
  }

  /** What `SwappedParts` asks of the parents. */
  lemma TwoParents(t: Tree, o: Order, f: int, m: int)
    requires CanSwap(t, o, f, m) && Family(t, o)
    ensures t.Sized() && t.Node(f) && t.Node(m) && f != m && t.Node(t.par[f]) && t.Node(t.par[m]) && |o.pos| == |t.w|
    ensures t.lc[t.par[f]] == f || t.rc[t.par[f]] == f
    ensures t.lc[t.par[m]] == m || t.rc[t.par[m]] == m
    ensures t.lc[t.par[f]] != t.rc[t.par[f]] && t.lc[t.par[m]] != t.rc[t.par[m]]
    ensures t.par[f] != t.par[m] ==>
              t.lc[t.par[f]] != m && t.rc[t.par[f]] != m && t.lc[t.par[m]] != f && t.rc[t.par[m]] != f
    ensures t.par[f] >= t.n && t.par[m] >= t.n
  {
    hide Family;
    ChildOf(t, o, f);
    ChildOf(t, o, m);
    KidsOf(t, o, t.par[f]);
    KidsOf(t, o, t.par[m]);
  }

  lemma SwappedRenames(t: Tree, o: Order, f: int, m: int)
    requires CanSwap(t, o, f, m) && Family(t, o)
    ensures t.Node(t.par[f]) && t.Node(t.par[m])
    ensures Renamed(t, Swapped(t, f, m), o, f, m)
    ensures
      var s := Swapped(t, f, m);
      s == t.(par := s.par, lc := s.lc, rc := s.rc) && |s.lc| == |s.rc| == |s.par| == |t.w|
  {
    hide Family, Swapped, CanSwap, Placed, Other;
    TwoParents(t, o, f, m);
    SwappedParts(t, f, m);
    assert Placed(t, o) by {
      SwapPlaced(t, o, f, m);
    }
    forall x | In(o, x) && x >= t.n && x != t.par[f] && x != t.par[m]
      ensures Other(f, m, t.lc[x]) == t.lc[x] && Other(f, m, t.rc[x]) == t.rc[x]
    {
      OnlyParents(t, o, f, m, x);
    }
  }

  lemma SwapPlaced(t: Tree, o: Order, f: int, m: int)
    requires CanSwap(t, o, f, m)
    ensures Placed(t, o)
  {
  }

  lemma RenamedKids(t: Tree, s: Tree, o: Order, f: int, m: int, x: int)
    requires CanSwap(t, o, f, m) && Renamed(t, s, o, f, m) && In(o, x) && x >= t.n && Kids(t, o, x)
    requires x == m ==> o.pos[t.lc[m]] < o.pos[f] && o.pos[t.rc[m]] < o.pos[f]
    ensures Kids(s, Exchanged(o, f, m), x)
  {
  }

  lemma RenamedChild(t: Tree, s: Tree, o: Order, f: int, m: int, x: int)
    requires CanSwap(t, o, f, m) && Renamed(t, s, o, f, m) && In(o, x) && x != t.root
    requires Child(t, o, if x == f then m else if x == m then f else x)
    ensures Child(s, Exchanged(o, f, m), x)
  {
  }

  lemma SwappedFamily(t: Tree, s: Tree, o: Order, f: int, m: int)
    requires CanSwap(t, o, f, m) && Family(t, o) && Renamed(t, s, o, f, m) && Placed(s, Exchanged(o, f, m))
    requires m >= t.n ==> Kids(t, o, m) && o.pos[t.lc[m]] < o.pos[f] && o.pos[t.rc[m]] < o.pos[f]
    ensures Family(s, Exchanged(o, f, m))
  {
    hide Placed, Renamed, CanSwap, Kids, Child, Exchanged;
    SwapFacts(t, s, o, f, m);
    var o' := Exchanged(o, f, m);
    forall x | In(o', x) && x >= s.n ensures Kids(s, o', x) {
      KidsOf(t, o, x);
      RenamedKids(t, s, o, f, m, x);
    }
    forall x | In(o', x) && x != s.root ensures Child(s, o', x) {
      ChildOf(t, o, Other(f, m, x));
      RenamedChild(t, s, o, f, m, x);
    }
  }

  lemma SwapFacts(t: Tree, s: Tree, o: Order, f: int, m: int)
    requires CanSwap(t, o, f, m) && Renamed(t, s, o, f, m)
    ensures t.Sized() && s.Sized() && s.n == t.n && s.root == t.root && |o.pos| == |t.w| == |s.w|
    ensures Placed(t, o) && In(o, f) && In(o, m) && f != t.root && m != t.root && f != m
    ensures o.pos[f] < |o.ord| && o.pos[m] < |o.ord|
    ensures |Exchanged(o, f, m).pos| == |o.pos|
    ensures forall x :: In(Exchanged(o, f, m), x) <==> In(o, x)
  {
  }

  /** `f` and its leader have changed places, and `f` leads. */
  ghost predicate Moved(t: Tree, s: Tree, o: Order, f: int, m: int) {
    && CanSwap(t, o, f, m) && Renamed(t, s, o, f, m) && t.Block(t.blk[f]) && t.blk[m] == t.blk[f]
    && t.lead[t.blk[f]] == m
    && s == t.(par := s.par, lc := s.lc, rc := s.rc, left := s.left, right := s.right, lead := t.lead[t.blk[f] := f])
    && Placed(s, Exchanged(o, f, m))
  }

  lemma SameProfile(t: Tree, s: Tree, o: Order, f: int, m: int)
    requires Moved(t, s, o, f, m)
    ensures t.Sized() && t.Node(f)
    ensures
      var o' := Exchanged(o, f, m);
      && |o'.ord| == |o.ord| && s.w == t.w && s.blk == t.blk && s.free == t.free
      && forall k :: 0 <= k < |o.ord| ==>
           t.Node(o.ord[k]) && t.Node(o'.ord[k])
           && s.w[o'.ord[k]] == t.w[o.ord[k]] && s.blk[o'.ord[k]] == t.blk[o.ord[k]]
  {
  }

  lemma MovedSummed(t: Tree, s: Tree, o: Order, f: int, m: int)
    requires Moved(t, s, o, f, m) && Family(t, o) && Summed(t, o, f)
    ensures Summed(s, Exchanged(o, f, m), f)
  {
    hide Family, Moved, Exchanged, Renamed, CanSwap;
    var o' := Exchanged(o, f, m);
    MovedSizes(t, s, o, f, m);
    forall x | In(o', x) && x >= s.n
      ensures Weight(s, s.lc[x]) + Weight(s, s.rc[x]) == s.w[x] + if x == f then 1 else 0
    {
      MovedKids(t, s, o, f, m, x);
    }
  }

  lemma MovedSizes(t: Tree, s: Tree, o: Order, f: int, m: int)
    requires Moved(t, s, o, f, m)
    ensures Placed(s, Exchanged(o, f, m)) && s.Sized() && s.n == t.n && s.w == t.w && Placed(t, o)
    ensures forall x :: In(Exchanged(o, f, m), x) <==> In(o, x)
  {
    hide Placed, Renamed;
    PlacedSizes(s, Exchanged(o, f, m));
    SwapFacts(t, s, o, f, m);
  }

  /** The children of a node weigh what they did. */
  lemma MovedKids(t: Tree, s: Tree, o: Order, f: int, m: int, x: int)
    requires Moved(t, s, o, f, m) && In(o, x) && x >= t.n && t.Sized() && s.Sized() && t.Node(x) && s.Node(x)
    ensures Weight(s, s.lc[x]) == Weight(t, t.lc[x]) && Weight(s, s.rc[x]) == Weight(t, t.rc[x])
  {
    hide Placed;
    PlacedSizes(t, o);
  }

  lemma MovedSorted(t: Tree, s: Tree, o: Order, f: int, m: int)
    requires Moved(t, s, o, f, m) && Sorted(t, o)
    ensures Sorted(s, Exchanged(o, f, m))
  {
    hide Moved, Placed;
    SameProfile(t, s, o, f, m);
  }

  lemma MovedStocked(t: Tree, s: Tree, o: Order, f: int, m: int)
    requires Moved(t, s, o, f, m) && Stocked(t, o)
    ensures Stocked(s, Exchanged(o, f, m))
  {
    hide Placed;
    SameProfile(t, s, o, f, m);
    var o' := Exchanged(o, f, m);
    forall b | s.Block(b) ensures b in s.free || Named(s, o', b) {
      if b !in t.free {
        assert Named(t, o, b);
        var k :| 0 <= k < |o.ord| && 0 <= o.ord[k] < |t.blk| && t.blk[o.ord[k]] == b;
        assert s.blk[o'.ord[k]] == b;
      }
    }
  }

  lemma MovedFacts(t: Tree, s: Tree, o: Order, f: int, m: int)
    requires Moved(t, s, o, f, m)
    ensures
      var o' := Exchanged(o, f, m);
      && Placed(t, o) && Placed(s, o') && |o'.ord| == |o.ord| && o'.zs == o.zs
      && s.n == t.n && s.zeros == t.zeros && s.count == t.count && s.exp == t.exp && s.rem == t.rem && s.next == t.next
      && s.w == t.w
      && (forall x :: 0 <= x < t.n ==> s.lc[x] == t.lc[x] && s.rc[x] == t.rc[x])
      && (forall x :: In(o', x) <==> In(o, x))
  {
  }

  lemma MovedUnseen(t: Tree, s: Tree, o: Order, f: int, m: int)
    requires Moved(t, s, o, f, m) && Unseen(t, o) && Counted(t, o)
    ensures Unseen(s, Exchanged(o, f, m)) && Counted(s, Exchanged(o, f, m))
  {
    hide Moved, Unseen, Counted, Placed;
    MovedFacts(t, s, o, f, m);
    UnseenStays(t, s, o, Exchanged(o, f, m));
    CountedStays(t, s, o, Exchanged(o, f, m));
  }

  lemma MovedLit(t: Tree, s: Tree, o: Order, f: int, m: int)
    requires Moved(t, s, o, f, m) && Family(t, o) && Lit(t, o) && Summed(t, o, f) && Sorted(t, o)
    ensures Lit(s, Exchanged(o, f, m))
  {
    hide Family, Sorted, Summed;
    SameProfile(t, s, o, f, m);
    NotAbove(t, o, f, m);
    if t.zeros != NIL {
      NotThird(t, o, f);
    }
  }

  lemma MovedLed(t: Tree, s: Tree, o: Order, f: int, m: int, a: int)
    requires Moved(t, s, o, f, m) && 1 <= a <= |o.ord| - 2 && Led(t, o, a)
    ensures Led(s, Exchanged(o, f, m), a)
  {
    hide Moved, Placed, Led;
    MovedFacts(t, s, o, f, m);
    SameProfile(t, s, o, f, m);
    if t.blk[o.ord[a]] == t.blk[f] {
      MovedOwn(t, s, o, f, m, a);
    } else {
      MovedOther(t, s, o, f, m, a);
    }
  }

  /** The block that `f` leads now. */
  lemma MovedOwn(t: Tree, s: Tree, o: Order, f: int, m: int, a: int)
    requires Moved(t, s, o, f, m) && 1 <= a <= |o.ord| - 2 && Led(t, o, a) && t.blk[o.ord[a]] == t.blk[f]
    ensures Led(s, Exchanged(o, f, m), a)
  {
    SameProfile(t, s, o, f, m);
    assert o.ord[o.pos[m]] == m && o.ord[o.pos[f]] == f;
  }

  /** Any other block. */
  lemma MovedOther(t: Tree, s: Tree, o: Order, f: int, m: int, a: int)
    requires Moved(t, s, o, f, m) && 1 <= a <= |o.ord| - 2 && Led(t, o, a) && t.blk[o.ord[a]] != t.blk[f]
    ensures Led(s, Exchanged(o, f, m), a)
  {
    SameProfile(t, s, o, f, m);
  }

  lemma MovedFirst(t: Tree, s: Tree, o: Order, f: int, m: int)
    requires Moved(t, s, o, f, m) && |o.ord| >= 3 && First(t, o)
    ensures First(s, Exchanged(o, f, m))
  {
    SameProfile(t, s, o, f, m);
    assert o.ord[o.pos[m]] == m && o.ord[o.pos[f]] == f;
  }

  lemma MovedGrouped(t: Tree, s: Tree, o: Order, f: int, m: int)
    requires Moved(t, s, o, f, m) && Grouped(t, o) && |o.ord| >= 3
    ensures Grouped(s, Exchanged(o, f, m))
  {
    hide Led, First, Moved, Placed;
    SameProfile(t, s, o, f, m);
    MovedFacts(t, s, o, f, m);
    InPlace(t, s, o, f, m);
    var o' := Exchanged(o, f, m);
    forall a | 1 <= a <= |o'.ord| - 2 ensures Led(s, o', a) {
      MovedLed(t, s, o, f, m, a);
    }
    if t.zeros == NIL {
      MovedFirst(t, s, o, f, m);
    }
  }

  lemma InPlace(t: Tree, s: Tree, o: Order, f: int, m: int)
    requires Moved(t, s, o, f, m)
    ensures 1 <= o.pos[m] <= |o.ord| - 2 && t.Node(t.root) && s.root == t.root && s.blk == t.blk
  {
  }

  lemma RelinkedFamily(t: Tree, o: Order, left: seq<int>, right: seq<int>)
    requires Placed(t, o) && Family(t, o) && |left| == |right| == |t.w|
    ensures Placed(t.(left := left, right := right), o) && Family(t.(left := left, right := right), o)
  {
    var r := t.(left := left, right := right);
    forall x | In(o, x) && x >= r.n ensures Kids(r, o, x) {
      KidsOf(t, o, x);
    }
    forall x | In(o, x) && x != r.root ensures Child(r, o, x) {
      ChildOf(t, o, x);
    }
  }

  lemma MovesSwaps(t: Tree, o: Order, f: int, m: int)
    requires CanSwap(t, o, f, m) && Linked(t, o) && Family(t, o)
    requires t.Block(t.blk[f]) && t.lead[t.blk[f]] == m && t.blk[m] == t.blk[f]
    ensures MoveSafe(t, f)
    ensures Moved(t, MoveRight(t, f), o, f, m) && Linked(MoveRight(t, f), Exchanged(o, f, m))
    ensures forall x :: t.Node(x) && !In(o, x) ==> MoveRight(t, f).left[x] == t.left[x]
  {
    hide Family, Linked, Placed, Relinked, Swapped, Renamed;
    CanSwapFacts(t, o, f, m);
    RelinkedLinked(t, o, f, m);
    var r := Relinked(t, f, m);
    RelinkedFamily(t, o, r.left, r.right);
    CanSwapAgain(t, o, f, m, r.left, r.right);
    SwappedRenames(r, o, f, m);
    var s := Swapped(r, f, m);
    var s' := s.(lead := s.lead[s.blk[f] := f]);
    assert MoveRight(t, f) == s';
    MovedTogether(t, r, s, s', o, f, m);
  }

  lemma CanSwapFacts(t: Tree, o: Order, f: int, m: int)
    requires CanSwap(t, o, f, m)
    ensures Placed(t, o) && t.Sized() && t.Node(f) && t.Node(m) && f != m && t.par[f] != m && t.w[f] != 0
    ensures |o.pos| == |t.w|
  {
  }

  lemma CanSwapAgain(t: Tree, o: Order, f: int, m: int, left: seq<int>, right: seq<int>)
    requires CanSwap(t, o, f, m) && |left| == |right| == |t.w|
    ensures CanSwap(t.(left := left, right := right), o, f, m)
  {
  }

  lemma MovedTogether(t: Tree, r: Tree, s: Tree, s': Tree, o: Order, f: int, m: int)
    requires CanSwap(t, o, f, m) && CanSwap(r, o, f, m) && t.Block(t.blk[f]) && t.lead[t.blk[f]] == m && t.blk[m] == t.blk[f]
    requires r == t.(left := r.left, right := r.right) && |r.left| == |r.right| == |t.w|
    requires Placed(r, Exchanged(o, f, m)) && Linked(r, Exchanged(o, f, m)) && Renamed(r, s, o, f, m)
    requires s == r.(par := s.par, lc := s.lc, rc := s.rc) && |s.lc| == |s.rc| == |s.par| == |t.w|
    requires s' == s.(lead := s.lead[s.blk[f] := f])
    ensures Moved(t, s', o, f, m) && Linked(s', Exchanged(o, f, m))
  {
  }

  lemma MovedIdle(t: Tree, s: Tree, o: Order, f: int, m: int)
    requires Moved(t, s, o, f, m) && Linked(s, Exchanged(o, f, m)) && Unseen(t, o) && Idle(t, o) && Lit(t, o)
    requires forall x :: t.Node(x) && !In(o, x) ==> s.left[x] == t.left[x]
    ensures Idle(s, Exchanged(o, f, m))
  {
    hide Listed;
    var o' := Exchanged(o, f, m);
    forall k | 0 <= k < |o'.zs|
      ensures s.Node(o'.zs[k]) && s.blk[o'.zs[k]] == NIL && s.left[o'.zs[k]] == NIL
    {
      if k == 0 {
        assert o'.ord[0] == o.ord[0] == o.zs[0];
      }
    }
  }

  /** A node moves to the front of its block, and everything still holds. */
  lemma MoveKeeps(t: Tree, o: Order, c: int) returns (o': Order)
    requires Inv(t, o, c) && In(o, c) && c != t.root && |o.ord| >= 3 && t.w[c] > 0
    requires t.Block(t.blk[c]) && t.par[c] != t.lead[t.blk[c]]
    ensures MoveSafe(t, c)
    ensures Inv(MoveRight(t, c), o', c) && In(o', c) && |o'.ord| == |o.ord| && o'.pos[c] >= o.pos[c]
    ensures MoveRight(t, c).blk == t.blk && MoveRight(t, c).lead[t.blk[c]] == c
    ensures MoveRight(t, c).zeros == t.zeros
  {
    hide Placed, Linked, Family, Summed, Lit, Sorted, Grouped, Stocked, Unseen, Idle, Counted, Moved;
    HasWeight(t, o, c);
    LeaderFacts(t, o, c);
    PlacedSizes(t, o);
    var m := t.lead[t.blk[c]];
    if m == c {
      o' := o;
    } else {
      o' := Exchanged(o, c, m);
      MakeCanSwap(t, o, c, m);
      MovesSwaps(t, o, c, m);
      var s := MoveRight(t, c);
      if m >= t.n {
        KidsBefore(t, o, c, m);
      }
      MovedFacts(t, s, o, c, m);
      MovedParts(t, s, o, c, m);
      SwappedFamily(t, s, o, c, m);
      MovedSummed(t, s, o, c, m);
      MovedLit(t, s, o, c, m);
      MovedSorted(t, s, o, c, m);
      MovedGrouped(t, s, o, c, m);
      MovedStocked(t, s, o, c, m);
      MovedUnseen(t, s, o, c, m);
      MovedIdle(t, s, o, c, m);
    }
  }

  lemma MakeCanSwap(t: Tree, o: Order, f: int, m: int)
    requires Placed(t, o) && In(o, f) && In(o, m) && f != m && o.pos[f] <= o.pos[m] <= |o.ord| - 2
    requires t.w[f] == t.w[m] > 0 && t.par[f] != m
    ensures CanSwap(t, o, f, m)
  {
    assert o.ord[o.pos[f]] == f && o.ord[o.pos[m]] == m;
  }

  lemma MovedParts(t: Tree, s: Tree, o: Order, f: int, m: int)
    requires Moved(t, s, o, f, m)
    ensures CanSwap(t, o, f, m) && Renamed(t, s, o, f, m) && In(Exchanged(o, f, m), f)
    ensures Exchanged(o, f, m).pos[f] >= o.pos[f] && s.blk == t.blk && s.lead[t.blk[f]] == f
  {
  }
}
