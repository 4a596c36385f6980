/** The tree of the adaptive Huffman coder: nodes by index, linked to parent and children, to their neighbours in the
    order of weights, and to the block of all nodes of the same weight; and how one symbol changes it. */
module FgkTree {
  import opened Arithmetic

  const NIL: int := -1

  /** Node `x` below `n` is the leaf of symbol `x`, the others are inner nodes, in use up to `next`. The symbols not
      seen yet form a list through their child links, headed by `zeros`; their number is `2^exp + rem`. */
  datatype Tree = Tree(n: nat, w: seq<nat>, par: seq<int>, lc: seq<int>, rc: seq<int>, left: seq<int>, right: seq<int>,
                       blk: seq<int>, lead: seq<int>, free: seq<int>, root: int, next: int, zeros: int,
                       count: nat, exp: nat, rem: nat) {
    predicate Sized() {
      && 2 <= n && |w| == 2 * n - 1 && |par| == |lc| == |rc| == |left| == |right| == |blk| == |w|
      && |lead| == 2 * |w|
    }

    predicate Node(x: int) { 0 <= x < |w| }

    predicate Block(b: int) { 0 <= b < |lead| }
  }

  // ----- Blocks

  /** A block taken from the free list, led by `x`. */
  function MadeBlock(t: Tree, x: int): Tree
    requires t.Sized() && t.free != [] && t.Block(t.free[0])
  {
    t.(lead := t.lead[t.free[0] := x], free := t.free[1..])
  }

  function FreedBlock(t: Tree, b: int): Tree {
    t.(free := [b] + t.free)
  }

  // ----- Moving a node to the front of its block

  function Leader(t: Tree, x: int): int
    requires t.Sized() && t.Node(x) && t.Block(t.blk[x])
  {
    t.lead[t.blk[x]]
  }

  predicate Moves(t: Tree, f: int)
    requires t.Sized() && t.Node(f) && t.Block(t.blk[f])
  {
    var m := Leader(t, f);
    f != m && t.par[f] != m && t.w[f] != 0
  }

  /** The pointers that moving `f` follows. */
  predicate MoveSafe(t: Tree, f: int) {
    && t.Sized() && t.Node(f) && t.Block(t.blk[f])
    && (Moves(t, f) ==>
          var m := Leader(t, f);
          && t.Node(m) && t.Node(t.right[m]) && t.Node(t.left[m]) && t.Node(t.right[f])
          && (t.left[f] == NIL || t.Node(t.left[f]))
          && t.Node(t.par[f]) && t.Node(t.par[m]) && t.right[m] != f)
  }

  /** Node `f` changes places with node `m`, further right in the order. */
  function Relinked(t: Tree, f: int, m: int): Tree
    requires t.Sized() && t.Node(f) && t.Node(m) && t.right[m] != f
    requires t.Node(t.right[m]) && t.Node(t.left[m]) && t.Node(t.right[f]) && (t.left[f] == NIL || t.Node(t.left[f]))
  {
    var l1 := t.left[t.right[m] := f];
    var r1 := if l1[f] != NIL then t.right[l1[f] := m] else t.right;
    var tmp := r1[f];
    var r2 := r1[f := r1[m]];
    var l2 := if tmp == m then l1 else l1[tmp := m];
    var r3 := r2[m := if tmp == m then f else tmp];
    var tmp2 := l2[m];
    var l3 := l2[m := l2[f]];
    t.(left := l3[f := if tmp2 == f then m else tmp2], right := if tmp2 == f then r3 else r3[tmp2 := f])
  }

  /** Puts `y` where the parent `p` of `x` has `x`. */
  function Adopted(t: Tree, p: int, asRight: bool, y: int): Tree
    requires t.Sized() && t.Node(p)
  {
    if asRight then t.(rc := t.rc[p := y]) else t.(lc := t.lc[p := y])
  }

  /** Nodes `f` and `m` change parents. */
  function Swapped(t: Tree, f: int, m: int): Tree
    requires t.Sized() && t.Node(f) && t.Node(m) && t.Node(t.par[f]) && t.Node(t.par[m])
  {
    var pf, pm := t.par[f], t.par[m];
    var fRight, mRight := t.rc[pf] == f, t.rc[pm] == m;
    Adopted(Adopted(t.(par := t.par[f := pm][m := pf]), pf, fRight, m), pm, mRight, f)
  }

  lemma RelinkedSame(t: Tree, f: int, m: int)
    requires t.Sized() && t.Node(f) && t.Node(m) && t.right[m] != f
    requires t.Node(t.right[m]) && t.Node(t.left[m]) && t.Node(t.right[f]) && (t.left[f] == NIL || t.Node(t.left[f]))
    ensures
      var s := Relinked(t, f, m);
      s == t.(left := s.left, right := s.right) && s.Sized()
  {
  }

  lemma SwappedSame(t: Tree, f: int, m: int)
    requires t.Sized() && t.Node(f) && t.Node(m) && t.Node(t.par[f]) && t.Node(t.par[m])
    ensures
      var s := Swapped(t, f, m);
      s == t.(par := s.par, lc := s.lc, rc := s.rc) && s.Sized()
  {
  }

  function MoveRight(t: Tree, f: int): (t': Tree)
    requires MoveSafe(t, f)
    ensures t'.Sized() && t'.n == t.n && t'.w == t.w && t'.root == t.root
  {
    if !Moves(t, f) then t
    else
      var m := Leader(t, f);
      var s := Swapped(Relinked(t, f, m), f, m);
      s.(lead := s.lead[s.blk[f] := f])
  }

  // ----- Leaving the block for the next one

  /** The node above the list of unseen symbols, and its other child. */
  predicate AboveZeros(t: Tree, x: int)
    requires t.Sized() && t.Node(x)
  {
    t.left[x] == t.rc[x] && t.lc[x] != NIL && t.Node(t.lc[x]) && t.w[t.lc[x]] == 0
  }

  predicate Joins(t: Tree, x: int)
    requires t.Sized() && t.Node(x) && t.Node(t.right[x])
  {
    t.w[x] + 1 == t.w[t.right[x]] && t.right[x] != t.root
  }

  /** The pointers that promoting `x` follows. */
  predicate PromoteSafe(t: Tree, x: int) {
    && t.Sized() && t.Node(x) && t.Block(t.blk[x]) && t.Node(t.right[x])
    && (t.w[x] != 0 && AboveZeros(t, x) ==> t.Node(t.left[x]))
    && (t.w[x] != 0 && !AboveZeros(t, x) && t.left[x] != t.zeros ==>
          && t.Node(t.left[x])
          && (Joins(t, x) || t.blk[t.left[x]] != t.blk[x] || (t.free != [] && t.Block(t.free[0]))))
  }

  /** The block of `x` without `x`: led by the left neighbour, or free. */
  function LeftBlock(t: Tree, x: int): Tree
    requires t.Sized() && t.Node(x) && t.Block(t.blk[x]) && t.Node(t.left[x])
  {
    if t.blk[t.left[x]] == t.blk[x] then t.(lead := t.lead[t.blk[x] := t.left[x]]) else FreedBlock(t, t.blk[x])
  }

  function EnterBlock(t: Tree, x: int): Tree
    requires t.Sized() && t.Node(x) && t.Node(t.right[x]) && (Joins(t, x) || (t.free != [] && t.Block(t.free[0])))
  {
    if Joins(t, x) then t.(blk := t.blk[x := t.blk[t.right[x]]])
    else MadeBlock(t, x).(blk := t.blk[x := t.free[0]])
  }

  function Promote(t: Tree, x: int): (t': Tree)
    requires PromoteSafe(t, x)
    ensures t'.Sized() && t'.n == t.n && t'.w == t.w && t'.root == t.root
  {
    if t.w[x] == 0 then t
    else if AboveZeros(t, x) then
      if Joins(t, x) then
        FreedBlock(t, t.blk[x]).(blk := t.blk[x := t.blk[t.right[x]]][t.left[x] := t.blk[t.right[x]]])
      else t
    else if t.left[x] == t.zeros then t
    else EnterBlock(LeftBlock(t, x), x)
  }

  // ----- One more occurrence

  function Grown(t: Tree, x: int): Tree
    requires t.Sized() && t.Node(x)
  {
    t.(w := t.w[x := t.w[x] + 1])
  }

  predicate StepSafe(t: Tree, x: int) {
    MoveSafe(t, x) && PromoteSafe(MoveRight(t, x), x)
  }

  function Step(t: Tree, x: int): (t': Tree)
    requires StepSafe(t, x)
    ensures t'.Sized() && t'.n == t.n && t'.root == t.root
  {
    Grown(Promote(MoveRight(t, x), x), x)
  }

  lemma StepParts(t: Tree, x: int)
    requires StepSafe(t, x)
    ensures MoveSafe(t, x) && PromoteSafe(MoveRight(t, x), x) && t.Sized() && t.Node(x) && |Step(t, x).w| == |t.w|
  {
  }

  /** Every step from `x` up to the root finds its pointers, and `fuel` is enough to get there. */
  predicate Climbs(t: Tree, x: int, fuel: nat)
    requires t.Sized()
    decreases fuel
  {
    if x == t.root then t.Node(x)
    else fuel > 0 && StepSafe(t, x) && Climbs(Step(t, x), Step(t, x).par[x], fuel - 1)
  }

  /** From `x` up to the root. Where `Climbs` does not hold it stops; on a tree in order it always holds. */
  function Climb(t: Tree, x: int, fuel: nat): (t': Tree)
    requires t.Sized()
    ensures t'.Sized() && t'.n == t.n
    decreases fuel
  {
    if x == t.root then (if t.Node(x) then Grown(t, x) else t)
    else if fuel == 0 || !StepSafe(t, x) then t
    else Climb(Step(t, x), Step(t, x).par[x], fuel - 1)
  }

  // ----- A symbol seen for the first time

  /** One unseen symbol less. */
  function Factored(t: Tree): Tree
    requires t.count > 1
  {
    t.(count := t.count - 1, exp := Log2(t.count - 1), rem := t.count - 1 - Pow2(Log2(t.count - 1)))
  }

  lemma FactoredIs(t: Tree)
    requires t.count > 1
    ensures Factored(t) == t.(count := t.count - 1, exp := Log2(t.count - 1), rem := t.count - 1 - Pow2(Log2(t.count - 1)))
  {
  }

  predicate EliminateSafe(t: Tree, x: int) {
    && t.Sized() && t.Node(x) && t.count > 1
    && (t.lc[x] == NIL ==> t.Node(t.zeros) && t.Node(t.rc[t.zeros]))
    && (t.lc[x] != NIL ==> t.Node(t.lc[x]))
    && (t.lc[x] != NIL && t.rc[x] != NIL ==> t.Node(t.rc[x]))
  }

  /** Takes `x` out of the list of unseen symbols. */
  function Eliminated(t0: Tree, x: int): (t': Tree)
    requires EliminateSafe(t0, x)
    ensures t'.Sized() && t'.n == t0.n && t'.w == t0.w
  {
    var t := Factored(t0);
    if t.lc[x] == NIL then t.(zeros := t.rc[t.zeros], lc := t.lc[t.rc[t.zeros] := NIL])
    else if t.rc[x] == NIL then t.(rc := t.rc[t.lc[x] := NIL])
    else t.(lc := t.lc[t.rc[x] := t.lc[x]], rc := t.rc[t.lc[x] := t.rc[x]])
  }

  /** The new inner node takes the place of the head of the list; `x` is its right child. */
  function Grafted(t: Tree, x: int): (t': Tree)
    requires t.Sized() && t.Node(t.zeros) && t.Node(t.next)
    ensures t'.Sized()
  {
    var i, z := t.next, t.zeros;
    t.(par := t.par[i := t.par[z]], right := t.right[i := t.right[z]], w := t.w[i := 0], rc := t.rc[i := x],
       left := t.left[i := x], next := t.next + 1)
  }

  predicate HangSafe(t: Tree, x: int, i: int, z: int) {
    && t.Sized() && t.Node(x) && t.Node(i) && t.Node(z)
    && (z == t.root ==> |t.free| >= 2 && t.Block(t.free[0]) && t.Block(t.free[1]))
    && (z != t.root ==> t.Node(t.right[i]) && t.Node(t.par[z]))
    && (z != t.root && t.w[t.right[i]] != 1 ==> t.free != [] && t.Block(t.free[0]))
  }

  /** Hangs inner node `i` into the tree where `z` was, with a block for it and `x`. */
  function Hung(t: Tree, x: int, i: int, z: int): (t': Tree)
    requires HangSafe(t, x, i, z)
    ensures t'.Sized()
  {
    if z == t.root then
      MadeBlock(MadeBlock(t, x), i).(root := i, blk := t.blk[x := t.free[0]][i := t.free[1]])
    else
      var s := Adopted(t.(left := t.left[t.right[i] := i]), t.par[z], t.rc[t.par[z]] == z, i);
      if t.w[t.right[i]] == 1 then s.(blk := s.blk[i := s.blk[t.right[i]]][x := s.blk[i := s.blk[t.right[i]]][i]])
      else MadeBlock(s, i).(blk := s.blk[i := s.free[0]][x := s.free[0]])
  }

  /** Joins `x` and what is left of the list under inner node `i`. */
  function Seated(t: Tree, x: int, i: int): Tree
    requires t.Sized() && t.Node(x) && t.Node(i) && t.Node(t.zeros)
  {
    var z := t.zeros;
    t.(lc := t.lc[i := z][x := NIL], rc := t.rc[x := NIL], par := t.par[x := i][z := i],
       right := t.right[x := i][z := x], left := t.left[x := z])
  }

  predicate EnterSafe(t: Tree, x: int) {
    && t.Sized() && t.Node(x)
    && (t.count == 1 ==> t.Node(t.right[x]) && (t.w[t.right[x]] != 1 ==> t.free != [] && t.Block(t.free[0])))
    && (t.count != 1 ==>
          && t.Node(t.zeros) && t.Node(t.next)
          && HangSafe(Grafted(t, x), x, t.next, t.zeros)
          && EliminateSafe(Hung(Grafted(t, x), x, t.next, t.zeros), x)
          && var e := Eliminated(Hung(Grafted(t, x), x, t.next, t.zeros), x);
             e.Node(e.zeros))
  }

  /** Symbol `x` leaves the list of unseen symbols and becomes a leaf of the tree, still of weight zero. */
  function Enter(t: Tree, x: int): (t': Tree)
    requires EnterSafe(t, x)
    ensures t'.Sized() && t'.n == t.n
  {
    if t.count == 1 then
      var s := t.(rc := t.rc[x := NIL], zeros := NIL);
      if t.w[t.right[x]] == 1 then s.(blk := s.blk[x := s.blk[s.right[x]]])
      else MadeBlock(s, x).(blk := s.blk[x := s.free[0]])
    else
      Seated(Eliminated(Hung(Grafted(t, x), x, t.next, t.zeros), x), x, t.next)
  }

  /** Counting symbol `x` finds all its pointers. */
  predicate Updates(t: Tree, x: int)
    requires t.Sized() && t.Node(x)
  {
    if t.w[x] == 0 then EnterSafe(t, x) && Climbs(Enter(t, x), x, |t.w|) else Climbs(t, x, |t.w|)
  }

  /** The tree after one more occurrence of symbol `x`. */
  function Update(t: Tree, x: int): (t': Tree)
    requires t.Sized() && t.Node(x)
    ensures t'.Sized() && t'.n == t.n
  {
    if t.w[x] == 0 then (if EnterSafe(t, x) then Climb(Enter(t, x), x, |t.w|) else t)
    else Climb(t, x, |t.w|)
  }
}
