/** The adaptive coder's state, changed in place: its tree, the bits of a code, and where the decoder stands. */
module FgkStream {
  import opened Arithmetic
  import opened BitStream
  import T = FgkTree
  import I = FgkInit
  import O = FgkOrder
  import C = FgkCodec
  import R = FgkReach

  const NIL: int := -1

  class Stream {
    const n: nat
    var w: seq<nat>
    var par: seq<int>
    var lc: seq<int>
    var rc: seq<int>
    var left: seq<int>
    var right: seq<int>
    var blk: seq<int>
    var lead: seq<int>
    var free: seq<int>
    var root: int
    var next: nat
    var zeros: int
    var count: nat
    var exp: nat
    var rem: nat
    const codedBits: array<bool>
    var depth: nat
    var ptr: int

    ghost function View(): T.Tree
      reads this
    {
      T.Tree(n, w, par, lc, rc, left, right, blk, lead, free, root, next, zeros, count, exp, rem)
    }

    // ----- One step of an update

    method MakeBlock(x: int) returns (b: int)
      requires View().Sized() && free != [] && View().Block(free[0])
      modifies `lead, `free
      ensures View() == T.MadeBlock(old(View()), x) && b == old(free[0])
    {
      b := free[0];
      free := free[1..];
      lead := lead[b := x];
    }

    method FreeBlock(b: int)
      modifies `free
      ensures View() == T.FreedBlock(old(View()), b)
    {
      free := [b] + free;
    }

    /** The links to the neighbours of `f` and `m`, further right. */
    method Relink(f: int, m: int)
      requires View().Sized() && View().Node(f) && View().Node(m) && right[m] != f
      requires View().Node(right[m]) && View().Node(left[m]) && View().Node(right[f])
      requires left[f] == NIL || View().Node(left[f])
      modifies `left, `right
      ensures View() == T.Relinked(old(View()), f, m)
    {
      left := left[right[m] := f];
      if left[f] != NIL {
        right := right[left[f] := m];
      }
      var tmp := right[f];
      right := right[f := right[m]];
      if tmp == m {
        right := right[m := f];
      } else {
        left := left[tmp := m];
        right := right[m := tmp];
      }
      tmp := left[m];
      left := left[m := left[f]];
      if tmp == f {
        left := left[f := m];
      } else {
        right := right[tmp := f];
        left := left[f := tmp];
      }
    }

    /** The links between `f` and `m` and their parents. */
    method SwapParents(f: int, m: int)
      requires View().Sized() && View().Node(f) && View().Node(m) && View().Node(par[f]) && View().Node(par[m])
      modifies `par, `lc, `rc
      ensures View() == T.Swapped(old(View()), f, m)
    {
      var pf, pm := par[f], par[m];
      var fRight, mRight := rc[pf] == f, rc[pm] == m;
      par := par[f := pm];
      par := par[m := pf];
      if fRight {
        rc := rc[pf := m];
      } else {
        lc := lc[pf := m];
      }
      if mRight {
        rc := rc[pm := f];
      } else {
        lc := lc[pm := f];
      }
    }

    method MoveRight(f: int)
      requires T.MoveSafe(View(), f)
      modifies `par, `lc, `rc, `left, `right, `lead
      ensures View() == T.MoveRight(old(View()), f)
    {
      hide T.Relinked, T.Swapped;
      var m := lead[blk[f]];
      if f == m || par[f] == m || w[f] == 0 {
        return;
      }
      Relink(f, m);
      T.RelinkedSame(old(View()), f, m);
      SwapParents(f, m);
      T.SwappedSame(T.Relinked(old(View()), f, m), f, m);
      lead := lead[blk[f] := f];
    }

    method Promote(x: int)
      requires T.PromoteSafe(View(), x)
      modifies `blk, `lead, `free
      ensures View() == T.Promote(old(View()), x)
    {
      var r, l, b := right[x], left[x], blk[x];
      if w[x] == 0 {
        return;
      }
      if l == rc[x] && lc[x] != NIL && 0 <= lc[x] < |w| && w[lc[x]] == 0 {
        if w[x] + 1 == w[r] && r != root {
          FreeBlock(b);
          blk := blk[x := blk[r]];
          blk := blk[l := blk[r]];
        }
        return;
      }
      if l == zeros {
        return;
      }
      if blk[l] == b {
        lead := lead[b := l];
      } else {
        FreeBlock(b);
      }
      if w[x] + 1 == w[r] && r != root {
        blk := blk[x := blk[r]];
      } else {
        var own := MakeBlock(x);
        blk := blk[x := own];
      }
    }

    // ----- The list of unseen symbols

    method FactorRemaining()
      requires count > 1
      modifies `count, `exp, `rem
      ensures View() == T.Factored(old(View()))
    {
      hide Pow2, Log2;
      count := count - 1;
      var i := count;
      exp := 0;
      while i > 1
        invariant i > 0 && exp + Log2(i) == Log2(count)
        modifies `exp
        decreases i
      {
        Log2Half(i);
        exp := exp + 1;
        i := i / 2;
      }
      Log2Half(i);
      rem := count - Pow2(exp);
    }

    method EliminateZero(x: int)
      requires T.EliminateSafe(View(), x)
      modifies `count, `exp, `rem, `zeros, `lc, `rc
      ensures View() == T.Eliminated(old(View()), x)
    {
      FactorRemaining();
      if lc[x] == NIL {
        zeros := rc[zeros];
        lc := lc[zeros := NIL];
      } else if rc[x] == NIL {
        rc := rc[lc[x] := NIL];
      } else {
        lc := lc[rc[x] := lc[x]];
        rc := rc[lc[x] := rc[x]];
      }
    }

    /** Hangs inner node `i` into the tree in the place of `z`. */
    method HangIn(x: int, i: int, z: int)
      requires T.HangSafe(View(), x, i, z)
      modifies `lc, `rc, `left, `blk, `lead, `free, `root
      ensures View() == T.Hung(old(View()), x, i, z)
    {
      if z == root {
        root := i;
        var b := MakeBlock(x);
        blk := blk[x := b];
        b := MakeBlock(i);
        blk := blk[i := b];
      } else {
        left := left[right[i] := i];
        if rc[par[z]] == z {
          rc := rc[par[z] := i];
        } else {
          lc := lc[par[z] := i];
        }
        if w[right[i]] == 1 {
          blk := blk[i := blk[right[i]]];
        } else {
          var b := MakeBlock(i);
          blk := blk[i := b];
        }
        blk := blk[x := blk[i]];
      }
    }

    /** A new inner node takes the links of the head of the list. */
    method Graft(x: int)
      requires View().Sized() && View().Node(zeros) && View().Node(next)
      modifies `w, `par, `rc, `left, `right, `next
      ensures View() == T.Grafted(old(View()), x)
    {
      ghost var g := T.Grafted(View(), x);
      var z, i := zeros, next;
      next := next + 1;
      par, right, w := par[i := par[z]], right[i := right[z]], w[i := 0];
      rc, left := rc[i := x], left[i := x];
      assert par == g.par && right == g.right && w == g.w && rc == g.rc && left == g.left && next == g.next;
    }

    /** Symbol `x` and the rest of the list become the children of inner node `i`. */
    method Seat(x: int, i: int)
      requires View().Sized() && View().Node(x) && View().Node(i) && View().Node(zeros)
      modifies `par, `lc, `rc, `left, `right
      ensures View() == T.Seated(old(View()), x, i)
    {
      ghost var g := T.Seated(View(), x, i);
      lc := lc[i := zeros];
      right, left, par := right[x := i], left[x := zeros], par[x := i];
      lc, rc := lc[x := NIL], rc[x := NIL];
      par, right := par[zeros := i], right[zeros := x];
      assert par == g.par && right == g.right && left == g.left && lc == g.lc && rc == g.rc;
    }

    /** Symbol `x` becomes a leaf; it is the node to start counting from. */
    method IncreaseZeroWeight(x: int) returns (r: int)
      requires T.EnterSafe(View(), x)
      modifies `w, `par, `lc, `rc, `left, `right, `blk, `lead, `free, `root, `next, `zeros, `count, `exp, `rem
      ensures View() == T.Enter(old(View()), x) && r == x
    {
      hide T.Hung, T.Eliminated, T.HangSafe, T.EliminateSafe, T.Grafted, T.Seated;
      r := x;
      if count == 1 {
        rc := rc[x := NIL];
        if w[right[x]] == 1 {
          blk := blk[x := blk[right[x]]];
        } else {
          var b := MakeBlock(x);
          blk := blk[x := b];
        }
        zeros := NIL;
        return;
      }
      var z, i := zeros, next;
      Graft(x);
      HangIn(x, i, z);
      EliminateZero(x);
      Seat(x, i);
    }

    /** Node `c` takes its place for one more occurrence, and counts it. */
    method CountOne(c: int)
      requires T.StepSafe(View(), c)
      modifies `w, `par, `lc, `rc, `left, `right, `blk, `lead, `free
      ensures View() == T.Step(old(View()), c)
    {
      hide T.MoveSafe, T.PromoteSafe, T.MoveRight, T.Promote;
      T.StepParts(View(), c);
      MoveRight(c);
      Promote(c);
      w := w[c := w[c] + 1];
    }

    /** Counts one more occurrence of symbol `x`. */
    method UpdateTree(x: int)
      requires C.Settled(View()) && 0 <= x < n
      modifies `w, `par, `lc, `rc, `left, `right, `blk, `lead, `free, `root, `next, `zeros, `count, `exp, `rem
      ensures View() == T.Update(old(View()), x) && C.Settled(View())
    {
      hide C.Settled, T.StepSafe, T.Step, T.EnterSafe, T.Enter;
      C.UpdateFinds(View(), x);
      var c := x;
      ghost var fuel: nat := |w|;
      ghost var goal := T.Update(View(), x);
      if w[x] == 0 {
        c := IncreaseZeroWeight(x);
      }
      while c != root
        invariant View().Sized() && T.Climbs(View(), c, fuel) && T.Climb(View(), c, fuel) == goal
        decreases fuel
      {
        T.StepParts(View(), c);
        CountOne(c);
        c := par[c];
        fuel := fuel - 1;
      }
      w := w[root := w[root] + 1];
    }

    // ----- From the start

    /** Memory for `n` symbols, not yet initialised. */
    constructor (n: nat)
      requires n >= 2
      ensures View().Sized() && codedBits.Length == n && this.n == n
      ensures fresh(codedBits)
    {
      this.n := n;
      w := seq(2 * n - 1, _ => 0);
      par, lc, rc := Blank(2 * n - 1), Blank(2 * n - 1), Blank(2 * n - 1);
      left, right, blk, lead := Blank(2 * n - 1), Blank(2 * n - 1), Blank(2 * n - 1), Blank(2 * (2 * n - 1));
      free, root, next, zeros, count, exp, rem := [], NIL, 0, NIL, 0, 0, 0;
      codedBits := new bool[n];
      depth, ptr := 0, NIL;
    }

    method InitNode(i: nat)
      requires View().Sized() && i < n
      modifies `w, `par, `lc, `rc, `left, `right, `blk
      ensures w == old(w)[i := 0] && par == old(par)[i := NIL] && left == old(left)[i := NIL]
      ensures right == old(right)[i := NIL] && blk == old(blk)[i := NIL]
      ensures lc == old(lc)[i := i - 1] && rc == old(rc)[i := if i < n - 1 then i + 1 else NIL]
    {
      rc := rc[i := if i < n - 1 then i + 1 else NIL];
      lc := lc[i := if i >= 1 then i - 1 else NIL];
      w, par, right, left, blk := w[i := 0], par[i := NIL], right[i := NIL], left[i := NIL], blk[i := NIL];
    }

    method InitNodes()
      requires View().Sized()
      modifies `w, `par, `lc, `rc, `left, `right, `blk
      ensures w == I.InitialW(0, n, old(w)) && par == I.InitialLinks(0, n, old(par)) && lc == I.InitialLc(0, n, old(lc))
      ensures rc == I.InitialRc(0, n, old(rc)) && left == I.InitialLinks(0, n, old(left))
      ensures right == I.InitialLinks(0, n, old(right)) && blk == I.InitialLinks(0, n, old(blk))
    {
      hide I.InitialW, I.InitialLinks, I.InitialLc, I.InitialRc;
      var si := n;
      I.InitialNone(n, w, par);
      I.InitialNone(n, w, lc);
      I.InitialNone(n, w, rc);
      I.InitialNone(n, w, left);
      I.InitialNone(n, w, right);
      I.InitialNone(n, w, blk);
      while si > 0
        invariant 0 <= si <= n && View().Sized()
        invariant w == I.InitialW(si, n, old(w)) && par == I.InitialLinks(si, n, old(par))
        invariant lc == I.InitialLc(si, n, old(lc)) && rc == I.InitialRc(si, n, old(rc))
        invariant left == I.InitialLinks(si, n, old(left)) && right == I.InitialLinks(si, n, old(right))
        invariant blk == I.InitialLinks(si, n, old(blk))
        decreases si
      {
        si := si - 1;
        InitNode(si);
        I.InitialMore(si, n, old(w), old(par));
        I.InitialMore(si, n, old(w), old(lc));
        I.InitialMore(si, n, old(w), old(rc));
        I.InitialMore(si, n, old(w), old(left));
        I.InitialMore(si, n, old(w), old(right));
        I.InitialMore(si, n, old(w), old(blk));
      }
    }

    method InitBlocks()
      modifies `free
      ensures free == I.Upto(|lead|)
    {
      free := [];
      var ui := 0;
      while ui < |lead|
        invariant free == I.Upto(ui) && ui <= |lead|
      {
        free := free + [ui];
        ui := ui + 1;
      }
    }

    /** All symbols are unseen, the first of them the root; the two calls bring the count down to their number. */
    method InitCounts()
      requires n >= 2
      modifies `root, `next, `zeros, `count, `exp, `rem
      ensures root == 0 && next == n && zeros == 0 && count == n && exp == Log2(n) && rem == n - Pow2(Log2(n))
    {
      hide T.Factored, Log2, Pow2;
      root, next, zeros := 0, n, 0;
      count := n + 2;
      T.FactoredIs(View());
      FactorRemaining();
      T.FactoredIs(View());
      FactorRemaining();
    }

    /** The coder before the first symbol. */
    method Init()
      requires View().Sized()
      modifies this
      ensures View() == I.Initial(old(View())) && C.Settled(View()) && depth == 0 && ptr == root
    {
      hide C.Settled, Log2, Pow2, I.InitialW, I.InitialLinks, I.InitialLc, I.InitialRc, I.Upto;
      C.InitialSettles(View());
      InitCounts();
      ptr, depth := root, 0;
      InitBlocks();
      InitNodes();
    }

    // ----- The code of a symbol

    /** The bits still to be sent; the last one kept is the first to go. */
    ghost function Pending(): (s: seq<bool>)
      reads this, codedBits
      requires depth <= codedBits.Length
      ensures |s| == depth
    {
      Reversed(codedBits[..depth])
    }

    ghost predicate Valid()
      reads this, codedBits
    {
      C.Settled(View()) && View().Sized() && codedBits.Length == n && depth <= n
    }

    method KeepBit(b: bool)
      requires depth < codedBits.Length
      modifies `depth, codedBits
      ensures depth == old(depth) + 1 <= codedBits.Length && Pending() == [b] + old(Pending())
      ensures codedBits[..depth] == old(codedBits[..depth]) + [b]
    {
      codedBits[depth] := b;
      depth := depth + 1;
      assert codedBits[..depth] == old(codedBits[..depth]) + [b];
      ReversedMore(old(codedBits[..depth]), b);
    }

    method FindNthZero(x: int) returns (idx: nat)
      requires C.Settled(View()) && View().Sized() && 0 <= x < n && w[x] == 0
      ensures idx == C.Index(View(), x)
    {
      hide C.Settled, C.Index;
      ghost var zs, k := C.ListOf(View(), x);
      var head := zeros;
      idx := 0;
      while x != head
        invariant 0 <= idx <= k && head == zs[idx]
        decreases k - idx
      {
        C.NextListed(View(), zs, idx);
        head := rc[head];
        idx := idx + 1;
      }
    }

    /** The bits of the index, the least significant kept first. */
    method KeepIndex(index: nat, width: nat)
      requires depth == 0 && width < codedBits.Length
      modifies `depth, codedBits
      ensures depth == width && Pending() == Bits(index, width)
    {
      var bits, shift := width, 1;
      while bits > 0
        invariant 0 <= bits <= width && depth == width - bits && shift == Pow2(depth)
        invariant Pending() == Bits(index, depth)
      {
        MoreBits(index, depth);
        KeepBit(HasBit(index, shift));
        bits, shift := bits - 1, 2 * shift;
      }
    }

    /** The way down to `y`, the last turn kept first. */
    method KeepPath(y: int, ghost o: O.Order)
      requires C.Stands(View(), o, y, |w|)
      requires depth + |C.Path(View(), y, |w|)| <= codedBits.Length
      modifies `depth, codedBits
      ensures depth <= codedBits.Length && Pending() == C.Path(View(), y, |w|) + old(Pending())
    {
      hide C.Stands;
      ghost var fuel: nat := |w|;
      var c := y;
      while c != root
        invariant C.Stands(View(), o, c, fuel) && depth + |C.Path(View(), c, fuel)| <= codedBits.Length
        invariant C.Path(View(), c, fuel) + Pending() == C.Path(View(), y, |w|) + old(Pending())
        decreases fuel
      {
        C.StandsFacts(View(), o, c, fuel);
        ghost var kept := Pending();
        var b := rc[par[c]] == c;
        KeepBit(b);
        C.PathTurn(View(), c, fuel, kept);
        c := par[c];
        fuel := fuel - 1;
      }
    }

    /** Keeps the code of symbol `x`, and counts it. */
    method EncodeData(x: int) returns (bits: nat)
      requires Valid() && 0 <= x < n
      modifies this, codedBits
      ensures Valid() && View() == T.Update(old(View()), x)
      ensures Pending() == C.Code(old(View()), x) && bits == depth == |C.Code(old(View()), x)|
    {
      hide C.Settled, C.Code, C.Index, T.Update, C.Stands, C.Path;
      R.CodeLength(View(), x);
      ghost var o := R.CodeParts(View(), x);
      depth := 0;
      var target := x;
      if w[x] == 0 {
        var index := FindNthZero(x);
        var width := if rem == 0 then exp else exp + 1;
        KeepIndex(index, width);
        target := zeros;
      }
      KeepPath(target, o);
      UpdateTree(x);
      return depth;
    }

    /** Sends the next bit of the code. */
    method GetEncodedBit() returns (b: bool)
      requires 0 < depth <= codedBits.Length
      modifies `depth
      ensures depth == old(depth) - 1 && [b] + Pending() == old(Pending())
    {
      depth := depth - 1;
      b := codedBits[depth];
      assert old(codedBits[..depth]) == codedBits[..depth] + [b];
      ReversedMore(codedBits[..depth], b);
    }

    // ----- The decoder

    ghost function State(): C.Decoder
      reads this, codedBits
    {
      C.Decoder(View(), ptr, if depth <= codedBits.Length then codedBits[..depth] else [])
    }

    ghost predicate Awaits(o: O.Order)
      reads this, codedBits
    {
      Valid() && R.Awaiting(State(), o)
    }

    /** A symbol can be taken; where its index has no bits, the place kept for the first bit may hold any. */
    ghost predicate Completes(o: O.Order)
      reads this, codedBits
    {
      Valid() && R.Complete(State(), o)
    }

    method DecodeBit(b: bool, ghost o: O.Order) returns (done: bool)
      requires Awaits(o)
      modifies `depth, `ptr, codedBits
      ensures C.DecodeBit(old(State()), b) == (State(), done)
      ensures if done then Completes(o) else Awaits(o)
    {
      hide C.Settled, R.Awaiting, R.Complete;
      R.BitKeeps(State(), o, b);
      R.AwaitingNode(State(), o);
      R.AwaitingRoom(State(), o);
      if w[ptr] == 0 {
        var required := if rem == 0 then exp else exp + 1;
        KeepBit(b);
        done := depth >= required;
      } else {
        if b {
          ptr := rc[ptr];
        } else {
          ptr := lc[ptr];
        }
        done := lc[ptr] == NIL && (w[ptr] != 0 || count == 1);
      }
    }

    /** The symbol `i` places down the list, or the last one. */
    method NthZero(i: nat) returns (x: int)
      requires C.Settled(View()) && View().Sized() && zeros >= 0
      ensures x == C.NthZero(View(), zeros, i)
    {
      hide C.Settled;
      ghost var zs := C.WholeList(View());
      ghost var j := 0;
      x := zeros;
      var k := i;
      C.NextListed(View(), zs, j);
      while k != 0 && rc[x] != NIL
        invariant 0 <= j < |zs| && x == zs[j] && View().Node(x) && rc[x] == O.At(zs, j + 1)
        invariant C.NthZero(View(), x, k) == C.NthZero(View(), zeros, i)
        decreases k
      {
        x := rc[x];
        j := j + 1;
        k := k - 1;
        C.NextListed(View(), zs, j);
      }
    }

    /** The bits of the index as a number; with none of them, whatever the first place holds. */
    method KeptIndex() returns (index: nat)
      requires 0 < codedBits.Length && depth <= codedBits.Length
      ensures depth > 0 ==> index == ValueOf(codedBits[..depth])
    {
      index := 0;
      var i := 0;
      while i + 1 < depth
        invariant i <= depth && (depth > 0 ==> i < depth) && index == 2 * ValueOf(codedBits[..i])
      {
        index := 2 * (index + (if codedBits[i] then 1 else 0));
        assert codedBits[..i + 1][..i] == codedBits[..i];
        i := i + 1;
      }
      index := index + (if codedBits[i] then 1 else 0);
      assert depth > 0 ==> codedBits[..i + 1][..i] == codedBits[..i] && i + 1 == depth;
    }

    /** Takes the complete symbol, counts it, and goes back to the root. */
    method DecodeData(ghost o: O.Order) returns (x: int)
      requires Completes(o)
      modifies `w, `par, `lc, `rc, `left, `right, `blk, `lead, `free, `root, `next, `zeros, `count, `exp, `rem, `depth, `ptr
      ensures Valid() && 0 <= x < n && x == C.Picked(old(State())) && State() == C.Taken(old(State())) == C.Begin(View())
    {
      hide C.Settled, R.Complete, T.Update;
      R.CompleteFacts(State(), o);
      R.PickedInRange(State(), o);
      x := ptr;
      if w[ptr] == 0 {
        var index := KeptIndex();
        R.NoIndexNeeded(State(), o, index);
        x := NthZero(index);
      }
      depth := 0;
      UpdateTree(x);
      ptr := root;
      assert codedBits[..depth] == [];
    }
  }

  function Reversed(s: seq<bool>): (r: seq<bool>)
    ensures |r| == |s|
  {
    seq(|s|, i requires 0 <= i < |s| => s[|s| - 1 - i])
  }

  lemma ReversedMore(s: seq<bool>, b: bool)
    ensures Reversed(s + [b]) == [b] + Reversed(s)
  {
  }

  lemma MoreBits(v: nat, k: nat)
    ensures Bits(v, k + 1) == [HasBit(v, Pow2(k))] + Bits(v, k)
  {
    forall i | 0 <= i <= k ensures Bits(v, k + 1)[i] == ([HasBit(v, Pow2(k))] + Bits(v, k))[i] {
      BitsAt(v, k + 1, i);
      if i > 0 {
        BitsAt(v, k, i - 1);
      }
    }
  }

  function Blank(m: nat): (s: seq<int>)
    ensures |s| == m
  {
    seq(m, _ => NIL)
  }
}
