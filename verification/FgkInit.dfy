/** The tree before the first symbol: the unseen symbols in a list, and its head the root. */
module FgkInit {
  import opened Arithmetic
  import opened FgkTree
  import opened FgkOrder

  /** What initialising makes of the memory of `h`: inner nodes and leaders of blocks are left as they are. */
  function Initial(h: Tree): (t: Tree)
    requires h.Sized()
    ensures t.Sized() && t.n == h.n
  {
    var n := h.n;
    Tree(n, InitialW(0, n, h.w), InitialLinks(0, n, h.par), InitialLc(0, n, h.lc), InitialRc(0, n, h.rc),
         InitialLinks(0, n, h.left), InitialLinks(0, n, h.right), InitialLinks(0, n, h.blk), h.lead, Upto(|h.lead|),
         0, n, 0, n, Log2(n), n - Pow2(Log2(n)))
  }

  function Upto(n: nat): (s: seq<int>)
    ensures |s| == n && forall i :: 0 <= i < n ==> s[i] == i
  {
    seq(n, i => i)
  }

  /** The symbols from `lo` up to `n` initialised. */
  function InitialW(lo: nat, n: nat, w: seq<nat>): (s: seq<nat>)
    ensures |s| == |w| && forall i :: 0 <= i < |s| ==> s[i] == if lo <= i < n then 0 else w[i]
  {
    seq(|w|, i requires 0 <= i < |w| => if lo <= i < n then 0 else w[i])
  }

  function InitialLinks(lo: nat, n: nat, l: seq<int>): (s: seq<int>)
    ensures |s| == |l| && forall i :: 0 <= i < |s| ==> s[i] == if lo <= i < n then NIL else l[i]
  {
    seq(|l|, i requires 0 <= i < |l| => if lo <= i < n then NIL else l[i])
  }

  function InitialLc(lo: nat, n: nat, l: seq<int>): (s: seq<int>)
    ensures |s| == |l| && forall i :: 0 <= i < |s| ==> s[i] == if lo <= i < n then i - 1 else l[i]
  {
    seq(|l|, i requires 0 <= i < |l| => if lo <= i < n then i - 1 else l[i])
  }

  function InitialRc(lo: nat, n: nat, l: seq<int>): (s: seq<int>)
    ensures |s| == |l| && forall i :: 0 <= i < |s| ==> s[i] == if lo <= i < n then (if i < n - 1 then i + 1 else NIL) else l[i]
  {
    seq(|l|, i requires 0 <= i < |l| => if lo <= i < n then (if i < n - 1 then i + 1 else NIL) else l[i])
  }

  /** Nothing, and one symbol more. */
  lemma InitialMore(lo: nat, n: nat, w: seq<nat>, l: seq<int>)
    requires lo < n <= |w| && |l| == |w|
    ensures InitialW(lo, n, w) == InitialW(lo + 1, n, w)[lo := 0]
    ensures InitialLinks(lo, n, l) == InitialLinks(lo + 1, n, l)[lo := NIL]
    ensures InitialLc(lo, n, l) == InitialLc(lo + 1, n, l)[lo := lo - 1]
    ensures InitialRc(lo, n, l) == InitialRc(lo + 1, n, l)[lo := if lo < n - 1 then lo + 1 else NIL]
  {
  }

  lemma InitialNone(n: nat, w: seq<nat>, l: seq<int>)
    ensures InitialW(n, n, w) == w && InitialLinks(n, n, l) == l && InitialLc(n, n, l) == l && InitialRc(n, n, l) == l
  {
  }

  function FirstOrder(n: nat, m: nat): Order {
    Order([0], seq(m, i => if i == 0 then 0 else -1), Upto(n))
  }

  lemma InitialPlaced(h: Tree)
    requires h.Sized()
    ensures
      var t, o := Initial(h), FirstOrder(h.n, |h.w|);
      Placed(t, o) && Linked(t, o) && Family(t, o) && Summed(t, o, NIL) && Lit(t, o) && Sorted(t, o) && Grouped(t, o)
  {
    var o := FirstOrder(h.n, |h.w|);
    assert forall x :: In(o, x) <==> x == 0;
  }

  lemma InitialStocked(h: Tree)
    requires h.Sized() && Placed(Initial(h), FirstOrder(h.n, |h.w|))
    ensures Stocked(Initial(h), FirstOrder(h.n, |h.w|))
  {
    hide Placed;
    var t := Initial(h);
    forall b | t.Block(b) ensures b in t.free {
      assert t.free[b] == b;
    }
  }

  lemma InitialListed(h: Tree)
    requires h.Sized()
    ensures Listed(Initial(h), Upto(h.n))
  {
    var t, zs := Initial(h), Upto(h.n);
    forall k | 0 <= k < |zs| ensures t.Node(zs[k]) && t.rc[zs[k]] == At(zs, k + 1) && t.lc[zs[k]] == At(zs, k - 1) {
      assert zs[k] == k;
    }
  }

  lemma InitialUnseen(h: Tree)
    requires h.Sized() && Placed(Initial(h), FirstOrder(h.n, |h.w|))
    ensures
      var t, o := Initial(h), FirstOrder(h.n, |h.w|);
      Unseen(t, o) && Idle(t, o) && Counted(t, o)
  {
    hide Placed, Listed;
    var t, o := Initial(h), FirstOrder(h.n, |h.w|);
    InitialListed(h);
    assert forall x :: In(o, x) <==> x == 0;
    forall x | 0 <= x < t.n ensures x in o.zs {
      assert o.zs[x] == x;
    }
  }

  /** The tree is in order from the start. */
  lemma InitialInv(h: Tree)
    requires h.Sized()
    ensures Inv(Initial(h), FirstOrder(h.n, |h.w|), NIL)
  {
    hide Initial, FirstOrder, Placed, Linked, Family, Summed, Lit, Sorted, Grouped, Stocked, Unseen, Idle, Counted;
    InitialPlaced(h);
    InitialStocked(h);
    InitialUnseen(h);
  }
}
