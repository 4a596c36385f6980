/** The adaptive code of a symbol, and the decoder that follows it bit by bit through the same tree. */
module FgkCodec {
  import opened Arithmetic
  import opened BitStream
  import opened FgkTree
  import opened FgkOrder
  import opened FgkRise
  import opened FgkClimb
  import opened FgkEnter
  import opened FgkPlant
  import opened FgkGrow
  import opened FgkInit

  /** A tree between two symbols. */
  ghost predicate Settled(t: Tree) {
    exists o :: Inv(t, o, NIL)
  }

  function Link(l: seq<int>, x: int): int {
    if 0 <= x < |l| then l[x] else NIL
  }

  // ----- The list of unseen symbols

  /** How far behind `from` the list has symbol `x`; `fuel` bounds the way. */
  function FindZero(t: Tree, from: int, x: int, fuel: nat): nat
    decreases fuel
  {
    if from == x || fuel == 0 then 0 else 1 + FindZero(t, Link(t.rc, from), x, fuel - 1)
  }

  /** The symbol `i` places behind `from`, or the last one. */
  function NthZero(t: Tree, from: int, i: nat): int
    decreases i
  {
    if i == 0 || Link(t.rc, from) == NIL then from else NthZero(t, Link(t.rc, from), i - 1)
  }

  lemma {:induction false} FindsPlace(t: Tree, zs: seq<int>, j: nat, k: nat, fuel: nat)
    requires t.Sized() && Listed(t, zs) && j <= k < |zs| && k - j <= fuel
    requires forall a, b :: 0 <= a < b < |zs| ==> zs[a] != zs[b]
    ensures FindZero(t, zs[j], zs[k], fuel) == k - j
    decreases fuel
  {
    hide Listed;
    if j < k {
      NextListed(t, zs, j);
      FindsPlace(t, zs, j + 1, k, fuel - 1);
    }
  }

  lemma NextListed(t: Tree, zs: seq<int>, j: nat)
    requires t.Sized() && Listed(t, zs) && j < |zs|
    ensures t.Node(zs[j]) && Link(t.rc, zs[j]) == At(zs, j + 1)
  {
  }

  lemma {:induction false} PicksPlace(t: Tree, zs: seq<int>, j: nat, i: nat)
    requires t.Sized() && Listed(t, zs) && j < |zs|
    ensures NthZero(t, zs[j], i) == zs[if j + i < |zs| then j + i else |zs| - 1]
    decreases i
  {
    hide Listed;
    NextListed(t, zs, j);
    if j + 1 < |zs| {
      NextListed(t, zs, j + 1);
    }
    if i > 0 && j + 1 < |zs| {
      PicksPlace(t, zs, j + 1, i - 1);
    }
  }

  /** How many bits tell the unseen symbols apart. */
  function Width(t: Tree): nat {
    if t.rem == 0 then t.exp else t.exp + 1
  }

  function Index(t: Tree, x: int): nat {
    FindZero(t, t.zeros, x, t.n)
  }

  /** As many symbols are in the list as are counted, each is found where the list has it, and the bits are enough. */
  lemma ZeroList(t: Tree, x: int)
    requires Settled(t) && 0 <= x < t.n && t.Sized() && t.w[x] == 0
    ensures Index(t, x) < t.count <= Pow2(Width(t)) && t.count == Pow2(t.exp) + t.rem && t.rem < Pow2(t.exp)
    ensures NthZero(t, t.zeros, Index(t, x)) == x
    ensures t.count == 1 ==> x == t.zeros && Width(t) == 0
    ensures t.count > 1 ==> Width(t) > 0
  {
    hide Inv, Placed, Linked, Family, Summed, Lit, Sorted, Grouped, Stocked, Idle, Counted, Listed, FindZero, NthZero;
    var o :| Inv(t, o, NIL);
    InvParts(t, o, NIL);
    CountParts(t, o);
    var k := PlaceOf(o.zs, x);
    FewListed(t, o);
    FindsPlace(t, o.zs, 0, k, t.n);
    PicksPlace(t, o.zs, 0, k);
  }

  /** The bits for a place in the list are the least number that tells the unseen symbols apart. */
  lemma LeastWidth(t: Tree, x: int, n: nat)
    requires Settled(t) && 0 <= x < t.n && t.Sized() && t.w[x] == 0
    ensures Width(t) <= n <==> t.count <= Pow2(n)
  {
    hide Settled, Index, NthZero;
    ZeroList(t, x);
    if Width(t) <= n {
      Pow2Monotone(Width(t), n);
    } else {
      Pow2Monotone(n, Width(t) - 1);
    }
  }

  /** The list, and where in it the symbol is. */
  lemma ListOf(t: Tree, x: int) returns (zs: seq<int>, k: nat)
    requires Settled(t) && 0 <= x < t.n && t.Sized() && t.w[x] == 0
    ensures Listed(t, zs) && k < |zs| <= t.n && zs[k] == x && zs[0] == t.zeros && Index(t, x) == k
    ensures forall a, b :: 0 <= a < b < |zs| ==> zs[a] != zs[b]
  {
    hide Inv, Placed, Linked, Family, Summed, Lit, Sorted, Grouped, Stocked, Idle, Counted, Listed, FindZero;
    var o :| Inv(t, o, NIL);
    InvParts(t, o, NIL);
    zs := o.zs;
    k := PlaceOf(zs, x);
    FewListed(t, o);
    FindsPlace(t, zs, 0, k, t.n);
  }

  lemma WholeList(t: Tree) returns (zs: seq<int>)
    requires Settled(t) && t.Sized() && t.zeros >= 0
    ensures Listed(t, zs) && zs != [] && zs[0] == t.zeros
  {
    hide Inv, Placed, Linked, Family, Summed, Lit, Sorted, Grouped, Stocked, Idle, Counted, Listed;
    var o :| Inv(t, o, NIL);
    InvParts(t, o, NIL);
    zs := o.zs;
  }

  lemma CountParts(t: Tree, o: Order)
    requires Placed(t, o) && Counted(t, o)
    ensures t.count == Pow2(t.exp) + t.rem && t.rem < Pow2(t.exp) && t.count <= Pow2(Width(t)) && 1 <= t.count <= t.n
    ensures t.count == 1 ==> Width(t) == 0
    ensures t.count > 1 ==> Width(t) > 0
  {
    if t.exp > 0 {
      assert Pow2(t.exp) == 2 * Pow2(t.exp - 1);
    }
  }

  lemma FewListed(t: Tree, o: Order)
    requires Placed(t, o) && Unseen(t, o) && Counted(t, o)
    ensures |o.zs| <= t.n
  {
  }

  // ----- The code of a symbol

  /** The way from the root down to `y`, right turns as ones; `fuel` bounds it. */
  function Path(t: Tree, y: int, fuel: nat): seq<bool>
    decreases fuel
  {
    if y == t.root || fuel == 0 then [] else Path(t, Link(t.par, y), fuel - 1) + [Link(t.rc, Link(t.par, y)) == y]
  }

  lemma PathTurn(t: Tree, y: int, fuel: nat, rest: seq<bool>)
    requires y != t.root && fuel > 0
    ensures
      var p := Link(t.par, y);
      && Path(t, p, fuel - 1) + ([Link(t.rc, p) == y] + rest) == Path(t, y, fuel) + rest
      && |Path(t, y, fuel)| == |Path(t, p, fuel - 1)| + 1
  {
  }

  /** A symbol seen before is its leaf; any other is the leaf of all unseen symbols and its place among them. */
  function Code(t: Tree, x: int): seq<bool> {
    if Weight(t, x) > 0 then Path(t, x, |t.w|)
    else Path(t, t.zeros, |t.w|) + Bits(Index(t, x), Width(t))
  }

  // ----- The decoder

  datatype Decoder = Decoder(t: Tree, ptr: int, bits: seq<bool>)

  function Begin(t: Tree): Decoder {
    Decoder(t, t.root, [])
  }

  /** Takes one bit; the flag says that a symbol is complete. */
  function DecodeBit(d: Decoder, b: bool): (Decoder, bool) {
    if Weight(d.t, d.ptr) == 0 then
      (d.(bits := d.bits + [b]), |d.bits| + 1 >= Width(d.t))
    else
      var y := Link(if b then d.t.rc else d.t.lc, d.ptr);
      (d.(ptr := y), Link(d.t.lc, y) == NIL && (Weight(d.t, y) != 0 || d.t.count == 1))
  }

  /** The symbol that is complete. */
  function Picked(d: Decoder): int {
    if Weight(d.t, d.ptr) == 0 then NthZero(d.t, d.t.zeros, ValueOf(d.bits)) else d.ptr
  }

  /** A symbol and the bits behind it, or all bits taken before a symbol is complete. */
  datatype Reply = Symbol(x: int, d: Decoder, rest: seq<bool>) | More(d: Decoder)

  /** The decoder when it has taken the complete symbol and counted it. The test never fails on a tree in order. */
  function Taken(d: Decoder): Decoder {
    if d.t.Sized() && d.t.Node(Picked(d)) then Begin(Update(d.t, Picked(d))) else d
  }

  /** The next symbol; the tree counts it. */
  function DecodeSymbol(d: Decoder, bits: seq<bool>): Reply
    decreases bits
  {
    if bits == [] then More(d)
    else
      var (e, done) := DecodeBit(d, bits[0]);
      if done then Symbol(Picked(e), Taken(e), bits[1..]) else DecodeSymbol(e, bits[1..])
  }

  // ----- The decoder follows the code

  /** The decoder stands at `y`, which is in the tree. */
  ghost predicate Stands(t: Tree, o: Order, y: int, fuel: nat) {
    Inv(t, o, NIL) && In(o, y) && fuel + o.pos[y] >= |o.ord|
  }

  lemma StandsFacts(t: Tree, o: Order, y: int, fuel: nat)
    requires Stands(t, o, y, fuel) && y != t.root
    ensures t.Sized() && t.Node(y) && fuel > 0 && t.Node(t.par[y]) && Stands(t, o, t.par[y], fuel - 1) && t.par[y] >= t.n
    ensures t.w[t.par[y]] > 0 && (if t.rc[t.par[y]] == y then true else t.lc[t.par[y]] == y)
    ensures o.pos[y] < |o.ord| - 1
  {
    hide Linked, Family, Summed, Lit, Sorted, Grouped, Stocked, Unseen, Idle, Counted;
    ChildOf(t, o, y);
    UpwardPlace(t, o, y);
    NextHasWeight(t, o, t.par[y]);
  }

  /** What is left of a node in the tree: an inner node has children, a leaf none; only the list's head weighs nothing. */
  lemma NodeFacts(t: Tree, o: Order, y: int, fuel: nat)
    requires Stands(t, o, y, fuel)
    ensures t.Sized() && t.Node(y) && (t.lc[y] == NIL <==> y < t.n) && (t.w[y] == 0 <==> y == t.zeros)
  {
    hide Linked, Family, Summed, Sorted, Grouped, Stocked, Idle, Counted;
    assert o.ord[o.pos[y]] == y;
    if y >= t.n {
      KidsOf(t, o, y);
    }
  }

  /** The path to a node takes the decoder there, without a symbol being complete before the last bit. */
  lemma {:induction false} PathLeads(t: Tree, o: Order, y: int, fuel: nat, rest: seq<bool>)
    requires Stands(t, o, y, fuel) && (y >= t.n || (y == t.zeros && (t.count > 1 || y == t.root)))
    ensures DecodeSymbol(Begin(t), Path(t, y, fuel) + rest) == DecodeSymbol(Decoder(t, y, []), rest)
    decreases fuel
  {
    hide Stands, DecodeSymbol;
    if y == t.root {
      assert Path(t, y, fuel) + rest == rest;
    } else {
      StandsFacts(t, o, y, fuel);
      NodeFacts(t, o, y, fuel);
      var p, b := t.par[y], t.rc[t.par[y]] == y;
      PathLeads(t, o, p, fuel - 1, [b] + rest);
      assert Path(t, y, fuel) + rest == Path(t, p, fuel - 1) + ([b] + rest);
      OneBit(Decoder(t, p, []), b, rest);
    }
  }

  lemma OneBit(d: Decoder, b: bool, rest: seq<bool>)
    ensures
      var (e, done) := DecodeBit(d, b);
      && (!done ==> DecodeSymbol(d, [b] + rest) == DecodeSymbol(e, rest))
      && (done ==> DecodeSymbol(d, [b] + rest) == Symbol(Picked(e), Taken(e), rest))
  {
    assert ([b] + rest)[1..] == rest;
  }

  /** At the head of the list the decoder takes the bits of the index. */
  lemma {:induction false} IndexLeads(t: Tree, bits: seq<bool>, k: nat, rest: seq<bool>)
    requires t.Sized() && Weight(t, t.zeros) == 0 && k < |bits| == Width(t) && t.Node(NthZero(t, t.zeros, ValueOf(bits)))
    ensures
      var x := NthZero(t, t.zeros, ValueOf(bits));
      DecodeSymbol(Decoder(t, t.zeros, bits[..k]), bits[k..] + rest) == Symbol(x, Begin(Update(t, x)), rest)
    decreases |bits| - k
  {
    hide DecodeSymbol;
    assert bits[k..] + rest == [bits[k]] + (bits[k + 1..] + rest) && bits[..k] + [bits[k]] == bits[..k + 1];
    OneBit(Decoder(t, t.zeros, bits[..k]), bits[k], bits[k + 1..] + rest);
    if k + 1 < |bits| {
      IndexLeads(t, bits, k + 1, rest);
    } else {
      assert bits[..k + 1] == bits && bits[k + 1..] + rest == rest;
    }
  }

  /** The last turn to a leaf completes its symbol, if it weighs something or is the only unseen one. */
  lemma LeafLeads(t: Tree, o: Order, x: int, rest: seq<bool>)
    requires Stands(t, o, x, |t.w|) && x < t.n && x != t.root && (t.w[x] > 0 || (x == t.zeros && t.count == 1))
    requires NthZero(t, t.zeros, 0) == t.zeros
    ensures DecodeSymbol(Begin(t), Path(t, x, |t.w|) + rest) == Symbol(x, Begin(Update(t, x)), rest)
  {
    hide Stands, DecodeSymbol, Update;
    StandsFacts(t, o, x, |t.w|);
    NodeFacts(t, o, x, |t.w|);
    var p, b := t.par[x], t.rc[t.par[x]] == x;
    PathLeads(t, o, p, |t.w| - 1, [b] + rest);
    assert Path(t, x, |t.w|) + rest == Path(t, p, |t.w| - 1) + ([b] + rest);
    OneBit(Decoder(t, p, []), b, rest);
  }

  /** An unseen symbol that is not the only one: to the head of the list, then its place. */
  lemma UnseenLeads(t: Tree, o: Order, x: int, rest: seq<bool>)
    requires Inv(t, o, NIL) && 0 <= x < t.n && t.w[x] == 0 && t.count > 1 && Stands(t, o, t.zeros, |t.w|)
    requires Index(t, x) < Pow2(Width(t)) && NthZero(t, t.zeros, Index(t, x)) == x && Width(t) > 0
    ensures DecodeSymbol(Begin(t), Code(t, x) + rest) == Symbol(x, Begin(Update(t, x)), rest)
  {
    hide Inv, Stands, DecodeSymbol, Update, Index, Path, NthZero;
    var path, bits := Path(t, t.zeros, |t.w|), Bits(Index(t, x), Width(t));
    NodeFacts(t, o, t.zeros, |t.w|);
    ValueOfBits(Index(t, x), Width(t));
    PathLeads(t, o, t.zeros, |t.w|, bits + rest);
    assert Code(t, x) + rest == path + (bits + rest);
    IndexLeads(t, bits, 0, rest);
    assert bits[..0] == [] && bits[0..] == bits;
  }

  lemma StandsAt(t: Tree, o: Order, x: int)
    requires Inv(t, o, NIL) && 0 <= x < t.n
    ensures t.Sized() && t.n < |t.w|
    ensures t.w[x] > 0 ==> Stands(t, o, x, |t.w|) && x != t.root
    ensures t.w[x] == 0 ==> Stands(t, o, t.zeros, |t.w|) && (t.count == 1 ==> t.zeros != t.root)
  {
    hide Linked, Family, Summed, Sorted, Grouped, Stocked, Idle, Listed, Lit;
    LengthFits(t, o);
    RootIsLeaf(t, o, x);
  }

  lemma RootIsLeaf(t: Tree, o: Order, x: int)
    requires Placed(t, o) && Family(t, o) && Lit(t, o) && Unseen(t, o) && Counted(t, o) && 0 <= x < t.n
    ensures t.w[x] > 0 ==> In(o, x) && x != t.root
    ensures t.w[x] == 0 ==> In(o, t.zeros) && (t.count == 1 ==> t.zeros != t.root)
  {
    hide Family, Listed;
    if t.w[x] > 0 {
      assert o.ord[o.pos[x]] == x;
      RootInner(t, o);
    } else {
      assert x in o.zs && o.pos[o.ord[0]] == 0;
      if |o.ord| >= 3 {
        RootInner(t, o);
      }
    }
  }

  /** The decoder returns every symbol from its code, exactly with the last bit, and counts it as the encoder did. */
  lemma SymbolReadBack(t: Tree, x: int, rest: seq<bool>)
    requires Settled(t) && 0 <= x < t.n
    ensures DecodeSymbol(Begin(t), Code(t, x) + rest) == Symbol(x, Begin(Update(t, x)), rest)
  {
    hide Inv, Stands, DecodeSymbol, Update, Index, Path, Settled;
    var o := OrderOf(t);
    StandsAt(t, o, x);
    if t.w[x] > 0 {
      LeafLeads(t, o, x, rest);
    } else {
      ZeroList(t, x);
      if t.count == 1 {
        NodeFacts(t, o, t.zeros, |t.w|);
        assert Code(t, x) + rest == Path(t, x, |t.w|) + rest;
        LeafLeads(t, o, x, rest);
      } else {
        UnseenLeads(t, o, x, rest);
      }
    }
  }

  lemma OrderOf(t: Tree) returns (o: Order)
    requires Settled(t)
    ensures Inv(t, o, NIL) && t.Sized()
  {
    o :| Inv(t, o, NIL);
    InvSizes(t, o);
  }

  lemma UpdateSettles(t: Tree, x: int)
    requires Settled(t) && 0 <= x < t.n
    ensures t.Sized() && t.Node(x) && Updates(t, x)
    ensures Settled(Update(t, x)) && OneMore(t, Update(t, x), x) && Total(Update(t, x)) == Total(t) + 1
  {
    hide Inv, Update, Updates, OneMore, Total;
    var o := OrderOf(t);
    var o' := UpdateKeeps(t, o, x);
  }

  lemma UpdateFinds(t: Tree, x: int)
    requires Settled(t) && 0 <= x < t.n
    ensures t.Sized() && t.Node(x) && Updates(t, x) && Settled(Update(t, x))
  {
    hide Settled, Updates, Update, OneMore, Total;
    UpdateSettles(t, x);
  }

  lemma InitialSettles(h: Tree)
    requires h.Sized()
    ensures Settled(Initial(h))
  {
    hide Inv, Initial;
    InitialInv(h);
  }

  /** More bits behind a complete symbol change nothing. */
  lemma {:induction false} SymbolIgnoresRest(d: Decoder, bits: seq<bool>, rest: seq<bool>)
    requires DecodeSymbol(d, bits).Symbol?
    ensures
      var r := DecodeSymbol(d, bits);
      DecodeSymbol(d, bits + rest) == Symbol(r.x, r.d, r.rest + rest)
    decreases bits
  {
    var (e, done) := DecodeBit(d, bits[0]);
    assert (bits + rest)[0] == bits[0] && (bits + rest)[1..] == bits[1..] + rest;
    if !done {
      SymbolIgnoresRest(e, bits[1..], rest);
    }
  }

  /** No part of a code is enough for a symbol. */
  lemma NotBeforeLastBit(t: Tree, x: int, k: nat)
    requires Settled(t) && 0 <= x < t.n && k < |Code(t, x)|
    ensures DecodeSymbol(Begin(t), Code(t, x)[..k]).More?
  {
    hide Settled, DecodeSymbol, Code;
    var code := Code(t, x);
    SymbolReadBack(t, x, []);
    assert code[..k] + code[k..] == code == code + [];
    if DecodeSymbol(Begin(t), code[..k]).Symbol? {
      SymbolIgnoresRest(Begin(t), code[..k], code[k..]);
    }
  }

  // ----- All symbols

  /** The codes of the symbols, each in the tree that has counted those before. */
  function CodeAll(t: Tree, xs: seq<int>): seq<bool>
    decreases xs
  {
    if xs == [] || !t.Sized() || !t.Node(xs[0]) then [] else Code(t, xs[0]) + CodeAll(Update(t, xs[0]), xs[1..])
  }

  /** The tree after the symbols have occurred. */
  function Counting(t: Tree, xs: seq<int>): Tree
    decreases xs
  {
    if xs == [] || !t.Sized() || !t.Node(xs[0]) then t else Counting(Update(t, xs[0]), xs[1..])
  }

  /** The symbols of a stream of bits, at most `want`, and where the decoder stands then. */
  function DecodeAll(d: Decoder, bits: seq<bool>, want: nat): (r: (seq<int>, Decoder, seq<bool>))
    decreases want
  {
    if want == 0 then ([], d, bits)
    else
      match DecodeSymbol(d, bits)
      case More(e) => ([], e, [])
      case Symbol(x, e, rest) =>
        var r := DecodeAll(e, rest, want - 1);
        ([x] + r.0, r.1, r.2)
  }

  /** How often `x` occurs. */
  function Occurrences(xs: seq<int>, x: int): nat {
    if xs == [] then 0 else (if xs[0] == x then 1 else 0) + Occurrences(xs[1..], x)
  }

  /** Encoder and decoder in lockstep: all symbols come back, and both end with the same tree. */
  lemma {:induction false} AllReadBack(t: Tree, xs: seq<int>, rest: seq<bool>)
    requires Settled(t) && forall i :: 0 <= i < |xs| ==> 0 <= xs[i] < t.n
    ensures DecodeAll(Begin(t), CodeAll(t, xs) + rest, |xs|) == (xs, Begin(Counting(t, xs)), rest)
    ensures Settled(Counting(t, xs))
    decreases xs
  {
    hide Settled, DecodeSymbol, Code, Update, Updates, OneMore, Total, Inv;
    if xs == [] {
      assert CodeAll(t, xs) + rest == rest;
    } else {
      var o := OrderOf(t);
      SymbolNode(t, xs[0]);
      UpdateSettles(t, xs[0]);
      var u := Update(t, xs[0]);
      SymbolReadBack(t, xs[0], CodeAll(u, xs[1..]) + rest);
      assert CodeAll(t, xs) + rest == Code(t, xs[0]) + (CodeAll(u, xs[1..]) + rest);
      AllReadBack(u, xs[1..], rest);
      assert [xs[0]] + xs[1..] == xs;
    }
  }

  lemma SymbolNode(t: Tree, x: int)
    requires t.Sized() && 0 <= x < t.n
    ensures t.Node(x)
  {
  }

  /** The leaves of the tree count how often their symbols have occurred. */
  lemma {:induction false} LeavesCount(t: Tree, xs: seq<int>, y: int)
    requires Settled(t) && 0 <= y < t.n && forall i :: 0 <= i < |xs| ==> 0 <= xs[i] < t.n
    ensures Weight(Counting(t, xs), y) == Weight(t, y) + Occurrences(xs, y)
    decreases xs
  {
    hide Settled, Update, Updates, Weight, Total, Inv;
    if xs != [] {
      var o := OrderOf(t);
      SymbolNode(t, xs[0]);
      UpdateSettles(t, xs[0]);
      LeavesCount(Update(t, xs[0]), xs[1..], y);
    }
  }
}
