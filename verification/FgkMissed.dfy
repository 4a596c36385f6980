/** A section that the adaptive coder has counted but not sent: what comes after it is read in another tree. */
module FgkMissed {
  import opened Arithmetic
  import opened BitStream
  import opened Bytes
  import opened Integers
  import opened FgkClimb
  import opened FgkCodec
  import opened FgkInit
  import opened FgkOrder
  import opened FgkReach
  import opened FgkRise
  import opened FgkSection
  import T = FgkTree

  /** The symbols that have not occurred. */
  function Fresh(t: T.Tree): set<int> {
    set x: int | 0 <= x < t.n && Weight(t, x) == 0
  }

  predicate Distinct(xs: seq<int>) {
    forall i, j :: 0 <= i < j < |xs| ==> xs[i] != xs[j]
  }

  function Elements(xs: seq<int>): set<int> {
    set x | x in xs
  }

  lemma {:induction false} DistinctSize(xs: seq<int>)
    requires Distinct(xs)
    ensures |Elements(xs)| == |xs|
  {
    if xs == [] {
      assert Elements(xs) == {};
    } else {
      var last := |xs| - 1;
      DistinctSize(xs[..last]);
      assert Elements(xs) == Elements(xs[..last]) + {xs[last]};
    }
  }

  /** The list holds each unseen symbol once. */
  lemma FreshCount(t: T.Tree)
    requires Settled(t)
    ensures Fresh(t) != {} ==> |Fresh(t)| == t.count && t.count <= t.n && t.count == Pow2(t.exp) + t.rem && t.rem < Pow2(t.exp)
  {
    hide Inv, Linked, Family, Summed, Lit, Sorted, Grouped, Stocked, Idle, Listed;
    var o := OrderOf(t);
    InvParts(t, o, T.NIL);
    if Fresh(t) != {} {
      DistinctSize(o.zs);
      assert Fresh(t) == Elements(o.zs);
    }
  }

  lemma WidthIs8(t: T.Tree)
    requires Settled(t) && 128 < |Fresh(t)| && t.n == ALPHABET_SIZE
    ensures Width(t) == 8
  {
    hide Settled, Fresh;
    FreshCount(t);
    ByteMasks();
    if t.exp < 7 {
      Pow2Monotone(t.exp, 6);
    } else if t.exp > 8 {
      Pow2Monotone(9, t.exp);
    }
  }

  /** One symbol less is unseen. */
  lemma FreshAfter(t: T.Tree, x: int)
    requires Settled(t) && x in Fresh(t)
    ensures t.Sized() && t.Node(x) && Settled(T.Update(t, x)) && Fresh(T.Update(t, x)) == Fresh(t) - {x}
    ensures T.Update(t, x).n == t.n
  {
    hide Settled, T.Update, T.Updates, Total;
    UpdateSettles(t, x);
  }

  /** While more than half the alphabet is unseen, new symbols take a byte each at least. */
  lemma {:induction false} LongCodes(t: T.Tree, xs: seq<int>)
    requires Settled(t) && t.n == ALPHABET_SIZE && Distinct(xs) && Elements(xs) <= Fresh(t) && |xs| + 128 <= |Fresh(t)|
    ensures |CodeAll(t, xs)| >= 8 * |xs|
    ensures Settled(Counting(t, xs)) && Counting(t, xs).n == t.n && Fresh(Counting(t, xs)) == Fresh(t) - Elements(xs)
    decreases xs
  {
    hide Settled, Fresh, T.Update, Width, Index;
    if xs == [] {
      NoCodes(t);
      assert Elements(xs) == {};
    } else {
      var x, rest := xs[0], xs[1..];
      assert x in Elements(xs) && x !in rest;
      FreshAfter(t, x);
      WidthIs8(t);
      FreshWeighsNothing(t, x);
      FirstCode(t, xs);
      assert Elements(xs) == Elements(rest) + {x};
      LongCodes(T.Update(t, x), rest);
    }
  }

  lemma FreshWeighsNothing(t: T.Tree, x: int)
    requires x in Fresh(t)
    ensures 0 <= x < t.n && Weight(t, x) == 0
  {
  }

  // ----- The next section

  lemma FirstFresh(h: T.Tree)
    requires h.Sized() && h.n == ALPHABET_SIZE
    ensures
      var t := Initial(h);
      && Settled(t) && t.n == ALPHABET_SIZE && Fresh(t) == Below(ALPHABET_SIZE) && t.zeros == t.root == 0 && Width(t) == 8
      && Weight(t, 0) == 0 && t.Sized()
  {
    hide Settled, Width;
    var t := Initial(h);
    InitialSettles(h);
    assert Fresh(t) == Below(ALPHABET_SIZE);
    WidthIs8(t);
  }

  /** At the list the decoder takes as many bits as a place in it has. */
  lemma PlaceTaken(t: T.Tree, bits: seq<bool>)
    requires Settled(t) && t.Sized() && Weight(t, t.zeros) == 0 && t.zeros == t.root >= 0 && Width(t) == 8 <= |bits|
    ensures
      var r := DecodeSymbol(Begin(t), bits);
      r.Symbol? && r.x == NthZero(t, t.zeros, ValueOf(bits[..8])) && r.rest == bits[8..]
  {
    hide Settled, Inv, DecodeSymbol, NthZero, Width, ValueOf, T.Update, Weight;
    var o := OrderOf(t);
    AnyPlace(t, o, ValueOf(bits[..8]));
    SymbolNode(t, NthZero(t, t.zeros, ValueOf(bits[..8])));
    IndexLeads(t, bits[..8], 0, bits[8..]);
    assert bits[..8][..0] == [] && bits[..8][0..] + bits[8..] == bits;
  }

  /** Before the first symbol the decoder takes eight bits for a place in the list. */
  lemma EightBits(h: T.Tree, bits: seq<bool>)
    requires h.Sized() && h.n == ALPHABET_SIZE && |bits| >= 8
    ensures
      var r := DecodeSymbol(Begin(Initial(h)), bits);
      r.Symbol? && r.x == NthZero(Initial(h), 0, ValueOf(bits[..8])) && r.rest == bits[8..]
  {
    hide Settled, Initial, DecodeSymbol, NthZero, Fresh, Width, ValueOf, Weight;
    FirstFresh(h);
    PlaceTaken(Initial(h), bits);
  }

  /** The first two symbols of the list. */
  lemma FirstTwo(t: T.Tree) returns (y: int, z: int)
    requires Settled(t) && |Fresh(t)| >= 2
    ensures y in Fresh(t) && z in Fresh(t) && y != z && t.Sized() && Index(t, y) == 0 && Index(t, z) == 1
  {
    hide Inv, Placed, Linked, Family, Summed, Lit, Sorted, Grouped, Stocked, Idle, Listed, FindZero;
    var o := OrderOf(t);
    InvParts(t, o, T.NIL);
    FreshCount(t);
    TwoOfList(t, o);
    y, z := o.zs[0], o.zs[1];
    FindsPlace(t, o.zs, 0, 0, t.n);
    FindsPlace(t, o.zs, 0, 1, t.n);
  }

  lemma TwoOfList(t: T.Tree, o: Order)
    requires Placed(t, o) && Unseen(t, o) && Fresh(t) != {} && t.count >= 2
    ensures |o.zs| >= 2 && o.zs[0] == t.zeros && o.zs[0] in Fresh(t) && o.zs[1] in Fresh(t)
    ensures Listed(t, o.zs) && forall a, b :: 0 <= a < b < |o.zs| ==> o.zs[a] != o.zs[b]
  {
    hide Listed;
    var x :| x in Fresh(t);
    assert x in o.zs;
  }

  /** Once a symbol has been seen, there is a turn before the list. */
  lemma TurnBeforeList(t: T.Tree)
    requires Settled(t) && Fresh(t) != {} && |Fresh(t)| < t.n
    ensures Path(t, t.zeros, |t.w|) != []
  {
    hide Inv, Linked, Family, Summed, Sorted, Grouped, Stocked, Idle, Listed, Path;
    var o := OrderOf(t);
    InvParts(t, o, T.NIL);
    FreshCount(t);
    var x :| x in Fresh(t);
    UnseenHead(t, o, x);
    assert t.zeros != t.root;
    PathTurn(t, t.zeros, |t.w|, []);
  }

  lemma EightOf(path: seq<bool>, a: seq<bool>, b: seq<bool>, restA: seq<bool>, restB: seq<bool>)
    requires path != [] && |a| == |b| == 8 && a[..7] == b[..7]
    ensures (path + a + restA)[..8] == (path + b + restB)[..8]
  {
  }

  /** Two symbols whose codes begin with the same eight bits. */
  lemma SameEight(t: T.Tree, y: int, z: int, restY: seq<bool>, restZ: seq<bool>)
    requires Settled(t) && t.n == ALPHABET_SIZE && 128 < |Fresh(t)| < ALPHABET_SIZE && y in Fresh(t) && z in Fresh(t)
    requires Index(t, y) == 0 && Index(t, z) == 1
    ensures |Code(t, y)| >= 8 && |Code(t, z)| >= 8 && (Code(t, y) + restY)[..8] == (Code(t, z) + restZ)[..8]
  {
    hide Settled, Fresh, Index, Path;
    FreshWeighsNothing(t, y);
    FreshWeighsNothing(t, z);
    WidthIs8(t);
    TurnBeforeList(t);
    assert Bits(0, 8) == Bits(0, 7) + [false] && Bits(1, 8) == Bits(0, 7) + [true];
    EightOf(Path(t, t.zeros, |t.w|), Bits(0, 8), Bits(1, 8), restY, restZ);
  }

  /** No section that begins with `y` and is packed with tree `e` comes back from a decoder with tree `d`. */
  ghost predicate Missed(e: T.Tree, d: T.Tree, y: int) {
    forall values: seq<byte>, packed: seq<byte> ::
      values != [] && values[0] == y && Padded(StreamBits(packed), CodeAll(e, values)) ==>
      DecodeAll(Begin(d), StreamBits(packed), |values|).0 != values
  }

  function FirstEight(e: T.Tree, y: int): seq<bool> {
    if |Code(e, y)| >= 8 then Code(e, y)[..8] else []
  }

  lemma FirstDecoded(h: T.Tree, e: T.Tree, y: int)
    requires h.Sized() && h.n == ALPHABET_SIZE && e.Sized() && e.Node(y) && |Code(e, y)| >= 8
    requires NthZero(Initial(h), 0, ValueOf(FirstEight(e, y))) != y
    ensures Missed(e, Initial(h), y)
  {
    hide Initial, Code, CodeAll, StreamBits, DecodeSymbol, NthZero, T.Update, Counting;
    forall values: seq<byte>, packed: seq<byte> |
      values != [] && values[0] == y && Padded(StreamBits(packed), CodeAll(e, values))
      ensures DecodeAll(Begin(Initial(h)), StreamBits(packed), |values|).0 != values
    {
      var bits := StreamBits(packed);
      FirstCode(e, values);
      assert bits[..8] == FirstEight(e, y);
      EightBits(h, bits);
    }
  }

  /** Whether a section is left as it was: what was made of it does not save enough. */
  predicate Declined(section: seq<byte>, compressed: seq<byte>) {
    |section| < 10 || |compressed| >= |section| - 2
  }

  /** A section of different bytes that comes first. */
  lemma FirstSection(h: T.Tree, section: seq<byte>)
    requires h.Sized() && h.n == ALPHABET_SIZE && Distinct(section) && |section| < 128
    ensures |CodeAll(Initial(h), section)| >= 8 * |section|
    ensures
      var e := Counting(Initial(h), section);
      Settled(e) && e.n == ALPHABET_SIZE && |Fresh(e)| == ALPHABET_SIZE - |section|
  {
    hide Settled, Initial, Fresh, CodeAll, Counting, Distinct;
    FirstFresh(h);
    DistinctSize(section);
    assert Elements(section) <= Below(ALPHABET_SIZE);
    LongCodes(Initial(h), section);
  }

  /** One of two symbols is lost. */
  lemma OneIsMissed(h: T.Tree, e: T.Tree) returns (y: int)
    requires h.Sized() && h.n == ALPHABET_SIZE && Settled(e) && e.n == ALPHABET_SIZE && 128 < |Fresh(e)| < ALPHABET_SIZE
    ensures 0 <= y < ALPHABET_SIZE && Missed(e, Initial(h), y)
  {
    hide Settled, Initial, Fresh, Code, Missed, NthZero, Index;
    var a, b := FirstTwo(e);
    FreshWeighsNothing(e, a);
    FreshWeighsNothing(e, b);
    SameEight(e, a, b, [], []);
    assert Code(e, a) + [] == Code(e, a) && Code(e, b) + [] == Code(e, b);
    SymbolNode(e, a);
    SymbolNode(e, b);
    y := if NthZero(Initial(h), 0, ValueOf(FirstEight(e, a))) == a then b else a;
    FirstDecoded(h, e, y);
  }

  /** Any section of ten to 127 different bytes is compressed, counted and declined when it comes first. After it there
      is a byte such that no section beginning with it comes back. */
  lemma DeclinedIsMissed(h: T.Tree, section: seq<byte>, packed: seq<byte>)
    requires h.Sized() && h.n == ALPHABET_SIZE && Distinct(section)
    requires 10 <= |section| < 128
    requires Padded(StreamBits(packed), CodeAll(Initial(h), section))
    ensures Declined(section, EmitInt(|section|) + packed)
    ensures exists y :: 0 <= y < ALPHABET_SIZE && Missed(Counting(Initial(h), section), Initial(h), y)
  {
    hide Settled, Initial, Fresh, CodeAll, Counting, Missed, StreamBits, Distinct;
    FirstSection(h, section);
    var y := OneIsMissed(h, Counting(Initial(h), section));
  }
}
