/** Move-to-front positions, with the runs of position zero written in bijective base two. */
module MtfRuns {
  import opened Arithmetic
  import opened BitStream
  import opened CanonicalCode
  import opened HuffmanTables
  import opened Results

  const RUN_1: nat := 1

  function IndexOf(list: seq<nat>, x: nat): (j: nat)
    requires x in list
    ensures j < |list| && list[j] == x
  {
    if list[0] == x then 0 else 1 + IndexOf(list[1..], x)
  }

  function MoveFront(list: seq<nat>, j: nat): (r: seq<nat>)
    requires j < |list|
    ensures |r| == |list| && r[0] == list[j]
  {
    [list[j]] + list[..j] + list[j + 1..]
  }

  /** The two digits 0 and 1 stand for one and two, least significant first; no digit at all is an empty run. */
  function RunDigits(run: nat): (s: seq<nat>)
    ensures |s| <= run
    ensures forall k :: 0 <= k < |s| ==> s[k] <= RUN_1
  {
    if run == 0 then [] else [(run - 1) % 2] + RunDigits((run - 1) / 2)
  }

  /** What the digits of a run come to: each counts one more than it says, and twice as much as the one before it. */
  function DigitsValue(s: seq<nat>): nat {
    if s == [] then 0 else s[0] + 1 + 2 * DigitsValue(s[1..])
  }

  lemma {:induction false} RunOfDigits(run: nat)
    ensures DigitsValue(RunDigits(run)) == run
  {
    if run > 0 {
      RunOfDigits((run - 1) / 2);
      assert RunDigits(run)[1..] == RunDigits((run - 1) / 2);
    }
  }

  /** The symbol goes to the front and those before it move up by one. */
  lemma MovesUp(list: seq<nat>, j: nat, k: nat)
    requires j < |list| && k < |list|
    ensures MoveFront(list, j)[k] == if k == 0 then list[j] else if k <= j then list[k - 1] else list[k]
  {
  }

  predicate AllIn(vs: seq<nat>, list: seq<nat>) {
    forall k :: 0 <= k < |vs| ==> vs[k] in list
  }

  lemma MembersStay(vs: seq<nat>, list: seq<nat>, j: nat)
    requires j < |list| && AllIn(vs, list)
    ensures AllIn(vs, MoveFront(list, j))
    ensures vs != [] ==> vs[0] in list && AllIn(vs[1..], list) && AllIn(vs[1..], MoveFront(list, j))
  {
    assert list == list[..j] + [list[j]] + list[j + 1..];
  }

  lemma SuffixIn(vs: seq<nat>, list: seq<nat>, k: nat)
    requires k <= |vs| && AllIn(vs, list)
    ensures AllIn(vs[k..], list)
    ensures vs != [] ==> vs[0] in list
  {
  }

  /** The codes for `vs`, when `run` repetitions of the front symbol are waiting to be written. */
  function MtfCodes(vs: seq<nat>, list: seq<nat>, run: nat): (s: seq<nat>)
    requires AllIn(vs, list)
    ensures |s| <= run + |vs|
  {
    if vs == [] then RunDigits(run)
    else
      var j := IndexOf(list, vs[0]);
      MembersStay(vs, list, j);
      if j == 0 then MtfCodes(vs[1..], list, run + 1)
      else RunDigits(run) + [j + RUN_1] + MtfCodes(vs[1..], MoveFront(list, j), 0)
  }

  lemma {:induction false} MtfCodesBounded(vs: seq<nat>, list: seq<nat>, run: nat)
    requires AllIn(vs, list) && |list| > 0
    ensures forall k :: 0 <= k < |MtfCodes(vs, list, run)| ==> MtfCodes(vs, list, run)[k] <= |list|
    decreases |vs|
  {
    if vs != [] {
      var j := IndexOf(list, vs[0]);
      MembersStay(vs, list, j);
      if j == 0 {
        MtfCodesBounded(vs[1..], list, run + 1);
      } else {
        MtfCodesBounded(vs[1..], MoveFront(list, j), 0);
      }
    }
  }

  // ----- Decoding

  datatype State = State(values: seq<nat>, list: seq<nat>, rep: nat, mtf: nat, s: nat)

  /** A position whose value is known to be zero because it was zero in the group before. */
  predicate Skips(values: seq<nat>, skip: nat) {
    skip != 0 && |values| >= skip && values[|values| - skip] == 0
  }

  predicate NeedsCode(st: State, skip: nat) {
    !Skips(st.values, skip) && st.rep == 0 && st.mtf == 0
  }

  predicate InRange(st: State) {
    st.list != [] && st.mtf < |st.list|
  }

  function Put(st: State, skip: nat): (r: State)
    requires InRange(st) && !NeedsCode(st, skip)
    ensures InRange(r) && |r.list| == |st.list| && |r.values| == |st.values| + 1 && st.values <= r.values
  {
    if Skips(st.values, skip) then st.(values := st.values + [0])
    else if st.rep != 0 then st.(values := st.values + [st.list[0]], rep := st.rep - 1)
    else
      var list := MoveFront(st.list, st.mtf);
      st.(values := st.values + [list[0]], list := list, mtf := 0)
  }

  function Take(st: State, code: nat): (r: State)
    requires InRange(st) && code <= |st.list|
    ensures InRange(r) && r.list == st.list && r.values == st.values
  {
    if code <= RUN_1 then st.(rep := (code + 1) * Pow2(st.s), mtf := 0, s := st.s + 1)
    else st.(mtf := code - 1, s := 0)
  }

  /** Decoding from a list of codes; the codes left over are returned as well. */
  function Unmtf(st: State, codes: seq<nat>, elts: nat, skip: nat): (r: Result<(seq<nat>, seq<nat>)>)
    requires InRange(st) && |st.values| <= elts
    ensures r.Ok? ==> |r.value.0| == elts && st.values <= r.value.0
    decreases elts - |st.values|, |codes|
  {
    if |st.values| == elts then
      if st.rep != 0 then InvalidInput else Ok((st.values, codes))
    else if !NeedsCode(st, skip) then Unmtf(Put(st, skip), codes, elts, skip)
    else if codes == [] || codes[0] > |st.list| then InvalidInput
    else Unmtf(Take(st, codes[0]), codes[1..], elts, skip)
  }

  function Start(list: seq<nat>): State {
    State([], list, 0, 0, 0)
  }

  /** Which positions the decoder fills in by itself, given the finished sequence. */
  predicate KnownZero(w: seq<nat>, i: nat, skip: nat)
    requires i < |w|
  {
    skip != 0 && i >= skip && w[i - skip] == 0
  }

  /** The values from position `n` on that are really in the stream. */
  function Compact(w: seq<nat>, n: nat, skip: nat): seq<nat>
    requires n <= |w|
    decreases |w| - n
  {
    if n == |w| then []
    else (if KnownZero(w, n, skip) then [] else [w[n]]) + Compact(w, n + 1, skip)
  }

  predicate ZerosStay(w: seq<nat>, skip: nat) {
    forall i {:trigger KnownZero(w, i, skip)} :: 0 <= i < |w| && KnownZero(w, i, skip) ==> w[i] == 0
  }

  function Copies(x: nat, n: nat): (s: seq<nat>)
    ensures |s| == n
  {
    if n == 0 then [] else [x] + Copies(x, n - 1)
  }

  lemma {:induction false} CopiesAdd(x: nat, m: nat, n: nat)
    ensures Copies(x, m) + Copies(x, n) == Copies(x, m + n)
  {
    if m == 0 {
      assert [] + Copies(x, n) == Copies(x, n);
    } else {
      CopiesAdd(x, m - 1, n);
      assert Copies(x, m) + Copies(x, n) == [x] + (Copies(x, m - 1) + Copies(x, n));
    }
  }

  /** How many values at the front of `vs` repeat `x`. */
  function Leading(vs: seq<nat>, x: nat): (n: nat)
    ensures n <= |vs|
    ensures vs[n..] != [] ==> vs[n..][0] != x
  {
    if vs == [] || vs[0] != x then 0 else 1 + Leading(vs[1..], x)
  }

  lemma {:induction false} LeadingSplits(vs: seq<nat>, x: nat)
    ensures vs == Copies(x, Leading(vs, x)) + vs[Leading(vs, x)..]
  {
    if vs == [] || vs[0] != x {
      assert [] + vs[0..] == vs;
    } else {
      LeadingSplits(vs[1..], x);
      var n := Leading(vs[1..], x);
      assert vs[1..][n..] == vs[n + 1..];
      assert vs == [x] + (Copies(x, n) + vs[n + 1..]);
      Associate([x], Copies(x, n), vs[n + 1..]);
    }
  }

  lemma Associate(a: seq<nat>, b: seq<nat>, c: seq<nat>)
    ensures a + b + c == a + (b + c)
  {
  }

  lemma SameTail(x: nat, a: seq<nat>, y: nat, b: seq<nat>)
    requires [x] + a == [y] + b
    ensures x == y && a == b
  {
    assert ([x] + a)[0] == ([y] + b)[0];
    assert ([x] + a)[1..] == a && ([y] + b)[1..] == b;
  }

  lemma PrefixStep(values: seq<nat>, w: seq<nat>, x: nat)
    requires values <= w && |values| < |w| && x == w[|values|]
    ensures values + [x] <= w
  {
  }

  /** The codes after the digits of a run: the next value is not the front symbol. */
  function AfterRun(vs: seq<nat>, list: seq<nat>): seq<nat>
    requires AllIn(vs, list)
    requires vs != [] ==> vs[0] != list[0]
  {
    if vs == [] then []
    else
      var j := IndexOf(list, vs[0]);
      MembersStay(vs, list, j);
      [j + RUN_1] + MtfCodes(vs[1..], MoveFront(list, j), 0)
  }

  lemma LeadingStep(vs: seq<nat>, x: nat)
    ensures vs == [] || vs[0] != x ==> Leading(vs, x) == 0
    ensures vs != [] && vs[0] == x ==> Leading(vs, x) == 1 + Leading(vs[1..], x)
  {
  }

  lemma FrontCode(vs: seq<nat>, list: seq<nat>, run: nat)
    requires AllIn(vs, list) && vs != [] && list != [] && vs[0] == list[0]
    ensures MtfCodes(vs, list, run) == MtfCodes(vs[1..], list, run + 1)
  {
    assert IndexOf(list, vs[0]) == 0;
  }

  lemma OtherCode(vs: seq<nat>, list: seq<nat>, run: nat)
    requires AllIn(vs, list) && list != []
    requires vs != [] ==> vs[0] != list[0]
    ensures MtfCodes(vs, list, run) == RunDigits(run) + AfterRun(vs, list)
  {
    hide RunDigits, MoveFront, AllIn, IndexOf;
    if vs == [] {
      assert RunDigits(run) + [] == RunDigits(run);
    } else {
      SuffixIn(vs, list, 1);
      var j := IndexOf(list, vs[0]);
      MembersStay(vs, list, j);
      Associate(RunDigits(run), [j + RUN_1], MtfCodes(vs[1..], MoveFront(list, j), 0));
    }
  }

  lemma {:induction false} RunThenRest(vs: seq<nat>, list: seq<nat>, run: nat)
    requires AllIn(vs, list) && list != []
    ensures
      var n := Leading(vs, list[0]);
      MtfCodes(vs, list, run) == RunDigits(run + n) + AfterRun(vs[n..], list)
    decreases |vs|
  {
    hide RunDigits, MtfCodes, AfterRun, Leading, MoveFront, AllIn;
    LeadingStep(vs, list[0]);
    SuffixIn(vs, list, Leading(vs, list[0]));
    if vs != [] && vs[0] == list[0] {
      SuffixIn(vs, list, 1);
      FrontCode(vs, list, run);
      RunThenRest(vs[1..], list, run + 1);
      var n := Leading(vs, list[0]);
      assert vs[1..][n - 1..] == vs[n..];
    } else {
      OtherCode(vs, list, run);
      assert vs[0..] == vs;
    }
  }

  /** What is still to be put out for the codes taken so far. */
  function Pending(st: State): seq<nat>
    requires InRange(st)
  {
    Copies(st.list[0], st.rep) + (if st.mtf == 0 then [] else [st.list[st.mtf]])
  }

  function ListAfter(st: State): (r: seq<nat>)
    requires InRange(st)
    ensures |r| == |st.list|
  {
    if st.mtf == 0 then st.list else MoveFront(st.list, st.mtf)
  }

  function Product(a: nat, b: nat): nat {
    a * b
  }

  /** What the decoder must still put out, standing before `q` units of weight 2^s of the current run, then `vs`. */
  function Due(st: State, q: nat, vs: seq<nat>): seq<nat>
    requires InRange(st)
  {
    Pending(st) + (Copies(ListAfter(st)[0], Product(q, Pow2(st.s))) + vs)
  }

  predicate CodesFor(st: State, codes: seq<nat>, q: nat, vs: seq<nat>)
    requires InRange(st)
  {
    && AllIn(vs, st.list) && (vs != [] ==> vs[0] != ListAfter(st)[0])
    && codes == RunDigits(q) + AfterRun(vs, ListAfter(st))
  }

  ghost predicate Ahead(st: State, codes: seq<nat>, q: nat, vs: seq<nat>, w: seq<nat>, skip: nat) {
    && InRange(st) && st.values <= w && (st.mtf != 0 ==> st.rep == 0 && st.s == 0)
    && CodesFor(st, codes, q, vs)
    && Compact(w, |st.values|, skip) == Due(st, q, vs)
  }

  lemma PutDue(st: State, q: nat, vs: seq<nat>, skip: nat)
    requires InRange(st) && !NeedsCode(st, skip) && !Skips(st.values, skip) && (st.mtf != 0 ==> st.rep == 0)
    ensures
      var next := Put(st, skip);
      && ListAfter(next) == ListAfter(st)
      && Due(st, q, vs) == [next.values[|st.values|]] + Due(next, q, vs)
  {
    hide Product, MoveFront;
    var next := Put(st, skip);
    var tail := Copies(ListAfter(st)[0], Product(q, Pow2(st.s))) + vs;
    if st.rep != 0 {
      assert Pending(st) == [st.list[0]] + Pending(next);
    } else {
      assert Pending(st) == [st.list[st.mtf]] && Pending(next) == [];
    }
    assert Pending(st) + tail == [next.values[|st.values|]] + (Pending(next) + tail);
  }

  lemma PutCodes(st: State, codes: seq<nat>, q: nat, vs: seq<nat>, skip: nat)
    requires InRange(st) && !NeedsCode(st, skip) && (st.mtf != 0 ==> st.rep == 0)
    requires CodesFor(st, codes, q, vs)
    ensures CodesFor(Put(st, skip), codes, q, vs)
  {
    MembersStay(vs, st.list, st.mtf);
    hide AfterRun, RunDigits, MoveFront;
  }

  lemma AheadPut(st: State, codes: seq<nat>, q: nat, vs: seq<nat>, w: seq<nat>, skip: nat)
    requires Ahead(st, codes, q, vs, w, skip) && ZerosStay(w, skip) && |st.values| < |w|
    requires !NeedsCode(st, skip)
    ensures Ahead(Put(st, skip), codes, q, vs, w, skip)
  {
    var n, next := |st.values|, Put(st, skip);
    PutCodes(st, codes, q, vs, skip);
    assert Skips(st.values, skip) == KnownZero(w, n, skip);
    hide MoveFront, CodesFor, Due;
    if Skips(st.values, skip) {
      SkipDue(st, q, vs);
      PrefixStep(st.values, w, w[n]);
    } else {
      PutDue(st, q, vs, skip);
      CompactStep(w, n, skip);
      SameTail(w[n], Compact(w, n + 1, skip), next.values[n], Due(next, q, vs));
      PrefixStep(st.values, w, w[n]);
    }
  }

  lemma SkipDue(st: State, q: nat, vs: seq<nat>)
    requires InRange(st)
    ensures Due(st.(values := st.values + [0]), q, vs) == Due(st, q, vs)
  {
    hide MoveFront, Product, Pow2;
  }

  lemma CompactStep(w: seq<nat>, n: nat, skip: nat)
    requires n < |w| && !KnownZero(w, n, skip)
    ensures Compact(w, n, skip) == [w[n]] + Compact(w, n + 1, skip)
  {
  }

  lemma TakeDigitDue(st: State, q: nat, vs: seq<nat>)
    requires InRange(st) && st.rep == 0 && st.mtf == 0 && q > 0 && RUN_1 <= |st.list|
    ensures Due(st, q, vs) == Due(Take(st, (q - 1) % 2), (q - 1) / 2, vs)
  {
    var d, p, half := (q - 1) % 2, Pow2(st.s), (q - 1) / 2;
    DigitWeight(d, half, p);
    var now, later := (d + 1) * p, Product(half, Pow2(st.s + 1));
    CopiesAdd(st.list[0], now, later);
    hide Product;
    assert [] + (Copies(st.list[0], now + later) + vs)
        == Copies(st.list[0], now) + (Copies(st.list[0], later) + vs);
  }

  lemma DigitWeight(d: nat, half: nat, p: nat)
    ensures Product(d + 1 + 2 * half, p) == (d + 1) * p + Product(half, 2 * p)
  {
    assert (d + 1 + 2 * half) * p == (d + 1) * p + half * (2 * p);
  }

  lemma FirstDigit(codes: seq<nat>, q: nat, others: seq<nat>)
    requires codes == RunDigits(q) + others && q > 0
    ensures codes != [] && codes[0] == (q - 1) % 2
    ensures codes[1..] == RunDigits((q - 1) / 2) + others
  {
    hide RunDigits;
    var tail := RunDigits((q - 1) / 2);
    assert codes == [(q - 1) % 2] + tail + others by {
      DigitsOf(q);
    }
  }

  lemma DigitsOf(q: nat)
    requires q > 0
    ensures RunDigits(q) == [(q - 1) % 2] + RunDigits((q - 1) / 2)
  {
  }

  lemma AheadDigit(st: State, codes: seq<nat>, q: nat, vs: seq<nat>, w: seq<nat>, skip: nat)
    requires Ahead(st, codes, q, vs, w, skip) && NeedsCode(st, skip) && q > 0
    ensures codes != [] && codes[0] <= RUN_1
    ensures Ahead(Take(st, codes[0]), codes[1..], (q - 1) / 2, vs, w, skip)
  {
    hide RunDigits, AfterRun, Pow2, AllIn, Due, Compact;
    FirstDigit(codes, q, AfterRun(vs, st.list));
    TakeDigitDue(st, q, vs);
  }

  lemma SymbolCodes(st: State, codes: seq<nat>, vs: seq<nat>, j: nat)
    requires InRange(st) && st.rep == 0 && st.mtf == 0 && vs != []
    requires CodesFor(st, codes, 0, vs) && j == IndexOf(st.list, vs[0])
    ensures codes != [] && codes[0] == j + RUN_1 && j > 0
    ensures
      var next := Take(st, codes[0]);
      var n := Leading(vs[1..], ListAfter(next)[0]);
      CodesFor(next, codes[1..], n, vs[1..][n..])
  {
    SymbolCode(st.list, vs);
    var list := MoveFront(st.list, j);
    NoDigits(AfterRun(vs, st.list));
    HeadAndTail(j + RUN_1, MtfCodes(vs[1..], list, 0));
    hide *;
    TakesSymbol(st, j);
    CodesAfter(Take(st, j + RUN_1), codes[1..], vs[1..], list);
  }

  lemma TakesSymbol(st: State, j: nat)
    requires InRange(st) && 0 < j < |st.list|
    ensures
      var next := Take(st, j + RUN_1);
      next.list == st.list && ListAfter(next) == MoveFront(st.list, j)
  {
  }

  lemma CodesAfter(st: State, codes: seq<nat>, vs: seq<nat>, list: seq<nat>)
    requires InRange(st) && ListAfter(st) == list
    requires AllIn(vs, st.list) && AllIn(vs, list) && codes == MtfCodes(vs, list, 0)
    ensures
      var n := Leading(vs, list[0]);
      CodesFor(st, codes, n, vs[n..])
  {
    hide MtfCodes, AfterRun, MoveFront, RunDigits, AllIn, ListAfter, Leading;
    RunThenRest(vs, list, 0);
    var n := Leading(vs, list[0]);
    SuffixIn(vs, st.list, n);
  }

  lemma HeadAndTail(x: nat, t: seq<nat>)
    ensures ([x] + t)[0] == x && ([x] + t)[1..] == t
  {
  }

  lemma AheadSymbol(st: State, codes: seq<nat>, vs: seq<nat>, w: seq<nat>, skip: nat)
    requires Ahead(st, codes, 0, vs, w, skip) && NeedsCode(st, skip) && |st.values| < |w|
    ensures vs != [] && codes != [] && RUN_1 < codes[0] <= |st.list|
    ensures
      var next := Take(st, codes[0]);
      var n := Leading(vs[1..], ListAfter(next)[0]);
      Ahead(next, codes[1..], n, vs[1..][n..], w, skip)
  {
    hide CodesFor, Compact, Due, IndexOf, MoveFront, AllIn;
    NothingPending(st, vs, w, skip);
    FirstIn(st, codes, 0, vs);
    var j := IndexOf(st.list, vs[0]);
    SymbolCodes(st, codes, vs, j);
    var n := Leading(vs[1..], ListAfter(Take(st, codes[0]))[0]);
    TakeSymbolDue(st, vs, j, n);
  }

  lemma FirstIn(st: State, codes: seq<nat>, q: nat, vs: seq<nat>)
    requires InRange(st) && CodesFor(st, codes, q, vs) && vs != []
    ensures vs[0] in st.list
  {
  }

  lemma NoDigits(t: seq<nat>)
    ensures RunDigits(0) + t == t
  {
  }

  lemma NothingPending(st: State, vs: seq<nat>, w: seq<nat>, skip: nat)
    requires InRange(st) && st.values <= w && |st.values| < |w|
    requires NeedsCode(st, skip) && Compact(w, |st.values|, skip) == Due(st, 0, vs)
    ensures Due(st, 0, vs) == vs && vs != []
  {
    assert KnownZero(w, |st.values|, skip) == Skips(st.values, skip);
  }

  lemma SymbolCode(list: seq<nat>, vs: seq<nat>)
    requires list != [] && vs != [] && AllIn(vs, list) && vs[0] != list[0]
    ensures vs[0] in list
    ensures AllIn(vs[1..], list) && AllIn(vs[1..], MoveFront(list, IndexOf(list, vs[0])))
    ensures
      var j := IndexOf(list, vs[0]);
      && j > 0
      && AfterRun(vs, list) == [j + RUN_1] + MtfCodes(vs[1..], MoveFront(list, j), 0)
  {
    MembersStay(vs, list, IndexOf(list, vs[0]));
  }

  lemma TakeSymbolDue(st: State, vs: seq<nat>, j: nat, n: nat)
    requires InRange(st) && st.rep == 0 && 0 < j < |st.list| && vs != [] && vs[0] == st.list[j]
    requires n == Leading(vs[1..], vs[0])
    ensures Due(Take(st, j + RUN_1), n, vs[1..][n..]) == vs
  {
    hide MoveFront, Product;
    LeadingSplits(vs[1..], vs[0]);
    ProductOne(n);
    assert vs == [vs[0]] + vs[1..];
  }

  lemma {:induction false} DecodesAhead(st: State, codes: seq<nat>, q: nat, vs: seq<nat>, w: seq<nat>, skip: nat)
    requires Ahead(st, codes, q, vs, w, skip) && ZerosStay(w, skip)
    ensures Unmtf(st, codes, |w|, skip) == Ok((w, []))
    decreases |w| - |st.values|, |codes|
  {
    hide Ahead, Pow2;
    AheadInRange(st, codes, q, vs, w, skip);
    if |st.values| == |w| {
      AheadDone(st, codes, q, vs, w, skip);
    } else if !NeedsCode(st, skip) {
      AheadPut(st, codes, q, vs, w, skip);
      DecodesAhead(Put(st, skip), codes, q, vs, w, skip);
    } else if q > 0 {
      AheadDigit(st, codes, q, vs, w, skip);
      DecodesAhead(Take(st, codes[0]), codes[1..], (q - 1) / 2, vs, w, skip);
    } else {
      AheadSymbol(st, codes, vs, w, skip);
      var next := Take(st, codes[0]);
      var n := Leading(vs[1..], ListAfter(next)[0]);
      DecodesAhead(next, codes[1..], n, vs[1..][n..], w, skip);
    }
  }

  lemma AheadInRange(st: State, codes: seq<nat>, q: nat, vs: seq<nat>, w: seq<nat>, skip: nat)
    requires Ahead(st, codes, q, vs, w, skip)
    ensures InRange(st) && st.values <= w
  {
  }

  lemma AheadDone(st: State, codes: seq<nat>, q: nat, vs: seq<nat>, w: seq<nat>, skip: nat)
    requires Ahead(st, codes, q, vs, w, skip) && |st.values| == |w|
    ensures st.values == w && st.rep == 0 && codes == []
  {
    assert |Due(st, q, vs)| == 0;
    ProductZero(q, Pow2(st.s));
  }

  lemma ProductZero(q: nat, p: nat)
    requires p > 0 && Product(q, p) == 0
    ensures q == 0
  {
  }

  // ----- Which sequences come back

  /** What the encoder writes: from the second group on it leaves out its own zeros. */
  function Kept(w: seq<nat>, n: nat, skip: nat): seq<nat>
    requires n <= |w|
    decreases |w| - n
  {
    if n == |w| then []
    else (if skip == 0 || n < skip || w[n] != 0 then [w[n]] else []) + Kept(w, n + 1, skip)
  }

  /** Every group has its zeros at the same places as the group before. */
  predicate SharedZeros(w: seq<nat>, skip: nat) {
    forall i {:trigger KnownZero(w, i, skip)} :: 0 <= i < |w| && skip != 0 && i >= skip ==> (w[i] == 0 <==> KnownZero(w, i, skip))
  }

  lemma {:induction false} KeptIsCompact(w: seq<nat>, n: nat, skip: nat)
    requires n <= |w| && SharedZeros(w, skip)
    ensures Kept(w, n, skip) == Compact(w, n, skip)
    decreases |w| - n
  {
    if n < |w| {
      KeptIsCompact(w, n + 1, skip);
    }
  }

  lemma ProductOne(n: nat)
    ensures Product(n, Pow2(0)) == n
  {
  }

  lemma StartAhead(w: seq<nat>, list: seq<nat>, skip: nat)
    requires list != [] && AllIn(Compact(w, 0, skip), list)
    ensures
      var vs := Compact(w, 0, skip);
      var n := Leading(vs, list[0]);
      Ahead(Start(list), MtfCodes(vs, list, 0), n, vs[n..], w, skip)
  {
    hide MtfCodes, AfterRun, Compact, RunDigits, AllIn, Product;
    var vs := Compact(w, 0, skip);
    var n := Leading(vs, list[0]);
    RunThenRest(vs, list, 0);
    SuffixIn(vs, list, n);
    LeadingSplits(vs, list[0]);
    ProductOne(n);
    assert Due(Start(list), n, vs[n..]) == vs;
  }

  /** The decoder inverts the encoder on every sequence over the initial list, skipped positions included. */
  lemma MtfRoundTrip(w: seq<nat>, list: seq<nat>, skip: nat)
    requires list != [] && AllIn(Kept(w, 0, skip), list) && SharedZeros(w, skip)
    ensures Unmtf(Start(list), MtfCodes(Kept(w, 0, skip), list, 0), |w|, skip) == Ok((w, []))
  {
    hide MtfCodes, Ahead, Unmtf, AllIn;
    KeptIsCompact(w, 0, skip);
    StartAhead(w, list, skip);
    var vs := Compact(w, 0, skip);
    var n := Leading(vs, list[0]);
    DecodesAhead(Start(list), MtfCodes(vs, list, 0), n, vs[n..], w, skip);
  }

  /** How many values a list of codes stands for. */
  function Weight(codes: seq<nat>, s: nat): nat {
    if codes == [] then 0
    else if codes[0] <= RUN_1 then (codes[0] + 1) * Pow2(s) + Weight(codes[1..], s + 1)
    else 1 + Weight(codes[1..], 0)
  }

  lemma DigitsOfZero(others: seq<nat>, s: nat)
    requires others != [] ==> others[0] > RUN_1
    ensures Weight(RunDigits(0) + others, s) == Product(0, Pow2(s)) + Weight(others, 0)
  {
    assert RunDigits(0) + others == others;
  }

  lemma {:induction false} RunWeight(q: nat, others: seq<nat>, s: nat)
    requires others != [] ==> others[0] > RUN_1
    ensures Weight(RunDigits(q) + others, s) == Product(q, Pow2(s)) + Weight(others, 0)
    decreases q
  {
    DigitsOfZero(others, s);
    hide RunDigits, Weight, Pow2, Product;
    if q > 0 {
      var d, half := (q - 1) % 2, (q - 1) / 2;
      FirstDigit(RunDigits(q) + others, q, others);
      WeightStep(RunDigits(q) + others, s);
      RunWeight(half, others, s + 1);
      DigitWeight(d, half, Pow2(s));
    }
  }

  lemma WeightStep(codes: seq<nat>, s: nat)
    requires codes != [] && codes[0] <= RUN_1
    ensures Weight(codes, s) == (codes[0] + 1) * Pow2(s) + Weight(codes[1..], s + 1)
    ensures Pow2(s + 1) == 2 * Pow2(s)
  {
  }

  lemma {:induction false} CodesWeight(vs: seq<nat>, list: seq<nat>, run: nat)
    requires AllIn(vs, list) && list != []
    ensures Weight(MtfCodes(vs, list, run), 0) == run + |vs|
    decreases |vs|
  {
    hide RunDigits, MoveFront, AllIn;
    if vs != [] && vs[0] == list[0] {
      SuffixIn(vs, list, 1);
      FrontCode(vs, list, run);
      CodesWeight(vs[1..], list, run + 1);
    } else {
      OtherCode(vs, list, run);
      if vs != [] {
        SymbolCode(list, vs);
        CodesWeight(vs[1..], MoveFront(list, IndexOf(list, vs[0])), 0);
      }
      RunWeight(run, AfterRun(vs, list), 0);
      assert Product(run, Pow2(0)) == run;
    }
  }

  lemma {:induction false} DecodedFacts(st: State, codes: seq<nat>, elts: nat, skip: nat)
    requires InRange(st) && |st.values| <= elts
    requires Unmtf(st, codes, elts, skip).Ok?
    ensures
      var w := Unmtf(st, codes, elts, skip).value.0;
      && (forall i {:trigger KnownZero(w, i, skip)} :: |st.values| <= i < elts && KnownZero(w, i, skip) ==> w[i] == 0)
      && |Compact(w, |st.values|, skip)| <= st.rep + (if st.mtf == 0 then 0 else 1) + Weight(codes, st.s)
    decreases elts - |st.values|, |codes|
  {
    hide MoveFront, Pow2;
    if |st.values| < elts {
      var n, w := |st.values|, Unmtf(st, codes, elts, skip).value.0;
      if !NeedsCode(st, skip) {
        DecodedFacts(Put(st, skip), codes, elts, skip);
        assert Put(st, skip).values <= w;
        assert KnownZero(w, n, skip) == Skips(st.values, skip);
      } else {
        DecodedFacts(Take(st, codes[0]), codes[1..], elts, skip);
      }
    }
  }

  lemma {:induction false} NoneLost(w: seq<nat>, n: nat, skip: nat)
    requires n <= |w| && ZerosStay(w, skip)
    ensures |Kept(w, n, skip)| <= |Compact(w, n, skip)|
    ensures |Kept(w, n, skip)| == |Compact(w, n, skip)| ==>
      forall i {:trigger KnownZero(w, i, skip)} :: n <= i < |w| && skip != 0 && i >= skip ==> (w[i] == 0 <==> KnownZero(w, i, skip))
    decreases |w| - n
  {
    if n < |w| {
      NoneLost(w, n + 1, skip);
    }
  }

  /** Coding several groups at once loses nothing exactly when all of them leave the same symbols unused. */
  lemma RoundTripIffSharedZeros(w: seq<nat>, list: seq<nat>, skip: nat)
    requires list != [] && AllIn(Kept(w, 0, skip), list)
    ensures Unmtf(Start(list), MtfCodes(Kept(w, 0, skip), list, 0), |w|, skip) == Ok((w, []))
       <==> SharedZeros(w, skip)
  {
    hide MtfCodes, Unmtf, AllIn;
    var codes := MtfCodes(Kept(w, 0, skip), list, 0);
    if SharedZeros(w, skip) {
      MtfRoundTrip(w, list, skip);
    } else if Unmtf(Start(list), codes, |w|, skip) == Ok((w, [])) {
      DecodedFacts(Start(list), codes, |w|, skip);
      CodesWeight(Kept(w, 0, skip), list, 0);
      NoneLost(w, 0, skip);
      assert false;
    }
  }
}
