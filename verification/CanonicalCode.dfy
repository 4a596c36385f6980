/** Canonical Huffman codes: a table of code lengths determines the codes, and the decoder's tables undo them. */
module CanonicalCode {
  import opened Arithmetic
  import opened BitStream
  import opened Results

  const MAX_CODELEN: nat := 20

  function CountOf(clen: seq<nat>, l: nat): nat {
    if clen == [] then 0
    else CountOf(clen[..|clen| - 1], l) + (if clen[|clen| - 1] == l then 1 else 0)
  }

  /** The codes of length `l` are consecutive: they start at `FirstCode` and stop before `Used`. */
  function FirstCode(clen: seq<nat>, l: nat): nat
    decreases l, 0
  {
    if l == 0 then 0 else 2 * Used(clen, l - 1)
  }

  function Used(clen: seq<nat>, l: nat): nat
    decreases l, 1
  {
    if l == 0 then 0 else FirstCode(clen, l) + CountOf(clen, l)
  }

  /** How many symbols have codes shorter than `l`. */
  function Shorter(clen: seq<nat>, l: nat): nat {
    if l <= 1 then 0 else Shorter(clen, l - 1) + CountOf(clen, l - 1)
  }

  function Rank(clen: seq<nat>, i: nat): nat
    requires i < |clen|
  {
    CountOf(clen[..i], clen[i])
  }

  function CodeOf(clen: seq<nat>, i: nat): nat
    requires i < |clen|
  {
    FirstCode(clen, clen[i]) + Rank(clen, i)
  }

  function Codeword(clen: seq<nat>, i: nat): (s: seq<bool>)
    requires i < |clen|
    ensures |s| == clen[i]
  {
    Bits(CodeOf(clen, i), clen[i])
  }

  predicate AtMost(clen: seq<nat>, m: nat) {
    forall i :: 0 <= i < |clen| ==> clen[i] <= m
  }

  /** The sum of 2^(m - length) over the symbols that have a code. */
  function KraftSum(clen: seq<nat>, m: nat): nat
    requires AtMost(clen, m)
  {
    if clen == [] then 0
    else
      var x := clen[|clen| - 1];
      KraftSum(clen[..|clen| - 1], m) + (if x > 0 then Pow2(m - x) else 0)
  }

  predicate Feasible(clen: seq<nat>, m: nat) {
    AtMost(clen, m) && KraftSum(clen, m) <= Pow2(m)
  }

  lemma {:induction false} CountAppend(clen: seq<nat>, x: nat, l: nat)
    ensures CountOf(clen + [x], l) == CountOf(clen, l) + (if x == l then 1 else 0)
  {
    assert (clen + [x])[..|clen|] == clen;
  }

  lemma {:induction false} CountGrows(clen: seq<nat>, i: nat, l: nat)
    requires i <= |clen|
    ensures CountOf(clen[..i], l) <= CountOf(clen, l)
    ensures i < |clen| && clen[i] == l ==> CountOf(clen[..i], l) < CountOf(clen, l)
    decreases |clen|
  {
    if i < |clen| {
      var init := clen[..|clen| - 1];
      assert clen[..i] == init[..i];
      CountGrows(init, i, l);
    } else {
      assert clen[..i] == clen;
    }
  }

  lemma {:induction false} UsedAppend(clen: seq<nat>, x: nat, l: nat)
    ensures Used(clen + [x], l) == Used(clen, l) + (if 0 < x <= l then Pow2(l - x) else 0)
  {
    if l > 0 {
      UsedAppend(clen, x, l - 1);
      CountAppend(clen, x, l);
    }
  }

  /** Laying the codes out canonically uses exactly the share of the code space that the Kraft sum measures. */
  lemma {:induction false} UsedIsKraft(clen: seq<nat>, m: nat)
    requires AtMost(clen, m)
    ensures Used(clen, m) == KraftSum(clen, m)
  {
    if clen == [] {
      NothingUsed(m);
    } else {
      var init := clen[..|clen| - 1];
      UsedIsKraft(init, m);
      UsedAppend(init, clen[|clen| - 1], m);
      assert init + [clen[|clen| - 1]] == clen;
    }
  }

  lemma {:induction false} NothingUsed(l: nat)
    ensures Used([], l) == 0
  {
    if l > 0 {
      NothingUsed(l - 1);
    }
  }

  lemma {:induction false} UsedFits(clen: seq<nat>, l: nat, m: nat)
    requires l <= m && Used(clen, m) <= Pow2(m)
    ensures Used(clen, l) <= Pow2(l)
    decreases m - l
  {
    if l < m {
      UsedFits(clen, l + 1, m);
    }
  }

  /** Every code of a feasible table fits its length. */
  lemma CodeFits(clen: seq<nat>, i: nat, m: nat)
    requires Feasible(clen, m) && i < |clen| && clen[i] > 0
    ensures CodeOf(clen, i) < Used(clen, clen[i]) <= Pow2(clen[i])
  {
    CountGrows(clen, i, clen[i]);
    UsedIsKraft(clen, m);
    UsedFits(clen, clen[i], m);
  }

  lemma {:induction false} ShorterAppend(clen: seq<nat>, x: nat, l: nat)
    ensures Shorter(clen + [x], l) == Shorter(clen, l) + (if 0 < x < l then 1 else 0)
  {
    if l > 1 {
      ShorterAppend(clen, x, l - 1);
      CountAppend(clen, x, l - 1);
    }
  }

  lemma {:induction false} ShorterBound(clen: seq<nat>, l: nat)
    ensures Shorter(clen, l) <= |clen|
  {
    if clen == [] {
      if l > 1 {
        ShorterBound(clen, l - 1);
      }
    } else {
      var init := clen[..|clen| - 1];
      ShorterBound(init, l);
      ShorterAppend(init, clen[|clen| - 1], l);
      assert init + [clen[|clen| - 1]] == clen;
    }
  }

  lemma {:induction false} ShorterMonotone(clen: seq<nat>, k: nat, l: nat)
    requires 1 <= k < l
    ensures Shorter(clen, k) + CountOf(clen, k) <= Shorter(clen, l)
    decreases l
  {
    if k + 1 < l {
      ShorterMonotone(clen, k, l - 1);
    }
  }

  /** There are at least as many codes below `FirstCode` as shorter symbols, so `base` never goes below zero. */
  lemma {:induction false} BaseIsNatural(clen: seq<nat>, l: nat)
    ensures Shorter(clen, l) <= FirstCode(clen, l)
  {
    if l > 1 {
      BaseIsNatural(clen, l - 1);
    }
  }

  /** Where a symbol goes in the table ordered by code. */
  function Place(clen: seq<nat>, i: nat): (p: nat)
    requires i < |clen| && clen[i] > 0
    ensures p < |clen|
  {
    CountGrows(clen, i, clen[i]);
    ShorterBound(clen, clen[i] + 1);
    Shorter(clen, clen[i]) + Rank(clen, i)
  }

  lemma PlacesDiffer(clen: seq<nat>, i: nat, j: nat)
    requires i < j < |clen| && clen[i] > 0 && clen[j] > 0
    ensures Place(clen, i) != Place(clen, j)
  {
    CountGrows(clen, i, clen[i]);
    CountGrows(clen, j, clen[j]);
    if clen[i] == clen[j] {
      CountGrows(clen[..j], i, clen[i]);
      assert clen[..j][..i] == clen[..i];
    } else if clen[i] < clen[j] {
      ShorterMonotone(clen, clen[i], clen[j]);
    } else {
      ShorterMonotone(clen, clen[j], clen[i]);
    }
  }

  /** The symbol that is number `k` among those of length `l`. */
  function SymbolOf(clen: seq<nat>, l: nat, k: nat): (i: nat)
    requires k < CountOf(clen, l)
    ensures i < |clen| && clen[i] == l && Rank(clen, i) == k
  {
    var last := |clen| - 1;
    if clen[last] == l && CountOf(clen[..last], l) == k then last
    else
      var i := SymbolOf(clen[..last], l, k);
      assert clen[..last][..i] == clen[..i];
      i
  }

  lemma SymbolUnique(clen: seq<nat>, i: nat, j: nat)
    requires i < |clen| && j < |clen| && clen[i] == clen[j] && Rank(clen, i) == Rank(clen, j)
    ensures i == j
  {
    if i < j {
      assert clen[..j][..i] == clen[..i];
      CountGrows(clen[..j], i, clen[i]);
    } else if j < i {
      assert clen[..i][..j] == clen[..j];
      CountGrows(clen[..i], j, clen[i]);
    }
  }

  /** Reading one symbol: the shortest prefix, from `l` bits on, whose value is below what that length uses. */
  function ReadSymbol(clen: seq<nat>, bits: seq<bool>, l: nat, m: nat): (r: Result<(nat, seq<bool>)>)
    requires 1 <= l <= |bits| + 1
    requires Used(clen, l - 1) <= ValueOf(bits[..l - 1])
    ensures r.Ok? ==> |r.value.1| < |bits| && r.value.0 < |clen|
    decreases |bits| - l
  {
    if l > m || l > |bits| then InvalidInput
    else
      assert bits[..l][..l - 1] == bits[..l - 1];
      var code := ValueOf(bits[..l]);
      if code < Used(clen, l) then Ok((SymbolOf(clen, l, code - FirstCode(clen, l)), bits[l..]))
      else ReadSymbol(clen, bits, l + 1, m)
  }

  function Read(clen: seq<nat>, bits: seq<bool>, m: nat): (r: Result<(nat, seq<bool>)>)
    ensures r.Ok? ==> |r.value.1| < |bits| && r.value.0 < |clen|
  {
    ReadSymbol(clen, bits, 1, m)
  }

  lemma {:induction false} PrefixTooLarge(clen: seq<nat>, v: nat, n: nat, l: nat)
    requires 1 <= l <= n && v < Pow2(n)
    requires l < n ==> FirstCode(clen, n) <= v
    ensures l < n ==> Used(clen, l) <= ValueOf(Bits(v, n)[..l])
    ensures l == n ==> ValueOf(Bits(v, n)[..l]) == v
    decreases n
  {
    if l == n {
      ValueOfBits(v, n);
      assert Bits(v, n)[..n] == Bits(v, n);
    } else {
      assert Bits(v, n)[..l] == Bits(v / 2, n - 1)[..l];
      PrefixTooLarge(clen, v / 2, n - 1, l);
    }
  }

  lemma {:induction false} ReadFrom(clen: seq<nat>, i: nat, rest: seq<bool>, l: nat, m: nat)
    requires Feasible(clen, m) && i < |clen| && 1 <= l <= clen[i]
    requires Used(clen, l - 1) <= ValueOf((Codeword(clen, i) + rest)[..l - 1])
    ensures ReadSymbol(clen, Codeword(clen, i) + rest, l, m) == Ok((i, rest))
    decreases clen[i] - l
  {
    var word, n := Codeword(clen, i), clen[i];
    CodeFits(clen, i, m);
    PrefixTooLarge(clen, CodeOf(clen, i), n, l);
    assert (word + rest)[..l] == word[..l];
    if l < n {
      ReadFrom(clen, i, rest, l + 1, m);
    } else {
      assert (word + rest)[l..] == rest;
      SymbolUnique(clen, i, SymbolOf(clen, n, CodeOf(clen, i) - FirstCode(clen, n)));
    }
  }

  /** The reader takes back exactly one code word, whatever bits follow it. */
  lemma ReadsBack(clen: seq<nat>, i: nat, rest: seq<bool>, m: nat)
    requires Feasible(clen, m) && i < |clen| && clen[i] > 0
    ensures Read(clen, Codeword(clen, i) + rest, m) == Ok((i, rest))
  {
    ReadFrom(clen, i, rest, 1, m);
  }

  /** No code word of a feasible table starts another one. */
  lemma PrefixFree(clen: seq<nat>, i: nat, j: nat, m: nat)
    requires Feasible(clen, m) && i < |clen| && j < |clen| && clen[i] > 0 && clen[j] > 0
    requires Codeword(clen, i) <= Codeword(clen, j)
    ensures i == j
  {
    var a, b := Codeword(clen, i), Codeword(clen, j);
    ReadsBack(clen, i, b[|a|..], m);
    ReadsBack(clen, j, [], m);
    assert a + b[|a|..] == b && b + [] == b;
  }

  predicate Coded(clen: seq<nat>, syms: seq<nat>) {
    forall k :: 0 <= k < |syms| ==> syms[k] < |clen| && clen[syms[k]] > 0
  }

  function Codewords(clen: seq<nat>, syms: seq<nat>): seq<bool>
    requires Coded(clen, syms)
  {
    if syms == [] then [] else Codeword(clen, syms[0]) + Codewords(clen, syms[1..])
  }

  function ReadMany(clen: seq<nat>, bits: seq<bool>, n: nat, m: nat): Result<(seq<nat>, seq<bool>)>
    decreases n
  {
    if n == 0 then Ok(([], bits))
    else
      var first :- Read(clen, bits, m);
      var others :- ReadMany(clen, first.1, n - 1, m);
      Ok(([first.0] + others.0, others.1))
  }

  /** Any sequence of coded symbols comes back from its code words, and nothing after them is touched. */
  lemma {:induction false} ReadsManyBack(clen: seq<nat>, syms: seq<nat>, rest: seq<bool>, m: nat)
    requires Feasible(clen, m) && Coded(clen, syms)
    ensures ReadMany(clen, Codewords(clen, syms) + rest, |syms|, m) == Ok((syms, rest))
  {
    if syms == [] {
      assert Codewords(clen, syms) + rest == rest;
    } else {
      var later := Codewords(clen, syms[1..]) + rest;
      assert Codewords(clen, syms) + rest == Codeword(clen, syms[0]) + later;
      ReadsBack(clen, syms[0], later, m);
      ReadsManyBack(clen, syms[1..], rest, m);
      assert [syms[0]] + syms[1..] == syms;
    }
  }

  lemma {:induction false} CodewordsAppend(clen: seq<nat>, syms: seq<nat>, more: seq<nat>)
    requires Coded(clen, syms) && Coded(clen, more)
    ensures Coded(clen, syms + more)
    ensures Codewords(clen, syms + more) == Codewords(clen, syms) + Codewords(clen, more)
  {
    hide Codeword;
    if syms == [] {
      assert syms + more == more;
    } else {
      CodewordsAppend(clen, syms[1..], more);
      assert (syms + more)[1..] == syms[1..] + more;
      assert Codewords(clen, syms + more)
          == Codeword(clen, syms[0]) + (Codewords(clen, syms[1..]) + Codewords(clen, more));
    }
  }
}
