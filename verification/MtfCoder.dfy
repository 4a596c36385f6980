/** The loops that write and read move-to-front codes, over an array that is reordered in place. */
module MtfCoder {
  import opened Arithmetic
  import opened BitStream
  import opened CanonicalCode
  import opened HuffmanTables
  import opened MtfRuns
  import opened Results

  /** The run digits and the code lengths. */
  const TOTAL_CODES := MAX_CODELEN + 2

  method UpdateMtf(mtf: array<nat>, i: nat) returns (sym: nat)
    requires i < mtf.Length
    modifies mtf
    ensures sym == old(mtf[i]) && mtf[..] == MoveFront(old(mtf[..]), i)
  {
    sym := mtf[i];
    var k := i;
    while k != 0
      invariant k <= i
      invariant forall m :: k < m <= i ==> mtf[m] == old(mtf[m - 1])
      invariant forall m :: 0 <= m <= k || i < m < mtf.Length ==> mtf[m] == old(mtf[m])
    {
      mtf[k] := mtf[k - 1];
      k := k - 1;
    }
    mtf[0] := sym;
  }

  /** `freq` counts how often each code occurs. */
  ghost predicate Counts(freq: seq<nat>, codes: seq<nat>) {
    forall c :: 0 <= c < |freq| ==> freq[c] == CountOf(codes, c)
  }

  lemma CountsNext(freq: seq<nat>, codes: seq<nat>, c: nat)
    requires Counts(freq, codes) && c < |freq|
    ensures Counts(freq[c := freq[c] + 1], codes + [c])
  {
    forall l | 0 <= l < |freq| ensures CountOf(codes + [c], l) == CountOf(codes, l) + (if c == l then 1 else 0) {
      CountAppend(codes, c, l);
    }
  }

  /** Writes a run of at least one, in base two without a zero digit. */
  method Update12(run: nat, mtfsym: seq<nat>, freq: array<nat>) returns (codes: seq<nat>)
    requires run >= 1 && freq.Length >= 2 && Counts(freq[..], mtfsym)
    modifies freq
    ensures codes == mtfsym + RunDigits(run)
    ensures Counts(freq[..], codes)
  {
    codes := mtfsym;
    var left := run;
    while left >= 1
      invariant Counts(freq[..], codes)
      invariant codes + RunDigits(left) == mtfsym + RunDigits(run)
      decreases left
    {
      DigitsOf(left);
      var code := (left - 1) % 2;
      left := (left - 1) / 2;
      Associate(codes, [code], RunDigits(left));
      codes := AddCode(code, codes, freq);
    }
    NoDigits([]);
    assert codes + [] == codes;
  }

  lemma FirstIndex(list: seq<nat>, x: nat, j: nat)
    requires x in list && j < |list| && list[j] == x
    requires forall k :: 0 <= k < j ==> list[k] != x
    ensures IndexOf(list, x) == j
  {
    if j > 0 {
      assert list[1..][j - 1] == x;
      FirstIndex(list[1..], x, j - 1);
    }
  }

  method FindSymbol(mtf: array<nat>, sym: nat) returns (j: nat)
    requires sym in mtf[..]
    ensures j < mtf.Length && mtf[j] == sym && j == IndexOf(mtf[..], sym)
  {
    j := 0;
    while mtf[j] != sym
      invariant j < mtf.Length
      invariant forall k :: 0 <= k < j ==> mtf[k] != sym
      invariant exists k :: j <= k < mtf.Length && mtf[k] == sym
      decreases mtf.Length - j
    {
      j := j + 1;
    }
    FirstIndex(mtf[..], sym, j);
  }

  lemma NextSymbol(symbols: seq<nat>, i: nat, list: seq<nat>, run: nat)
    requires i < |symbols| && list != [] && AllIn(symbols[i..], list)
    ensures symbols[i] in list
    ensures
      var j := IndexOf(list, symbols[i]);
      && AllIn(symbols[i + 1..], MoveFront(list, j))
      && (j == 0 ==> MoveFront(list, j) == list
                     && MtfCodes(symbols[i..], list, run) == MtfCodes(symbols[i + 1..], list, run + 1))
      && (j > 0 ==> MtfCodes(symbols[i..], list, run)
                    == RunDigits(run) + [j + RUN_1] + MtfCodes(symbols[i + 1..], MoveFront(list, j), 0))
  {
    var vs := symbols[i..];
    SuffixIn(vs, list, 1);
    assert vs[1..] == symbols[i + 1..] && vs[0] == symbols[i];
    MembersStay(vs, list, IndexOf(list, vs[0]));
    assert [list[0]] + [] + list[1..] == list;
  }

  /** The first `i` symbols have been coded, up to a run of `run` that is still open. */
  ghost predicate Coding(symbols: seq<nat>, i: nat, list: seq<nat>, run: nat, mtfsym: seq<nat>, whole: seq<nat>) {
    && i <= |symbols| && list != [] && AllIn(symbols[i..], list)
    && mtfsym + MtfCodes(symbols[i..], list, run) == whole
  }

  lemma CodingStarts(symbols: seq<nat>, list: seq<nat>)
    requires list != [] && AllIn(symbols, list)
    ensures Coding(symbols, 0, list, 0, [], MtfCodes(symbols, list, 0))
  {
    assert symbols[0..] == symbols;
    var codes := MtfCodes(symbols, list, 0);
    assert [] + codes == codes;
  }

  lemma CodingStep(symbols: seq<nat>, i: nat, list: seq<nat>, run: nat, mtfsym: seq<nat>, whole: seq<nat>)
    requires Coding(symbols, i, list, run, mtfsym, whole) && i < |symbols|
    ensures symbols[i] in list
    ensures
      var j := IndexOf(list, symbols[i]);
      && (j == 0 ==> Coding(symbols, i + 1, MoveFront(list, j), run + 1, mtfsym, whole))
      && (j > 0 ==> Coding(symbols, i + 1, MoveFront(list, j), 0, mtfsym + RunDigits(run) + [j + RUN_1], whole))
  {
    hide MoveFront, MtfCodes, RunDigits, AllIn, IndexOf;
    NextSymbol(symbols, i, list, run);
    var j := IndexOf(list, symbols[i]);
    if j > 0 {
      Regroup(mtfsym, RunDigits(run), j + RUN_1, MtfCodes(symbols[i + 1..], MoveFront(list, j), 0));
    }
  }

  lemma CodingEnds(symbols: seq<nat>, list: seq<nat>, run: nat, mtfsym: seq<nat>, whole: seq<nat>)
    requires Coding(symbols, |symbols|, list, run, mtfsym, whole)
    ensures mtfsym + RunDigits(run) == whole
  {
  }

  method AddCode(code: nat, mtfsym: seq<nat>, freq: array<nat>) returns (codes: seq<nat>)
    requires code < freq.Length && Counts(freq[..], mtfsym)
    modifies freq
    ensures codes == mtfsym + [code] && Counts(freq[..], codes)
  {
    hide Counts;
    CountsNext(freq[..], mtfsym, code);
    ghost var before := freq[..];
    freq[code] := freq[code] + 1;
    assert freq[..] == before[code := before[code] + 1];
    codes := mtfsym + [code];
  }

  method ClearCounts(freq: array<nat>)
    modifies freq
    ensures forall k :: 0 <= k < freq.Length ==> freq[k] == 0
  {
    for c := 0 to freq.Length
      invariant forall k :: 0 <= k < c ==> freq[k] == 0
    {
      freq[c] := 0;
    }
  }

  /** Codes a sequence of symbols that all stand in the list, and counts the codes. */
  method ComputeMtf12(symbols: seq<nat>, mtf: array<nat>, freq: array<nat>) returns (mtfsym: seq<nat>)
    requires mtf.Length > 0 && AllIn(symbols, mtf[..]) && freq.Length == mtf.Length + 1 && freq != mtf
    modifies mtf, freq
    ensures mtfsym == MtfCodes(symbols, old(mtf[..]), 0)
    ensures |mtfsym| <= |symbols|
    ensures Counts(freq[..], mtfsym)
  {
    hide Coding, Counts, MtfCodes, AllIn, RunDigits;
    ClearCounts(freq);
    mtfsym := [];
    ghost var whole := MtfCodes(symbols, mtf[..], 0);
    CodingStarts(symbols, mtf[..]);
    NothingCounted(freq[..]);
    var run: nat := 0;
    for i := 0 to |symbols|
      invariant Coding(symbols, i, mtf[..], run, mtfsym, whole) && Counts(freq[..], mtfsym)
    {
      ghost var list := mtf[..];
      CodingStep(symbols, i, list, run, mtfsym, whole);
      var sym := symbols[i];
      var j := FindSymbol(mtf, sym);
      var _ := UpdateMtf(mtf, j);
      if j == 0 {
        run := run + 1;
      } else {
        if run > 0 {
          mtfsym := Update12(run, mtfsym, freq);
        } else {
          NoRun(mtfsym);
        }
        run := 0;
        mtfsym := AddCode(j + RUN_1, mtfsym, freq);
      }
    }
    CodingEnds(symbols, mtf[..], run, mtfsym, whole);
    if run > 0 {
      mtfsym := Update12(run, mtfsym, freq);
    } else {
      NoRun(mtfsym);
    }
  }

  lemma NothingCounted(freq: seq<nat>)
    requires forall k :: 0 <= k < |freq| ==> freq[k] == 0
    ensures Counts(freq, [])
  {
  }

  lemma Regroup(a: seq<nat>, b: seq<nat>, x: nat, c: seq<nat>)
    ensures a + (b + [x] + c) == (a + b + [x]) + c
  {
  }

  lemma NoRun(a: seq<nat>)
    ensures a + RunDigits(0) == a
  {
  }

  // ----- Reading

  /** Decoding straight from bits: each code is read with the code table `clen`. */
  function UnmtfBits(st: State, bits: seq<bool>, clen: seq<nat>, m: nat, elts: nat, skip: nat)
    : (r: Result<(seq<nat>, seq<bool>)>)
    requires InRange(st) && |st.values| <= elts && |clen| <= |st.list| + 1
    decreases elts - |st.values|, |bits|
  {
    if |st.values| == elts then
      if st.rep != 0 then InvalidInput else Ok((st.values, bits))
    else if !NeedsCode(st, skip) then UnmtfBits(Put(st, skip), bits, clen, m, elts, skip)
    else
      var read :- Read(clen, bits, m);
      UnmtfBits(Take(st, read.0), read.1, clen, m, elts, skip)
  }

  /** Decoding the code words of a list of codes is decoding the list. */
  lemma {:induction false} BitsFollowCodes(st: State, codes: seq<nat>, rest: seq<bool>, clen: seq<nat>, m: nat,
                                           elts: nat, skip: nat, w: seq<nat>)
    requires InRange(st) && |st.values| <= elts && |clen| <= |st.list| + 1
    requires Feasible(clen, m) && Coded(clen, codes)
    requires Unmtf(st, codes, elts, skip) == Ok((w, []))
    ensures UnmtfBits(st, Codewords(clen, codes) + rest, clen, m, elts, skip) == Ok((w, rest))
    decreases elts - |st.values|, |codes|
  {
    hide Put, Take, NeedsCode, Codeword, Read;
    if |st.values| == elts {
      assert Codewords(clen, codes) + rest == rest;
    } else if !NeedsCode(st, skip) {
      BitsFollowCodes(Put(st, skip), codes, rest, clen, m, elts, skip, w);
    } else {
      var later := Codewords(clen, codes[1..]) + rest;
      assert Codewords(clen, codes) + rest == Codeword(clen, codes[0]) + later;
      ReadsBack(clen, codes[0], later, m);
      BitsFollowCodes(Take(st, codes[0]), codes[1..], rest, clen, m, elts, skip, w);
    }
  }

  method Decode12(reader: BitReader, inorder: seq<nat>, base: seq<nat>, limit: seq<nat>, minClen: nat, maxClen: nat,
                  mtfvals: array<nat>, elts: nat, skip: nat, ghost clen: seq<nat>, ghost absMax: nat)
    returns (r: Result<seq<nat>>)
    requires reader.Valid() && Decodes(clen, absMax, inorder, base, limit, minClen, maxClen)
    requires 0 < mtfvals.Length && |clen| <= mtfvals.Length + 1 && |clen| <= TOTAL_CODES
    modifies reader, mtfvals
    ensures reader.Valid()
    ensures
      var spec := UnmtfBits(Start(old(mtfvals[..])), old(reader.Remaining()), clen, absMax, elts, skip);
      && (r.Ok? <==> spec.Ok?)
      && (r.Ok? ==> spec == Ok((r.value, reader.Remaining())))
  {
    hide UnmtfBits, Follows, InRange, MoveFront, Read, Decodes, Pow2, BitReader.Valid, BitReader.Remaining;
    StartInRange(mtfvals[..]);
    ghost var spec := UnmtfBits(Start(mtfvals[..]), reader.Remaining(), clen, absMax, elts, skip);
    var values: seq<nat>, rep: nat, mtf: nat, s: nat := [], 0, 0, 0;
    StartFollows(mtfvals[..], reader.Remaining(), clen, absMax, elts, skip);
    while |values| < elts
      invariant reader.Valid() && |values| <= elts
      invariant Follows(State(values, mtfvals[..], rep, mtf, s), reader.Remaining(), clen, absMax, elts, skip, spec)
      decreases elts - |values|, if rep == 0 && mtf == 0 then 1 else 0
    {
      ghost var st := State(values, mtfvals[..], rep, mtf, s);
      FollowsStep(st, reader.Remaining(), clen, absMax, elts, skip, spec);
      if skip != 0 && |values| >= skip && values[|values| - skip] == 0 {
        values := values + [0];
      } else if rep != 0 {
        values := values + [mtfvals[0]];
        rep := rep - 1;
      } else if mtf != 0 {
        var sym := UpdateMtf(mtfvals, mtf);
        values := values + [sym];
        mtf := 0;
      } else {
        var code := DecodeSymbol(reader, inorder, base, limit, minClen, maxClen, TOTAL_CODES, clen, absMax);
        if code.InvalidInput? {
          return InvalidInput;
        }
        mtf := code.value;
        if mtf <= RUN_1 {
          rep := (mtf + 1) * Pow2(s);
          mtf := 0;
          s := s + 1;
        } else {
          mtf := mtf - 1;
          s := 0;
        }
      }
    }
    FollowsEnd(State(values, mtfvals[..], rep, mtf, s), reader.Remaining(), clen, absMax, elts, skip, spec);
    if rep != 0 {
      return InvalidInput;
    }
    return Ok(values);
  }

  /** The loop is at state `st` with `bits` to come, on its way to the result `spec`. */
  ghost predicate Follows(st: State, bits: seq<bool>, clen: seq<nat>, m: nat, elts: nat, skip: nat,
                          spec: Result<(seq<nat>, seq<bool>)>) {
    && InRange(st) && |st.values| <= elts && |clen| <= |st.list| + 1
    && UnmtfBits(st, bits, clen, m, elts, skip) == spec
  }

  lemma StartInRange(list: seq<nat>)
    requires list != []
    ensures InRange(Start(list)) && Start(list).values == [] && Start(list).list == list
  {
  }

  lemma StartFollows(list: seq<nat>, bits: seq<bool>, clen: seq<nat>, m: nat, elts: nat, skip: nat)
    requires list != [] && |clen| <= |list| + 1
    ensures InRange(Start(list)) && Start(list).list == list && Start(list).values == []
    ensures Follows(Start(list), bits, clen, m, elts, skip, UnmtfBits(Start(list), bits, clen, m, elts, skip))
  {
  }

  lemma FollowsStep(st: State, bits: seq<bool>, clen: seq<nat>, m: nat, elts: nat, skip: nat,
                    spec: Result<(seq<nat>, seq<bool>)>)
    requires Follows(st, bits, clen, m, elts, skip, spec) && |st.values| < elts
    ensures InRange(st)
    ensures !NeedsCode(st, skip) ==> Follows(Put(st, skip), bits, clen, m, elts, skip, spec)
    ensures NeedsCode(st, skip) ==>
      match Read(clen, bits, m)
      case InvalidInput => spec == InvalidInput
      case Ok((code, others)) => code <= |st.list| && Follows(Take(st, code), others, clen, m, elts, skip, spec)
  {
  }

  lemma FollowsEnd(st: State, bits: seq<bool>, clen: seq<nat>, m: nat, elts: nat, skip: nat,
                   spec: Result<(seq<nat>, seq<bool>)>)
    requires Follows(st, bits, clen, m, elts, skip, spec) && |st.values| == elts
    ensures spec == if st.rep != 0 then InvalidInput else Ok((st.values, bits))
  {
  }
}
