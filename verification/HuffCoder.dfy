/** The loops that compress and expand a section with one Huffman group, and the section format around them. */
module HuffCoder {
  import opened Arithmetic
  import opened Bytes
  import opened BitStream
  import opened CanonicalCode
  import opened HuffmanTables
  import opened HuffSection
  import opened MtfRuns
  import opened MtfCoder
  import opened PrefixBuilder
  import opened Results
  import PrefixTree

  // ----- Compressing

  function FreqSeq(codes: seq<nat>, n: nat): (s: seq<nat>)
    ensures |s| == n
  {
    seq(n, c requires 0 <= c < n => CountOf(codes, c))
  }

  lemma {:induction false} TotalOfZeros(n: nat)
    ensures Total(FreqSeq([], n)) == 0
  {
    if n > 0 {
      TotalOfZeros(n - 1);
      assert FreqSeq([], n)[..n - 1] == FreqSeq([], n - 1);
    }
  }

  /** The counts add up to the number of values counted. */
  lemma {:induction false} TotalCounts(codes: seq<nat>, n: nat)
    requires forall k :: 0 <= k < |codes| ==> codes[k] < n
    ensures Total(FreqSeq(codes, n)) == |codes|
  {
    if codes == [] {
      TotalOfZeros(n);
    } else {
      var init, x := codes[..|codes| - 1], codes[|codes| - 1];
      TotalCounts(init, n);
      var f := FreqSeq(init, n);
      assert FreqSeq(codes, n) == f[x := f[x] + 1];
      TotalUpdate(f, x, f[x] + 1);
    }
  }

  /** Counts meet what building a code asks for, and every value counted will get a code. */
  lemma CountsForCode(freq: seq<nat>, codes: seq<nat>)
    requires Counts(freq, codes) && codes != []
    requires forall k :: 0 <= k < |codes| ==> codes[k] < |freq|
    ensures Total(freq) == |codes|
    ensures exists i :: 0 <= i < |freq| && freq[i] > 0
    ensures forall k :: 0 <= k < |codes| ==> freq[codes[k]] > 0
  {
    assert freq == FreqSeq(codes, |freq|);
    TotalCounts(codes, |freq|);
    forall k | 0 <= k < |codes| ensures freq[codes[k]] > 0 {
      CountsItself(codes, k);
    }
    assert freq[codes[0]] > 0;
  }

  method CountFreqs(freq: array<nat>, input: seq<byte>)
    requires freq.Length == ALPHABET_SIZE
    modifies freq
    ensures Counts(freq[..], input)
  {
    for c := 0 to freq.Length
      invariant forall k :: 0 <= k < c ==> freq[k] == 0
    {
      freq[c] := 0;
    }
    NothingCounted(freq[..]);
    for i := 0 to |input|
      invariant Counts(freq[..], input[..i])
    {
      var _ := AddCode(input[i], input[..i], freq);
      assert input[..i + 1] == input[..i] + [input[i]];
    }
    assert input[..|input|] == input;
  }

  lemma CodewordsNext(clen: seq<nat>, syms: seq<nat>, i: nat)
    requires Coded(clen, syms) && i < |syms|
    ensures Coded(clen, syms[..i]) && Coded(clen, syms[..i + 1]) && syms[i] < |clen|
    ensures Codewords(clen, syms[..i + 1]) == Codewords(clen, syms[..i]) + Codeword(clen, syms[i])
  {
    hide *;
    CodedPrefix(clen, syms, i);
    OneCodeword(clen, syms[i]);
    CodewordsAppend(clen, syms[..i], [syms[i]]);
  }

  lemma CodedPrefix(clen: seq<nat>, syms: seq<nat>, i: nat)
    requires Coded(clen, syms) && i < |syms|
    ensures Coded(clen, syms[..i]) && Coded(clen, syms[..i + 1]) && Coded(clen, [syms[i]])
    ensures syms[i] < |clen| && clen[syms[i]] > 0 && syms[..i + 1] == syms[..i] + [syms[i]]
  {
  }

  lemma OneCodeword(clen: seq<nat>, sym: nat)
    requires sym < |clen| && clen[sym] > 0 && Coded(clen, [sym])
    ensures Codewords(clen, [sym]) == Codeword(clen, sym)
  {
    hide Codeword;
    assert [sym][1..] == [];
    NothingAdded(Codeword(clen, sym));
  }

  lemma NoCodewords(clen: seq<nat>, syms: seq<nat>)
    requires Coded(clen, syms)
    ensures Coded(clen, syms[..0]) && Codewords(clen, syms[..0]) == []
    ensures syms[..|syms|] == syms
  {
  }

  /** What the encoder has to know of one symbol before it sends its code. */
  lemma ReadyToSend(clen: seq<nat>, codes: seq<nat>, syms: seq<nat>, i: nat, m: nat)
    requires Feasible(clen, m) && m < 64 && Coded(clen, syms) && i < |syms| && |codes| == |clen|
    requires forall k :: 0 <= k < |clen| && clen[k] > 0 ==> codes[k] == CodeOf(clen, k)
    ensures syms[i] < |clen| && 0 < clen[syms[i]] < 64 && codes[syms[i]] < Pow2(clen[syms[i]])
    ensures Codeword(clen, syms[i]) == Bits(codes[syms[i]], clen[syms[i]])
  {
    CodeFits(clen, syms[i], m);
  }

  method SendCodes(writer: BitWriter, clen: seq<nat>, codes: seq<nat>, syms: seq<nat>, ghost m: nat)
    requires writer.Valid() && Feasible(clen, m) && m < 64 && Coded(clen, syms) && |codes| == |clen|
    requires forall k :: 0 <= k < |clen| && clen[k] > 0 ==> codes[k] == CodeOf(clen, k)
    modifies writer
    ensures writer.Valid() && writer.Contents() == old(writer.Contents()) + Codewords(clen, syms)
  {
    hide *;
    ghost var before := writer.Contents();
    NoCodewords(clen, syms);
    NothingAdded(before);
    for i := 0 to |syms|
      invariant writer.Valid() && Coded(clen, syms[..i])
      invariant writer.Contents() == before + Codewords(clen, syms[..i])
    {
      ReadyToSend(clen, codes, syms, i, m);
      CodewordsNext(clen, syms, i);
      AssociateBits(before, Codewords(clen, syms[..i]), Codeword(clen, syms[i]));
      writer.EncodeBits(clen[syms[i]], codes[syms[i]]);
    }
  }

  lemma NothingAdded(a: seq<bool>)
    ensures a + [] == a
  {
  }

  lemma ClclenNext(clclen: seq<nat>, i: nat)
    requires i < |clclen| && AtMost(clclen, MAX_CLCLEN)
    ensures ClclenBits(clclen[..i + 1]) == ClclenBits(clclen[..i]) + Bits(clclen[i], CLCLEN_BITS)
    ensures ClclenBits(clclen[..0]) == [] && clclen[i] < Pow2(CLCLEN_BITS)
  {
    FourBits();
    assert clclen[..i + 1][..i] == clclen[..i];
  }

  method SendClclen(writer: BitWriter, clclen: seq<nat>, count: nat)
    requires writer.Valid() && Sent(clclen, count) && Feasible(clclen, MAX_CLCLEN)
    modifies writer
    ensures writer.Valid()
    ensures writer.Contents()
         == old(writer.Contents()) + (Bits(count - ALWAYS_SENT, EXTRA_CODE_BITS) + ClclenBits(clclen[..count]))
  {
    hide *;
    SentFacts(clclen, count);
    FourBits();
    SmallAlphabets();
    FeasibleFacts(clclen, MAX_CLCLEN);
    writer.EncodeBits(EXTRA_CODE_BITS, count - ALWAYS_SENT);
    ghost var before := writer.Contents();
    ClclenNext(clclen, 0);
    NothingAdded(before);
    for i := 0 to count
      invariant writer.Valid() && writer.Contents() == before + ClclenBits(clclen[..i])
    {
      ClclenNext(clclen, i);
      AssociateBits(before, ClclenBits(clclen[..i]), Bits(clclen[i], CLCLEN_BITS));
      writer.EncodeBits(CLCLEN_BITS, clclen[i]);
    }
    AssociateBits(old(writer.Contents()), Bits(count - ALWAYS_SENT, EXTRA_CODE_BITS), ClclenBits(clclen[..count]));
  }

  lemma FeasibleFacts(clen: seq<nat>, m: nat)
    requires Feasible(clen, m)
    ensures AtMost(clen, m)
  {
  }

  method CountSent(clclen: array<nat>) returns (count: nat)
    requires clclen.Length == TOTAL_CODES
    ensures Sent(clclen[..], count) && (count == 7 || clclen[count - 1] > 0)
  {
    count := TOTAL_CODES;
    while count > ALWAYS_SENT && clclen[count - 1] == 0
      invariant ALWAYS_SENT <= count <= TOTAL_CODES
      invariant forall i :: count <= i < TOTAL_CODES ==> clclen[i] == 0
    {
      count := count - 1;
    }
  }

  lemma CompleteIsFeasible(clen: seq<nat>, m: nat)
    requires AtMost(clen, m) && KraftSum(clen, m) == Pow2(m)
    ensures Feasible(clen, m)
  {
  }

  lemma CodesInRange(clen: seq<nat>)
    requires AllIn(clen, FIRST_LIST) && clen != []
    ensures
      var codes := MtfCodes(clen, FIRST_LIST, 0);
      codes != [] && |codes| <= |clen| && forall k :: 0 <= k < |codes| ==> codes[k] < TOTAL_CODES
  {
    MtfCodesBounded(clen, FIRST_LIST, 0);
    CodesWeight(clen, FIRST_LIST, 0);
  }

  lemma AllCoded(clen: seq<nat>, freq: seq<nat>, syms: seq<nat>)
    requires |freq| == |clen| && forall i :: 0 <= i < |freq| && freq[i] > 0 ==> clen[i] > 0
    requires forall k :: 0 <= k < |syms| ==> syms[k] < |freq| && freq[syms[k]] > 0
    ensures Coded(clen, syms)
  {
  }

  lemma SmallAlphabets()
    ensures 2 * ALPHABET_SIZE < PrefixTree.Fib(MAX_CODELEN + 3) && 2 * TOTAL_CODES < PrefixTree.Fib(MAX_CLCLEN + 3)
    ensures ALPHABET_SIZE == 256 && MAX_CODELEN == 20 && MAX_CLCLEN == 15 && TOTAL_CODES == 22 && UINT32 == 0x1_0000_0000
    ensures |FIRST_LIST| == 21 && EFFICIENCY_BITS == 16
  {
    LimitsSuffice();
  }

  lemma CountsAre(freq: seq<nat>, codes: seq<nat>)
    requires Counts(freq, codes)
    ensures freq == FreqSeq(codes, |freq|)
  {
  }

  /** The code lengths are sent with the code built for them, and no more of its lengths than are needed, or seven. */
  ghost predicate ShortHeader(clen: seq<nat>, clclen: seq<nat>, count: nat) {
    && AllIn(clen, FIRST_LIST) && Built(clclen, FreqSeq(MtfCodes(clen, FIRST_LIST, 0), 22), 15)
    && (count == 7 || (7 < count <= |clclen| && clclen[count - 1] > 0))
  }

  lemma HeaderIsShort(clen: seq<nat>, clclen: seq<nat>, count: nat)
    requires AllIn(clen, FIRST_LIST) && Built(clclen, FreqSeq(MtfCodes(clen, FIRST_LIST, 0), 22), 15)
    requires Sent(clclen, count) && (count == 7 || clclen[count - 1] > 0)
    ensures ShortHeader(clen, clclen, count)
  {
    hide Built, FreqSeq, MtfCodes, AllIn;
  }

  /** Sends the code lengths: run and move-to-front codes, themselves Huffman coded. */
  method EncodePrefix(writer: BitWriter, clen: seq<nat>) returns (ghost clclen: seq<nat>, ghost count: nat)
    requires writer.Valid() && |clen| == ALPHABET_SIZE && AtMost(clen, MAX_CODELEN)
    modifies writer
    ensures AllIn(clen, FIRST_LIST)
    ensures Sent(clclen, count) && Feasible(clclen, MAX_CLCLEN) && Coded(clclen, MtfCodes(clen, FIRST_LIST, 0))
    ensures ShortHeader(clen, clclen, count)
    ensures writer.Valid()
    ensures writer.Contents()
         == old(writer.Contents()) + PrefixBits(clclen, count, MtfCodes(clen, FIRST_LIST, 0))
  {
    hide *;
    SmallAlphabets();
    AllLengthsListed(clen);
    CodesInRange(clen);
    var mtf := new nat[|FIRST_LIST|](i requires 0 <= i < |FIRST_LIST| => FIRST_LIST[i]);
    assert mtf[..] == FIRST_LIST;
    var clfreq := new nat[TOTAL_CODES];
    var mtfsym := ComputeMtf12(clen, mtf, clfreq);
    CountsForCode(clfreq[..], mtfsym);
    var lengths := new nat[TOTAL_CODES];
    var _, r := BuildPrefix(clfreq[..], lengths, MAX_CLCLEN);
    clclen := lengths[..];
    CountsAre(clfreq[..], mtfsym);
    IsBuilt(clclen, clfreq[..], MAX_CLCLEN, r);
    CompleteIsFeasible(clclen, MAX_CLCLEN);
    AllCoded(clclen, clfreq[..], mtfsym);
    var clcode := new nat[TOTAL_CODES];
    BuildCodes(clcode, lengths[..], MAX_CLCLEN);
    var sent := CountSent(lengths);
    count := sent;
    HeaderIsShort(clen, clclen, count);
    SendClclen(writer, lengths[..], sent);
    SendCodes(writer, lengths[..], clcode[..], mtfsym, MAX_CLCLEN);
    PrefixJoined(old(writer.Contents()), clclen, count, mtfsym);
  }

  lemma PrefixJoined(before: seq<bool>, clclen: seq<nat>, count: nat, codes: seq<nat>)
    requires Sent(clclen, count) && Coded(clclen, codes)
    ensures before + (Bits(count - ALWAYS_SENT, EXTRA_CODE_BITS) + ClclenBits(clclen[..count])) + Codewords(clclen, codes)
         == before + PrefixBits(clclen, count, codes)
  {
    var a, b, c := Bits(count - ALWAYS_SENT, EXTRA_CODE_BITS), ClclenBits(clclen[..count]), Codewords(clclen, codes);
    AssociateBits(before, a + b, c);
    AssociateBits(a, b, c);
  }

  /** The bits decode to the values, up to padding that does not fill a byte. */
  ghost predicate StandsFor(bits: seq<bool>, values: seq<nat>) {
    var r := DecodeSection(bits, |values|);
    r.Decoded? && r.values == values && |r.rest| < 8
  }

  lemma PaddedSection(whole: seq<bool>, values: seq<nat>, clen: seq<nat>, clclen: seq<nat>, count: nat)
    requires |clen| == ALPHABET_SIZE && Feasible(clen, MAX_CODELEN) && AllIn(clen, FIRST_LIST)
    requires values != [] && Coded(clen, values)
    requires Sent(clclen, count) && Feasible(clclen, MAX_CLCLEN) && Coded(clclen, MtfCodes(clen, FIRST_LIST, 0))
    requires Padded(whole, Bits(0, GROUP_BITS) + PrefixBits(clclen, count, MtfCodes(clen, FIRST_LIST, 0))
                           + Codewords(clen, values))
    ensures StandsFor(whole, values)
  {
    hide DecodeSection, PrefixBits, Codewords, Bits, MtfCodes;
    var bits := Bits(0, GROUP_BITS) + PrefixBits(clclen, count, MtfCodes(clen, FIRST_LIST, 0)) + Codewords(clen, values);
    var rest := seq(|whole| - |bits|, _ => false);
    SectionReadsBack(values, clen, clclen, count, rest);
  }

  lemma {:induction false} CostOfOneMore(clen: seq<nat>, f: seq<nat>, g: seq<nat>, v: nat)
    requires |clen| == |f| && v < |clen| && g == f[v := f[v] + 1]
    ensures Cost(clen, g) == Cost(clen, f) + clen[v]
  {
    var n := |clen| - 1;
    if v < n {
      assert g[..n] == f[..n][v := f[v] + 1];
      CostOfOneMore(clen[..n], f[..n], g[..n], v);
    } else {
      assert g[..n] == f[..n];
    }
  }

  lemma {:induction false} CostOfNothing(clen: seq<nat>, f: seq<nat>)
    requires |clen| == |f| && forall i :: 0 <= i < |f| ==> f[i] == 0
    ensures Cost(clen, f) == 0
  {
    if clen != [] {
      CostOfNothing(clen[..|clen| - 1], f[..|clen| - 1]);
    }
  }

  /** The cost of the lengths is the number of bits of the code words. */
  lemma {:induction false} CostIsLength(clen: seq<nat>, syms: seq<nat>, freq: seq<nat>)
    requires Coded(clen, syms) && |freq| == |clen| && freq == FreqSeq(syms, |freq|)
    ensures |Codewords(clen, syms)| == Cost(clen, freq)
    decreases |syms|
  {
    hide Codewords, Codeword;
    if syms == [] {
      NoCodewords(clen, syms);
      CostOfNothing(clen, freq);
    } else {
      var n := |syms| - 1;
      var f := FreqSeq(syms[..n], |freq|);
      CodewordsNext(clen, syms, n);
      assert syms[..n + 1] == syms;
      assert freq == f[syms[n] := f[syms[n]] + 1];
      CostOfOneMore(clen, f, freq, syms[n]);
      CostIsLength(clen, syms[..n], f);
      CodewordLength(clen, syms[n]);
    }
  }

  lemma CodewordLength(clen: seq<nat>, i: nat)
    requires i < |clen| && clen[i] > 0
    ensures |Codeword(clen, i)| == clen[i]
  {
  }

  /** The bits of a whole section: three for the one group, its header, and the code words of the values. */
  ghost predicate Section(bits: seq<bool>, clen: seq<nat>, clclen: seq<nat>, count: nat, input: seq<byte>) {
    && AllIn(clen, FIRST_LIST) && Sent(clclen, count) && ShortHeader(clen, clclen, count)
    && Coded(clclen, MtfCodes(clen, FIRST_LIST, 0)) && Coded(clen, input)
    && bits == Bits(0, 3) + PrefixBits(clclen, count, MtfCodes(clen, FIRST_LIST, 0)) + Codewords(clen, input)
  }

  /** What compressing comes to: nothing if the code words alone, or with the whole bytes of the header, do not save more
      than two bytes; otherwise, or when it is forced, the bits of the section, padded with zeros. */
  ghost predicate Pays(input: seq<byte>, inefficient: bool, r: Option<seq<byte>>, clen: seq<nat>, clclen: seq<nat>,
                       count: nat, bits: seq<bool>) {
    && |clen| == 256 && Built(clen, FreqSeq(input, 256), 20)
    && var cost := Cost(clen, FreqSeq(input, 256));
    && (inefficient ==> r.Some?)
    && (!inefficient && cost + 16 >= 8 * |input| ==> r.None?)
    && (inefficient || cost + 16 < 8 * |input| ==>
          Section(bits, clen, clclen, count, input) && |bits| >= cost
          && (r.None? <==> !inefficient && cost + (|bits| - cost) / 8 * 8 + 16 >= 8 * |input|))
    && (r.Some? ==> Padded(StreamBits(r.value), bits))
  }

  /** Compresses a section; nothing is returned when that does not pay and compression was not forced, and what is
      returned unforced is shorter than the input. */
  method EncodeHuff(input: seq<byte>, inefficient: bool)
      returns (r: Option<seq<byte>>, ghost lengths: seq<nat>, ghost clclen: seq<nat>, ghost count: nat, ghost bits: seq<bool>)
    requires 0 < |input| && |input| + 1 < UINT32
    ensures Pays(input, inefficient, r, lengths, clclen, count, bits)
    ensures r.Some? ==> StandsFor(StreamBits(r.value), input)
    ensures r.Some? && !inefficient ==> |r.value| < |input|
  {
    hide *;
    SmallAlphabets();
    var inputBits := 8 * |input|;
    var realFreq, clen := new nat[ALPHABET_SIZE], new nat[ALPHABET_SIZE];
    CountFreqs(realFreq, input);
    CountsForCode(realFreq[..], input);
    var writer := new BitWriter();
    OneGroupBits();
    writer.EncodeBits(GROUP_BITS, 0);
    var outputBits, retries := BuildPrefix(realFreq[..], clen, MAX_CODELEN);
    lengths := clen[..];
    CountsAre(realFreq[..], input);
    IsBuilt(lengths, realFreq[..], MAX_CODELEN, retries);
    CompleteIsFeasible(lengths, MAX_CODELEN);
    AllCoded(lengths, realFreq[..], input);
    var code := new nat[ALPHABET_SIZE];
    BuildCodes(code, clen[..], MAX_CODELEN);
    if outputBits + EFFICIENCY_BITS >= inputBits && !inefficient {
      r, clclen, count, bits := None, [], 0, [];
      TooDear(input, lengths);
      return;
    }
    clclen, count := EncodePrefix(writer, clen[..]);
    CostOfSection(lengths, input, realFreq[..]);
    bits := writer.Contents() + Codewords(lengths, input);
    SectionIs(bits, lengths, clclen, count, input);
    writer.ContentsLength();
    WholeBytes(|writer.Contents()|, |writer.output|);
    if outputBits + 8 * |writer.output| + EFFICIENCY_BITS >= inputBits && !inefficient {
      r := None;
      NotPaying(input, lengths, clclen, count, bits, |writer.output|);
      return;
    }
    ghost var header := |writer.output|;
    SendCodes(writer, clen[..], code[..], input, MAX_CODELEN);
    writer.FlushBits();
    PaddedLength(writer.output, bits);
    PaddedSection(StreamBits(writer.output), input, lengths, clclen, count);
    r := Some(writer.output);
    Paying(input, inefficient, writer.output, lengths, clclen, count, bits, header);
  }

  lemma WholeBytes(bits: nat, bytes: nat)
    requires 8 * bytes <= bits < 8 * bytes + 8
    ensures bits / 8 * 8 == 8 * bytes
  {
  }

  lemma SectionIs(bits: seq<bool>, clen: seq<nat>, clclen: seq<nat>, count: nat, input: seq<byte>)
    requires AllIn(clen, FIRST_LIST) && Sent(clclen, count) && ShortHeader(clen, clclen, count)
    requires Coded(clclen, MtfCodes(clen, FIRST_LIST, 0)) && Coded(clen, input)
    requires bits == Bits(0, GROUP_BITS) + PrefixBits(clclen, count, MtfCodes(clen, FIRST_LIST, 0)) + Codewords(clen, input)
    ensures Section(bits, clen, clclen, count, input)
  {
    hide AllIn, Sent, ShortHeader, Coded, MtfCodes, Bits, PrefixBits, Codewords;
  }

  lemma TooDear(input: seq<byte>, clen: seq<nat>)
    requires |clen| == 256 && Built(clen, FreqSeq(input, 256), 20) && Cost(clen, FreqSeq(input, 256)) + 16 >= 8 * |input|
    ensures Pays(input, false, None, clen, [], 0, [])
  {
    hide Built, FreqSeq, Cost;
  }

  lemma NotPaying(input: seq<byte>, clen: seq<nat>, clclen: seq<nat>, count: nat, bits: seq<bool>, header: nat)
    requires |clen| == 256 && Built(clen, FreqSeq(input, 256), 20) && Section(bits, clen, clclen, count, input)
    requires
      var cost := Cost(clen, FreqSeq(input, 256));
      |bits| >= cost && (|bits| - cost) / 8 * 8 == 8 * header && cost + 8 * header + 16 >= 8 * |input|
    ensures Pays(input, false, None, clen, clclen, count, bits)
  {
    hide Built, FreqSeq, Cost, Section;
  }

  lemma Paying(input: seq<byte>, inefficient: bool, output: seq<byte>, clen: seq<nat>, clclen: seq<nat>, count: nat,
               bits: seq<bool>, header: nat)
    requires |clen| == 256 && Built(clen, FreqSeq(input, 256), 20) && Section(bits, clen, clclen, count, input)
    requires
      var cost := Cost(clen, FreqSeq(input, 256));
      |bits| >= cost && (|bits| - cost) / 8 * 8 == 8 * header && (inefficient || cost + 8 * header + 16 < 8 * |input|)
    requires Padded(StreamBits(output), bits)
    ensures Pays(input, inefficient, Some(output), clen, clclen, count, bits)
  {
    hide Built, FreqSeq, Cost, Section, Padded, StreamBits;
  }

  lemma CostOfSection(clen: seq<nat>, input: seq<nat>, freq: seq<nat>)
    requires Coded(clen, input) && |freq| == |clen| && Counts(freq, input)
    ensures |Codewords(clen, input)| == Cost(clen, freq)
  {
    hide Codewords, Cost;
    assert freq == FreqSeq(input, |freq|);
    CostIsLength(clen, input, freq);
  }

  lemma PaddedLength(output: seq<byte>, bits: seq<bool>)
    requires Padded(StreamBits(output), bits)
    ensures 8 * |output| < |bits| + 8
  {
  }

  lemma OneGroupBits()
    ensures 0 < Pow2(GROUP_BITS) && GROUP_BITS == 3 && [] + Bits(0, GROUP_BITS) == Bits(0, GROUP_BITS)
  {
  }

  // ----- Expanding

  /** The reader is where the specification says, or both have given up. */
  ghost predicate Reads<T>(reader: BitReader, r: Result<T>, spec: Result<(T, seq<bool>)>)
    reads reader
  {
    && reader.Valid() && (r.Ok? <==> spec.Ok?)
    && (r.Ok? ==> spec == Ok((r.value, reader.Remaining())))
  }

  lemma NoLengths(bits: seq<bool>)
    ensures ReadClclen(bits, 0) == Ok(([], bits))
  {
  }

  lemma NextLengths(bits: seq<bool>, i: nat, lengths: seq<nat>, rest: seq<bool>)
    requires ReadClclen(bits, i) == Ok((lengths, rest))
    ensures |rest| < CLCLEN_BITS ==> ReadClclen(bits, i + 1) == InvalidInput
    ensures |rest| >= CLCLEN_BITS ==>
      ReadClclen(bits, i + 1) == Ok((lengths + [ValueOf(rest[..CLCLEN_BITS])], rest[CLCLEN_BITS..]))
  {
  }

  lemma {:induction false} FailedLengths(bits: seq<bool>, i: nat, count: nat)
    requires i <= count && ReadClclen(bits, i) == InvalidInput
    ensures ReadClclen(bits, count) == InvalidInput
  {
    if i < count {
      FailedLengths(bits, i, count - 1);
    }
  }

  method DecodeClclen(reader: BitReader) returns (r: Result<seq<nat>>)
    requires reader.Valid()
    modifies reader
    ensures Reads(reader, r, ReadClTable(old(reader.Remaining())))
  {
    hide ReadClclen, BitReader.Remaining, BitReader.Valid, ValueOf, AtMost, Pow2, Extended;
    FourBits();
    var numCodes := reader.DecodeBits(EXTRA_CODE_BITS);
    if numCodes.InvalidInput? {
      return InvalidInput;
    }
    ghost var bits := reader.Remaining();
    ValueBound(old(reader.Remaining())[..EXTRA_CODE_BITS]);
    var count := numCodes.value + ALWAYS_SENT;
    var lengths: seq<nat> := [];
    NoLengths(bits);
    for i := 0 to count
      invariant reader.Valid()
      invariant ReadClclen(bits, i) == Ok((lengths, reader.Remaining()))
    {
      NextLengths(bits, i, lengths, reader.Remaining());
      var value := reader.DecodeBits(CLCLEN_BITS);
      if value.InvalidInput? {
        FailedLengths(bits, i + 1, count);
        return InvalidInput;
      }
      lengths := lengths + [value.value];
    }
    return Ok(Extended(lengths));
  }

  lemma PrefixSpec(bits: seq<bool>)
    ensures
      var table := ReadClTable(bits);
      && (table.InvalidInput? ==> ReadPrefix(bits) == InvalidInput)
      && (table.Ok? ==>
            && InRange(Start(FIRST_LIST)) && |table.value.0| <= |FIRST_LIST| + 1 && Start(FIRST_LIST).values == []
            && ReadPrefix(bits) == UnmtfBits(Start(FIRST_LIST), table.value.1, table.value.0, MAX_CLCLEN,
                                             ALPHABET_SIZE, ALPHABET_SIZE))
  {
    hide ReadClTable, UnmtfBits;
  }

  method DecodePrefix(reader: BitReader) returns (r: Result<seq<nat>>)
    requires reader.Valid()
    modifies reader
    ensures Reads(reader, r, ReadPrefix(old(reader.Remaining())))
  {
    hide ReadClTable, ReadPrefix, UnmtfBits, Decodes, AtMost, BitReader.Remaining, BitReader.Valid, Start;
    SmallAlphabets();
    PrefixSpec(reader.Remaining());
    var clclen := DecodeClclen(reader);
    if clclen.InvalidInput? {
      return InvalidInput;
    }
    var inorder, base, limit := new nat[TOTAL_CODES], new nat[MAX_CLCLEN + 2], new nat[MAX_CLCLEN + 2];
    var minClen, maxClen := BuildDecoder(clclen.value, MAX_CLCLEN, inorder, base, limit);
    var mtf := new nat[|FIRST_LIST|](i requires 0 <= i < |FIRST_LIST| => FIRST_LIST[i]);
    assert mtf[..] == FIRST_LIST;
    r := Decode12(reader, inorder[..], base[..], limit[..], minClen, maxClen, mtf,
                  ALPHABET_SIZE, ALPHABET_SIZE, clclen.value, MAX_CLCLEN);
  }

  /** What is still to be read, put behind what has been read. */
  function Behind(values: seq<nat>, r: Result<(seq<nat>, seq<bool>)>): Result<(seq<nat>, seq<bool>)> {
    match r
    case InvalidInput => InvalidInput
    case Ok((vs, rest)) => Ok((values + vs, rest))
  }

  lemma BehindNothing(r: Result<(seq<nat>, seq<bool>)>)
    ensures Behind([], r) == r
  {
    if r.Ok? {
      assert [] + r.value.0 == r.value.0;
    }
  }

  lemma BehindNext(clen: seq<nat>, bits: seq<bool>, n: nat, values: seq<nat>)
    requires n > 0
    ensures
      match Read(clen, bits, MAX_CODELEN)
      case InvalidInput => Behind(values, ReadMany(clen, bits, n, MAX_CODELEN)) == InvalidInput
      case Ok((v, rest)) =>
        Behind(values, ReadMany(clen, bits, n, MAX_CODELEN))
        == Behind(values + [v], ReadMany(clen, rest, n - 1, MAX_CODELEN))
  {
    hide Read;
    var read := Read(clen, bits, MAX_CODELEN);
    if read.Ok? {
      var others := ReadMany(clen, read.value.1, n - 1, MAX_CODELEN);
      if others.Ok? {
        Associate(values, [read.value.0], others.value.0);
      }
    }
  }

  lemma BehindAll(clen: seq<nat>, bits: seq<bool>, values: seq<nat>)
    ensures Behind(values, ReadMany(clen, bits, 0, MAX_CODELEN)) == Ok((values, bits))
  {
    assert values + [] == values;
  }

  method DecodeValues(reader: BitReader, clen: seq<nat>, n: nat) returns (r: Result<seq<nat>>)
    requires reader.Valid() && |clen| == ALPHABET_SIZE && AtMost(clen, MAX_CODELEN)
    modifies reader
    ensures Reads(reader, r, ReadMany(clen, old(reader.Remaining()), n, MAX_CODELEN))
  {
    hide ReadMany, Behind, Read, Decodes, AtMost, BitReader.Remaining, BitReader.Valid;
    var inorder, base, limit := new nat[ALPHABET_SIZE], new nat[TOTAL_CODES], new nat[TOTAL_CODES];
    var minClen, maxClen := BuildDecoder(clen, MAX_CODELEN, inorder, base, limit);
    var tables := (inorder[..], base[..], limit[..]);
    ghost var spec := ReadMany(clen, reader.Remaining(), n, MAX_CODELEN);
    BehindNothing(spec);
    var values: seq<nat> := [];
    for i := 0 to n
      invariant reader.Valid()
      invariant spec == Behind(values, ReadMany(clen, reader.Remaining(), n - i, MAX_CODELEN))
    {
      BehindNext(clen, reader.Remaining(), n - i, values);
      var sym := DecodeSymbol(reader, tables.0, tables.1, tables.2, minClen, maxClen, ALPHABET_SIZE, clen, MAX_CODELEN);
      if sym.InvalidInput? {
        return InvalidInput;
      }
      values := values + [sym.value];
    }
    BehindAll(clen, reader.Remaining(), values);
    return Ok(values);
  }

  datatype Reply = Values(values: seq<nat>) | Bad | Unsupported

  /** Expands `n` values; files with several groups are told apart but not expanded here. */
  method DecodeHuff(reader: BitReader, n: nat) returns (r: Reply)
    requires reader.Valid()
    modifies reader
    ensures reader.Valid()
    ensures
      match DecodeSection(old(reader.Remaining()), n)
      case Corrupt => r == Bad
      case SeveralGroups => r == Unsupported
      case Decoded(values, rest) => r == Values(values) && reader.Remaining() == rest
  {
    hide ReadPrefix, ReadMany, BitReader.Remaining, BitReader.Valid, ValueOf;
    if n == 0 {
      return Bad;
    }
    var groups := reader.DecodeBits(GROUP_BITS);
    if groups.InvalidInput? {
      return Bad;
    }
    if groups.value > 0 {
      return Unsupported;
    }
    var clen := DecodePrefix(reader);
    if clen.InvalidInput? {
      return Bad;
    }
    var values := DecodeValues(reader, clen.value, n);
    return if values.InvalidInput? then Bad else Values(values.value);
  }
}
