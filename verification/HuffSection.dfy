/** A whole section compressed with one Huffman group: what the encoder writes, the decoder takes back exactly. */
module HuffSection {
  import opened Arithmetic
  import opened Bytes
  import opened BitStream
  import opened CanonicalCode
  import opened HuffmanTables
  import opened MtfRuns
  import opened MtfCoder
  import opened PrefixBuilder
  import opened Results
  import PrefixTree

  const GROUP_BITS: nat := 3
  const EXTRA_CODE_BITS: nat := 4
  const CLCLEN_BITS: nat := 4
  const MAX_CLCLEN: nat := 15
  /** The codes whose lengths are always sent: two run digits and five common code lengths. */
  const ALWAYS_SENT: nat := 7
  const EFFICIENCY_BITS: nat := 16

  /** The list of code lengths the move-to-front coder starts from. */
  const FIRST_LIST: seq<nat> := [0, 4, 5, 6, 7, 8, 9, 10, 3, 11, 2, 12, 13, 1, 14, 15, 16, 17, 18, 19, 20]

  /** Zero comes first, then the lengths from 4 to 10, then the uncommon ones, and from 14 on each at its own number. */
  function Place(x: nat): nat {
    if x == 0 then 0
    else if 4 <= x <= 10 then x - 3
    else if x == 3 then 8
    else if x == 11 then 9
    else if x == 2 then 10
    else if x == 12 then 11
    else if x == 13 then 12
    else if x == 1 then 13
    else x
  }

  lemma PlacesOfList(i: nat)
    requires i <= 20
    ensures |FIRST_LIST| == 21 && Place(FIRST_LIST[i]) == i
  {
  }

  lemma ListAtPlaces(x: nat)
    requires x <= 20
    ensures |FIRST_LIST| == 21 && Place(x) <= 20 && FIRST_LIST[Place(x)] == x
  {
  }

  /** Every length has its place in the list, and only there. */
  lemma PlaceOfLength(x: nat)
    requires x <= 20
    ensures |FIRST_LIST| == 21 && x in FIRST_LIST
    ensures IndexOf(FIRST_LIST, x) == Place(x)
  {
    hide Place;
    ListAtPlaces(x);
    forall i | 0 <= i < Place(x) ensures FIRST_LIST[i] != x {
      PlacesOfList(i);
    }
    FirstIndex(FIRST_LIST, x, Place(x));
  }

  lemma AllLengthsListed(clen: seq<nat>)
    requires AtMost(clen, MAX_CODELEN)
    ensures AllIn(clen, FIRST_LIST)
  {
    forall k | 0 <= k < |clen| ensures clen[k] in FIRST_LIST {
      PlaceOfLength(clen[k]);
    }
  }

  // ----- What a section means

  datatype Outcome = Decoded(values: seq<nat>, rest: seq<bool>) | Corrupt | SeveralGroups

  function ReadBits(bits: seq<bool>, n: nat): (r: Result<(nat, seq<bool>)>)
    ensures r.Ok? ==> r.value.0 < Pow2(n)
  {
    if |bits| < n then InvalidInput
    else
      ValueBound(bits[..n]);
      Ok((ValueOf(bits[..n]), bits[n..]))
  }

  /** The lengths of the codes for code lengths, four bits each. */
  function ReadClclen(bits: seq<bool>, count: nat): (r: Result<(seq<nat>, seq<bool>)>)
    ensures r.Ok? ==> |r.value.0| == count && AtMost(r.value.0, MAX_CLCLEN)
  {
    if count == 0 then Ok(([], bits))
    else
      var others :- ReadClclen(bits, count - 1);
      var next :- ReadBits(others.1, CLCLEN_BITS);
      FourBits();
      Ok((others.0 + [next.0], next.1))
  }

  function Extended(s: seq<nat>): (r: seq<nat>)
    requires |s| <= TOTAL_CODES
    ensures |r| == TOTAL_CODES
  {
    s + seq(TOTAL_CODES - |s|, _ => 0)
  }

  /** The table of codes for code lengths. */
  function ReadClTable(bits: seq<bool>): (r: Result<(seq<nat>, seq<bool>)>)
    ensures r.Ok? ==> |r.value.0| == TOTAL_CODES && AtMost(r.value.0, MAX_CLCLEN)
  {
    var extra :- ReadBits(bits, EXTRA_CODE_BITS);
    FourBits();
    var clclen :- ReadClclen(extra.1, extra.0 + ALWAYS_SENT);
    Ok((Extended(clclen.0), clclen.1))
  }

  /** The code lengths of the alphabet, from the bits behind the group count. */
  function ReadPrefix(bits: seq<bool>): (r: Result<(seq<nat>, seq<bool>)>)
    ensures r.Ok? ==> |r.value.0| == ALPHABET_SIZE && AtMost(r.value.0, MAX_CODELEN)
  {
    var table :- ReadClTable(bits);
    UnmtfBitsRange(Start(FIRST_LIST), table.1, table.0, MAX_CLCLEN, ALPHABET_SIZE, ALPHABET_SIZE, MAX_CODELEN);
    UnmtfBits(Start(FIRST_LIST), table.1, table.0, MAX_CLCLEN, ALPHABET_SIZE, ALPHABET_SIZE)
  }

  lemma {:induction false} UnmtfBitsRange(st: State, bits: seq<bool>, clen: seq<nat>, m: nat, elts: nat, skip: nat,
                                          max: nat)
    requires InRange(st) && |st.values| <= elts && |clen| <= |st.list| + 1
    requires AtMost(st.values, max) && AtMost(st.list, max)
    ensures
      var r := UnmtfBits(st, bits, clen, m, elts, skip);
      r.Ok? ==> |r.value.0| == elts && AtMost(r.value.0, max)
    decreases elts - |st.values|, |bits|
  {
    if |st.values| < elts {
      if !NeedsCode(st, skip) {
        UnmtfBitsRange(Put(st, skip), bits, clen, m, elts, skip, max);
      } else if Read(clen, bits, m).Ok? {
        var read := Read(clen, bits, m).value;
        UnmtfBitsRange(Take(st, read.0), read.1, clen, m, elts, skip, max);
      }
    }
  }

  /** The `n` values of a section; a section of no values at all is refused. */
  function DecodeSection(bits: seq<bool>, n: nat): Outcome {
    var groups := ReadBits(bits, GROUP_BITS);
    if n == 0 || groups.InvalidInput? then Corrupt
    else if groups.value.0 > 0 then SeveralGroups
    else
      var prefix := ReadPrefix(groups.value.1);
      if prefix.InvalidInput? then Corrupt
      else
        match ReadMany(prefix.value.0, prefix.value.1, n, MAX_CODELEN)
        case InvalidInput => Corrupt
        case Ok((values, rest)) => Decoded(values, rest)
  }

  // ----- The bits the encoder writes

  function ClclenBits(lengths: seq<nat>): seq<bool> {
    if lengths == [] then []
    else
      var n := |lengths| - 1;
      ClclenBits(lengths[..n]) + Bits(lengths[n], CLCLEN_BITS)
  }

  lemma ReadBitsBack(v: nat, n: nat, rest: seq<bool>)
    requires v < Pow2(n)
    ensures ReadBits(Bits(v, n) + rest, n) == Ok((v, rest))
  {
    ValueOfBits(v, n);
    assert (Bits(v, n) + rest)[..n] == Bits(v, n) && (Bits(v, n) + rest)[n..] == rest;
  }

  lemma AssociateBits(a: seq<bool>, b: seq<bool>, c: seq<bool>)
    ensures a + b + c == a + (b + c)
  {
  }

  lemma {:induction false} ReadClclenBack(lengths: seq<nat>, rest: seq<bool>)
    requires AtMost(lengths, MAX_CLCLEN)
    ensures ReadClclen(ClclenBits(lengths) + rest, |lengths|) == Ok((lengths, rest))
  {
    if lengths == [] {
      assert ClclenBits(lengths) + rest == rest;
    } else {
      var n := |lengths| - 1;
      var last := Bits(lengths[n], CLCLEN_BITS);
      AssociateBits(ClclenBits(lengths[..n]), last, rest);
      ReadClclenBack(lengths[..n], last + rest);
      assert Pow2(CLCLEN_BITS) == 16;
      ReadBitsBack(lengths[n], CLCLEN_BITS, rest);
      assert lengths[..n] + [lengths[n]] == lengths;
    }
  }

  /** The code-length codes that the encoder sends: all of them up to the last one in use, but at least the first seven. */
  predicate Sent(clclen: seq<nat>, count: nat) {
    && |clclen| == TOTAL_CODES && ALWAYS_SENT <= count <= TOTAL_CODES
    && (forall i :: count <= i < TOTAL_CODES ==> clclen[i] == 0)
  }

  lemma SentExtends(clclen: seq<nat>, count: nat)
    requires Sent(clclen, count)
    ensures Extended(clclen[..count]) == clclen
  {
  }

  function PrefixBits(clclen: seq<nat>, count: nat, codes: seq<nat>): seq<bool>
    requires Sent(clclen, count) && Coded(clclen, codes)
  {
    Bits(count - ALWAYS_SENT, EXTRA_CODE_BITS) + (ClclenBits(clclen[..count]) + Codewords(clclen, codes))
  }

  /** The header of a group gives back the code lengths it was made from. */
  lemma PrefixReadsBack(clen: seq<nat>, clclen: seq<nat>, count: nat, rest: seq<bool>)
    requires |clen| == ALPHABET_SIZE && AtMost(clen, MAX_CODELEN) && AllIn(clen, FIRST_LIST)
    requires Sent(clclen, count) && Feasible(clclen, MAX_CLCLEN) && Coded(clclen, MtfCodes(clen, FIRST_LIST, 0))
    ensures ReadPrefix(PrefixBits(clclen, count, MtfCodes(clen, FIRST_LIST, 0)) + rest) == Ok((clen, rest))
  {
    hide *;
    var codes := MtfCodes(clen, FIRST_LIST, 0);
    var words := Codewords(clclen, codes) + rest;
    var start := Start(FIRST_LIST);
    SentFacts(clclen, count);
    FourBits();
    PrefixParts(clclen, count, codes, rest);
    var others := ClclenBits(clclen[..count]) + words;
    ReadBitsBack(count - ALWAYS_SENT, EXTRA_CODE_BITS, others);
    ReadClclenBack(clclen[..count], words);
    SentExtends(clclen, count);
    OneGroupCodes(clen);
    BitsFollowCodes(start, codes, rest, clclen, MAX_CLCLEN, ALPHABET_SIZE, ALPHABET_SIZE, clen);
    ReadPrefixSteps(PrefixBits(clclen, count, codes) + rest, count - ALWAYS_SENT, others, clclen[..count], words);
  }

  lemma SentFacts(clclen: seq<nat>, count: nat)
    requires Sent(clclen, count) && Feasible(clclen, MAX_CLCLEN)
    ensures ALWAYS_SENT <= count <= TOTAL_CODES == |clclen| && AtMost(clclen[..count], MAX_CLCLEN)
    ensures count - ALWAYS_SENT < 16 && |clclen| == |FIRST_LIST| + 1
  {
  }

  lemma FourBits()
    ensures EXTRA_CODE_BITS == 4 && CLCLEN_BITS == 4 && Pow2(4) == 16
  {
  }

  lemma ReadPrefixSteps(bits: seq<bool>, extra: nat, others: seq<bool>, lengths: seq<nat>, words: seq<bool>)
    requires ReadBits(bits, EXTRA_CODE_BITS) == Ok((extra, others)) && extra + ALWAYS_SENT <= TOTAL_CODES
    requires ReadClclen(others, extra + ALWAYS_SENT) == Ok((lengths, words)) && |lengths| <= TOTAL_CODES
    ensures InRange(Start(FIRST_LIST)) && |Start(FIRST_LIST).values| == 0 && |FIRST_LIST| == TOTAL_CODES - 1
    ensures ReadPrefix(bits)
         == UnmtfBits(Start(FIRST_LIST), words, Extended(lengths), MAX_CLCLEN, ALPHABET_SIZE, ALPHABET_SIZE)
  {
    hide ReadBits, ReadClclen, UnmtfBits, Extended;
  }

  lemma PrefixParts(clclen: seq<nat>, count: nat, codes: seq<nat>, rest: seq<bool>)
    requires Sent(clclen, count) && Coded(clclen, codes)
    ensures PrefixBits(clclen, count, codes) + rest
         == Bits(count - ALWAYS_SENT, EXTRA_CODE_BITS)
            + (ClclenBits(clclen[..count]) + (Codewords(clclen, codes) + rest))
  {
    var a, b, c := Bits(count - ALWAYS_SENT, EXTRA_CODE_BITS), ClclenBits(clclen[..count]), Codewords(clclen, codes);
    AssociateBits(a, b + c, rest);
    AssociateBits(b, c, rest);
  }

  /** With one group no position is skipped. */
  lemma OneGroupCodes(clen: seq<nat>)
    requires |clen| == ALPHABET_SIZE && AllIn(clen, FIRST_LIST)
    ensures InRange(Start(FIRST_LIST)) && Start(FIRST_LIST).values == [] && Start(FIRST_LIST).list == FIRST_LIST
    ensures Unmtf(Start(FIRST_LIST), MtfCodes(clen, FIRST_LIST, 0), ALPHABET_SIZE, ALPHABET_SIZE) == Ok((clen, []))
  {
    KeptAll(clen, 0, ALPHABET_SIZE);
    assert clen[0..] == clen;
    MtfRoundTrip(clen, FIRST_LIST, ALPHABET_SIZE);
  }

  lemma {:induction false} KeptAll(w: seq<nat>, n: nat, skip: nat)
    requires n <= |w| <= skip
    ensures Kept(w, n, skip) == w[n..]
    decreases |w| - n
  {
    if n < |w| {
      KeptAll(w, n + 1, skip);
    }
  }

  /** What a compressed section consists of, and that it stands for the values it was made from. */
  lemma SectionReadsBack(values: seq<nat>, clen: seq<nat>, clclen: seq<nat>, count: nat, rest: seq<bool>)
    requires |clen| == ALPHABET_SIZE && Feasible(clen, MAX_CODELEN) && AllIn(clen, FIRST_LIST)
    requires values != [] && Coded(clen, values)
    requires Sent(clclen, count) && Feasible(clclen, MAX_CLCLEN) && Coded(clclen, MtfCodes(clen, FIRST_LIST, 0))
    ensures
      var codes := MtfCodes(clen, FIRST_LIST, 0);
      DecodeSection(Bits(0, GROUP_BITS) + PrefixBits(clclen, count, codes) + Codewords(clen, values) + rest, |values|)
      == Decoded(values, rest)
  {
    hide ReadPrefix, PrefixBits, ReadMany, Codewords, MtfCodes, ReadBits, Bits;
    var codes := MtfCodes(clen, FIRST_LIST, 0);
    var g, p, d := Bits(0, GROUP_BITS), PrefixBits(clclen, count, codes), Codewords(clen, values);
    AssociateBits(g + p, d, rest);
    AssociateBits(g, p, d + rest);
    ReadBitsBack(0, GROUP_BITS, p + (d + rest));
    PrefixReadsBack(clen, clclen, count, d + rest);
    ReadsManyBack(clen, values, rest, MAX_CODELEN);
  }
}
