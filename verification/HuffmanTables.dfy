/** The loops that fill the code and decoder tables, and the decoder that reads one symbol with them. */
module HuffmanTables {
  import opened Sequences
  import opened BitStream
  import opened CanonicalCode
  import opened Results

  lemma {:induction false} UnusedBelow(clen: seq<nat>, l: nat)
    requires forall k :: 1 <= k <= l ==> CountOf(clen, k) == 0
    ensures Used(clen, l) == 0 && Shorter(clen, l + 1) == 0
  {
    if l > 0 {
      UnusedBelow(clen, l - 1);
    }
  }

  lemma {:induction false} CountedSymbol(clen: seq<nat>, l: nat)
    requires CountOf(clen, l) > 0
    ensures exists i :: 0 <= i < |clen| && clen[i] == l
  {
    var i := SymbolOf(clen, l, 0);
    assert clen[i] == l;
  }

  lemma CountsItself(clen: seq<nat>, i: nat)
    requires i < |clen|
    ensures CountOf(clen, clen[i]) > 0
  {
    CountGrows(clen, i, clen[i]);
  }

  lemma CountStep(clen: seq<nat>, i: nat, l: nat)
    requires i < |clen|
    ensures CountOf(clen[..i + 1], l) == CountOf(clen[..i], l) + (if clen[i] == l then 1 else 0)
  {
    assert clen[..i + 1][..i] == clen[..i];
  }

  /** How the layout of the codes goes from one length to the next. */
  lemma NextLength(clen: seq<nat>, l: nat)
    requires l > 0
    ensures FirstCode(clen, l) == 2 * Used(clen, l - 1)
    ensures Used(clen, l) == FirstCode(clen, l) + CountOf(clen, l)
    ensures Shorter(clen, l + 1) == Shorter(clen, l) + CountOf(clen, l)
  {
  }

  lemma RangeStep(clen: seq<nat>, l: nat)
    requires l > 1
    ensures Used(clen, l) == 2 * Used(clen, l - 1) + CountOf(clen, l)
    ensures Shorter(clen, l) == Shorter(clen, l - 1) + CountOf(clen, l - 1)
    ensures Shorter(clen, l) <= FirstCode(clen, l) == 2 * Used(clen, l - 1)
  {
    BaseIsNatural(clen, l);
  }

  /** Nothing is read once the lengths in use are exhausted. */
  lemma {:induction false} ReadBeyond(clen: seq<nat>, bits: seq<bool>, l: nat, m: nat)
    requires 1 <= l <= |bits| + 1
    requires Used(clen, l - 1) <= ValueOf(bits[..l - 1])
    requires forall k :: l <= k <= m ==> CountOf(clen, k) == 0
    ensures ReadSymbol(clen, bits, l, m) == InvalidInput
    decreases |bits| - l
  {
    if l <= m && l <= |bits| {
      assert bits[..l][..l - 1] == bits[..l - 1];
      assert CountOf(clen, l) == 0;
      ReadBeyond(clen, bits, l + 1, m);
    }
  }

  method BuildCodes(codes: array<nat>, clen: seq<nat>, absMax: nat)
    requires codes.Length == |clen|
    requires AtMost(clen, absMax) && absMax <= MAX_CODELEN
    modifies codes
    ensures forall i :: 0 <= i < |clen| && clen[i] > 0 ==> codes[i] == CodeOf(clen, i)
    ensures forall i :: 0 <= i < |clen| && clen[i] == 0 ==> codes[i] == old(codes[i])
  {
    var minClen, maxClen := MAX_CODELEN, 0;
    for i := 0 to |clen|
      invariant 1 <= minClen <= MAX_CODELEN && maxClen <= absMax
      invariant forall j :: 0 <= j < i ==> clen[j] <= maxClen
      invariant forall j :: 0 <= j < i && clen[j] > 0 ==> minClen <= clen[j]
    {
      if clen[i] > 0 && clen[i] < minClen {
        minClen := clen[i];
      }
      maxClen := if maxClen < clen[i] then clen[i] else maxClen;
    }
    forall k | 1 <= k <= minClen - 1 ensures CountOf(clen, k) == 0 {
      if CountOf(clen, k) > 0 {
        CountedSymbol(clen, k);
      }
    }
    UnusedBelow(clen, minClen - 1);
    NextLength(clen, minClen);
    hide FirstCode, Used, CountOf;
    var code, l := 0, minClen;
    while l <= maxClen
      invariant minClen <= l
      invariant minClen <= maxClen ==> l <= maxClen + 1
      invariant code == FirstCode(clen, l)
      invariant forall i :: 0 <= i < |clen| && 0 < clen[i] < l ==> codes[i] == CodeOf(clen, i)
      invariant forall i :: 0 <= i < |clen| && clen[i] == 0 ==> codes[i] == old(codes[i])
    {
      code := AssignCodes(codes, clen, l, code);
      NextLength(clen, l);
      NextLength(clen, l + 1);
      code := 2 * code;
      l := l + 1;
    }
  }

  method AssignCodes(codes: array<nat>, clen: seq<nat>, l: nat, first: nat) returns (code: nat)
    requires codes.Length == |clen| && l > 0 && first == FirstCode(clen, l)
    modifies codes
    ensures code == first + CountOf(clen, l)
    ensures forall i :: 0 <= i < |clen| && clen[i] == l ==> codes[i] == CodeOf(clen, i)
    ensures forall i :: 0 <= i < |clen| && clen[i] != l ==> codes[i] == old(codes[i])
  {
    assert CountOf(clen[..0], l) == 0;
    hide FirstCode, Used, CountOf;
    code := first;
    for i := 0 to |clen|
      invariant code == first + CountOf(clen[..i], l)
      invariant forall j :: 0 <= j < i && clen[j] == l ==> codes[j] == CodeOf(clen, j)
      invariant forall j :: 0 <= j < |clen| && (clen[j] != l || j >= i) ==> codes[j] == old(codes[j])
    {
      CountStep(clen, i, l);
      if clen[i] == l {
        codes[i] := code;
        code := code + 1;
      }
    }
    assert clen[..|clen|] == clen;
  }

  /** What the decoder's tables must hold for a table of code lengths. */
  ghost predicate Decodes(clen: seq<nat>, absMax: nat, inorder: seq<nat>, base: seq<nat>, limit: seq<nat>,
                          minClen: nat, maxClen: nat) {
    && AtMost(clen, absMax)
    && (1 <= minClen <= maxClen <= absMax || (maxClen == 0 && minClen == absMax + 1))
    && absMax < |base| <= |limit| && |clen| <= |inorder|
    && (forall k :: 1 <= k < minClen || k > maxClen ==> CountOf(clen, k) == 0)
    && (forall k :: minClen <= k <= maxClen ==> limit[k] == Used(clen, k) - 1)
    && (forall k :: minClen <= k <= maxClen ==> base[k] == FirstCode(clen, k) - Shorter(clen, k))
    && (forall i :: 0 <= i < |clen| && clen[i] > 0 ==> inorder[Place(clen, i)] == i)
  }

  method BuildDecoder(clen: seq<nat>, absMax: nat, inorder: array<nat>, base: array<nat>, limit: array<nat>)
    returns (minClen: nat, maxClen: nat)
    requires AtMost(clen, absMax) && absMax <= MAX_CODELEN
    requires |clen| <= inorder.Length && absMax < base.Length <= limit.Length
    requires inorder != base && inorder != limit && base != limit
    modifies inorder, base, limit
    ensures Decodes(clen, absMax, inorder[..], base[..], limit[..], minClen, maxClen)
  {
    var nrClen, tmpBase := new nat[MAX_CODELEN + 2], new nat[MAX_CODELEN + 2];
    CountLengths(clen, absMax, nrClen);
    minClen := 1;
    while minClen <= absMax && nrClen[minClen] == 0
      invariant 1 <= minClen <= absMax + 1
      invariant forall k :: 1 <= k < minClen ==> CountOf(clen, k) == 0
    {
      minClen := minClen + 1;
    }
    maxClen := absMax;
    while maxClen != 0 && nrClen[maxClen] == 0
      invariant maxClen <= absMax
      invariant minClen <= absMax ==> minClen <= maxClen
      invariant forall k :: maxClen < k <= absMax ==> CountOf(clen, k) == 0
    {
      maxClen := maxClen - 1;
    }
    forall k | k > absMax ensures CountOf(clen, k) == 0 {
      if CountOf(clen, k) > 0 {
        CountedSymbol(clen, k);
      }
    }
    // Without any code there is nothing to fill in, and the reader stops before it looks at the tables.
    if minClen <= maxClen {
      FillRanges(clen, minClen, maxClen, nrClen, tmpBase, base, limit);
      ghost var filled := (base[..], limit[..]);
      FillInorder(clen, tmpBase, inorder, minClen, maxClen);
      assert base[..] == filled.0 && limit[..] == filled.1;
    } else {
      NoCodes(clen, minClen);
    }
  }

  lemma NoCodes(clen: seq<nat>, above: nat)
    requires AtMost(clen, above) && forall k :: 1 <= k <= above ==> CountOf(clen, k) == 0
    ensures forall i :: 0 <= i < |clen| ==> clen[i] == 0
  {
    forall i | 0 <= i < |clen| ensures clen[i] == 0 {
      CountsItself(clen, i);
    }
  }

  method CountLengths(clen: seq<nat>, absMax: nat, nrClen: array<nat>)
    requires AtMost(clen, absMax) && absMax < nrClen.Length
    modifies nrClen
    ensures forall k :: 0 <= k <= absMax ==> nrClen[k] == CountOf(clen, k)
  {
    for k := 0 to absMax + 1
      invariant forall j :: 0 <= j < k ==> nrClen[j] == 0
    {
      nrClen[k] := 0;
    }
    for i := 0 to |clen|
      invariant forall k :: 0 <= k <= absMax ==> nrClen[k] == CountOf(clen[..i], k)
    {
      assert clen[..i + 1][..i] == clen[..i];
      nrClen[clen[i]] := nrClen[clen[i]] + 1;
    }
    assert clen[..|clen|] == clen;
  }

  method FillRanges(clen: seq<nat>, minClen: nat, maxClen: nat,
                    nrClen: array<nat>, tmpBase: array<nat>, base: array<nat>, limit: array<nat>)
    requires 1 <= minClen <= maxClen < base.Length && maxClen < limit.Length
    requires maxClen < nrClen.Length == tmpBase.Length
    requires forall k :: 0 <= k <= maxClen ==> nrClen[k] == CountOf(clen, k)
    requires forall k :: 1 <= k < minClen ==> CountOf(clen, k) == 0
    requires CountOf(clen, minClen) > 0
    requires nrClen != tmpBase && base != limit && nrClen !in {base, limit} && tmpBase !in {base, limit}
    modifies tmpBase, base, limit
    ensures forall k :: minClen <= k <= maxClen ==> limit[k] == Used(clen, k) - 1
    ensures forall k :: minClen <= k <= maxClen ==> base[k] == FirstCode(clen, k) - Shorter(clen, k)
    ensures forall k :: minClen <= k <= maxClen ==> tmpBase[k] == Shorter(clen, k)
  {
    hide FirstCode, Used, CountOf, Shorter;
    UnusedBelow(clen, minClen - 1);
    NextLength(clen, minClen);
    tmpBase[minClen] := 0;
    base[minClen] := 0;
    limit[minClen] := nrClen[minClen] - 1;
    for i := minClen + 1 to maxClen + 1
      invariant Used(clen, i - 1) > 0
      invariant forall k :: minClen <= k < i ==> limit[k] == Used(clen, k) - 1
      invariant forall k :: minClen <= k < i ==> base[k] == FirstCode(clen, k) - Shorter(clen, k)
      invariant forall k :: minClen <= k < i ==> tmpBase[k] == Shorter(clen, k)
    {
      RangeStep(clen, i);
      var lastLimit := 2 * (limit[i - 1] + 1);
      tmpBase[i] := tmpBase[i - 1] + nrClen[i - 1];
      limit[i] := lastLimit + nrClen[i] - 1;
      base[i] := lastLimit - tmpBase[i];
    }
  }

  method FillInorder(clen: seq<nat>, tmpBase: array<nat>, inorder: array<nat>, minClen: nat, maxClen: nat)
    requires 1 <= minClen <= maxClen < tmpBase.Length && |clen| <= inorder.Length && tmpBase != inorder
    requires forall k :: minClen <= k <= maxClen ==> tmpBase[k] == Shorter(clen, k)
    requires forall k :: 1 <= k < minClen || k > maxClen ==> CountOf(clen, k) == 0
    modifies tmpBase, inorder
    ensures forall i :: 0 <= i < |clen| && clen[i] > 0 ==> inorder[Place(clen, i)] == i
  {
    hide Offsets, Placed;
    StartPlacing(clen, tmpBase[..], inorder[..], minClen, maxClen);
    for i := 0 to |clen|
      invariant Offsets(clen, tmpBase[..], i, minClen, maxClen) && Placed(clen, inorder[..], i)
    {
      ghost var offsets, placed := tmpBase[..], inorder[..];
      PlaceStep(clen, offsets, placed, i, minClen, maxClen);
      var l := clen[i];
      if l != 0 {
        inorder[tmpBase[l]] := i;
        tmpBase[l] := tmpBase[l] + 1;
        assert inorder[..] == placed[offsets[l] := i];
        assert tmpBase[..] == offsets[l := offsets[l] + 1];
      }
    }
    AllPlaced(clen, inorder[..]);
  }

  /** While the first `i` symbols are being put in order, `offsets` holds where the next one of each length goes. */
  ghost predicate Offsets(clen: seq<nat>, offsets: seq<nat>, i: nat, minClen: nat, maxClen: nat) {
    && i <= |clen| && 1 <= minClen <= maxClen < |offsets|
    && (forall k :: 1 <= k < minClen || k > maxClen ==> CountOf(clen, k) == 0)
    && (forall k :: minClen <= k <= maxClen ==> offsets[k] == Shorter(clen, k) + CountOf(clen[..i], k))
  }

  ghost predicate Placed(clen: seq<nat>, inorder: seq<nat>, i: nat) {
    && i <= |clen| <= |inorder|
    && (forall j :: 0 <= j < i && clen[j] > 0 ==> inorder[Place(clen, j)] == j)
  }

  lemma StartPlacing(clen: seq<nat>, offsets: seq<nat>, inorder: seq<nat>, minClen: nat, maxClen: nat)
    requires 1 <= minClen <= maxClen < |offsets| && |clen| <= |inorder|
    requires forall k :: minClen <= k <= maxClen ==> offsets[k] == Shorter(clen, k)
    requires forall k :: 1 <= k < minClen || k > maxClen ==> CountOf(clen, k) == 0
    ensures Offsets(clen, offsets, 0, minClen, maxClen) && Placed(clen, inorder, 0)
  {
    assert forall k :: CountOf(clen[..0], k) == 0;
  }

  lemma AllPlaced(clen: seq<nat>, inorder: seq<nat>)
    requires Placed(clen, inorder, |clen|)
    ensures |clen| <= |inorder|
    ensures forall i :: 0 <= i < |clen| && clen[i] > 0 ==> inorder[Place(clen, i)] == i
  {
  }

  lemma PlaceStep(clen: seq<nat>, offsets: seq<nat>, inorder: seq<nat>, i: nat, minClen: nat, maxClen: nat)
    requires i < |clen| && Offsets(clen, offsets, i, minClen, maxClen) && Placed(clen, inorder, i)
    ensures clen[i] == 0 ==> Offsets(clen, offsets, i + 1, minClen, maxClen) && Placed(clen, inorder, i + 1)
    ensures clen[i] > 0 ==>
      && clen[i] < |offsets| && offsets[clen[i]] < |inorder|
      && Offsets(clen, offsets[clen[i] := offsets[clen[i]] + 1], i + 1, minClen, maxClen)
      && Placed(clen, inorder[offsets[clen[i]] := i], i + 1)
  {
    hide CountOf, Shorter, Place;
    forall k | minClen <= k <= maxClen
      ensures CountOf(clen[..i + 1], k) == CountOf(clen[..i], k) + (if clen[i] == k then 1 else 0)
    {
      CountStep(clen, i, k);
    }
    if clen[i] > 0 {
      CountsItself(clen, i);
      NextPlace(clen, i);
    }
  }

  lemma NextPlace(clen: seq<nat>, i: nat)
    requires i < |clen| && clen[i] > 0
    ensures Place(clen, i) == Shorter(clen, clen[i]) + CountOf(clen[..i], clen[i])
    ensures forall j :: 0 <= j < i && clen[j] > 0 ==> Place(clen, j) != Place(clen, i)
  {
    forall j | 0 <= j < i && clen[j] > 0 ensures Place(clen, j) != Place(clen, i) {
      PlacesDiffer(clen, j, i);
    }
  }

  /** With the tables at hand, comparing with `limit` is comparing with the codes used so far. */
  lemma LimitTest(clen: seq<nat>, absMax: nat, inorder: seq<nat>, base: seq<nat>, limit: seq<nat>,
                  minClen: nat, maxClen: nat, l: nat)
    requires Decodes(clen, absMax, inorder, base, limit, minClen, maxClen)
    requires 1 <= l <= maxClen
    ensures maxClen < |base| <= |limit|
    ensures l < minClen ==> Used(clen, l) == 0
    ensures l >= minClen ==> limit[l] + 1 == Used(clen, l)
  {
    hide Used, CountOf;
    if l < minClen {
      UnusedBelow(clen, l);
    }
  }

  lemma OffsetTest(clen: seq<nat>, absMax: nat, inorder: seq<nat>, base: seq<nat>, limit: seq<nat>,
                   minClen: nat, maxClen: nat, l: nat, code: nat)
    requires Decodes(clen, absMax, inorder, base, limit, minClen, maxClen)
    requires minClen <= l <= maxClen && FirstCode(clen, l) <= code < Used(clen, l)
    ensures l < |base| && base[l] <= code && code - base[l] < |clen| <= |inorder|
    ensures inorder[code - base[l]] == SymbolOf(clen, l, code - FirstCode(clen, l))
  {
    NextLength(clen, l);
    var i := SymbolOf(clen, l, code - FirstCode(clen, l));
    assert code - base[l] == Place(clen, i);
  }

  function PrefixValue(all: seq<bool>, l: nat): nat
    requires l <= |all|
  {
    ValueOf(all[..l])
  }

  function From(all: seq<bool>, l: nat): seq<bool>
    requires l <= |all|
  {
    all[l..]
  }

  ghost predicate Reading(clen: seq<nat>, all: seq<bool>, l: nat, m: nat, code: nat) {
    && l <= |all| && code == PrefixValue(all, l) && Used(clen, l) <= code
    && Read(clen, all, m) == ReadSymbol(clen, all, l + 1, m)
  }

  lemma StartReading(clen: seq<nat>, all: seq<bool>, m: nat)
    ensures Reading(clen, all, 0, m, 0) && From(all, 0) == all
  {
  }

  lemma NoneToRead(clen: seq<nat>, all: seq<bool>, l: nat, m: nat, code: nat)
    requires Reading(clen, all, l, m, code)
    requires l == |all| || forall k :: l < k <= m ==> CountOf(clen, k) == 0
    ensures Read(clen, all, m) == InvalidInput
  {
    if l < |all| {
      ReadBeyond(clen, all, l + 1, m);
    }
  }

  /** One step of the reader: a further bit either ends the code or leaves it above all codes of this length. */
  lemma ReadStep(clen: seq<nat>, all: seq<bool>, l: nat, m: nat, code: nat, next: nat)
    requires Reading(clen, all, l, m, code) && l < m && l < |all|
    requires next == 2 * code + (if From(all, l)[0] then 1 else 0)
    ensures From(all, l)[1..] == From(all, l + 1)
    ensures FirstCode(clen, l + 1) <= next
    ensures next >= Used(clen, l + 1) ==> Reading(clen, all, l + 1, m, next)
    ensures next < Used(clen, l + 1) ==>
      && next - FirstCode(clen, l + 1) < CountOf(clen, l + 1)
      && Read(clen, all, m) == Ok((SymbolOf(clen, l + 1, next - FirstCode(clen, l + 1)), From(all, l + 1)))
  {
    assert all[..l + 1][..l] == all[..l];
    NextLength(clen, l + 1);
  }

  /** Takes bits until they form a code that the limits accept; the code and its length are returned. */
  method DecodeCode(reader: BitReader, limit: seq<nat>, minClen: nat, maxClen: nat,
                    ghost clen: seq<nat>, ghost absMax: nat, ghost inorder: seq<nat>, ghost base: seq<nat>)
    returns (r: Option<(nat, nat)>)
    requires reader.Valid()
    requires Decodes(clen, absMax, inorder, base, limit, minClen, maxClen)
    modifies reader
    ensures reader.Valid()
    ensures r.None? ==> Read(clen, old(reader.Remaining()), absMax) == InvalidInput
    ensures r.Some? ==>
      var (code, l) := r.value;
      && minClen <= l <= maxClen && FirstCode(clen, l) <= code < Used(clen, l)
      && code - FirstCode(clen, l) < CountOf(clen, l)
      && Read(clen, old(reader.Remaining()), absMax)
         == Ok((SymbolOf(clen, l, code - FirstCode(clen, l)), reader.Remaining()))
  {
    hide *;
    ghost var all := reader.Remaining();
    LimitsInRange(clen, absMax, inorder, base, limit, minClen, maxClen);
    StartReading(clen, all, absMax);
    var code, bits := 0, 0;
    while true
      invariant reader.Valid() && bits <= maxClen && bits <= |all|
      invariant reader.Remaining() == From(all, bits)
      invariant Reading(clen, all, bits, absMax, code)
      decreases maxClen - bits
    {
      FromEmpty(all, bits);
      if bits == maxClen {
        NoneBeyond(clen, absMax, inorder, base, limit, minClen, maxClen);
        NoneToRead(clen, all, bits, absMax, code);
        return None;
      }
      var bit := reader.DecodeBit();
      if bit.None? {
        NoneToRead(clen, all, bits, absMax, code);
        return None;
      }
      ghost var before := code;
      code := 2 * code + (if bit.value then 1 else 0);
      ReadStep(clen, all, bits, absMax, before, code);
      bits := bits + 1;
      LimitTest(clen, absMax, inorder, base, limit, minClen, maxClen, bits);
      if bits >= minClen && code <= limit[bits] {
        return Some((code, bits));
      }
    }
  }

  /** Reads one symbol.  For every table of lengths the offset stays inside `inorder`, so the two tests succeed. */
  method DecodeSymbol(reader: BitReader, inorder: seq<nat>, base: seq<nat>, limit: seq<nat>,
                      minClen: nat, maxClen: nat, maxSym: nat, ghost clen: seq<nat>, ghost absMax: nat)
    returns (r: Result<nat>)
    requires reader.Valid()
    requires Decodes(clen, absMax, inorder, base, limit, minClen, maxClen)
    requires |clen| <= maxSym
    modifies reader
    ensures reader.Valid()
    ensures r.Ok? <==> Read(clen, old(reader.Remaining()), absMax).Ok?
    ensures r.Ok? ==> Read(clen, old(reader.Remaining()), absMax) == Ok((r.value, reader.Remaining()))
  {
    hide *;
    var found := DecodeCode(reader, limit, minClen, maxClen, clen, absMax, inorder, base);
    if found.None? {
      return InvalidInput;
    }
    var (code, bits) := found.value;
    OffsetTest(clen, absMax, inorder, base, limit, minClen, maxClen, bits, code);
    if base[bits] <= code {
      var offset := code - base[bits];
      if offset <= maxSym {
        return Ok(inorder[offset]);
      }
    }
    assert false;
    return InvalidInput;
  }

  lemma LimitsInRange(clen: seq<nat>, absMax: nat, inorder: seq<nat>, base: seq<nat>, limit: seq<nat>,
                      minClen: nat, maxClen: nat)
    requires Decodes(clen, absMax, inorder, base, limit, minClen, maxClen)
    ensures 1 <= minClen && maxClen <= absMax
  {
  }

  lemma NoneBeyond(clen: seq<nat>, absMax: nat, inorder: seq<nat>, base: seq<nat>, limit: seq<nat>,
                   minClen: nat, maxClen: nat)
    requires Decodes(clen, absMax, inorder, base, limit, minClen, maxClen)
    ensures forall k :: k > maxClen ==> CountOf(clen, k) == 0
  {
  }

  lemma FromEmpty(all: seq<bool>, l: nat)
    requires l <= |all|
    ensures From(all, l) == [] <==> l == |all|
  {
  }
}
