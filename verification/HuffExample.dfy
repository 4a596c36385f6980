/** One section written out bit by bit: sixteen symbols with codes of four bits, and the symbol 1 three times. */
module HuffExample {
  import opened Arithmetic
  import opened BitStream
  import opened CanonicalCode
  import opened HuffmanTables
  import opened HuffSection
  import opened MtfRuns
  import opened MtfCoder
  import opened PrefixBuilder

  function Copies(x: nat, n: nat): (s: seq<nat>)
    ensures |s| == n && forall k :: 0 <= k < n ==> s[k] == x
  {
    if n == 0 then [] else Copies(x, n - 1) + [x]
  }

  lemma OneMoreCopy(clen: seq<nat>, x: nat, n: nat)
    ensures clen + Copies(x, 0) == clen
    ensures n > 0 ==> clen + Copies(x, n) == clen + Copies(x, n - 1) + [x]
  {
  }

  lemma {:induction false} CountOfCopies(clen: seq<nat>, x: nat, n: nat, l: nat)
    ensures CountOf(clen + Copies(x, n), l) == CountOf(clen, l) + (if x == l then n else 0)
  {
    hide CountOf, Copies;
    OneMoreCopy(clen, x, n);
    if n > 0 {
      CountOfCopies(clen, x, n - 1, l);
      CountAppend(clen + Copies(x, n - 1), x, l);
    }
  }

  lemma KraftAppend(clen: seq<nat>, x: nat, m: nat)
    requires AtMost(clen, m) && x <= m
    ensures AtMost(clen + [x], m)
    ensures KraftSum(clen + [x], m) == KraftSum(clen, m) + (if x > 0 then Pow2(m - x) else 0)
  {
    assert (clen + [x])[..|clen|] == clen;
  }

  lemma {:induction false} KraftOfCopies(clen: seq<nat>, x: nat, n: nat, m: nat)
    requires AtMost(clen, m) && x <= m
    ensures AtMost(clen + Copies(x, n), m)
    ensures KraftSum(clen + Copies(x, n), m) == KraftSum(clen, m) + (if x > 0 then n * Pow2(m - x) else 0)
  {
    hide KraftSum, Copies, Pow2;
    OneMoreCopy(clen, x, n);
    if n > 0 {
      KraftOfCopies(clen, x, n - 1, m);
      KraftAppend(clen + Copies(x, n - 1), x, m);
      assert n * Pow2(m - x) == (n - 1) * Pow2(m - x) + Pow2(m - x);
    }
  }

  /** A run of the symbol at the front is only counted. */
  lemma {:induction false} FrontRun(x: nat, n: nat, vs: seq<nat>, list: seq<nat>, run: nat)
    requires list != [] && list[0] == x && AllIn(vs, list)
    ensures AllIn(Copies(x, n) + vs, list)
    ensures MtfCodes(Copies(x, n) + vs, list, run) == MtfCodes(vs, list, run + n)
  {
    if n == 0 {
      assert Copies(x, n) + vs == vs;
    } else {
      FrontRun(x, n - 1, vs, list, run + 1);
      OneFewer(x, n);
      assert (Copies(x, n) + vs)[0] == x && (Copies(x, n) + vs)[1..] == Copies(x, n - 1) + vs;
      assert forall k :: 0 <= k < n + |vs| ==> (Copies(x, n) + vs)[k] in list;
      assert IndexOf(list, x) == 0;
    }
  }

  lemma OneFewer(x: nat, n: nat)
    requires n > 0
    ensures Copies(x, n)[1..] == Copies(x, n - 1)
  {
    var s, t := Copies(x, n)[1..], Copies(x, n - 1);
    assert |s| == |t| && forall k :: 0 <= k < n - 1 ==> s[k] == x && t[k] == x;
  }

  /** The lengths: four bits for the first sixteen of the 256 symbols, none for the others. */
  function Lengths(): (clen: seq<nat>)
    ensures |clen| == 256 && forall i :: 0 <= i < 256 ==> clen[i] == if i < 16 then 4 else 0
  {
    Copies(4, 16) + Copies(0, 240)
  }

  /** Codes of 1, 2 and 2 bits for the two run digits and the first position. */
  function CodeLengths(): (clclen: seq<nat>)
    ensures |clclen| == 22
  {
    [1, 2, 2] + Copies(0, 19)
  }

  lemma Powers()
    ensures Pow2(20) == 0x10_0000 && Pow2(16) == 0x1_0000
    ensures Pow2(15) == 0x8000 && Pow2(14) == 0x4000 && Pow2(13) == 0x2000
  {
    assert Pow2(4) == 0x10;
    assert Pow2(6) == 0x40;
    assert Pow2(8) == 0x100;
    assert Pow2(10) == 0x400;
    assert Pow2(12) == 0x1000;
    assert Pow2(14) == 0x4000;
    assert Pow2(18) == 0x4_0000;
  }

  lemma LengthsFeasible()
    ensures Feasible(Lengths(), MAX_CODELEN)
  {
    hide Copies, Pow2, KraftSum;
    NoKraft(20);
    KraftOfCopies([], 4, 16, 20);
    assert [] + Copies(4, 16) == Copies(4, 16);
    KraftOfCopies(Copies(4, 16), 0, 240, 20);
    Powers();
  }

  lemma NoKraft(m: nat)
    ensures KraftSum([], m) == 0
  {
  }

  lemma CodeLengthsFeasible()
    ensures Feasible(CodeLengths(), MAX_CLCLEN)
  {
    hide Copies, Pow2, KraftSum, AtMost;
    NoKraft(15);
    KraftAppend([], 1, 15);
    KraftAppend([1], 2, 15);
    KraftAppend([1, 2], 2, 15);
    OneByOne();
    KraftOfCopies([1, 2, 2], 0, 19, 15);
    Powers();
  }

  lemma OneByOne()
    ensures AtMost([], 15) && [] + [1] == [1] && [1] + [2] == [1, 2] && [1, 2] + [2] == [1, 2, 2]
  {
  }

  lemma OneDigit(run: nat, digit: nat, others: nat)
    requires digit < 2 && run == 2 * others + digit + 1
    ensures RunDigits(run) == [digit] + RunDigits(others)
  {
  }

  lemma Digits15()
    ensures RunDigits(15) == [0, 0, 0, 0]
  {
    hide RunDigits;
    OneDigit(15, 0, 7);
    OneDigit(7, 0, 3);
    OneDigit(3, 0, 1);
    OneDigit(1, 0, 0);
    NoDigits();
  }

  lemma NoDigits()
    ensures RunDigits(0) == []
  {
  }

  lemma Digits239()
    ensures RunDigits(239) == [0, 0, 0, 0, 1, 1, 1]
  {
    hide RunDigits;
    OneDigit(239, 0, 119);
    OneDigit(119, 0, 59);
    OneDigit(59, 0, 29);
    OneDigit(29, 0, 14);
    OneDigit(14, 1, 6);
    OneDigit(6, 1, 2);
    OneDigit(2, 1, 0);
    NoDigits();
  }

  lemma SecondToFront(list: seq<nat>, moved: seq<nat>)
    requires |list| > 1 && moved == MoveFront(list, 1)
    ensures moved[0] == list[1] && moved[1] == list[0]
  {
  }

  /** The list after the first 4, and after the first zero behind it. */
  lemma FrontLists(list: seq<nat>, last: seq<nat>)
    requires list == MoveFront(FIRST_LIST, 1) && last == MoveFront(list, 1)
    ensures list[0] == 4 && list[1] == 0 && IndexOf(FIRST_LIST, 4) == 1 && IndexOf(list, 0) == 1 && last[0] == 0
  {
    hide IndexOf, MoveFront;
    PlaceOfLength(4);
    SecondToFront(FIRST_LIST, list);
    SecondToFront(list, last);
    FirstIndex(list, 0, 1);
  }

  /** The first 4 is found at place one, fifteen more follow; then the zero is at place one, and 239 more follow. */
  lemma LengthsAsPositions()
    ensures AllIn(Lengths(), FIRST_LIST)
    ensures MtfCodes(Lengths(), FIRST_LIST, 0) == [2, 0, 0, 0, 0, 2, 0, 0, 0, 0, 1, 1, 1]
  {
    hide *;
    LengthsParts();
    AllLengthsListed(Lengths());
    var list := MoveFront(FIRST_LIST, 1);
    var last := MoveFront(list, 1);
    var zeros := Copies(0, 240);
    FrontLists(list, last);
    OtherFront(Lengths(), FIRST_LIST, 0, 1);
    FrontRun(4, 15, zeros, list, 0);
    OtherFront(zeros, list, 15, 1);
    assert Copies(0, 239) + [] == Copies(0, 239);
    FrontRun(0, 239, [], last, 0);
    OnlyRun(last, 239);
    NoDigits();
    Digits15();
    Digits239();
    Joined(MtfCodes(Lengths(), FIRST_LIST, 0), MtfCodes(zeros, list, 15));
  }

  lemma LengthsParts()
    ensures AtMost(Lengths(), MAX_CODELEN) && Lengths()[0] == 4 && Lengths()[1..] == Copies(4, 15) + Copies(0, 240)
    ensures Copies(0, 240)[1..] == Copies(0, 239) && Copies(0, 240)[0] == 0
    ensures |FIRST_LIST| == 21 && AllIn([], []) && AllIn(Copies(0, 240), MoveFront(FIRST_LIST, 1))
  {
    hide Copies;
    OneFewer(4, 16);
    OneFewer(0, 240);
    assert MoveFront(FIRST_LIST, 1)[1] == 0;
  }

  lemma Joined(s: seq<nat>, t: seq<nat>)
    requires s == [] + [2] + t && t == [0, 0, 0, 0] + [2] + [0, 0, 0, 0, 1, 1, 1]
    ensures s == [2, 0, 0, 0, 0, 2, 0, 0, 0, 0, 1, 1, 1]
  {
  }

  lemma OtherFront(vs: seq<nat>, list: seq<nat>, run: nat, j: nat)
    requires vs != [] && AllIn(vs, list) && IndexOf(list, vs[0]) == j > 0
    ensures AllIn(vs[1..], MoveFront(list, j))
    ensures MtfCodes(vs, list, run) == RunDigits(run) + [j + 1] + MtfCodes(vs[1..], MoveFront(list, j), 0)
  {
    MembersStay(vs, list, j);
  }

  lemma OnlyRun(list: seq<nat>, run: nat)
    ensures AllIn([], list) && MtfCodes([], list, run) == RunDigits(run)
  {
  }

  /** Bits written as zeros and ones. */
  function Spelled(s: string): (bits: seq<bool>)
    ensures |bits| == |s| && forall i :: 0 <= i < |s| ==> bits[i] == (s[i] == '1')
  {
    if s == [] then [] else Spelled(s[..|s| - 1]) + [s[|s| - 1] == '1']
  }

  lemma SpelledParts(s: string, t: string)
    ensures Spelled(s) + Spelled(t) == Spelled(s + t)
  {
  }

  lemma ClclenStep(lengths: seq<nat>, x: nat, s: string, t: string)
    requires ClclenBits(lengths) == Spelled(s) && Bits(x, 4) == Spelled(t)
    ensures ClclenBits(lengths + [x]) == Spelled(s + t)
  {
    assert (lengths + [x])[..|lengths|] == lengths;
    SpelledParts(s, t);
  }

  lemma FourBitValues()
    ensures Bits(0, 4) == Spelled("0000") && Bits(1, 4) == Spelled("0001") && Bits(2, 4) == Spelled("0010")
  {
    hide Spelled;
    assert Bits(0, 1) == [false] && Bits(0, 2) == [false, false] && Bits(0, 3) == [false, false, false];
  }

  lemma LengthsSpelled()
    ensures ClclenBits([1, 2, 2, 0, 0, 0, 0]) == Spelled("0001001000100000000000000000")
  {
    hide *;
    FourBitValues();
    NoLengths();
    ClclenStep([], 1, "", "0001");
    ClclenStep([] + [1], 2, "" + "0001", "0010");
    ClclenStep([] + [1] + [2], 2, "" + "0001" + "0010", "0010");
    var three, bits := [] + [1] + [2] + [2], "" + "0001" + "0010" + "0010";
    ClclenStep(three, 0, bits, "0000");
    ClclenStep(three + [0], 0, bits + "0000", "0000");
    ClclenStep(three + [0] + [0], 0, bits + "0000" + "0000", "0000");
    ClclenStep(three + [0] + [0] + [0], 0, bits + "0000" + "0000" + "0000", "0000");
    assert three + [0] + [0] + [0] + [0] == [1, 2, 2, 0, 0, 0, 0];
    assert bits + "0000" + "0000" + "0000" + "0000" == "0001001000100000000000000000";
  }

  lemma NoLengths()
    ensures ClclenBits([]) == Spelled("")
  {
  }

  lemma NoneCounted(l: nat)
    ensures CountOf([], l) == 0
  {
  }

  lemma CodeLengthCounts()
    ensures CountOf(CodeLengths(), 1) == 1 && CountOf(CodeLengths()[..0], 1) == 0
    ensures CountOf(CodeLengths()[..1], 2) == 0 && CountOf(CodeLengths()[..2], 2) == 1
  {
    hide CountOf, Copies;
    var clclen := CodeLengths();
    assert clclen[..0] == [] && clclen[..1] == [] + [1] && clclen[..2] == [] + [1] + [2];
    assert [1, 2, 2] == [] + [1] + [2] + [2];
    NoneCounted(1);
    NoneCounted(2);
    CountAppend([], 1, 1);
    CountAppend([], 1, 2);
    CountAppend([] + [1], 2, 1);
    CountAppend([] + [1], 2, 2);
    CountAppend([] + [1] + [2], 2, 1);
    CountOfCopies([1, 2, 2], 0, 19, 1);
  }

  /** The codes 0, 10 and 11. */
  lemma ThreeCodes()
    ensures Codeword(CodeLengths(), 0) == Spelled("0")
    ensures Codeword(CodeLengths(), 1) == Spelled("10")
    ensures Codeword(CodeLengths(), 2) == Spelled("11")
  {
    hide CountOf;
    var clclen := CodeLengths();
    CodeLengthCounts();
    assert FirstCode(clclen, 1) == 0 && Used(clclen, 1) == 1 && FirstCode(clclen, 2) == 2;
    assert CodeOf(clclen, 0) == 0 && CodeOf(clclen, 1) == 2 && CodeOf(clclen, 2) == 3;
    ShortBits();
  }

  lemma ShortBits()
    ensures Bits(0, 1) == Spelled("0") && Bits(2, 2) == Spelled("10") && Bits(3, 2) == Spelled("11")
  {
    hide Spelled;
    assert Bits(1, 1) == [true];
  }

  lemma WordStep(clen: seq<nat>, syms: seq<nat>, sym: nat, s: string, t: string)
    requires Coded(clen, syms) && sym < |clen| && clen[sym] > 0
    requires Codewords(clen, syms) == Spelled(s) && Codeword(clen, sym) == Spelled(t)
    ensures Coded(clen, syms + [sym]) && Codewords(clen, syms + [sym]) == Spelled(s + t)
  {
    hide Codeword, Spelled;
    CodewordsAppend(clen, syms, [sym]);
    assert [sym][1..] == [] && Codewords(clen, [sym]) == Codeword(clen, sym) + [];
    SpelledParts(s, t);
  }

  lemma NoWords(clen: seq<nat>)
    ensures Coded(clen, []) && Codewords(clen, []) == Spelled("")
  {
  }

  lemma FirstWords()
    ensures Coded(CodeLengths(), [2, 0, 0, 0, 0]) && Codewords(CodeLengths(), [2, 0, 0, 0, 0]) == Spelled("110000")
  {
    hide Spelled, Codeword, Codewords, Coded, Copies;
    var clclen := CodeLengths();
    ThreeCodes();
    NoWords(clclen);
    WordStep(clclen, [], 2, "", "11");
    WordStep(clclen, [] + [2], 0, "" + "11", "0");
    var two, bits := [] + [2] + [0], "" + "11" + "0";
    WordStep(clclen, two, 0, bits, "0");
    WordStep(clclen, two + [0], 0, bits + "0", "0");
    WordStep(clclen, two + [0] + [0], 0, bits + "0" + "0", "0");
    assert two + [0] + [0] + [0] == [2, 0, 0, 0, 0] && bits + "0" + "0" + "0" == "110000";
  }

  lemma LastWords()
    ensures Coded(CodeLengths(), [1, 1, 1]) && Codewords(CodeLengths(), [1, 1, 1]) == Spelled("101010")
  {
    hide Spelled, Codeword, Codewords, Coded, Copies;
    var clclen := CodeLengths();
    ThreeCodes();
    NoWords(clclen);
    WordStep(clclen, [], 1, "", "10");
    WordStep(clclen, [] + [1], 1, "" + "10", "10");
    WordStep(clclen, [] + [1] + [1], 1, "" + "10" + "10", "10");
    assert [] + [1] + [1] + [1] == [1, 1, 1] && "" + "10" + "10" + "10" == "101010";
  }

  lemma PositionsSpelled()
    ensures Coded(CodeLengths(), [2, 0, 0, 0, 0, 2, 0, 0, 0, 0, 1, 1, 1])
    ensures Codewords(CodeLengths(), [2, 0, 0, 0, 0, 2, 0, 0, 0, 0, 1, 1, 1]) == Spelled("110000110000101010")
  {
    hide Spelled, Codewords, Coded, Copies;
    var clclen, run, ones := CodeLengths(), [2, 0, 0, 0, 0], [1, 1, 1];
    FirstWords();
    LastWords();
    CodewordsAppend(clclen, run, ones);
    CodewordsAppend(clclen, run, run + ones);
    assert run + (run + ones) == [2, 0, 0, 0, 0, 2, 0, 0, 0, 0, 1, 1, 1];
    SpelledParts("110000", "101010");
    SpelledParts("110000", "110000" + "101010");
    assert "110000" + ("110000" + "101010") == "110000110000101010";
  }

  /** Symbol 1 is the second of the sixteen. */
  lemma DataSpelled()
    ensures Coded(Lengths(), [1, 1, 1]) && Codewords(Lengths(), [1, 1, 1]) == Spelled("000100010001")
  {
    hide Spelled, Codeword, Codewords, Coded, Copies;
    var clen := Lengths();
    SecondCode();
    NoWords(clen);
    WordStep(clen, [], 1, "", "0001");
    WordStep(clen, [] + [1], 1, "" + "0001", "0001");
    WordStep(clen, [] + [1] + [1], 1, "" + "0001" + "0001", "0001");
    assert [] + [1] + [1] + [1] == [1, 1, 1] && "" + "0001" + "0001" + "0001" == "000100010001";
  }

  lemma SecondCode()
    ensures Codeword(Lengths(), 1) == Spelled("0001")
  {
    hide CountOf;
    var clen := Lengths();
    NoShortCodes(1);
    NoShortCodes(2);
    NoShortCodes(3);
    assert Used(clen, 1) == 0 && Used(clen, 2) == 0 && Used(clen, 3) == 0;
    assert clen[..1] == [] + [4];
    CountAppend([], 4, 4);
    NoneCounted(4);
    FourBitValues();
  }

  lemma NoShortCodes(l: nat)
    requires l != 4 && l != 0
    ensures CountOf(Lengths(), l) == 0
  {
    hide Copies;
    CountOfCopies([], 4, 16, l);
    assert [] + Copies(4, 16) == Copies(4, 16);
    CountOfCopies(Copies(4, 16), 0, 240, l);
  }

  /** One group, no more than the seven code lengths always sent, these lengths, the table of sixteen fours and 240
      zeros in thirteen codes, and three data symbols: nothing else in the section format is left open. */
  lemma SectionSpelledOut(rest: seq<bool>)
    ensures
      DecodeSection(Spelled("000") + (Spelled("0000") + (Spelled("0001001000100000000000000000")
                    + Spelled("110000110000101010"))) + Spelled("000100010001") + rest, 3)
      == Decoded([1, 1, 1], rest)
  {
    hide *;
    var clen, clclen := Lengths(), CodeLengths();
    LengthsFeasible();
    CodeLengthsFeasible();
    LengthsAsPositions();
    PositionsSpelled();
    DataSpelled();
    SevenSent();
    PrefixSpelled();
    SectionReadsBack([1, 1, 1], clen, clclen, 7, rest);
  }

  lemma SevenSent()
    ensures Sent(CodeLengths(), 7) && CodeLengths()[..7] == [1, 2, 2, 0, 0, 0, 0] && GROUP_BITS == 3 && ALPHABET_SIZE == 256
  {
  }

  lemma PrefixSpelled()
    requires Sent(CodeLengths(), 7)
    ensures Coded(CodeLengths(), [2, 0, 0, 0, 0, 2, 0, 0, 0, 0, 1, 1, 1])
    ensures PrefixBits(CodeLengths(), 7, [2, 0, 0, 0, 0, 2, 0, 0, 0, 0, 1, 1, 1])
         == Spelled("0000") + (Spelled("0001001000100000000000000000") + Spelled("110000110000101010"))
    ensures Bits(0, 3) == Spelled("000")
  {
    hide Spelled, Codewords, Coded, ClclenBits;
    PositionsSpelled();
    LengthsSpelled();
    FourBitValues();
    SevenSent();
    ThreeZeros();
  }

  lemma ThreeZeros()
    ensures Bits(0, 3) == Spelled("000")
  {
    hide Spelled;
    assert Bits(0, 1) == [false] && Bits(0, 2) == [false, false];
  }
}
