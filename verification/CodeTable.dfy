/** The default instruction code table (section 5.6 of RFC 3284), as the decoder tabulates it and as the encoder
    chooses from it. */
module CodeTable {
  import opened Arithmetic
  import opened Bytes

  /** Instruction types; a copy in address mode `m` has type `CPY + m`. */
  const NOOP: nat := 0
  const ADD: nat := 1
  const RUN: nat := 2
  const CPY: nat := 3

  const MIN_MATCH: nat := 4
  const ADD_SIZES: nat := 17
  const CPY_SIZES: nat := 15
  const NEAR_MODES: nat := 4
  const SAME_MODES: nat := 3
  const CPY_MODES: nat := 2 + NEAR_MODES + SAME_MODES
  const ADDCOPY_ADD_MAX: nat := 4
  const ADDCOPY_NEAR_CPY_MAX: nat := 6
  const ADDCOPY_SAME_CPY_MAX: nat := 4
  const COPYADD_ADD_MAX: nat := 1
  const COPYADD_CPY_MAX: nat := 4

  /** A table entry: one or two instructions; size 0 means that the size follows in the instruction section. */
  datatype DInst = DInst(type1: nat, size1: nat, type2: nat, size2: nat)

  const EMPTY := DInst(NOOP, 0, NOOP, 0)

  /** The meaning of an instruction code, row by row of the RFC's table. */
  function Entry(code: byte): (d: DInst)
    ensures d.type1 != NOOP && d.type1 < CPY + CPY_MODES && d.type2 < CPY + CPY_MODES
    ensures d.type2 != NOOP ==> d.size1 > 0 && d.size2 > 0
    ensures d.type2 == NOOP ==> d.size2 == 0
  {
    if code == 0 then DInst(RUN, 0, NOOP, 0)
    else if code <= 18 then DInst(ADD, code - 1, NOOP, 0)
    else if code <= 162 then
      var k := (code - 19) % 16;
      DInst(CPY + (code - 19) / 16, if k == 0 then 0 else k + 3, NOOP, 0)
    else if code <= 234 then
      var k := (code - 163) % 12;
      DInst(ADD, k / 3 + 1, CPY + (code - 163) / 12, k % 3 + 4)
    else if code <= 246 then DInst(ADD, (code - 235) % 4 + 1, CPY + 6 + (code - 235) / 4, 4)
    else DInst(CPY + (code - 247), 4, ADD, 1)
  }

  /** The rows of the table in section 5.6 of RFC 3284 with one instruction, by the codes that stand for them. */
  lemma SingleRows(mode: nat, size: nat)
    ensures Entry(0) == DInst(RUN, 0, NOOP, 0) && Entry(1) == DInst(ADD, 0, NOOP, 0)
    ensures 1 <= size <= 17 ==> Entry(1 + size) == DInst(ADD, size, NOOP, 0)
    ensures mode <= 8 ==> Entry(19 + 16 * mode) == DInst(CPY + mode, 0, NOOP, 0)
    ensures mode <= 8 && 4 <= size <= 18 ==> Entry(16 + 16 * mode + size) == DInst(CPY + mode, size, NOOP, 0)
  {
  }

  /** And the rows with two. */
  lemma AddCopyRows(mode: nat, add: nat, copy: nat)
    requires mode <= 8 && 1 <= add <= 4 && 4 <= copy <= 6
    ensures mode <= 5 ==> Entry(156 + 12 * mode + 3 * add + copy) == DInst(ADD, add, CPY + mode, copy)
    ensures 6 <= mode ==> Entry(210 + 4 * mode + add) == DInst(ADD, add, CPY + mode, 4)
  {
    if mode <= 5 {
      var k := 3 * (add - 1) + (copy - 4);
      DivUnique(12, 12 * mode + k, mode, k);
      DivUnique(3, k, add - 1, copy - 4);
    } else {
      DivUnique(4, 4 * (mode - 6) + (add - 1), mode - 6, add - 1);
    }
  }

  lemma CopyAddRows(mode: nat)
    requires mode <= 8
    ensures Entry(247 + mode) == DInst(CPY + mode, 4, ADD, 1)
  {
  }

  ghost predicate FilledTo(tbl: array<DInst>, d: nat)
    requires tbl.Length == 256
    reads tbl
  {
    d <= 256 && forall i: nat | i < d :: tbl[i] == Entry(i)
  }

  method FillSingles(tbl: array<DInst>) returns (d: nat)
    requires tbl.Length == 256
    modifies tbl
    ensures d == 163 && FilledTo(tbl, d)
  {
    hide Entry;
    SingleRows(0, 0);
    tbl[0] := EMPTY.(type1 := RUN);
    tbl[1] := EMPTY.(type1 := ADD);
    d := 2;
    var size1 := 1;
    while size1 <= ADD_SIZES
      invariant 1 <= size1 <= ADD_SIZES + 1 && d == size1 + 1 && FilledTo(tbl, d)
    {
      SingleRows(0, size1);
      tbl[d] := EMPTY.(type1 := ADD, size1 := size1);
      size1, d := size1 + 1, d + 1;
    }
    var mode := 0;
    while mode < CPY_MODES
      invariant mode <= CPY_MODES && d == 19 + 16 * mode && FilledTo(tbl, d)
    {
      SingleRows(mode, 0);
      tbl[d] := EMPTY.(type1 := CPY + mode);
      d := d + 1;
      size1 := MIN_MATCH;
      while size1 < MIN_MATCH + CPY_SIZES
        invariant MIN_MATCH <= size1 <= MIN_MATCH + CPY_SIZES && d == 19 + 16 * mode + size1 - 3 && FilledTo(tbl, d)
      {
        SingleRows(mode, size1);
        tbl[d] := EMPTY.(type1 := CPY + mode, size1 := size1);
        size1, d := size1 + 1, d + 1;
      }
      mode := mode + 1;
    }
  }

  function AddCopyStart(mode: nat): nat {
    if mode <= 6 then 163 + 12 * mode else 235 + 4 * (mode - 6)
  }

  /** The number of copy sizes paired with each ADD size. */
  function AddCopyMax(mode: nat): nat {
    if mode < 2 + NEAR_MODES then ADDCOPY_NEAR_CPY_MAX else ADDCOPY_SAME_CPY_MAX
  }

  function AddCopyIndex(mode: nat, size1: nat, size2: nat): int {
    AddCopyStart(mode) + (if mode < 6 then 3 * (size1 - 1) else size1 - 1) + (size2 - 4)
  }

  lemma AddCopyEntry(mode: nat, size1: nat, size2: nat)
    requires mode < CPY_MODES && 1 <= size1 <= 4 && 4 <= size2 <= AddCopyMax(mode)
    ensures var i := AddCopyIndex(mode, size1, size2);
            163 <= i < 247 && Entry(i) == DInst(ADD, size1, CPY + mode, size2)
  {
    DoubleAgrees(ADD, size1, CPY + mode, size2);
  }

  method FillAddCopyRow(tbl: array<DInst>, start: nat, mode: nat, size1: nat) returns (d: nat)
    requires tbl.Length == 256 && mode < CPY_MODES && 1 <= size1 <= ADDCOPY_ADD_MAX
    requires start == AddCopyIndex(mode, size1, 4) && FilledTo(tbl, start)
    modifies tbl
    ensures d == AddCopyIndex(mode, size1, AddCopyMax(mode) + 1) <= 256 && FilledTo(tbl, d)
  {
    d := start;
    var max := if mode < 2 + NEAR_MODES then ADDCOPY_NEAR_CPY_MAX else ADDCOPY_SAME_CPY_MAX;
    var size2 := MIN_MATCH;
    while size2 <= max
      invariant MIN_MATCH <= size2 <= max + 1 && d == AddCopyIndex(mode, size1, size2) <= 256 && FilledTo(tbl, d)
    {
      AddCopyEntry(mode, size1, size2);
      tbl[d] := DInst(ADD, size1, CPY + mode, size2);
      size2, d := size2 + 1, d + 1;
    }
  }

  method FillAddCopies(tbl: array<DInst>, start: nat) returns (d: nat)
    requires tbl.Length == 256 && start == 163 && FilledTo(tbl, start)
    modifies tbl
    ensures d == 247 && FilledTo(tbl, d)
  {
    d := start;
    var mode := 0;
    while mode < CPY_MODES
      invariant mode <= CPY_MODES && d == AddCopyStart(mode) <= 256 && FilledTo(tbl, d)
    {
      var size1 := 1;
      while size1 <= ADDCOPY_ADD_MAX
        invariant 1 <= size1 <= ADDCOPY_ADD_MAX + 1 && d == AddCopyIndex(mode, size1, 4) <= 256 && FilledTo(tbl, d)
      {
        d := FillAddCopyRow(tbl, d, mode, size1);
        size1 := size1 + 1;
      }
      mode := mode + 1;
    }
  }

  method FillCopyAdds(tbl: array<DInst>, start: nat) returns (d: nat)
    requires tbl.Length == 256 && start == 247 && FilledTo(tbl, start)
    modifies tbl
    ensures d == 256 && FilledTo(tbl, d)
  {
    d := start;
    var mode := 0;
    while mode < CPY_MODES
      invariant mode <= CPY_MODES && d == 247 + mode && FilledTo(tbl, d)
    {
      var size1 := MIN_MATCH;
      while size1 <= COPYADD_CPY_MAX
        invariant MIN_MATCH <= size1 <= COPYADD_CPY_MAX + 1 && d == 247 + mode + size1 - 4 && FilledTo(tbl, d)
      {
        var size2 := 1;
        while size2 <= COPYADD_ADD_MAX
          invariant 1 <= size2 <= COPYADD_ADD_MAX + 1 && d == 247 + mode + size1 - 4 + size2 - 1 && FilledTo(tbl, d)
        {
          tbl[d] := DInst(CPY + mode, size1, ADD, size2);
          size2, d := size2 + 1, d + 1;
        }
        size1 := size1 + 1;
      }
      mode := mode + 1;
    }
  }

  /** Fills the table in the order of the RFC's rows; exactly 256 entries come out. */
  method BuildCodeTable() returns (tbl: array<DInst>)
    ensures fresh(tbl) && tbl.Length == 256
    ensures forall code: byte :: tbl[code] == Entry(code)
  {
    tbl := new DInst[256](_ => EMPTY);
    var d := FillSingles(tbl);
    d := FillAddCopies(tbl, d);
    d := FillCopyAdds(tbl, d);
  }

  /** The code for an instruction on its own. */
  function SingleCode(type_: nat, size: nat): (code: byte)
    requires NOOP < type_ < CPY + CPY_MODES
  {
    if type_ == RUN then 0
    else if type_ == ADD then (if size <= 17 then 1 + size else 1)
    else 19 + 16 * (type_ - CPY) + (if 4 <= size <= 18 then size - 3 else 0)
  }

  /** The code for a pair, 0 when the table has none. */
  function DoubleCode(prevType: nat, prevSize: nat, type_: nat, size: nat): (code: byte)
    requires NOOP < prevType < CPY + CPY_MODES && NOOP < type_ < CPY + CPY_MODES && prevSize > 0
  {
    if type_ == ADD then
      if size == 1 && prevSize == 4 && prevType >= CPY then 247 + (prevType - CPY) else 0
    else if type_ >= CPY && prevType == ADD && prevSize <= 4 then
      var mode := type_ - CPY;
      if 4 <= size <= 6 && mode <= 5 then 163 + mode * 12 + 3 * (prevSize - 1) + (size - 4)
      else if size == 4 && mode >= 6 then 235 + (mode - 6) * 4 + (prevSize - 1)
      else 0
    else 0
  }

  /** What the encoder's pending instruction and the next one need: the next one's own code, and the pair code for
      the pending one. Codes written by the encoder's case analysis. */
  method ChooseInstruction(hasPrev: bool, prevType: nat, prevSize: nat, type_: nat, size: nat) returns (code1: byte, code2: byte)
    requires NOOP < type_ < CPY + CPY_MODES
    requires hasPrev ==> NOOP < prevType < CPY + CPY_MODES && prevSize > 0
    ensures code1 == SingleCode(type_, size)
    ensures code2 == if hasPrev then DoubleCode(prevType, prevSize, type_, size) else 0
  {
    code1, code2 := 0, 0;
    if type_ == RUN {
      code1 := 0;
    } else if type_ == ADD {
      code1 := 1;
      if size <= 17 {
        code1 := code1 + size;
        if size == 1 && hasPrev && prevSize == 4 && prevType >= CPY {
          code2 := 247 + (prevType - CPY);
        }
      }
    } else {
      var mode := type_ - CPY;
      code1 := 19 + 16 * mode;
      if size <= 18 && size >= 4 {
        code1 := code1 + (size - 3);
        if hasPrev && prevType == ADD && prevSize <= 4 {
          if size <= 6 && mode <= 5 {
            code2 := 163 + mode * 12 + 3 * (prevSize - 1) + (size - 4);
          } else if size == 4 && mode >= 6 {
            code2 := 235 + (mode - 6) * 4 + (prevSize - 1);
          }
        }
      }
    }
  }

  /** Encoder and table agree on single codes, for every type and every size. */
  lemma SingleAgrees(type_: nat, size: nat)
    requires NOOP < type_ < CPY + CPY_MODES
    ensures var d := Entry(SingleCode(type_, size));
            d.type1 == type_ && d.type2 == NOOP && (d.size1 == size || d.size1 == 0)
  {
    if type_ >= CPY {
      var k := if 4 <= size <= 18 then size - 3 else 0;
      var c := SingleCode(type_, size);
      assert (c - 19) % 16 == k && (c - 19) / 16 == type_ - CPY;
    }
  }

  /** A pair code, where the encoder finds one, stands for exactly that pair with both sizes built in. */
  lemma DoubleAgrees(prevType: nat, prevSize: nat, type_: nat, size: nat)
    requires NOOP < prevType < CPY + CPY_MODES && NOOP < type_ < CPY + CPY_MODES && prevSize > 0
    ensures var c := DoubleCode(prevType, prevSize, type_, size);
            c != 0 ==> Entry(c) == DInst(prevType, prevSize, type_, size)
  {
    var c := DoubleCode(prevType, prevSize, type_, size);
    if c != 0 && type_ >= CPY {
      var mode := type_ - CPY;
      if mode <= 5 {
        assert (c - 163) / 12 == mode && (c - 163) % 12 == 3 * (prevSize - 1) + (size - 4);
      } else {
        assert (c - 235) / 4 == mode - 6 && (c - 235) % 4 == prevSize - 1;
      }
    }
  }

  /** And it finds one whenever the table has one: no double entry is left unused. */
  lemma DoubleComplete(code: byte)
    ensures var d := Entry(code);
            if d.type2 == NOOP then d.size1 > 0 || d.type1 == RUN ==> SingleCode(d.type1, d.size1) == code
            else DoubleCode(d.type1, d.size1, d.type2, d.size2) == code
  {
  }
}
