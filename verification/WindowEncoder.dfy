/** The window encoder: instructions in order, ADDs for the gaps, codes chosen one instruction behind. Each method
    is proved against the decoder: what has been written so far decodes to what has been encoded so far. */
module WindowEncoder {
  import opened Arithmetic
  import opened Bytes
  import opened Results
  import opened Integers
  import opened AddressCache
  import opened BlockedSource
  import opened CodeTable
  import opened WindowFormat

  /** An instruction on its way to the output. `xtra` is the run byte, or non-zero for a copy from the source;
      a copy enters with type CPY and gets its address mode added when its address is encoded. */
  datatype RInst = RInst(type_: nat, xtra: byte, pos: nat, size: nat, addr: nat, code1: byte, code2: byte)

  /** The instruction tells the truth about the window it was found in, and a source copy lies in the decided
      source window. */
  ghost predicate Genuine(file: seq<byte>, srcbase: nat, srclen: nat, window: seq<byte>, x: RInst) {
    && x.size > 0 && x.pos + x.size <= |window|
    && (x.type_ == ADD || x.type_ == RUN || x.type_ == CPY)
    && (x.type_ == RUN ==> window[x.pos..x.pos + x.size] == Repeat(x.xtra, x.size))
    && (x.type_ == CPY ==>
          if x.xtra != 0 then
            && srcbase <= x.addr && x.addr + x.size <= srcbase + srclen && x.addr + x.size <= |file|
            && file[x.addr..x.addr + x.size] == window[x.pos..x.pos + x.size]
          else
            x.addr < x.pos && window[x.addr..x.addr + x.size] == window[x.pos..x.pos + x.size])
  }

  /** Parsing and executing one half-instruction in one go. */
  function ExecHalf(env: Env, st: State, type_: nat, size0: nat): (r: Result<State>)
    requires env.Valid() && DefaultCache(st.cache) && NOOP < type_ < CPY + CPY_MODES
    requires st.position == env.cpylen + |st.out|
    ensures r.Ok? ==> DefaultCache(r.value.cache) && r.value.position == env.cpylen + |r.value.out|
  {
    var (h, st1) :- ParseHalf(env, st, type_, size0);
    OutputHalf(env, st1, h)
  }

  lemma ExecIgnoresMore(env: Env, st: State, type_: nat, size0: nat, inst: seq<byte>, data: seq<byte>, addr: seq<byte>)
    requires env.Valid() && DefaultCache(st.cache) && NOOP < type_ < CPY + CPY_MODES
    requires st.position == env.cpylen + |st.out| && ExecHalf(env, st, type_, size0).Ok?
    ensures ExecHalf(env, More(st, inst, data, addr), type_, size0) == Ok(More(ExecHalf(env, st, type_, size0).value, inst, data, addr))
  {
    ParseIgnoresMore(env, st, type_, size0, inst, data, addr);
    var (h, st1) := ParseHalf(env, st, type_, size0).value;
    OutputIgnoresMore(env, st1, h, inst, data, addr);
  }

  /** A size written behind its code is the size the table would have given. */
  lemma SizeReadIn(env: Env, st: State, type_: nat, size: nat)
    requires env.Valid() && DefaultCache(st.cache) && NOOP < type_ < CPY + CPY_MODES
    requires st.position == env.cpylen + |st.out| && 0 < size < TWO_64
    ensures ExecHalf(env, st.(inst := EmitInt(size) + st.inst), type_, 0) == ExecHalf(env, st, type_, size)
  {
    ReadEmitted(size, st.inst);
  }

  /** A single code, with its size when the table has none, is one half-instruction. */
  lemma SingleRuns(env: Env, st: State, type_: nat, size: nat)
    requires env.Valid() && DefaultCache(st.cache) && NOOP < type_ < CPY + CPY_MODES
    requires st.position == env.cpylen + |st.out| && 0 < size < TWO_64 && st.inst == []
    requires ExecHalf(env, st, type_, size).Ok?
    ensures Run(env, st.(inst := SingleBytes(type_, size))) == Ok(ExecHalf(env, st, type_, size).value)
  {
    var code := SingleCode(type_, size);
    var bytes := SingleBytes(type_, size);
    SingleAgrees(type_, size);
    assert bytes[1..] == if Entry(code).size1 == 0 then EmitInt(size) + [] else [];
    if Entry(code).size1 == 0 {
      SizeReadIn(env, st, type_, size);
    }
    assert st == st.(inst := []);
    assert Instruction(env, st.(inst := bytes)) == ExecHalf(env, st, type_, size);
  }

  function SingleBytes(type_: nat, size: nat): seq<byte>
    requires NOOP < type_ < CPY + CPY_MODES
  {
    var code := SingleCode(type_, size);
    [code] + if Entry(code).size1 == 0 then EmitInt(size) else []
  }

  /** Parsing looks neither at the data section nor at the output. */
  lemma ParseFrame(env: Env, st: State, data: seq<byte>, out: seq<byte>, type_: nat, size0: nat)
    requires env.Valid() && DefaultCache(st.cache) && NOOP < type_ < CPY + CPY_MODES
    ensures var r := ParseHalf(env, st, type_, size0);
            ParseHalf(env, st.(data := data, out := out), type_, size0)
            == if r.Ok? then Ok((r.value.0, r.value.1.(data := data, out := out))) else InvalidInput
  {
  }

  /** Executing looks at nothing else. */
  lemma OutputFrame(env: Env, st: State, st': State, h: Half)
    requires env.Valid() && Ready(env, st.out, h) && st'.data == st.data && st'.out == st.out
    ensures var r := OutputHalf(env, st, h);
            OutputHalf(env, st', h) == if r.Ok? then Ok(st'.(data := r.value.data, out := r.value.out)) else InvalidInput
  {
  }

  /** A pair code is its two half-instructions one after the other, although both are parsed first. */
  lemma DoubleRuns(env: Env, st: State, type1: nat, size1: nat, type2: nat, size2: nat)
    requires env.Valid() && DefaultCache(st.cache) && st.inst == []
    requires NOOP < type1 < CPY + CPY_MODES && NOOP < type2 < CPY + CPY_MODES && size1 > 0
    requires st.position == env.cpylen + |st.out|
    requires DoubleCode(type1, size1, type2, size2) != 0
    requires ExecHalf(env, st, type1, size1).Ok?
    requires ExecHalf(env, ExecHalf(env, st, type1, size1).value, type2, size2).Ok?
    ensures Run(env, st.(inst := [DoubleCode(type1, size1, type2, size2)])) == ExecHalf(env, ExecHalf(env, st, type1, size1).value, type2, size2)
  {
    var code := DoubleCode(type1, size1, type2, size2);
    var st0 := st.(inst := [code]);
    assert Entry(code) == DInst(type1, size1, type2, size2) by { DoubleAgrees(type1, size1, type2, size2); }
    assert st0.(inst := st0.inst[1..]) == st;
    PairRuns(env, st, type1, size1, type2, size2);
    assert Instruction(env, st0) == Pair(env, st, type1, size1, type2, size2);
  }

  function Pair(env: Env, st: State, type1: nat, size1: nat, type2: nat, size2: nat): (r: Result<State>)
    requires env.Valid() && DefaultCache(st.cache)
    requires NOOP < type1 < CPY + CPY_MODES && NOOP < type2 < CPY + CPY_MODES
    requires st.position == env.cpylen + |st.out|
  {
    var (h1, st1) :- ParseHalf(env, st, type1, size1);
    var (h2, st2) :- ParseHalf(env, st1, type2, size2);
    var st3 :- OutputHalf(env, st2, h1);
    OutputHalf(env, st3, h2)
  }

  lemma PairRuns(env: Env, st: State, type1: nat, size1: nat, type2: nat, size2: nat)
    requires env.Valid() && DefaultCache(st.cache)
    requires NOOP < type1 < CPY + CPY_MODES && NOOP < type2 < CPY + CPY_MODES
    requires st.position == env.cpylen + |st.out|
    requires ExecHalf(env, st, type1, size1).Ok?
    requires ExecHalf(env, ExecHalf(env, st, type1, size1).value, type2, size2).Ok?
    ensures Pair(env, st, type1, size1, type2, size2) == ExecHalf(env, ExecHalf(env, st, type1, size1).value, type2, size2)
  {
    var (h1, st1) := ParseHalf(env, st, type1, size1).value;
    var after := OutputHalf(env, st1, h1).value;
    ParseFrame(env, st1, after.data, after.out, type2, size2);
    var (h2, st2) := ParseHalf(env, st1, type2, size2).value;
    OutputFrame(env, st1, st2, h1);
  }

  /** The decoder's state when it has produced the first `n` bytes of the window and read all it was given. */
  function Done(env: Env, cache: Cache, window: seq<byte>, n: nat): State
    requires n <= |window|
  {
    State([], [], [], cache, env.cpylen + n, window[..n])
  }

  /** `data` and `addr` are what the decoder needs to execute `x` (its type including the mode) at `x.pos`. */
  ghost predicate Carries(env: Env, cache: Cache, cache': Cache, window: seq<byte>, x: RInst, data: seq<byte>, addr: seq<byte>)
    requires env.Valid() && DefaultCache(cache)
  {
    && NOOP < x.type_ < CPY + CPY_MODES && x.size > 0 && x.pos + x.size <= |window|
    && ExecHalf(env, Done(env, cache, window, x.pos).(data := data, addr := addr), x.type_, x.size)
       == Ok(Done(env, cache', window, x.pos + x.size))
  }

  lemma {:induction false} OverlapCopies(window: seq<byte>, pos: nat, addr: nat, size: nat)
    requires addr < pos && pos + size <= |window|
    requires window[addr..addr + size] == window[pos..pos + size]
    ensures CopyWithin(window[..pos], addr, size) == window[..pos + size]
    decreases size
  {
    if size > 0 {
      var here, there := window[pos..pos + size], window[addr..addr + size];
      assert here[0] == window[pos] && there[0] == window[addr];
      assert window[..pos] + [window[pos]] == window[..pos + 1];
      assert window[addr + 1..addr + size] == there[1..] && window[pos + 1..pos + size] == here[1..];
      OverlapCopies(window, pos + 1, addr + 1, size - 1);
    }
  }

  lemma CarriesLiteral(env: Env, cache: Cache, window: seq<byte>, x: RInst, srcbase: nat, file: seq<byte>)
    requires env.Valid() && DefaultCache(cache) && env.tgtlen == |window|
    requires Genuine(file, srcbase, env.cpylen, window, x) && x.type_ != CPY
    ensures Carries(env, cache, cache, window, x, if x.type_ == RUN then [x.xtra] else window[x.pos..x.pos + x.size], [])
  {
    var data := if x.type_ == RUN then [x.xtra] else window[x.pos..x.pos + x.size];
    var st := Done(env, cache, window, x.pos).(data := data, addr := []);
    assert ParseHalf(env, st, x.type_, x.size) == Ok((Half(x.type_, x.size, 0), st.(position := st.position + x.size)));
    assert window[..x.pos] + window[x.pos..x.pos + x.size] == window[..x.pos + x.size];
    if x.type_ == ADD {
      assert data[x.size..] == [] && data[..x.size] == data;
    } else {
      assert data[1..] == [];
    }
  }

  /** The address the decoder sees: source copies count from the source window, target copies from behind it. */
  function WindowAddr(srcbase: nat, srclen: nat, x: RInst): int {
    if x.xtra != 0 then x.addr - srcbase else srclen + x.addr
  }

  lemma CarriesCopy(env: Env, cache: Cache, window: seq<byte>, x: RInst, mode: nat, bytes: seq<byte>)
    requires env.Valid() && DefaultCache(cache) && env.tgtlen == |window|
    requires Genuine(env.src, env.cpyoff, env.cpylen, window, x) && x.type_ == CPY
    requires Encodes(cache, env.cpylen + x.pos, mode, bytes, WindowAddr(env.cpyoff, env.cpylen, x))
    ensures Carries(env, cache, UpdateCache(cache, WindowAddr(env.cpyoff, env.cpylen, x)), window, x.(type_ := CPY + mode), [], bytes)
  {
    hide ParseHalf, OutputHalf, Genuine, UpdateCache, WindowAddr;
    WindowAddrFits(env, window, x);
    var addr := WindowAddr(env.cpyoff, env.cpylen, x);
    ParsedCopy(env, cache, window, x, mode, bytes);
    var h := Half(CPY + mode, x.size, addr);
    CopyOut(env, Done(env, UpdateCache(cache, addr), window, x.pos).(position := env.cpylen + x.pos + x.size), h, window, x);
  }

  lemma WindowAddrFits(env: Env, window: seq<byte>, x: RInst)
    requires env.Valid() && Genuine(env.src, env.cpyoff, env.cpylen, window, x) && x.type_ == CPY && env.tgtlen == |window|
    ensures 0 <= WindowAddr(env.cpyoff, env.cpylen, x) < env.cpylen + x.pos && 0 < x.size && x.pos + x.size <= |window|
  {
  }

  lemma ParsedCopy(env: Env, cache: Cache, window: seq<byte>, x: RInst, mode: nat, bytes: seq<byte>)
    requires env.Valid() && DefaultCache(cache) && env.tgtlen == |window|
    requires Genuine(env.src, env.cpyoff, env.cpylen, window, x) && x.type_ == CPY
    requires Encodes(cache, env.cpylen + x.pos, mode, bytes, WindowAddr(env.cpyoff, env.cpylen, x))
    ensures
      var addr := WindowAddr(env.cpyoff, env.cpylen, x);
      var st := Done(env, cache, window, x.pos).(data := [], addr := bytes);
      ParseHalf(env, st, CPY + mode, x.size)
      == Ok((Half(CPY + mode, x.size, addr),
             Done(env, UpdateCache(cache, addr), window, x.pos).(position := st.position + x.size)))
  {
  }

  lemma CopyOut(env: Env, st: State, h: Half, window: seq<byte>, x: RInst)
    requires env.Valid() && Genuine(env.src, env.cpyoff, env.cpylen, window, x) && x.type_ == CPY
    requires h.type_ >= CPY && h.size == x.size && h.addr == WindowAddr(env.cpyoff, env.cpylen, x)
    requires st.out == window[..x.pos]
    ensures OutputHalf(env, st, h) == Ok(st.(out := window[..x.pos + x.size]))
  {
    if x.xtra != 0 {
      ReadBlocksIsSlice(env.src, env.blksize, x.addr, x.size);
      assert window[..x.pos] + window[x.pos..x.pos + x.size] == window[..x.pos + x.size];
    } else {
      OverlapCopies(window, x.pos, x.addr, x.size);
    }
  }

  /** The sections written so far, and the decoder's state behind the last instruction code in them. */
  datatype Written = Written(inst: seq<byte>, data: seq<byte>, addr: seq<byte>, behind: State)

  /** All codes written so far decode up to `off`; only the pending instruction's data and address are still unread. */
  ghost predicate Stage(env: Env, window: seq<byte>, w: Written, pending: Option<RInst>, cache: Cache, off: nat) {
    && env.Valid() && env.tgtlen == |window| && DefaultCache(cache) && off <= |window|
    && Run(env, WindowFormat.Start(env, w.inst, w.data, w.addr)) == Ok(w.behind)
    && match pending
       case None => w.behind == Done(env, cache, window, off)
       case Some(p) =>
         && p.pos + p.size == off
         && w.behind == Done(env, w.behind.cache, window, p.pos).(data := w.behind.data, addr := w.behind.addr)
         && Carries(env, w.behind.cache, cache, window, p, w.behind.data, w.behind.addr)
         && p.code1 == SingleCode(p.type_, p.size)
  }

  /** The next instruction finds nothing pending and becomes pending. */
  lemma StageFirst(env: Env, window: seq<byte>, w: Written, was: Cache, cache: Cache, x: RInst, d2: seq<byte>, a2: seq<byte>)
    requires Stage(env, window, w, None, was, x.pos) && DefaultCache(cache)
    requires Carries(env, was, cache, window, x, d2, a2) && x.code1 == SingleCode(x.type_, x.size)
    ensures Stage(env, window, Written(w.inst, w.data + d2, w.addr + a2, w.behind.(data := d2, addr := a2)),
                  Some(x), cache, x.pos + x.size)
  {
    RunWaits(env, w.inst, w.data, w.addr, w.behind, d2, a2);
    hide Run, ExecHalf, SingleCode, DefaultCache;
  }

  /** The pending instruction is written with a code of its own, and the next one becomes pending. */
  lemma StageSingle(env: Env, window: seq<byte>, w: Written, p: RInst, was: Cache, cache: Cache, x: RInst,
                    d2: seq<byte>, a2: seq<byte>)
    requires Stage(env, window, w, Some(p), was, x.pos) && DefaultCache(cache)
    requires Carries(env, was, cache, window, x, d2, a2) && x.code1 == SingleCode(x.type_, x.size)
    ensures NOOP < p.type_ < CPY + CPY_MODES && p.size < TWO_64 && p.code1 == SingleCode(p.type_, p.size)
    ensures Stage(env, window, Written(w.inst + SingleBytes(p.type_, p.size), w.data + d2, w.addr + a2,
                                       Done(env, was, window, x.pos).(data := d2, addr := a2)),
                  Some(x), cache, x.pos + x.size)
  {
    hide Run, ExecHalf, SingleBytes, SingleCode, DefaultCache;
    SizeInWindow(env, window, was, cache, x, d2, a2);
    PendingSize(env, window, w, p, was, x.pos);
    FlushSingle(env, w.inst, w.data, w.addr, w.behind, was, window, p, d2, a2);
  }

  /** The pending instruction and the next one share a code, and nothing is pending. */
  lemma StageDouble(env: Env, window: seq<byte>, w: Written, p: RInst, was: Cache, cache: Cache, x: RInst,
                    d2: seq<byte>, a2: seq<byte>)
    requires Stage(env, window, w, Some(p), was, x.pos) && DefaultCache(cache)
    requires Carries(env, was, cache, window, x, d2, a2)
    requires DoubleCode(p.type_, p.size, x.type_, x.size) != 0
    ensures Stage(env, window, Written(w.inst + [DoubleCode(p.type_, p.size, x.type_, x.size)], w.data + d2, w.addr + a2,
                                       Done(env, cache, window, x.pos + x.size)),
                  None, cache, x.pos + x.size)
  {
    hide Run, ExecHalf, DoubleCode, SingleCode, DefaultCache;
    FlushDouble(env, w.inst, w.data, w.addr, w.behind, was, cache, window, p, x, d2, a2);
  }

  lemma SizeInWindow(env: Env, window: seq<byte>, cache: Cache, cache': Cache, x: RInst, data: seq<byte>, addr: seq<byte>)
    requires env.Valid() && DefaultCache(cache) && Carries(env, cache, cache', window, x, data, addr)
    ensures NOOP < x.type_ < CPY + CPY_MODES && x.size > 0 && x.pos + x.size <= |window|
  {
  }

  lemma CodesAside(env: Env, window: seq<byte>, cache: Cache, cache': Cache, x: RInst, code: byte,
                   data: seq<byte>, addr: seq<byte>)
    requires env.Valid() && DefaultCache(cache) && Carries(env, cache, cache', window, x, data, addr)
    ensures Carries(env, cache, cache', window, x.(code1 := code, code2 := 0), data, addr)
  {
  }

  lemma PendingSize(env: Env, window: seq<byte>, w: Written, p: RInst, cache: Cache, off: nat)
    requires Stage(env, window, w, Some(p), cache, off)
    ensures NOOP < p.type_ < CPY + CPY_MODES && 0 < p.size <= |window|
    ensures p.code1 == SingleCode(p.type_, p.size)
  {
    hide Run, ExecHalf, SingleCode, DefaultCache;
  }

  /** The slots that the pending instruction occupies. */
  function Slots(pending: Option<RInst>): nat {
    if pending.Some? && pending.value.type_ != ADD then 1 else 0
  }

  // ----- Which instructions have been sent, and how they share codes

  /** The instruction as it was handed over, without the mode and the codes it has got since. */
  function Kind(x: RInst): RInst {
    x.(type_ := if x.type_ >= CPY then CPY else x.type_, code1 := 0, code2 := 0)
  }

  /** The ADD for the bytes between two positions. */
  function Gap(from: nat, to: nat): seq<RInst> {
    if from < to then [RInst(ADD, 0, from, to - from, 0, 0, 0)] else []
  }

  /** One code stands for one instruction or for two. */
  datatype Unit = Single(x: RInst) | Double(x: RInst, y: RInst)

  predicate Typed(x: RInst) {
    NOOP < x.type_ < CPY + CPY_MODES && x.size > 0
  }

  /** The code for two instructions, or 0. */
  function PairCode(x: RInst, y: RInst): byte {
    if Typed(x) && Typed(y) then DoubleCode(x.type_, x.size, y.type_, y.size) else 0
  }

  function UnitBytes(u: Unit): seq<byte> {
    match u
    case Single(x) => if Typed(x) then SingleBytes(x.type_, x.size) else []
    case Double(x, y) => [PairCode(x, y)]
  }

  function AllUnitBytes(units: seq<Unit>): seq<byte> {
    if units == [] then [] else AllUnitBytes(units[..|units| - 1]) + UnitBytes(units[|units| - 1])
  }

  function UnitKinds(u: Unit): seq<RInst> {
    match u
    case Single(x) => [Kind(x)]
    case Double(x, y) => [Kind(x), Kind(y)]
  }

  function AllKinds(units: seq<Unit>): seq<RInst> {
    if units == [] then [] else AllKinds(units[..|units| - 1]) + UnitKinds(units[|units| - 1])
  }

  /** An instruction that got a code to itself could not have shared it with the next one, `y`. */
  predicate Alone(u: Unit, y: RInst) {
    u.Single? ==> PairCode(u.x, y) == 0
  }

  /** Codes are shared wherever there is one for two instructions, from the front. */
  predicate Shared(units: seq<Unit>, pending: Option<RInst>) {
    && (forall i :: 0 <= i < |units| && units[i].Double? ==> PairCode(units[i].x, units[i].y) != 0)
    && (forall i :: 0 <= i < |units| - 1 ==> Alone(units[i], units[i + 1].x))
    && (pending.Some? && units != [] ==> Alone(units[|units| - 1], pending.value))
  }

  /** Nothing can be pending behind a code that stands for one instruction, unless the window is complete. */
  predicate Rests(units: seq<Unit>) {
    units != [] ==> units[|units| - 1].Double?
  }

  function Waiting(pending: Option<RInst>): seq<RInst> {
    if pending.Some? then [Kind(pending.value)] else []
  }

  lemma OneUnit(units: seq<Unit>, u: Unit)
    ensures AllUnitBytes(units + [u]) == AllUnitBytes(units) + UnitBytes(u)
    ensures AllKinds(units + [u]) == AllKinds(units) + UnitKinds(u)
  {
    assert (units + [u])[..|units|] == units;
  }

  lemma SharedNext(units: seq<Unit>, u: Unit, next: Option<RInst>)
    requires Shared(units, Some(u.x)) && (u.Double? ==> PairCode(u.x, u.y) != 0)
    requires next.Some? ==> Alone(u, next.value)
    ensures Shared(units + [u], next)
  {
    hide PairCode, Alone;
    var now := units + [u];
    assert now[|units|] == u && forall i :: 0 <= i < |units| ==> now[i] == units[i];
  }

  /** The pending instruction shares a code with the next one. */
  lemma SharesCode(units: seq<Unit>, p: RInst, x: RInst)
    requires Shared(units, Some(p)) && PairCode(p, x) != 0
    ensures Shared(units + [Double(p, x)], None) && Rests(units + [Double(p, x)])
    ensures AllUnitBytes(units + [Double(p, x)]) == AllUnitBytes(units) + [PairCode(p, x)]
    ensures AllKinds(units + [Double(p, x)]) + Waiting(None) == AllKinds(units) + Waiting(Some(p)) + [Kind(x)]
  {
    hide PairCode, Kind, Shared, AllKinds, AllUnitBytes;
    SharedNext(units, Double(p, x), None);
    OneUnit(units, Double(p, x));
    TwoBehind(AllKinds(units), Kind(p), Kind(x));
  }

  lemma TwoBehind(s: seq<RInst>, a: RInst, b: RInst)
    ensures s + [a, b] + [] == s + [a] + [b]
  {
  }

  /** The pending instruction gets a code to itself, because there is none for both or because nothing follows. */
  lemma GetsCode(units: seq<Unit>, p: RInst, next: Option<RInst>)
    requires Shared(units, Some(p)) && Typed(p) && (next.Some? ==> PairCode(p, next.value) == 0)
    ensures Shared(units + [Single(p)], next)
    ensures AllUnitBytes(units + [Single(p)]) == AllUnitBytes(units) + SingleBytes(p.type_, p.size)
    ensures AllKinds(units + [Single(p)]) + Waiting(next) == AllKinds(units) + Waiting(Some(p)) + Waiting(next)
  {
    hide PairCode, SingleBytes, Kind, Shared, AllKinds, AllUnitBytes;
    SharedNext(units, Single(p), next);
    OneUnit(units, Single(p));
  }

  lemma NothingBefore(units: seq<Unit>, x: RInst)
    requires Shared(units, None) && Rests(units)
    ensures Shared(units, Some(x)) && AllKinds(units) + Waiting(Some(x)) == AllKinds(units) + Waiting(None) + [Kind(x)]
  {
    hide PairCode, Kind;
  }

  lemma GapIs(from: nat, to: nat)
    requires from < to
    ensures Gap(from, to) == [Kind(RInst(ADD, 0, from, to - from, 0, 0, 0))]
  {
  }

  lemma NoGap(from: nat, to: nat, told: seq<RInst>)
    requires to <= from
    ensures told + Gap(from, to) == told
  {
  }

  lemma PairIs(x: RInst, y: RInst)
    requires NOOP < x.type_ < CPY + CPY_MODES && x.size > 0 && NOOP < y.type_ < CPY + CPY_MODES && y.size > 0
    ensures Typed(x) && Typed(y) && PairCode(x, y) == DoubleCode(x.type_, x.size, y.type_, y.size)
  {
    hide DoubleCode;
  }

  lemma KindOfMode(x: RInst, mode: nat)
    requires x.type_ == CPY
    ensures Kind(x.(type_ := CPY + mode)) == Kind(x)
  {
  }

  lemma KindAside(x: RInst, code: byte)
    ensures Kind(x.(code1 := code, code2 := 0)) == Kind(x)
  {
  }

  class Encoder {
    const window: seq<byte>
    const srcbase: nat
    const srclen: nat
    const acache: AddrCache
    ghost const file: seq<byte>
    ghost const blksize: nat
    var data: seq<byte>
    var inst: seq<byte>
    var addr: seq<byte>
    var iout: Option<RInst>
    var unencodedOffset: nat
    /** How many slots of the instruction buffer are free; an ADD never occupies one. */
    var free: nat
    /** The decoder's state behind the last instruction code written. */
    ghost var behind: State
    /** What the instruction codes written so far stand for. */
    ghost var units: seq<Unit>

    /** The window that a decoder of the output is in; `srclen` is also the base of target addresses. */
    ghost function TheEnv(): Env {
      Env(file, blksize, srcbase, srclen, |window|)
    }

    ghost predicate Ready()
      reads this, acache, acache.nearArray, acache.sameArray
    {
      && blksize > 0 && srclen + |window| < TWO_64 && acache.Valid() && DefaultCache(acache.View())
      && unencodedOffset <= |window|
    }

    ghost function Sections(): Written
      reads this
    {
      Written(inst, data, addr, behind)
    }

    ghost predicate Valid()
      reads this, acache, acache.nearArray, acache.sameArray
    {
      && Ready() && Stage(TheEnv(), window, Sections(), iout, acache.View(), unencodedOffset)
      && inst == AllUnitBytes(units) && Shared(units, iout)
      && (iout.None? && unencodedOffset < |window| ==> Rests(units))
    }

    /** All instructions finished so far, in order. */
    ghost function Told(): seq<RInst>
      reads this`units, this`iout
    {
      AllKinds(units) + Waiting(iout)
    }

    constructor (window: seq<byte>, srcbase: nat, srclen: nat, slots: nat, ghost file: seq<byte>, ghost blksize: nat)
      requires blksize > 0 && srclen + |window| < TWO_64
      ensures Valid() && fresh(acache) && fresh(acache.nearArray) && fresh(acache.sameArray)
      ensures TheEnv() == Env(file, blksize, srcbase, srclen, |window|) && this.window == window
      ensures unencodedOffset == 0 && iout == None && free == slots && Told() == []
    {
      this.window, this.srcbase, this.srclen, this.file, this.blksize := window, srcbase, srclen, file, blksize;
      acache := new AddrCache(NEAR_MODES, SAME_MODES);
      data, inst, addr, iout, unencodedOffset, free := [], [], [], None, 0, slots;
      new;
      behind, units := WindowFormat.Start(TheEnv(), [], [], []), [];
    }

    /** Writes the instruction's literal data or its address; an address also fixes the type. */
    method EmitPayload(x: RInst) returns (x': RInst)
      requires Ready() && Genuine(file, srcbase, srclen, window, x)
      modifies this`data, this`addr, acache, acache.nearArray, acache.sameArray
      ensures Ready() && x' == x.(type_ := x'.type_) && Kind(x') == Kind(x)
      ensures old(data) <= data && old(addr) <= addr
      ensures Carries(TheEnv(), old(acache.View()), acache.View(), window, x', data[|old(data)|..], addr[|old(addr)|..])
      ensures x'.type_ == ADD <==> x.type_ == ADD
    {
      hide WrittenAddress, Shortest, Encodes, UpdateCache, Repeat, Kind;
      x' := x;
      if x.type_ == CPY {
        var a: nat := if x.xtra != 0 then x.addr - srcbase else srclen + x.addr;
        ghost var cache := acache.View();
        var mode, bytes := acache.EncodeAddress(a, x.pos + srclen);
        CarriesCopy(TheEnv(), cache, window, x, mode, bytes);
        x' := x.(type_ := CPY + mode);
        KindOfMode(x, mode);
        addr := addr + bytes;
        assert data[|old(data)|..] == [] && addr[|old(addr)|..] == bytes;
      } else {
        CarriesLiteral(TheEnv(), acache.View(), window, x, srcbase, file);
        var bytes := if x.type_ == RUN then [x.xtra] else window[x.pos..x.pos + x.size];
        data := data + bytes;
        assert data[|old(data)|..] == bytes && addr[|old(addr)|..] == [];
      }
    }

    /** Writes a code, and the size when the table has none for it. */
    method EmitSingle(single: RInst, code: byte)
      requires NOOP < single.type_ < CPY + CPY_MODES && single.size < TWO_64 && code == SingleCode(single.type_, single.size)
      modifies this`inst
      ensures inst == old(inst) + SingleBytes(single.type_, single.size)
    {
      var hasSize := Entry(code).size1 == 0;
      inst := inst + [code];
      if hasSize {
        var bytes := EmitInteger(single.size);
        inst := inst + bytes;
      }
      assert inst == old(inst) + SingleBytes(single.type_, single.size);
    }

    method FreeNonadd(x: RInst)
      modifies this`free
      ensures free == old(free) + Slots(Some(x))
      ensures old(Valid()) ==> Valid()
    {
      if x.type_ != ADD {
        free := free + 1;
      }
    }

    /** Puts an instruction whose payload has been written behind the pending one. */
    method Enqueue(x0: RInst, ghost w: Written, ghost was: Cache, ghost d2: seq<byte>, ghost a2: seq<byte>)
      requires Ready() && Stage(TheEnv(), window, w, iout, was, x0.pos) && unencodedOffset == x0.pos + x0.size
      requires inst == w.inst && data == w.data + d2 && addr == w.addr + a2 && behind == w.behind
      requires TheEnv().Valid() && DefaultCache(was)
      requires Carries(TheEnv(), was, acache.View(), window, x0, d2, a2)
      requires inst == AllUnitBytes(units) && Shared(units, iout) && (iout.None? ==> Rests(units))
      modifies this`inst, this`iout, this`behind, this`free, this`units
      ensures Valid() && Told() == old(Told()) + [Kind(x0)]
      ensures free + Slots(iout) == old(free + Slots(iout)) + Slots(Some(x0))
      ensures iout.Some? ==> (iout.value.type_ == ADD <==> x0.type_ == ADD)
    {
      hide Run, ExecHalf, Genuine, Stage, Carries, Done, SingleBytes, SingleCode, DoubleCode, UpdateCache, DefaultCache,
           AddrCache.Valid, AddrCache.View, Shared, AllUnitBytes, AllKinds, Kind, PairCode, Typed, Rests;
      ghost var env, now := TheEnv(), acache.View();
      var x := x0;
      SizeInWindow(env, window, was, now, x, d2, a2);
      if iout.Some? {
        var p := iout.value;
        PendingSize(env, window, w, p, was, x.pos);
        var code1, code2 := ChooseInstruction(true, p.type_, p.size, x.type_, x.size);
        CodesAside(env, window, was, now, x, code1, d2, a2);
        KindAside(x, code1);
        x := x.(code1 := code1, code2 := 0);
        PairIs(p, x);
        FreeNonadd(p);
        if code2 != 0 {
          StageDouble(env, window, w, p, was, now, x, d2, a2);
          SharesCode(units, p, x);
          units := units + [Double(p, x)];
          inst := inst + [code2];
          behind := Done(env, now, window, unencodedOffset);
          FreeNonadd(x);
          iout := None;
        } else {
          StageSingle(env, window, w, p, was, now, x, d2, a2);
          GetsCode(units, p, Some(x));
          units := units + [Single(p)];
          EmitSingle(p, p.code1);
          behind := Done(env, was, window, x.pos).(data := d2, addr := a2);
          iout := Some(x);
        }
      } else {
        var code1, _ := ChooseInstruction(false, 0, 0, x.type_, x.size);
        CodesAside(env, window, was, now, x, code1, d2, a2);
        KindAside(x, code1);
        x := x.(code1 := code1, code2 := 0);
        StageFirst(env, window, w, was, now, x, d2, a2);
        NothingBefore(units, x);
        behind := behind.(data := d2, addr := a2);
        iout := Some(x);
      }
    }

    /** Finishes one instruction: its payload is written now, its code only when the next instruction is known, so
        that the two can share a code. */
    method FinishEncoding(x: RInst)
      requires Valid() && Genuine(file, srcbase, srclen, window, x) && x.pos == unencodedOffset
      modifies this, acache, acache.nearArray, acache.sameArray
      ensures Valid() && unencodedOffset == x.pos + x.size
      ensures Told() == old(Told()) + [Kind(x)]
      ensures free + Slots(iout) == old(free + Slots(iout)) + Slots(Some(x))
      ensures iout.Some? ==> (iout.value.type_ == ADD <==> x.type_ == ADD)
    {
      hide Run, ExecHalf, Genuine, Stage, Carries, Done, SingleBytes, SingleCode, DoubleCode, UpdateCache, DefaultCache,
           AddrCache.Valid, AddrCache.View, Shared, AllUnitBytes, AllKinds, Kind, Rests;
      ghost var was, w := acache.View(), Sections();
      var x' := EmitPayload(x);
      ghost var d2, a2 := data[|old(data)|..], addr[|old(addr)|..];
      assert data == w.data + d2 && addr == w.addr + a2;
      SizeInWindow(TheEnv(), window, was, acache.View(), x', d2, a2);
      unencodedOffset := unencodedOffset + x.size;
      Enqueue(x', w, was, d2, a2);
    }

    /** Covers the bytes up to `pos` that no instruction claims with an ADD. */
    method IoptAdd(pos: nat)
      requires Valid() && pos <= |window|
      modifies this, acache, acache.nearArray, acache.sameArray
      ensures Valid() && unencodedOffset == Max(pos, old(unencodedOffset))
      ensures Told() == old(Told()) + Gap(old(unencodedOffset), pos)
      ensures free + Slots(iout) == old(free + Slots(iout))
    {
      hide Stage, Shared, AllUnitBytes, AllKinds, Kind, Rests, Gap, AddrCache.Valid, AddrCache.View, DefaultCache, Waiting;
      var off := unencodedOffset;
      if pos > off {
        var iadd := RInst(ADD, 0, off, pos - off, 0, 0, 0);
        GapIs(off, pos);
        FinishEncoding(iadd);
      } else {
        NoGap(off, pos, Told());
      }
    }

    /** Encodes the next instruction, and an ADD for the gap before it. */
    method AddEncoding(x: RInst)
      requires Valid() && Genuine(file, srcbase, srclen, window, x) && unencodedOffset <= x.pos
      modifies this, acache, acache.nearArray, acache.sameArray
      ensures Valid() && unencodedOffset == x.pos + x.size
      ensures Told() == old(Told()) + Gap(old(unencodedOffset), x.pos) + [Kind(x)]
      ensures free + Slots(iout) == old(free + Slots(iout)) + Slots(Some(x))
      ensures iout.Some? ==> (iout.value.type_ == ADD <==> x.type_ == ADD)
    {
      IoptAdd(x.pos);
      FinishEncoding(x);
    }

    /** Encodes what is left of the window. From here on any decoder reproduces the window from the sections. */
    method AddFinalize()
      requires Valid()
      modifies this, acache, acache.nearArray, acache.sameArray
      ensures Valid() && unencodedOffset == |window| && iout == None
      ensures free == old(free + Slots(iout))
      ensures DecodeWindow(TheEnv(), inst, data, addr) == Ok(window)
      ensures inst == AllUnitBytes(units) && Shared(units, None)
      ensures AllKinds(units) == old(Told()) + Gap(old(unencodedOffset), |window|)
    {
      hide Run, ExecHalf, SingleBytes, SingleCode, Shared, AllUnitBytes, AllKinds, Kind, PairCode, Rests;
      IoptAdd(|window|);
      if iout.Some? {
        var p := iout.value;
        ghost var was := inst;
        GetsCode(units, p, None);
        EmitSingle(p, p.code1);
        units := units + [Single(p)];
        FlushSingle(TheEnv(), was, data, addr, behind, acache.View(), window, p, [], []);
        assert data + [] == data && addr + [] == addr;
        behind := Done(TheEnv(), acache.View(), window, unencodedOffset);
        FreeNonadd(p);
        iout := None;
      }
      assert window[..|window|] == window;
      assert AllKinds(units) + Waiting(None) == AllKinds(units);
    }
  }

  lemma RunAppend(env: Env, inst: seq<byte>, data: seq<byte>, addr: seq<byte>, behind: State, i2: seq<byte>, d2: seq<byte>, a2: seq<byte>)
    requires env.Valid() && Run(env, WindowFormat.Start(env, inst, data, addr)) == Ok(behind)
    ensures Run(env, WindowFormat.Start(env, inst + i2, data + d2, addr + a2)) == Run(env, More(behind, i2, d2, a2))
  {
    var st := WindowFormat.Start(env, inst, data, addr);
    RunContinues(env, st, i2, d2, a2);
    assert More(st, i2, d2, a2) == WindowFormat.Start(env, inst + i2, data + d2, addr + a2);
  }

  /** A payload without its code leaves the decoder where it is. */
  lemma RunWaits(env: Env, inst: seq<byte>, data: seq<byte>, addr: seq<byte>, behind: State, d2: seq<byte>, a2: seq<byte>)
    requires env.Valid() && Run(env, WindowFormat.Start(env, inst, data, addr)) == Ok(behind)
    requires behind.data == [] && behind.addr == []
    ensures Run(env, WindowFormat.Start(env, inst, data + d2, addr + a2)) == Ok(behind.(data := d2, addr := a2))
  {
    RunAppend(env, inst, data, addr, behind, [], d2, a2);
    assert inst + [] == inst && behind.data + d2 == d2 && behind.addr + a2 == a2;
    assert behind.inst == [] && behind.inst + [] == [];
  }

  /** Writing the pending instruction's code uses up its payload; payload written after it stays unread. */
  lemma FlushSingle(env: Env, inst: seq<byte>, data: seq<byte>, addr: seq<byte>, behind: State, cache': Cache, window: seq<byte>,
                    p: RInst, d2: seq<byte>, a2: seq<byte>)
    requires env.Valid() && Run(env, WindowFormat.Start(env, inst, data, addr)) == Ok(behind)
    requires p.pos <= |window| && behind == Done(env, behind.cache, window, p.pos).(data := behind.data, addr := behind.addr)
    requires Carries(env, behind.cache, cache', window, p, behind.data, behind.addr) && p.size < TWO_64
    ensures Run(env, WindowFormat.Start(env, inst + SingleBytes(p.type_, p.size), data + d2, addr + a2))
            == Ok(Done(env, cache', window, p.pos + p.size).(data := d2, addr := a2))
  {
    hide Run, ExecHalf, SingleBytes;
    var bytes := SingleBytes(p.type_, p.size);
    RunAppend(env, inst, data, addr, behind, bytes, d2, a2);
    var st := More(behind, [], d2, a2);
    assert More(Done(env, cache', window, p.pos + p.size), [], d2, a2) == Done(env, cache', window, p.pos + p.size).(data := d2, addr := a2);
    assert behind.inst + bytes == bytes;
    ExecIgnoresMore(env, behind, p.type_, p.size, [], d2, a2);
    SingleRuns(env, st, p.type_, p.size);
    assert More(behind, bytes, d2, a2) == st.(inst := bytes);
  }

  /** One code for the pending instruction and the next uses up both payloads. */
  lemma FlushDouble(env: Env, inst: seq<byte>, data: seq<byte>, addr: seq<byte>, behind: State, cache': Cache, cache'': Cache,
                    window: seq<byte>, p: RInst, x: RInst, d2: seq<byte>, a2: seq<byte>)
    requires env.Valid() && Run(env, WindowFormat.Start(env, inst, data, addr)) == Ok(behind)
    requires p.pos <= |window| && behind == Done(env, behind.cache, window, p.pos).(data := behind.data, addr := behind.addr)
    requires Carries(env, behind.cache, cache', window, p, behind.data, behind.addr) && DefaultCache(cache')
    requires Carries(env, cache', cache'', window, x, d2, a2) && x.pos == p.pos + p.size
    requires DoubleCode(p.type_, p.size, x.type_, x.size) != 0
    ensures Run(env, WindowFormat.Start(env, inst + [DoubleCode(p.type_, p.size, x.type_, x.size)], data + d2, addr + a2))
            == Ok(Done(env, cache'', window, x.pos + x.size))
  {
    hide Run, ExecHalf, DoubleCode;
    var code := DoubleCode(p.type_, p.size, x.type_, x.size);
    RunAppend(env, inst, data, addr, behind, [code], d2, a2);
    var st := More(behind, [], d2, a2);
    ExecIgnoresMore(env, behind, p.type_, p.size, [], d2, a2);
    assert More(Done(env, cache', window, x.pos), [], d2, a2) == Done(env, cache', window, x.pos).(data := d2, addr := a2);
    DoubleRuns(env, st, p.type_, p.size, x.type_, x.size);
    assert More(behind, [code], d2, a2) == st.(inst := [code]);
  }
}
