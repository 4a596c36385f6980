/** The window decoder with positions and sums as 64-bit words: what wraps is refused all the same, when it is put out or
    at the end of the window. */
module WindowWrap {
  import opened Arithmetic
  import opened Bytes
  import opened Results
  import opened Integers
  import opened AddressCache
  import opened CodeTable
  import opened WindowFormat

  function Wrap(x: nat): (r: nat)
    ensures r < TWO_64 && r <= x && (x < TWO_64 ==> r == x)
  {
    x % TWO_64
  }

  /** One half-instruction, the sums taken modulo 2^64. */
  function ParseHalf64(env: Env, st: State, type_: nat, size0: nat): (r: Result<(Half, State)>)
    requires env.Valid() && DefaultCache(st.cache) && NOOP < type_ < CPY + CPY_MODES
    ensures r.Ok? ==> var (h, st') := r.value;
              && h.type_ == type_ && DefaultCache(st'.cache) && st'.out == st.out && |st'.inst| <= |st.inst|
              && st'.position == Wrap(st.position + h.size) && (type_ >= CPY ==> h.addr < st.position)
  {
    var sized := if size0 == 0 then ReadInt(st.inst, 0) else Read(size0, st.inst);
    if !sized.Read? then InvalidInput
    else
      var located := if type_ >= CPY then DecodeAddress(st.cache, st.position, type_ - CPY, st.addr)
                     else Addr(0, st.addr, st.cache);
      if !located.Addr? then InvalidInput
      else if type_ >= CPY && located.addr >= st.position then InvalidInput
      else if type_ >= CPY && located.addr < env.cpylen && Wrap(located.addr + sized.value) > env.cpylen then InvalidInput
      else if Wrap(st.position + sized.value) > env.cpylen + env.tgtlen then InvalidInput
      else Ok((Half(type_, sized.value, located.addr),
               st.(inst := sized.rest, addr := located.rest, cache := located.cache,
                   position := Wrap(st.position + sized.value))))
  }

  /** Nothing is put out that has no room; the buffer has `space` bytes, at least as many as the window. */
  function OutputHalf64(env: Env, space: nat, st: State, h: Half): (r: Result<State>)
    requires env.Valid() && Ready(env, st.out, h)
    ensures r.Ok? ==> |r.value.out| == |st.out| + h.size
    ensures r.Ok? ==> r.value == st.(data := r.value.data, out := r.value.out)
  {
    if |st.out| + h.size >= TWO_64 || |st.out| + h.size > space then InvalidInput else OutputHalf(env, st, h)
  }

  /** The position is where the output ends, modulo 2^64. */
  predicate InStep(env: Env, st: State) {
    DefaultCache(st.cache) && st.position == Wrap(env.cpylen + |st.out|)
  }

  lemma WrapAgain(x: nat, size: nat)
    ensures Wrap(Wrap(x) + size) == Wrap(x + size)
  {
  }

  /** A parsed half starts before the end of the output there is when it was parsed. */
  lemma ReadyThen(env: Env, out: seq<byte>, h: Half)
    requires h.type_ > NOOP && (h.type_ >= CPY ==> h.addr < Wrap(env.cpylen + |out|))
    ensures Ready(env, out, h)
  {
  }

  /** The first half, and the state in which the second is parsed. */
  lemma FirstHalf(env: Env, st: State, type_: nat, size0: nat)
    requires env.Valid() && InStep(env, st) && NOOP < type_ < CPY + CPY_MODES && ParseHalf64(env, st, type_, size0).Ok?
    ensures
      var (h, st') := ParseHalf64(env, st, type_, size0).value;
      Ready(env, st.out, h) && st'.position == Wrap(env.cpylen + |st.out| + h.size) && DefaultCache(st'.cache)
  {
    hide DefaultCache, Ready, ParseHalf64, Wrap;
    var (h, st') := ParseHalf64(env, st, type_, size0).value;
    WrapAgain(env.cpylen + |st.out|, h.size);
    ReadyThen(env, st.out, h);
  }

  /** Both halves are put out, one after the other. */
  function OutputBoth64(env: Env, space: nat, st: State, h1: Half, h2: Half): (r: Result<State>)
    requires env.Valid() && Ready(env, st.out, h1) && h2.type_ > NOOP
    requires h2.type_ >= CPY ==> h2.addr < Wrap(env.cpylen + (|st.out| + h1.size))
    ensures r.Ok? ==> |r.value.out| == |st.out| + h1.size + h2.size
    ensures r.Ok? ==> r.value == st.(data := r.value.data, out := r.value.out)
  {
    hide OutputHalf64, Wrap, Ready;
    var st3 :- OutputHalf64(env, space, st, h1);
    ReadyThen(env, st3.out, h2);
    OutputHalf64(env, space, st3, h2)
  }

  /** The second half is parsed before the first is put out. */
  function Second64(env: Env, space: nat, st: State, h1: Half, type_: nat, size0: nat): (r: Result<State>)
    requires env.Valid() && NOOP < type_ < CPY + CPY_MODES && Ready(env, st.out, h1)
    requires DefaultCache(st.cache) && st.position == Wrap(env.cpylen + |st.out| + h1.size)
    ensures r.Ok? ==> InStep(env, r.value) && |r.value.inst| <= |st.inst| && |r.value.out| >= |st.out|
  {
    hide ParseHalf64, OutputBoth64, Wrap, DefaultCache, Ready;
    var (h2, st2) :- ParseHalf64(env, st, type_, size0);
    WrapAgain(env.cpylen + |st.out| + h1.size, h2.size);
    OutputBoth64(env, space, st2, h1, h2)
  }

  function Instruction64(env: Env, space: nat, st: State): (r: Result<State>)
    requires env.Valid() && InStep(env, st) && st.inst != []
    ensures r.Ok? ==> InStep(env, r.value) && |r.value.inst| < |st.inst| && |r.value.out| >= |st.out|
  {
    hide ParseHalf64, OutputHalf64, Second64, Entry, Wrap, DefaultCache, Ready;
    var d := Entry(st.inst[0]);
    var st0 := st.(inst := st.inst[1..]);
    var (h1, st1) :- ParseHalf64(env, st0, d.type1, d.size1);
    FirstHalf(env, st0, d.type1, d.size1);
    if d.type2 == NOOP then OutputHalf64(env, space, st1, h1) else Second64(env, space, st1, h1, d.type2, d.size2)
  }

  function Run64(env: Env, space: nat, st: State): (r: Result<State>)
    requires env.Valid() && InStep(env, st)
    ensures r.Ok? ==> |r.value.out| >= |st.out|
    decreases |st.inst|
  {
    if st.inst == [] then Ok(st)
    else
      var st' :- Instruction64(env, space, st);
      Run64(env, space, st')
  }

  function DecodeWindow64(env: Env, space: nat, inst: seq<byte>, data: seq<byte>, addr: seq<byte>): Result<seq<byte>>
    requires env.Valid()
  {
    Finished(env, Run64(env, space, Start(env, inst, data, addr)))
  }

  // ----- Against the decoder on natural numbers

  /** Refused, or so much output that the window can no longer come out right. */
  predicate Lost(env: Env, r: Result<State>) {
    r.Ok? ==> |r.value.out| > env.tgtlen
  }

  /** What the decoder on natural numbers gives, or where that refuses, nothing a window can be made of. */
  predicate Alike(env: Env, r: Result<State>, r64: Result<State>) {
    r64 == r || (r.InvalidInput? && Lost(env, r64))
  }

  /** A half-instruction that is only refused by the decoder on natural numbers moves the position beyond 2^64. */
  lemma ParsedAlike(env: Env, st: State, type_: nat, size0: nat)
    requires env.Valid() && DefaultCache(st.cache) && NOOP < type_ < CPY + CPY_MODES && st.position < TWO_64
    ensures
      var r, r64 := ParseHalf(env, st, type_, size0), ParseHalf64(env, st, type_, size0);
      r64 == r || (r.InvalidInput? && r64.Ok? && st.position + r64.value.0.size >= TWO_64)
  {
    hide DefaultCache, DecodeAddress, ReadInt;
  }

  lemma OutputAlike(env: Env, space: nat, st: State, h: Half)
    requires env.Valid() && Ready(env, st.out, h) && env.tgtlen <= space
    ensures |st.out| + h.size <= env.tgtlen ==> OutputHalf64(env, space, st, h) == OutputHalf(env, st, h)
    ensures |st.out| + h.size > env.tgtlen ==> Lost(env, OutputHalf64(env, space, st, h))
  {
    hide OutputHalf, Ready;
  }

  lemma BothLost(env: Env, space: nat, st: State, h1: Half, h2: Half)
    requires env.Valid() && Ready(env, st.out, h1) && h2.type_ > NOOP && env.tgtlen <= space
    requires h2.type_ >= CPY ==> h2.addr < Wrap(env.cpylen + (|st.out| + h1.size))
    requires |st.out| + h1.size + h2.size > env.tgtlen
    ensures Lost(env, OutputBoth64(env, space, st, h1, h2))
  {
    hide OutputBoth64;
  }

  /** Both halves put out by the decoder on natural numbers. */
  function OutputBoth(env: Env, st: State, h1: Half, h2: Half): Result<State>
    requires env.Valid() && Ready(env, st.out, h1) && h2.type_ > NOOP
    requires h2.type_ >= CPY ==> h2.addr < env.cpylen + |st.out| + h1.size
  {
    hide OutputHalf;
    var st3 :- OutputHalf(env, st, h1);
    OutputHalf(env, st3, h2)
  }

  lemma BothAlike(env: Env, space: nat, st: State, h1: Half, h2: Half)
    requires env.Valid() && Ready(env, st.out, h1) && h2.type_ > NOOP && env.tgtlen <= space
    requires h2.type_ >= CPY ==> h2.addr < env.cpylen + (|st.out| + h1.size) < TWO_64
    requires |st.out| + h1.size + h2.size <= env.tgtlen
    ensures OutputBoth64(env, space, st, h1, h2) == OutputBoth(env, st, h1, h2)
  {
    hide OutputHalf, OutputHalf64;
    OutputAlike(env, space, st, h1);
    var r := OutputHalf(env, st, h1);
    if r.Ok? {
      ReadyThen(env, r.value.out, h2);
      OutputAlike(env, space, r.value, h2);
    }
  }

  /** The second half by the decoder on natural numbers. */
  function Second(env: Env, st: State, h1: Half, type_: nat, size0: nat): Result<State>
    requires env.Valid() && NOOP < type_ < CPY + CPY_MODES && Ready(env, st.out, h1)
    requires DefaultCache(st.cache) && st.position == env.cpylen + |st.out| + h1.size
  {
    hide ParseHalf, OutputBoth, DefaultCache, Ready;
    var (h2, st2) :- ParseHalf(env, st, type_, size0);
    OutputBoth(env, st2, h1, h2)
  }

  lemma SecondAlike(env: Env, space: nat, st: State, h1: Half, type_: nat, size0: nat)
    requires env.Valid() && NOOP < type_ < CPY + CPY_MODES && Ready(env, st.out, h1) && env.tgtlen <= space
    requires DefaultCache(st.cache) && st.position == env.cpylen + |st.out| + h1.size <= env.cpylen + env.tgtlen
    ensures Alike(env, Second(env, st, h1, type_, size0), Second64(env, space, st, h1, type_, size0))
  {
    hide ParseHalf, ParseHalf64, OutputBoth, OutputBoth64, DefaultCache, Ready;
    ParsedAlike(env, st, type_, size0);
    var r, r64 := ParseHalf(env, st, type_, size0), ParseHalf64(env, st, type_, size0);
    if r64.Ok? {
      if r64 == r {
        BothAlike(env, space, r.value.1, h1, r.value.0);
      } else {
        BothLost(env, space, r64.value.1, h1, r64.value.0);
      }
    }
  }

  lemma SecondLost(env: Env, space: nat, st: State, h1: Half, type_: nat, size0: nat)
    requires env.Valid() && NOOP < type_ < CPY + CPY_MODES && Ready(env, st.out, h1) && env.tgtlen <= space
    requires DefaultCache(st.cache) && st.position == Wrap(env.cpylen + |st.out| + h1.size)
    requires |st.out| + h1.size > env.tgtlen
    ensures Lost(env, Second64(env, space, st, h1, type_, size0))
  {
    hide ParseHalf64, OutputBoth64, DefaultCache, Ready, Wrap;
    var r64 := ParseHalf64(env, st, type_, size0);
    if r64.Ok? {
      BothLost(env, space, r64.value.1, h1, r64.value.0);
    }
  }

  lemma InstructionParts(env: Env, st: State)
    requires env.Valid() && DefaultCache(st.cache) && st.position == env.cpylen + |st.out| && st.inst != []
    ensures
      var d, st0 := Entry(st.inst[0]), st.(inst := st.inst[1..]);
      match ParseHalf(env, st0, d.type1, d.size1)
      case InvalidInput => Instruction(env, st) == InvalidInput
      case Ok(p) =>
        Ready(env, p.1.out, p.0)
        && Instruction(env, st) ==
             if d.type2 == NOOP then OutputHalf(env, p.1, p.0) else Second(env, p.1, p.0, d.type2, d.size2)
  {
    hide ParseHalf, OutputHalf, Entry;
  }

  lemma InstructionAlike(env: Env, space: nat, st: State)
    requires env.Valid() && env.tgtlen <= space && st.inst != []
    requires DefaultCache(st.cache) && st.position == env.cpylen + |st.out| <= env.cpylen + env.tgtlen
    ensures Alike(env, Instruction(env, st), Instruction64(env, space, st))
  {
    hide ParseHalf, ParseHalf64, OutputHalf, OutputHalf64, Second, Second64, DefaultCache, Ready, Entry, Instruction, Wrap;
    InstructionParts(env, st);
    var d, st0 := Entry(st.inst[0]), st.(inst := st.inst[1..]);
    ParsedAlike(env, st0, d.type1, d.size1);
    var r, r64 := ParseHalf(env, st0, d.type1, d.size1), ParseHalf64(env, st0, d.type1, d.size1);
    if r64.Ok? {
      FirstHalf(env, st0, d.type1, d.size1);
      OutputAlike(env, space, r64.value.1, r64.value.0);
      if d.type2 != NOOP {
        if r64 == r {
          SecondAlike(env, space, r.value.1, r.value.0, d.type2, d.size2);
        } else {
          SecondLost(env, space, r64.value.1, r64.value.0, d.type2, d.size2);
        }
      }
    }
  }

  lemma {:induction false} RunAlike(env: Env, space: nat, st: State)
    requires env.Valid() && env.tgtlen <= space
    requires DefaultCache(st.cache) && st.position == env.cpylen + |st.out| <= env.cpylen + env.tgtlen
    ensures Alike(env, Run(env, st), Run64(env, space, st))
    decreases |st.inst|
  {
    hide Instruction, Instruction64, DefaultCache;
    if st.inst != [] {
      InstructionAlike(env, space, st);
      if Instruction(env, st).Ok? {
        RunAlike(env, space, Instruction(env, st).value);
      }
    }
  }

  /** With 64-bit sums every window decodes to the same bytes or is refused just the same, whatever room there is. */
  lemma WrappingIsRefused(env: Env, space: nat, inst: seq<byte>, data: seq<byte>, addr: seq<byte>)
    requires env.Valid() && env.tgtlen <= space
    ensures DecodeWindow64(env, space, inst, data, addr) == DecodeWindow(env, inst, data, addr)
  {
    hide Run, Run64, DefaultCache;
    RunAlike(env, space, Start(env, inst, data, addr));
  }
}
