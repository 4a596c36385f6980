/** What the three sections of a window mean: the window decoder as a function (sections 3 to 5 of RFC 3284). */
module WindowFormat {
  import opened Arithmetic
  import opened Bytes
  import opened Results
  import opened Integers
  import opened AddressCache
  import opened BlockedSource
  import opened CodeTable

  /** What a window is decoded against: the source file in blocks, the copy window inside it, the target length. */
  datatype Env = Env(src: seq<byte>, blksize: nat, cpyoff: nat, cpylen: nat, tgtlen: nat) {
    predicate Valid() {
      blksize > 0 && cpylen + tgtlen < TWO_64
    }
  }

  /** A decoded half-instruction. */
  datatype Half = Half(type_: nat, size: nat, addr: nat)

  /** Unread parts of the three sections, the address cache, the logical position, and the output so far. */
  datatype State = State(inst: seq<byte>, data: seq<byte>, addr: seq<byte>, cache: Cache, position: nat, out: seq<byte>)

  predicate DefaultCache(c: Cache) {
    c.Valid() && |c.near| == NEAR_MODES && |c.same| == 256 * SAME_MODES
  }

  function Start(env: Env, inst: seq<byte>, data: seq<byte>, addr: seq<byte>): (st: State)
    ensures DefaultCache(st.cache)
  {
    State(inst, data, addr, InitCache(NEAR_MODES, SAME_MODES), env.cpylen, [])
  }

  /** Size, address and bounds of one half-instruction; the size is read when the code table leaves it open. */
  function ParseHalf(env: Env, st: State, type_: nat, size0: nat): (r: Result<(Half, State)>)
    requires env.Valid() && DefaultCache(st.cache) && NOOP < type_ < CPY + CPY_MODES
    ensures r.Ok? ==> var (h, st') := r.value;
              && h.type_ == type_ && DefaultCache(st'.cache) && st'.out == st.out && st'.data == st.data
              && st'.position == st.position + h.size <= env.cpylen + env.tgtlen
              && |st'.inst| <= |st.inst|
              && (type_ >= CPY ==> h.addr < st.position && (h.addr < env.cpylen ==> h.addr + h.size <= env.cpylen))
  {
    var sized := if size0 == 0 then ReadInt(st.inst, 0) else Read(size0, st.inst);
    if !sized.Read? then InvalidInput
    else
      var located := if type_ >= CPY then DecodeAddress(st.cache, st.position, type_ - CPY, st.addr)
                     else Addr(0, st.addr, st.cache);
      if !located.Addr? then InvalidInput
      else if type_ >= CPY && located.addr >= st.position then InvalidInput
      else if type_ >= CPY && located.addr < env.cpylen && located.addr + sized.value > env.cpylen then InvalidInput
      else if st.position + sized.value > env.cpylen + env.tgtlen then InvalidInput
      else Ok((Half(type_, sized.value, located.addr),
               st.(inst := sized.rest, addr := located.rest, cache := located.cache, position := st.position + sized.value)))
  }

  /** A parsed instruction whose copy, if it is one inside the target, starts before what is already there. */
  predicate Ready(env: Env, out: seq<byte>, h: Half) {
    h.type_ != NOOP && (h.type_ >= CPY && h.addr >= env.cpylen ==> h.addr - env.cpylen < |out|)
  }

  function OutputHalf(env: Env, st: State, h: Half): (r: Result<State>)
    requires env.Valid() && Ready(env, st.out, h)
    ensures r.Ok? ==> |r.value.out| == |st.out| + h.size && st.out <= r.value.out
    ensures r.Ok? ==> r.value == st.(data := r.value.data, out := r.value.out)
  {
    if h.type_ == RUN then
      if st.data == [] then InvalidInput
      else Ok(st.(data := st.data[1..], out := st.out + Repeat(st.data[0], h.size)))
    else if h.type_ == ADD then
      if h.size > |st.data| then InvalidInput
      else Ok(st.(data := st.data[h.size..], out := st.out + st.data[..h.size]))
    else if h.addr < env.cpylen then
      var bytes :- ReadBlocks(env.src, env.blksize, env.cpyoff + h.addr, h.size);
      Ok(st.(out := st.out + bytes))
    else Ok(st.(out := CopyWithin(st.out, h.addr - env.cpylen, h.size)))
  }

  /** One opcode: both halves are parsed before either is executed. */
  function Instruction(env: Env, st: State): (r: Result<State>)
    requires env.Valid() && DefaultCache(st.cache) && st.position == env.cpylen + |st.out| && st.inst != []
    ensures r.Ok? ==> DefaultCache(r.value.cache) && |r.value.inst| < |st.inst| && st.out <= r.value.out
    ensures r.Ok? ==> r.value.position == env.cpylen + |r.value.out| <= env.cpylen + env.tgtlen
  {
    var d := Entry(st.inst[0]);
    var (h1, st1) :- ParseHalf(env, st.(inst := st.inst[1..]), d.type1, d.size1);
    if d.type2 == NOOP then OutputHalf(env, st1, h1)
    else
      var (h2, st2) :- ParseHalf(env, st1, d.type2, d.size2);
      var st3 :- OutputHalf(env, st2, h1);
      OutputHalf(env, st3, h2)
  }

  /** All instructions of the window. */
  function Run(env: Env, st: State): (r: Result<State>)
    requires env.Valid() && DefaultCache(st.cache) && st.position == env.cpylen + |st.out|
    ensures r.Ok? ==> DefaultCache(r.value.cache) && r.value.inst == []
    ensures r.Ok? ==> r.value.position == env.cpylen + |r.value.out|
    decreases |st.inst|
  {
    if st.inst == [] then Ok(st)
    else
      var st' :- Instruction(env, st);
      Run(env, st')
  }

  /** The window must come out at its announced length with no data or address bytes left over. */
  function Finished(env: Env, run: Result<State>): (r: Result<seq<byte>>)
    ensures r.Ok? ==> |r.value| == env.tgtlen
  {
    var st :- run;
    if |st.out| != env.tgtlen || st.data != [] || st.addr != [] then InvalidInput else Ok(st.out)
  }

  /** The whole window. */
  function DecodeWindow(env: Env, inst: seq<byte>, data: seq<byte>, addr: seq<byte>): (r: Result<seq<byte>>)
    requires env.Valid()
    ensures r.Ok? ==> |r.value| == env.tgtlen
  {
    Finished(env, Run(env, Start(env, inst, data, addr)))
  }

  /** The same state with more bytes behind each section. */
  function More(st: State, inst: seq<byte>, data: seq<byte>, addr: seq<byte>): State {
    st.(inst := st.inst + inst, data := st.data + data, addr := st.addr + addr)
  }

  lemma ParseIgnoresMore(env: Env, st: State, type_: nat, size0: nat, inst: seq<byte>, data: seq<byte>, addr: seq<byte>)
    requires env.Valid() && DefaultCache(st.cache) && NOOP < type_ < CPY + CPY_MODES
    requires ParseHalf(env, st, type_, size0).Ok?
    ensures var (h, st') := ParseHalf(env, st, type_, size0).value;
            ParseHalf(env, More(st, inst, data, addr), type_, size0) == Ok((h, More(st', inst, data, addr)))
  {
    if size0 == 0 { ReadIgnoresTail(st.inst, 0, inst); }
    if type_ >= CPY { DecodeIgnoresTail(st.cache, st.position, type_ - CPY, st.addr, addr); }
  }

  lemma OutputIgnoresMore(env: Env, st: State, h: Half, inst: seq<byte>, data: seq<byte>, addr: seq<byte>)
    requires env.Valid() && Ready(env, st.out, h) && OutputHalf(env, st, h).Ok?
    ensures OutputHalf(env, More(st, inst, data, addr), h) == Ok(More(OutputHalf(env, st, h).value, inst, data, addr))
  {
    if h.type_ == RUN {
      assert (st.data + data)[1..] == st.data[1..] + data;
    } else if h.type_ == ADD {
      assert (st.data + data)[h.size..] == st.data[h.size..] + data;
      assert (st.data + data)[..h.size] == st.data[..h.size];
    }
  }

  lemma InstructionIgnoresMore(env: Env, st: State, inst: seq<byte>, data: seq<byte>, addr: seq<byte>)
    requires env.Valid() && DefaultCache(st.cache) && st.position == env.cpylen + |st.out| && st.inst != []
    requires Instruction(env, st).Ok?
    ensures Instruction(env, More(st, inst, data, addr)) == Ok(More(Instruction(env, st).value, inst, data, addr))
  {
    var d := Entry(st.inst[0]);
    var st0 := st.(inst := st.inst[1..]);
    assert (st.inst + inst)[1..] == st.inst[1..] + inst;
    ParseIgnoresMore(env, st0, d.type1, d.size1, inst, data, addr);
    var (h1, st1) := ParseHalf(env, st0, d.type1, d.size1).value;
    if d.type2 == NOOP {
      OutputIgnoresMore(env, st1, h1, inst, data, addr);
    } else {
      ParseIgnoresMore(env, st1, d.type2, d.size2, inst, data, addr);
      var (h2, st2) := ParseHalf(env, st1, d.type2, d.size2).value;
      OutputIgnoresMore(env, st2, h1, inst, data, addr);
      var st3 := OutputHalf(env, st2, h1).value;
      OutputIgnoresMore(env, st3, h2, inst, data, addr);
    }
  }

  /** Decoding can be continued: a run over sections that are extended later is a prefix of the longer run. */
  lemma {:induction false} RunContinues(env: Env, st: State, inst: seq<byte>, data: seq<byte>, addr: seq<byte>)
    requires env.Valid() && DefaultCache(st.cache) && st.position == env.cpylen + |st.out|
    requires Run(env, st).Ok?
    ensures Run(env, More(st, inst, data, addr)) == Run(env, More(Run(env, st).value, inst, data, addr))
    decreases |st.inst|
  {
    if st.inst != [] {
      InstructionIgnoresMore(env, st, inst, data, addr);
      RunContinues(env, Instruction(env, st).value, inst, data, addr);
    }
  }

  /** Data or addresses that no instruction uses spoil a window. */
  lemma NothingLeftOver(env: Env, inst: seq<byte>, data: seq<byte>, addr: seq<byte>, more: seq<byte>, others: seq<byte>)
    requires env.Valid() && DecodeWindow(env, inst, data, addr).Ok? && (more != [] || others != [])
    ensures DecodeWindow(env, inst, data + more, addr + others) == InvalidInput
  {
    hide Run;
    var st := Start(env, inst, data, addr);
    RunContinues(env, st, [], more, others);
    assert inst + [] == inst;
    assert More(st, [], more, others) == Start(env, inst, data + more, addr + others);
    RunDone(env, More(Run(env, st).value, [], more, others));
  }

  lemma RunDone(env: Env, st: State)
    requires env.Valid() && DefaultCache(st.cache) && st.position == env.cpylen + |st.out| && st.inst == []
    ensures Run(env, st) == Ok(st)
  {
  }
}
