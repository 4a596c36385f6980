/** The window decoder as the library runs it: section cursors, an output buffer, and copies from the source made
    block by block, at each of which it may have to return for the block and be called again. Proved to compute what
    the three sections mean, however often that happens. */
module WindowDecoder {
  import opened Bytes
  import opened Results
  import opened Integers
  import opened AddressCache
  import opened BlockedSource
  import opened CodeTable
  import opened WindowFormat

  const NO_INST := Half(NOOP, 0, 0)

  /** What one call comes to; only the first two end the window. */
  datatype Ret = Window(bytes: seq<byte>) | Invalid | NeedBlock(blkno: nat) | OutOfReach

  /** How far one half-instruction got. */
  datatype Progress = Ahead | Bad | Blocked(ret: Ret)

  /** A point on the way through a window. */
  datatype Mark = Mark(promise: Result<seq<byte>>, out: seq<byte>, work: nat, atHand: Option<nat>, wants: Option<nat>)

  const NOWHERE := Mark(InvalidInput, [], 0, None, None)

  // ----- Half-instructions that are still to be executed

  /** A copy starts before `n` bytes of output, and one from the source stays inside the copy window. */
  predicate Fits(env: Env, n: nat, h: Half) {
    && (h.type_ == NOOP ==> h == NO_INST)
    && (h.type_ >= CPY ==> h.addr < env.cpylen + n && (h.addr < env.cpylen ==> h.addr + h.size <= env.cpylen))
  }

  /** Both halves of an opcode, or what is left of them. */
  predicate Pending(env: Env, st: State, h1: Half, h2: Half) {
    && DefaultCache(st.cache) && Fits(env, |st.out|, h1) && Fits(env, |st.out| + h1.size, h2)
    && st.position == env.cpylen + |st.out| + h1.size + h2.size <= env.cpylen + env.tgtlen
  }

  function Executed(env: Env, st: State, h: Half): (r: Result<State>)
    requires env.Valid() && Fits(env, |st.out|, h)
    ensures r.Ok? ==> |r.value.out| == |st.out| + h.size && st.out <= r.value.out
    ensures r.Ok? ==> r.value == st.(data := r.value.data, out := r.value.out)
  {
    if h.type_ == NOOP then Ok(st) else OutputHalf(env, st, h)
  }

  /** What is left of the window when both halves are pending. */
  function Remaining(env: Env, st: State, h1: Half, h2: Half): (r: Result<State>)
    requires env.Valid() && Pending(env, st, h1, h2)
  {
    hide OutputHalf, Run;
    var s1 :- Executed(env, st, h1);
    var s2 :- Executed(env, s1, h2);
    Run(env, s2)
  }

  lemma NothingPending(env: Env, st: State)
    requires env.Valid() && Pending(env, st, NO_INST, NO_INST)
    ensures Remaining(env, st, NO_INST, NO_INST) == Run(env, st)
  {
  }

  /** Executing a piece of the first half, or all of it, leaves the meaning of the window as it is. */
  lemma FirstAhead(env: Env, st: State, h: Half, st': State, h': Half, h2: Half)
    requires env.Valid() && Pending(env, st, h, h2) && Advances(env, st, h, st', h')
    ensures Pending(env, st', h', h2) && Remaining(env, st', h', h2) == Remaining(env, st, h, h2)
  {
    hide OutputHalf, Run;
  }

  lemma SecondAhead(env: Env, st: State, h: Half, st': State, h': Half)
    requires env.Valid() && Pending(env, st, NO_INST, h) && Advances(env, st, h, st', h')
    ensures Pending(env, st', NO_INST, h') && Remaining(env, st', NO_INST, h') == Remaining(env, st, NO_INST, h)
  {
    hide OutputHalf, Run;
  }

  /** A step from `h` at `st` to `h'` at `st'`: some of the bytes of `h` are written, and nothing else changes. */
  predicate Advances(env: Env, st: State, h: Half, st': State, h': Half) {
    && env.Valid() && Fits(env, |st.out|, h) && Fits(env, |st'.out|, h') && h.type_ != NOOP
    && st' == st.(data := st'.data, out := st'.out) && st.out <= st'.out
    && |st'.out| + h'.size == |st.out| + h.size && (h' == NO_INST || h'.size < h.size)
    && Executed(env, st', h') == OutputHalf(env, st, h)
  }

  lemma FirstFails(env: Env, st: State, h: Half, h2: Half)
    requires env.Valid() && Pending(env, st, h, h2) && h.type_ != NOOP && OutputHalf(env, st, h) == InvalidInput
    ensures Remaining(env, st, h, h2) == InvalidInput
  {
  }

  lemma SecondFails(env: Env, st: State, h: Half)
    requires env.Valid() && Pending(env, st, NO_INST, h) && h.type_ != NOOP && OutputHalf(env, st, h) == InvalidInput
    ensures Remaining(env, st, NO_INST, h) == InvalidInput
  {
  }

  /** An opcode that has been parsed is pending, and stands for itself and all that follows. */
  lemma Parsed(env: Env, st: State)
    requires env.Valid() && Pending(env, st, NO_INST, NO_INST) && st.inst != []
    ensures
      var d := Entry(st.inst[0]);
      var r1 := ParseHalf(env, st.(inst := st.inst[1..]), d.type1, d.size1);
      if r1.InvalidInput? then Run(env, st) == InvalidInput
      else if d.type2 == NOOP then
        Pending(env, r1.value.1, r1.value.0, NO_INST) && Remaining(env, r1.value.1, r1.value.0, NO_INST) == Run(env, st)
      else
        var r2 := ParseHalf(env, r1.value.1, d.type2, d.size2);
        if r2.InvalidInput? then Run(env, st) == InvalidInput
        else
          Pending(env, r2.value.1, r1.value.0, r2.value.0)
          && Remaining(env, r2.value.1, r1.value.0, r2.value.0) == Run(env, st)
  {
    hide ParseHalf, OutputHalf, Run, Entry;
    RunStep(env, st);
  }

  lemma OutputIs(env: Env, st: State, h: Half)
    requires env.Valid() && Fits(env, |st.out|, h) && h.type_ != NOOP
    ensures h.type_ == RUN ==>
              OutputHalf(env, st, h) ==
              if st.data == [] then InvalidInput
              else Ok(st.(data := st.data[1..], out := st.out + Repeat(st.data[0], h.size)))
    ensures h.type_ == ADD ==>
              OutputHalf(env, st, h) ==
              if h.size > |st.data| then InvalidInput
              else Ok(st.(data := st.data[h.size..], out := st.out + st.data[..h.size]))
    ensures h.type_ >= CPY && h.addr >= env.cpylen ==>
              OutputHalf(env, st, h) == Ok(st.(out := CopyWithin(st.out, h.addr - env.cpylen, h.size)))
  {
  }

  /** The block that a copy from the source needs next. */
  function Wanted(env: Env, h: Half): Option<nat> {
    if h.type_ >= CPY && h.addr < env.cpylen && env.blksize > 0 then Some((env.cpyoff + h.addr) / env.blksize) else None
  }

  lemma {:induction false} CopyWithinGrows(o: seq<byte>, addr: nat, n: nat)
    requires addr < |o|
    ensures CopyWithin(o, addr, n + 1) == CopyWithin(o, addr, n) + [CopyWithin(o, addr, n)[addr + n]]
    decreases n
  {
    if n > 0 { CopyWithinGrows(o + [o[addr]], addr + 1, n - 1); }
  }

  class Decoder {
    const env: Env
    const instSect: seq<byte>
    const dataSect: seq<byte>
    const addrSect: seq<byte>
    const acache: AddrCache
    const codeTable: array<DInst>
    const nextOut: array<byte>
    var instPos: nat
    var dataPos: nat
    var addrPos: nat
    var decPosition: nat
    var availOut: nat
    /** The halves of the opcode at hand; one that has been executed is a NOOP. */
    var current1: Half
    var current2: Half
    const source: Source

    ghost function Own(): set<object> {
      {this, acache, acache.nearArray, acache.sameArray, nextOut}
    }

    ghost function Frame(): set<object> {
      Own() + {source}
    }

    ghost predicate Valid()
      reads Frame(), codeTable
    {
      && env.Valid() && nextOut.Length >= env.tgtlen
      && acache.Valid() && DefaultCache(acache.View())
      && codeTable.Length == 256 && (forall code: byte :: codeTable[code] == Entry(code))
      && instPos <= |instSect| && dataPos <= |dataSect| && addrPos <= |addrSect| && availOut <= nextOut.Length
      && source.Valid() && source.src == env.src && source.blksize == env.blksize
    }

    /** The decoder's state as a value. */
    ghost function View(): State
      requires Valid()
      reads Frame(), codeTable
    {
      State(instSect[instPos..], dataSect[dataPos..], addrSect[addrPos..], acache.View(), decPosition, nextOut[..availOut])
    }

    constructor (env: Env, inst: seq<byte>, data: seq<byte>, addr: seq<byte>, spaceOut: nat, source: Source)
      requires env.Valid() && spaceOut >= env.tgtlen
      requires source.Valid() && source.src == env.src && source.blksize == env.blksize
      ensures Valid() && fresh(Own()) && fresh(codeTable) && this.source == source
      ensures this.env == env && View() == WindowFormat.Start(env, inst, data, addr)
      ensures instSect == inst && dataSect == data && addrSect == addr && current1 == NO_INST && current2 == NO_INST
      ensures Underway() && Promise() == DecodeWindow(env, inst, data, addr)
    {
      hide Run, Finished, Pending, Remaining, DecodeWindow, Entry;
      var tbl := BuildCodeTable();
      this.env, instSect, dataSect, addrSect, this.source := env, inst, data, addr, source;
      acache := new AddrCache(NEAR_MODES, SAME_MODES);
      nextOut := new byte[spaceOut];
      instPos, dataPos, addrPos, decPosition, availOut := 0, 0, 0, env.cpylen, 0;
      current1, current2 := NO_INST, NO_INST;
      codeTable := tbl;
      Opening(env, inst, data, addr);
    }

    /** Appends bytes that are not read from the output itself. */
    method Write(bytes: seq<byte>)
      requires Valid() && availOut + |bytes| <= nextOut.Length
      modifies this`availOut, nextOut
      ensures Valid() && View() == old(View()).(out := old(View()).out + bytes)
      ensures availOut == old(availOut) + |bytes|
    {
      forall k | 0 <= k < |bytes| { nextOut[availOut + k] := bytes[k]; }
      availOut := availOut + |bytes|;
      assert nextOut[..availOut] == old(nextOut[..availOut]) + bytes;
    }

    /** Appends a copy of the output itself, one byte at a time. */
    method CopyOverlapping(src: nat, take: nat)
      requires Valid() && availOut + take <= nextOut.Length && (take > 0 ==> src < availOut)
      modifies this`availOut, nextOut
      ensures Valid() && View() == old(View()).(out := CopyWithin(old(View()).out, src, take))
      ensures availOut == old(availOut) + take
    {
      var dst := availOut;
      availOut := availOut + take;
      ghost var before := nextOut[..dst];
      var i := 0;
      while i < take
        invariant i <= take && availOut == dst + take && nextOut[..dst + i] == CopyWithin(before, src, i)
      {
        CopyWithinGrows(before, src, i);
        ghost var now := nextOut[..dst + i];
        nextOut[dst + i] := nextOut[src + i];
        assert nextOut[..dst + i + 1] == now + [now[src + i]];
        i := i + 1;
      }
    }

    /** The size, read from the instruction section when the code table leaves it open. */
    method ReadSize(size0: nat) returns (ok: bool, size: nat)
      requires Valid()
      modifies this`instPos
      ensures Valid()
      ensures var r := if size0 == 0 then ReadInt(old(instSect[instPos..]), 0) else Read(size0, old(instSect[instPos..]));
              if r.Read? then ok && size == r.value && instSect[instPos..] == r.rest else !ok
    {
      hide ReadInt, Entry, Block, DefaultCache, AddrCache.Valid, AddrCache.View;
      ok, size := true, size0;
      if size0 == 0 {
        var r := ReadInteger(instSect[instPos..]);
        if !r.Read? {
          return false, 0;
        }
        instPos := |instSect| - |r.rest|;
        size := r.value;
      }
    }

    /** The address of a copy, from the address section. */
    method ReadAddress(mode: nat) returns (ok: bool, addr: nat)
      requires Valid() && mode < CPY_MODES
      modifies this`addrPos, acache, acache.nearArray, acache.sameArray
      ensures Valid()
      ensures var r := DecodeAddress(old(acache.View()), decPosition, mode, old(addrSect[addrPos..]));
              if r.Addr? then ok && addr == r.addr && addrSect[addrPos..] == r.rest && acache.View() == r.cache else !ok
    {
      hide DecodeAddress, Entry, Block;
      var r := acache.Decode(decPosition, mode, addrSect[addrPos..]);
      if r.BadAddr? {
        return false, 0;
      }
      addrPos := |addrSect| - |r.rest|;
      return true, r.addr;
    }

    /** Reads the size and the address of one half-instruction and checks its bounds. */
    method ParseHalfInst(type_: nat, size0: nat) returns (ok: bool, h: Half)
      requires Valid() && NOOP < type_ < CPY + CPY_MODES
      modifies this`instPos, this`addrPos, this`decPosition, acache, acache.nearArray, acache.sameArray
      ensures Valid()
      ensures var r := ParseHalf(env, old(View()), type_, size0);
              if r.Ok? then ok && (h, View()) == r.value else !ok
    {
      hide ReadInt, DecodeAddress, AddrCache.Valid, AddrCache.View, Entry, Block, DefaultCache;
      var size, addr := 0, 0;
      h := Half(type_, 0, 0);
      ok, size := ReadSize(size0);
      if !ok {
        return;
      }
      if type_ >= CPY {
        ok, addr := ReadAddress(type_ - CPY);
        if !ok {
          return;
        }
        if addr >= decPosition || (addr < env.cpylen && addr + size > env.cpylen) {
          return false, h;
        }
      }
      if decPosition + size > env.cpylen + env.tgtlen {
        return false, h;
      }
      decPosition := decPosition + size;
      h := Half(type_, size, addr);
    }

    /** Executes a half-instruction, or as much of a source copy as one block supplies; what is left to do is returned,
        of type NOOP when nothing is. It stops, with nothing done, at a block that is not there. */
    method OutputHalfInst(h: Half, answer: nat -> Answer) returns (p: Progress, h': Half)
      requires Valid() && Fits(env, availOut, h) && h.type_ != NOOP && availOut + h.size <= env.tgtlen
      modifies this`dataPos, this`availOut, source, nextOut
      ensures Valid()
      ensures p.Ahead? ==> Advances(env, old(View()), h, View(), h')
      ensures p.Bad? ==> OutputHalf(env, old(View()), h) == InvalidInput
      ensures p.Blocked? ==> h' == h && View() == old(View()) && Stops(p.ret, h, answer, old(source.curblkno))
    {
      hide OutputHalf, Block, Entry, DefaultCache, AddrCache.Valid, CopyWithin, Repeat;
      h' := NO_INST;
      p := Ahead;
      if h.type_ == RUN {
        OutputIs(env, View(), h);
        if dataPos == |dataSect| {
          return Bad, h';
        }
        Write(Repeat(dataSect[dataPos], h.size));
        assert dataSect[dataPos..][1..] == dataSect[dataPos + 1..];
        dataPos := dataPos + 1;
      } else if h.type_ == ADD {
        OutputIs(env, View(), h);
        if dataPos + h.size > |dataSect| {
          return Bad, h';
        }
        Write(dataSect[dataPos..dataPos + h.size]);
        assert dataSect[dataPos..][h.size..] == dataSect[dataPos + h.size..];
        assert dataSect[dataPos..][..h.size] == dataSect[dataPos..dataPos + h.size];
        dataPos := dataPos + h.size;
      } else if h.addr < env.cpylen {
        p, h' := OutputSourceCopy(h, answer);
      } else {
        OutputIs(env, View(), h);
        CopyOverlapping(h.addr - env.cpylen, h.size);
      }
    }

    /** Why a copy could not go on: its block is not at hand, and the application keeps the decoder waiting or gives up. */
    ghost predicate Stops(ret: Ret, h: Half, answer: nat -> Answer, atHand: Option<nat>)
      reads source
    {
      && Wanted(env, h).Some? && source.curblkno == atHand != Wanted(env, h)
      && ret == (if answer(Wanted(env, h).value) == NotYet then NeedBlock(Wanted(env, h).value) else OutOfReach)
      && answer(Wanted(env, h).value) != Here && source.getblkno == Wanted(env, h).value
    }

    /** The part of a copy from the source that lies in one block. */
    method OutputSourceCopy(h: Half, answer: nat -> Answer) returns (p: Progress, h': Half)
      requires Valid() && h.type_ >= CPY && h.addr < env.cpylen && h.addr + h.size <= env.cpylen
      requires availOut + h.size <= env.tgtlen
      modifies this`availOut, source, nextOut
      ensures Valid()
      ensures p.Ahead? ==> Advances(env, old(View()), h, View(), h')
      ensures p.Bad? ==> OutputHalf(env, old(View()), h) == InvalidInput
      ensures p.Blocked? ==> h' == h && View() == old(View()) && Stops(p.ret, h, answer, old(source.curblkno))
    {
      hide OutputHalf, Block, Entry, DefaultCache, AddrCache.Valid;
      var take := h.size;
      h' := NO_INST;
      var block, blkoff := BlockOf(h.addr);
      var a := source.GetBlk(block, answer);
      if a != Here {
        return Blocked(if a == NotYet then NeedBlock(block) else OutOfReach), h;
      }
      SourceCopyStep(env, View(), h);
      if |source.curblk| != env.blksize && blkoff + take > |source.curblk| {
        return Bad, h';
      }
      if blkoff + take > env.blksize {
        take := env.blksize - blkoff;
        h' := h.(size := h.size - take, addr := h.addr + take);
      }
      Write(source.curblk[blkoff..blkoff + take]);
      p := Ahead;
    }

    /** Adds an address to the offset of the copy window, which is split into block and remainder once. */
    method BlockOf(addr: nat) returns (block: nat, blkoff: nat)
      requires env.blksize > 0
      ensures block == (env.cpyoff + addr) / env.blksize && blkoff == (env.cpyoff + addr) % env.blksize
    {
      SplitOffset(env.blksize, env.cpyoff, addr);
      block, blkoff := env.cpyoff / env.blksize, env.cpyoff % env.blksize + addr;
      var blkdiff := blkoff / env.blksize;
      if blkdiff != 0 {
        block := block + blkdiff;
        blkoff := blkoff % env.blksize;
      }
    }

    /** Decodes one opcode: sizes and addresses of both halves. */
    method DecodeInstruction() returns (ok: bool)
      requires Valid() && instPos < |instSect|
      modifies this`instPos, this`addrPos, this`decPosition, this`current1, this`current2
      modifies acache, acache.nearArray, acache.sameArray
      ensures Valid()
      ensures var d := Entry(instSect[old(instPos)]);
              var r1 := ParseHalf(env, old(View()).(inst := old(View()).inst[1..]), d.type1, d.size1);
              if r1.InvalidInput? then !ok
              else if d.type2 == NOOP then ok && (current1, View()) == r1.value && current2 == NO_INST
              else
                var r2 := ParseHalf(env, r1.value.1, d.type2, d.size2);
                if r2.InvalidInput? then !ok else ok && current1 == r1.value.0 && (current2, View()) == r2.value
    {
      hide ParseHalf, Entry, AddrCache.Valid;
      var d := codeTable[instSect[instPos]];
      assert instSect[instPos..][1..] == instSect[instPos + 1..];
      instPos := instPos + 1;
      current2 := NO_INST;
      assert d == Entry(instSect[old(instPos)]);
      ok, current1 := ParseHalfInst(d.type1, d.size1);
      if ok && d.type2 != NOOP {
        ok, current2 := ParseHalfInst(d.type2, d.size2);
      }
    }

    /** In the middle of a window: an opcode may be half done. */
    ghost predicate Underway()
      reads Frame(), codeTable
    {
      Valid() && Pending(env, View(), current1, current2)
    }

    /** What the window will come to from here. */
    ghost function Promise(): Result<seq<byte>>
      requires Underway()
      reads Frame(), codeTable
    {
      Finished(env, Remaining(env, View(), current1, current2))
    }

    /** The block without which there is no going on, if the next thing to do is a copy from the source. */
    ghost function Wants(): Option<nat>
      reads this
    {
      if current1.type_ != NOOP then Wanted(env, current1) else Wanted(env, current2)
    }

    /** How much there still is to do. */
    ghost function Work(): nat
      reads Frame(), codeTable
    {
      if !Underway() then 0 else
      3 * |View().inst| + (if current1.type_ == NOOP then 0 else 1) + (if current2.type_ == NOOP then 0 else 1)
      + (env.tgtlen - |View().out|)
    }

    /** Reads the next opcode once both halves of the last are done. */
    method NextInstruction() returns (ok: bool)
      requires Underway() && current1 == NO_INST && current2 == NO_INST && instPos < |instSect|
      modifies Own()
      ensures ok ==> Underway() && Promise() == old(Promise()) && Work() < old(Work()) && View().out == old(View().out)
      ensures !ok ==> old(Promise()) == InvalidInput
    {
      hide Pending, Remaining, Run, ParseHalf, Entry, AddrCache.Valid, Block;
      ghost var st := View();
      assert st.inst[0] == instSect[instPos] && st.inst != [];
      Parsed(env, st);
      NothingPending(env, st);
      ok := DecodeInstruction();
    }

    /** Does some of the first half. */
    method First(answer: nat -> Answer) returns (p: Progress)
      requires Underway() && current1.type_ != NOOP
      modifies this`dataPos, this`availOut, this`current1, source, nextOut
      ensures source.Valid()
      ensures p.Ahead? ==> Underway() && Promise() == old(Promise()) && Work() < old(Work()) && old(View().out) <= View().out
      ensures p.Bad? ==> old(Promise()) == InvalidInput
      ensures p.Blocked? ==> Underway() && View() == old(View()) && current1 == old(current1)
                             && Stops(p.ret, current1, answer, old(source.curblkno))
    {
      hide Remaining, OutputHalf, Run, Entry, AddrCache.Valid, Block;
      ghost var st, h := View(), current1;
      p, current1 := OutputHalfInst(current1, answer);
      if p.Ahead? {
        FirstAhead(env, st, h, View(), current1, current2);
      } else if p.Bad? {
        FirstFails(env, st, h, current2);
      }
    }

    /** Does some of the second half. */
    method Second(answer: nat -> Answer) returns (p: Progress)
      requires Underway() && current1 == NO_INST && current2.type_ != NOOP
      modifies this`dataPos, this`availOut, this`current2, source, nextOut
      ensures source.Valid()
      ensures p.Ahead? ==> Underway() && Promise() == old(Promise()) && Work() < old(Work()) && old(View().out) <= View().out
      ensures p.Bad? ==> old(Promise()) == InvalidInput
      ensures p.Blocked? ==> Underway() && View() == old(View()) && current2 == old(current2)
                             && Stops(p.ret, current2, answer, old(source.curblkno))
    {
      hide Remaining, OutputHalf, Run, Entry, AddrCache.Valid, Block;
      ghost var st, h := View(), current2;
      p, current2 := OutputHalfInst(current2, answer);
      if p.Ahead? {
        SecondAhead(env, st, h, View(), current2);
      } else if p.Bad? {
        SecondFails(env, st, h);
      }
    }

    /** A point of the window's way: what it will come to, what has been written, and how much there was to do. */
    ghost function Now(): Mark
      reads Frame(), codeTable
    {
      if Underway() then Mark(Promise(), View().out, Work(), source.curblkno, Wants()) else NOWHERE
    }

    /** On the same way as at `m`: nothing written then is lost, and there is less to do, or nothing has happened. */
    ghost predicate Beyond(m: Mark)
      reads Frame(), codeTable
    {
      && Underway() && Promise() == m.promise && m.out <= View().out && Work() <= m.work
      && (Work() == m.work ==> source.curblkno == m.atHand && Wants() == m.wants)
    }

    /** The block wanted is not at hand, and that is what is returned. */
    ghost predicate Stopped(ret: Ret, answer: nat -> Answer)
      reads this, source
    {
      && Wants().Some? && source.curblkno != Wants() && answer(Wants().value) != Here
      && ret == if answer(Wants().value) == NotYet then NeedBlock(Wants().value) else OutOfReach
    }

    /** Executes what is left of the first half. */
    method FinishFirst(answer: nat -> Answer, ghost m: Mark) returns (p: Progress)
      requires Beyond(m)
      modifies this`dataPos, this`availOut, this`current1, source, nextOut
      ensures source.Valid()
      ensures p.Ahead? ==> Beyond(m) && current1.type_ == NOOP
      ensures p.Bad? ==> m.promise == InvalidInput
      ensures p.Blocked? ==> Beyond(m) && Stopped(p.ret, answer)
    {
      hide Pending, Remaining, Run, Entry, AddrCache.Valid, Block, Finished, Wanted, DefaultCache;
      p := Ahead;
      while current1.type_ != NOOP
        invariant Beyond(m) && p.Ahead?
        decreases Work()
      {
        p := First(answer);
        if !p.Ahead? {
          return;
        }
      }
    }

    /** Executes what is left of the second half, when the first is done. */
    method FinishSecond(answer: nat -> Answer, ghost m: Mark) returns (p: Progress)
      requires Beyond(m) && current1.type_ == NOOP
      modifies this`dataPos, this`availOut, this`current2, source, nextOut
      ensures source.Valid()
      ensures p.Ahead? ==> Beyond(m) && current2.type_ == NOOP
      ensures p.Bad? ==> m.promise == InvalidInput
      ensures p.Blocked? ==> Beyond(m) && Stopped(p.ret, answer)
    {
      hide Pending, Remaining, Run, Entry, AddrCache.Valid, Block, Finished, Wanted, DefaultCache;
      p := Ahead;
      HalvesDone(env, View(), current1, current2);
      while current2.type_ != NOOP
        invariant Beyond(m) && p.Ahead? && current1 == NO_INST
        decreases Work()
      {
        p := Second(answer);
        if !p.Ahead? {
          return;
        }
      }
    }

    /** Goes on to the end of the instructions, or to a block that is missing. */
    method Execute(answer: nat -> Answer, ghost m: Mark) returns (p: Progress)
      requires Beyond(m)
      modifies Frame()
      ensures source.Valid()
      ensures p.Ahead? ==> Beyond(m) && current1.type_ == NOOP && current2.type_ == NOOP && instPos == |instSect|
      ensures p.Bad? ==> m.promise == InvalidInput
      ensures p.Blocked? ==> Beyond(m) && Stopped(p.ret, answer)
    {
      hide Pending, Remaining, Run, Entry, AddrCache.Valid, Block, Finished, Wanted, DefaultCache, Decoder.Stopped;
      while instPos != |instSect| || current1.type_ != NOOP || current2.type_ != NOOP
        invariant Beyond(m)
        decreases Work()
      {
        ghost var now := Now();
        HalvesDone(env, View(), current1, current2);
        if current1.type_ == NOOP && current2.type_ == NOOP {
          var ok := NextInstruction();
          if !ok {
            return Bad;
          }
        }
        p := FinishFirst(answer, now);
        if !p.Ahead? {
          return;
        }
        p := FinishSecond(answer, now);
        if !p.Ahead? {
          return;
        }
      }
      p := Ahead;
    }

    /** Goes on with the window until it is done or a block is missing, and can be called again then. */
    method Emit(answer: nat -> Answer) returns (r: Ret)
      requires Underway()
      modifies Frame()
      ensures source.Valid()
      ensures r.Window? ==> old(Promise()) == Ok(r.bytes)
      ensures r.Invalid? ==> old(Promise()) == InvalidInput
      ensures r.NeedBlock? || r.OutOfReach? ==> Beyond(old(Now())) && Stopped(r, answer)
    {
      hide Pending, Remaining, Run, Entry, AddrCache.Valid, Block, Finished, Wanted, DefaultCache;
      var p := Execute(answer, Now());
      if p.Bad? {
        return Invalid;
      }
      if p.Blocked? {
        return p.ret;
      }
      HalvesDone(env, View(), current1, current2);
      EndOfWindow(env, View());
      if availOut != env.tgtlen {
        return Invalid;
      }
      if dataPos != |dataSect| {
        return Invalid;
      }
      if addrPos != |addrSect| {
        return Invalid;
      }
      return Window(nextOut[..availOut]);
    }

    /** The window called for again and again, the blocks it waits for being supplied in between: whatever the application
        answers at which call, the window comes out as its sections mean, unless a block is out of reach. */
    method EmitAll(answers: nat -> nat -> Answer) returns (r: Ret)
      requires Underway()
      modifies Frame()
      ensures source.Valid()
      ensures !r.NeedBlock?
      ensures r.Window? ==> old(Promise()) == Ok(r.bytes)
      ensures r.Invalid? ==> old(Promise()) == InvalidInput
      ensures r.OutOfReach? ==> exists call, blkno :: answers(call)(blkno) == TooFarBack
    {
      hide Pending, Remaining, Run, Entry, AddrCache.Valid, Block, Finished, Wanted;
      var call := 0;
      r := Emit(answers(call));
      while r.NeedBlock?
        invariant source.Valid() && (r.NeedBlock? || r.OutOfReach? ==> Underway() && Promise() == old(Promise()))
        invariant r.NeedBlock? ==> Wants() == Some(r.blkno)
        invariant r.Window? ==> old(Promise()) == Ok(r.bytes)
        invariant r.Invalid? ==> old(Promise()) == InvalidInput
        invariant r.OutOfReach? ==> exists call, blkno :: answers(call)(blkno) == TooFarBack
        decreases r.NeedBlock?, if r.NeedBlock? then Work() else 0
      {
        source.Provide(r.blkno);
        call := call + 1;
        r := Emit(answers(call));
      }
    }
  }

  /** A window that begins is on its way to what its sections mean. */
  lemma Opening(env: Env, inst: seq<byte>, data: seq<byte>, addr: seq<byte>)
    requires env.Valid()
    ensures Pending(env, WindowFormat.Start(env, inst, data, addr), NO_INST, NO_INST)
    ensures
      Finished(env, Remaining(env, WindowFormat.Start(env, inst, data, addr), NO_INST, NO_INST)) ==
      DecodeWindow(env, inst, data, addr)
  {
    hide Run, Finished;
    NothingPending(env, WindowFormat.Start(env, inst, data, addr));
  }

  lemma HalvesDone(env: Env, st: State, h1: Half, h2: Half)
    requires Pending(env, st, h1, h2)
    ensures h1.type_ == NOOP ==> h1 == NO_INST
    ensures h2.type_ == NOOP ==> h2 == NO_INST
  {
  }

  lemma EndOfWindow(env: Env, st: State)
    requires env.Valid() && Pending(env, st, NO_INST, NO_INST) && st.inst == []
    ensures Remaining(env, st, NO_INST, NO_INST) == Ok(st)
    ensures
      Finished(env, Ok(st)) == if |st.out| != env.tgtlen || st.data != [] || st.addr != [] then InvalidInput else Ok(st.out)
  {
  }

  lemma RunStep(env: Env, st: State)
    requires env.Valid() && DefaultCache(st.cache) && st.position == env.cpylen + |st.out|
    ensures Run(env, st) == if st.inst == [] then Ok(st)
                            else if Instruction(env, st).Ok? then Run(env, Instruction(env, st).value) else InvalidInput
  {
  }

  /** Cutting a source copy at the end of its first block changes nothing in the result. */
  lemma SourceCopyStep(env: Env, st: State, h: Half)
    requires env.Valid() && h.type_ >= CPY && h.addr < env.cpylen
    ensures var pos := env.cpyoff + h.addr;
            var blk, blkoff := Block(env.src, env.blksize, pos / env.blksize), pos % env.blksize;
            if |blk| != env.blksize && blkoff + h.size > |blk| then OutputHalf(env, st, h) == InvalidInput
            else if blkoff + h.size <= env.blksize then
              blkoff + h.size <= |blk| && OutputHalf(env, st, h) == Ok(st.(out := st.out + blk[blkoff..blkoff + h.size]))
            else
              var take := env.blksize - blkoff;
              |blk| == env.blksize &&
              (h.addr + take < env.cpylen ==>
                OutputHalf(env, st, h)
                == OutputHalf(env, st.(out := st.out + blk[blkoff..blkoff + take]), h.(size := h.size - take, addr := h.addr + take)))
  {
    hide Block, Repeat, CopyWithin;
    var pos := env.cpyoff + h.addr;
    var blk, blkoff := Block(env.src, env.blksize, pos / env.blksize), pos % env.blksize;
    if !(|blk| != env.blksize && blkoff + h.size > |blk|) && blkoff + h.size > env.blksize {
      var take := env.blksize - blkoff;
      var rest := ReadBlocks(env.src, env.blksize, pos + take, h.size - take);
      if rest.Ok? {
        assert st.out + (blk[blkoff..] + rest.value) == (st.out + blk[blkoff..blkoff + take]) + rest.value;
      }
    }
  }
}
