/** Flattening: the windows of a delta file turned into one whole-file list, with absolute addresses. */
module Flatten {
  import opened Bytes
  import opened Results
  import opened BlockedSource
  import opened CodeTable
  import opened WholeDelta
  import opened WindowFormat
  import opened WindowDecoder
  import opened AddressCache
  import WindowEncoder
  import Merge

  /** The list can be applied, and it is right about every byte of `t`. */
  ghost predicate Denotes(src: seq<byte>, d: Delta, t: seq<byte>) {
    WellFormed(d, |src|) && d.length == |t| && AllExplain(src, d.adds, t, d.inst)
  }

  lemma DenotesIsApply(src: seq<byte>, d: Delta, t: seq<byte>)
    requires Denotes(src, d, t)
    ensures WellFormed(d, |src|) && Apply(src, d) == t
  {
    ExplainedIsApply(src, d, t);
  }

  /** The entry made for a half-instruction of a window: literals move to the list's own data, a window address
      becomes an offset in the original file or in the whole target. */
  function Entered(env: Env, winstart: nat, addslen: nat, length: nat, h: Half): WInst
    requires h.type_ >= CPY && h.addr >= env.cpylen ==> winstart + h.addr >= env.cpylen
  {
    if h.type_ == RUN then WInst(Kind.Run, InTarget, h.size, addslen, length)
    else if h.type_ == ADD then WInst(Add, InTarget, h.size, addslen, length)
    else if h.addr < env.cpylen then WInst(Copy, FromSource, h.size, env.cpyoff + h.addr, length)
    else WInst(Copy, InTarget, h.size, winstart + h.addr - env.cpylen, length)
  }

  function Literals(h: Half, data: seq<byte>): seq<byte>
    requires h.type_ == RUN ==> data != []
    requires h.type_ == ADD ==> h.size <= |data|
  {
    if h.type_ == RUN then [data[0]] else if h.type_ == ADD then data[..h.size] else []
  }

  lemma {:induction false} CopyBehind(before: seq<byte>, o: seq<byte>, addr: nat, n: nat)
    requires n > 0 ==> addr < |o|
    ensures CopyWithin(before + o, |before| + addr, n) == before + CopyWithin(o, addr, n)
    decreases n
  {
    if n > 0 {
      CopyBehind(before, o + [o[addr]], addr + 1, n - 1);
      assert (before + o) + [o[addr]] == before + (o + [o[addr]]);
    }
  }

  /** Executing the entry on the whole target does what executing the half-instruction does in the window. */
  lemma EnteredSteps(env: Env, st: State, h: Half, before: seq<byte>, adds: seq<byte>)
    requires env.Valid() && Ready(env, st.out, h) && NOOP < h.type_
    requires OutputHalf(env, st, h).Ok?
    ensures h.type_ == RUN ==> st.data != []
    ensures h.type_ == ADD ==> h.size <= |st.data|
    ensures
      var x := Entered(env, |before|, |adds|, |before + st.out|, h);
      var more := adds + Literals(h, st.data);
      && LocalOk(more, x) && SourceOk(x, |env.src|)
      && Step(env.src, more, before + st.out, x) == before + OutputHalf(env, st, h).value.out
  {
    hide ReadBlocks, CopyWithin;
    var x := Entered(env, |before|, |adds|, |before + st.out|, h);
    var more := adds + Literals(h, st.data);
    if h.type_ == RUN {
      assert more[x.addr] == st.data[0];
    } else if h.type_ == ADD {
      assert more[x.addr..x.addr + h.size] == st.data[..h.size];
    } else if h.addr < env.cpylen {
      if h.size > 0 {
        ReadBlocksIsSlice(env.src, env.blksize, env.cpyoff + h.addr, h.size);
      }
    } else {
      CopyBehind(before, st.out, h.addr - env.cpylen, h.size);
    }
  }

  function Appended(d: Delta, x: WInst, data: seq<byte>): Delta {
    Delta(d.inst + [x], d.adds + data, d.length + x.size)
  }

  lemma AppendPlaced(d: Delta, x: WInst, data: seq<byte>)
    requires Placed(d) && x.position == d.length && LocalOk(d.adds + data, x)
    ensures Placed(Appended(d, x, data))
  {
    var inst := Appended(d, x, data).inst;
    forall i | 0 <= i < |inst| ensures StartsInPlace(inst, i) && LocalOk(d.adds + data, inst[i]) {
      if i < |d.inst| {
        assert StartsInPlace(d.inst, i) && LocalOk(d.adds, d.inst[i]);
        assert inst[i] == d.inst[i] && EndOf(inst, i) == EndOf(d.inst, i);
      }
    }
  }

  /** Adding an entry that steps from `t` to `t'` makes the list denote `t'`. */
  lemma AppendDenotes(src: seq<byte>, d: Delta, t: seq<byte>, x: WInst, data: seq<byte>, t': seq<byte>)
    requires Denotes(src, d, t) && x.position == |t| && LocalOk(d.adds + data, x) && SourceOk(x, |src|)
    requires Step(src, d.adds + data, t, x) == t'
    ensures Denotes(src, Appended(d, x, data), t')
  {
    AppendPlaced(d, x, data);
    var all := Appended(d, x, data);
    StepExplains(src, all.adds, t, x);
    forall i | 0 <= i < |all.inst|
      ensures SourceOk(all.inst[i], |src|) && Explains(src, all.adds, t', all.inst[i])
    {
      if i < |d.inst| {
        assert all.inst[i] == d.inst[i];
        assert SourceOk(d.inst[i], |src|) && Explains(src, d.adds, t, d.inst[i]);
        ExplainsMonotone(src, d.adds, t, t', d.inst[i]);
        MoreLiterals(src, d.adds, data, t', d.inst[i]);
      }
    }
  }

  lemma MoreLiterals(src: seq<byte>, adds: seq<byte>, data: seq<byte>, t: seq<byte>, x: WInst)
    requires Explains(src, adds, t, x)
    ensures Explains(src, adds + data, t, x)
  {
    forall j: nat | j < x.size ensures Gives(src, adds + data, t, x, j) {
      assert Gives(src, adds, t, x, j);
    }
  }

  /** Where a run stands whose instructions are being entered instead of executed: `out` is what it would have put
      out, `before` the target up to this window, `w` the window's bytes. */
  ghost predicate Entering(env: Env, st: State, out: seq<byte>, before: seq<byte>, d: Delta, w: seq<byte>) {
    && env.Valid() && DefaultCache(st.cache) && st.position == env.cpylen + |out|
    && Denotes(env.src, d, before + out)
    && match WindowFormat.Run(env, st.(out := out))
       case InvalidInput => false
       case Ok(end) => end.out == w
  }

  /** Entering one parsed half-instruction. */
  lemma EnterHalf(env: Env, st: State, h: Half, out: seq<byte>, before: seq<byte>, d: Delta)
    requires env.Valid() && Ready(env, out, h) && h.type_ > NOOP && Denotes(env.src, d, before + out)
    requires OutputHalf(env, st.(out := out), h).Ok?
    ensures h.type_ == RUN ==> st.data != []
    ensures h.type_ == ADD ==> h.size <= |st.data|
    ensures
      var x := Entered(env, |before|, |d.adds|, d.length, h);
      var next := OutputHalf(env, st.(out := out), h).value;
      && Denotes(env.src, Appended(d, x, Literals(h, st.data)), before + next.out)
      && next.data == st.data[|Literals(h, st.data)|..]
  {
    hide Denotes, OutputHalf, Step, LocalOk, SourceOk;
    LengthDenoted(env.src, d, before + out);
    var now := st.(out := out);
    EnteredSteps(env, now, h, before, d.adds);
    var x := Entered(env, |before|, |d.adds|, d.length, h);
    var next := OutputHalf(env, now, h).value;
    DataUsed(env, now, h);
    EnteredSize(env, |before|, |d.adds|, d.length, h);
    AppendDenotes(env.src, d, before + out, x, Literals(h, st.data), before + next.out);
  }

  lemma LengthDenoted(src: seq<byte>, d: Delta, t: seq<byte>)
    requires Denotes(src, d, t)
    ensures d.length == |t|
  {
  }

  lemma EnteredSize(env: Env, winstart: nat, addslen: nat, length: nat, h: Half)
    requires h.type_ >= CPY && h.addr >= env.cpylen ==> winstart + h.addr >= env.cpylen
    ensures
      var x := Entered(env, winstart, addslen, length, h);
      x.size == h.size && x.position == length
  {
  }

  lemma DataUsed(env: Env, st: State, h: Half)
    requires env.Valid() && Ready(env, st.out, h) && OutputHalf(env, st, h).Ok?
    ensures h.type_ == RUN ==> st.data != []
    ensures h.type_ == ADD ==> h.size <= |st.data|
    ensures OutputHalf(env, st, h).value.data == st.data[|Literals(h, st.data)|..]
    ensures |OutputHalf(env, st, h).value.out| == |st.out| + h.size
  {
  }

  /** What one opcode's two halves do to a run that is being entered: each half parses without looking at the output
      or the data, and then executes. */
  lemma OpcodeParts(env: Env, st: State, out: seq<byte>)
    requires env.Valid() && DefaultCache(st.cache) && st.position == env.cpylen + |out| && st.inst != []
    requires Instruction(env, st.(out := out)).Ok?
    ensures
      var d := Entry(st.inst[0]);
      var p1 := ParseHalf(env, st.(inst := st.inst[1..]), d.type1, d.size1);
      && p1.Ok? && p1.value.0.type_ > NOOP && Ready(env, out, p1.value.0)
      && if d.type2 == NOOP then
           var o1 := OutputHalf(env, p1.value.1.(out := out), p1.value.0);
           o1.Ok? && Instruction(env, st.(out := out)) == o1
         else
           var p2 := ParseHalf(env, p1.value.1, d.type2, d.size2);
           && p2.Ok? && p2.value.0.type_ > NOOP
           && var o1 := OutputHalf(env, p2.value.1.(out := out), p1.value.0);
              && o1.Ok? && Ready(env, o1.value.out, p2.value.0)
              && var o2 := OutputHalf(env, o1.value, p2.value.0);
                 o2.Ok? && Instruction(env, st.(out := out)) == o2
  {
    hide ParseHalf, OutputHalf, Entry;
    var d := Entry(st.inst[0]);
    var st0 := st.(inst := st.inst[1..]);
    WindowEncoder.ParseFrame(env, st0, st.data, out, d.type1, d.size1);
    var p1 := ParseHalf(env, st0, d.type1, d.size1);
    if d.type2 != NOOP {
      WindowEncoder.ParseFrame(env, p1.value.1, st.data, out, d.type2, d.size2);
    }
  }

  /** Appends one parsed instruction to the list. */
  method AppendInst(dec: Decoder, whole: Merge.WholeState, winstart: nat, h: Half,
                    ghost before: seq<byte>, ghost out: seq<byte>)
    requires dec.Valid() && h.type_ > NOOP && Ready(dec.env, out, h) && |before| == winstart
    requires Denotes(dec.env.src, whole.View(), before + out)
    requires OutputHalf(dec.env, dec.View().(out := out), h).Ok?
    modifies whole, dec`dataPos
    ensures dec.Valid() && whole.wininfo == old(whole.wininfo)
    ensures
      var next := OutputHalf(dec.env, old(dec.View()).(out := out), h).value;
      && dec.View() == old(dec.View()).(data := next.data)
      && Denotes(dec.env.src, whole.View(), before + next.out)
  {
    hide Denotes, OutputHalf, AddrCache.Valid, DefaultCache, Entry;
    EnterHalf(dec.env, dec.View(), h, out, before, whole.View());
    ghost var data := dec.View().data;
    var mode := if h.type_ >= CPY && h.addr < dec.env.cpylen then FromSource else InTarget;
    var position := whole.length;
    whole.length := whole.length + h.size;
    if h.type_ == RUN {
      whole.inst := whole.inst + [WInst(Kind.Run, mode, h.size, |whole.adds|, position)];
      whole.adds := whole.adds + [dec.dataSect[dec.dataPos]];
      dec.dataPos := dec.dataPos + 1;
    } else if h.type_ == ADD {
      whole.inst := whole.inst + [WInst(Add, mode, h.size, |whole.adds|, position)];
      whole.adds := whole.adds + dec.dataSect[dec.dataPos..dec.dataPos + h.size];
      assert dec.dataSect[dec.dataPos..dec.dataPos + h.size] == data[..h.size];
      dec.dataPos := dec.dataPos + h.size;
    } else {
      var addr := if mode == FromSource then dec.env.cpyoff + h.addr else winstart + h.addr - dec.env.cpylen;
      whole.inst := whole.inst + [WInst(Copy, mode, h.size, addr, position)];
      assert whole.adds + [] == whole.adds;
    }
    assert dec.View().data == data[|Literals(h, data)|..];
  }

  lemma EnterNext(env: Env, st: State, out: seq<byte>, before: seq<byte>, d: Delta, w: seq<byte>)
    requires Entering(env, st, out, before, d, w)
    ensures env.Valid() && DefaultCache(st.cache) && st.position == env.cpylen + |out|
    ensures Denotes(env.src, d, before + out)
    ensures st.inst == [] ==> out == w
    ensures st.inst != [] ==>
      && Instruction(env, st.(out := out)).Ok?
      && forall d2 ::
           Denotes(env.src, d2, before + Instruction(env, st.(out := out)).value.out) ==>
           Entering(env, Instruction(env, st.(out := out)).value, Instruction(env, st.(out := out)).value.out, before, d2, w)
  {
    hide Denotes, Instruction;
    RunStep(env, st.(out := out));
    if st.inst != [] {
      var next := Instruction(env, st.(out := out)).value;
      assert next.(out := next.out) == next;
    }
  }

  lemma OutAside(env: Env, st: State, out: seq<byte>, out2: seq<byte>, before: seq<byte>, d: Delta, w: seq<byte>)
    requires Entering(env, st, out, before, d, w)
    ensures Entering(env, st.(out := out2), out, before, d, w)
  {
    assert st.(out := out2).(out := out) == st.(out := out);
  }

  /** Appends the instructions of one window that decodes to `w`, and a record of the window. */
  method AppendWindow(dec: Decoder, whole: Merge.WholeState, winstart: nat, adler32: nat,
                      ghost before: seq<byte>, ghost w: seq<byte>)
    requires dec.Valid() && dec.View() == WindowFormat.Start(dec.env, dec.instSect, dec.dataSect, dec.addrSect)
    requires DecodeWindow(dec.env, dec.instSect, dec.dataSect, dec.addrSect) == Ok(w)
    requires Denotes(dec.env.src, whole.View(), before) && |before| == winstart
    requires whole !in dec.Frame()
    modifies whole, dec.Frame()
    ensures Denotes(dec.env.src, whole.View(), before + w)
    ensures whole.wininfo == old(whole.wininfo) + [Merge.WinInfo(winstart, |w|, adler32)]
  {
    hide Denotes, Entering, WindowFormat.Run, Instruction, ParseHalf, OutputHalf, AddrCache.Valid, DefaultCache, Entry;
    StartEntering(dec.env, dec.instSect, dec.dataSect, dec.addrSect, before, whole.View(), w);
    whole.wininfo := whole.wininfo + [Merge.WinInfo(winstart, dec.env.tgtlen, adler32)];
    ghost var out: seq<byte> := [];
    while dec.instPos < |dec.instSect|
      invariant dec.Valid() && Entering(dec.env, dec.View(), out, before, whole.View(), w)
      invariant whole.wininfo == old(whole.wininfo) + [Merge.WinInfo(winstart, |w|, adler32)]
      decreases |dec.instSect| - dec.instPos
    {
      out := AppendOpcode(dec, whole, winstart, before, out, w);
    }
    EnterNext(dec.env, dec.View(), out, before, whole.View(), w);
  }

  lemma StartEntering(env: Env, inst: seq<byte>, data: seq<byte>, addr: seq<byte>, before: seq<byte>, d: Delta, w: seq<byte>)
    requires env.Valid() && DecodeWindow(env, inst, data, addr) == Ok(w) && Denotes(env.src, d, before)
    ensures Entering(env, WindowFormat.Start(env, inst, data, addr), [], before, d, w) && |w| == env.tgtlen
  {
    hide Denotes, WindowFormat.Run;
    var st := WindowFormat.Start(env, inst, data, addr);
    assert st.(out := []) == st && before + [] == before;
  }

  /** Decodes one opcode and appends its instructions. */
  method AppendOpcode(dec: Decoder, whole: Merge.WholeState, winstart: nat,
                      ghost before: seq<byte>, ghost out: seq<byte>, ghost w: seq<byte>)
    returns (ghost out2: seq<byte>)
    requires dec.Valid() && dec.instPos < |dec.instSect| && |before| == winstart
    requires Entering(dec.env, dec.View(), out, before, whole.View(), w)
    requires whole !in dec.Frame()
    modifies whole, dec.Frame()
    ensures dec.Valid() && Entering(dec.env, dec.View(), out2, before, whole.View(), w)
    ensures whole.wininfo == old(whole.wininfo) && dec.instPos > old(dec.instPos)
  {
    hide Denotes, Entering, WindowFormat.Run, Instruction, ParseHalf, OutputHalf, AddrCache.Valid, DefaultCache, Entry;
    ghost var env, st := dec.env, dec.View();
    assert st.inst[0] == dec.instSect[dec.instPos] && st.inst != [];
    EnterNext(env, st, out, before, whole.View(), w);
    OpcodeParts(env, st, out);
    ghost var next := Instruction(env, st.(out := out)).value;
    var ok := dec.DecodeInstruction();
    var h1, h2 := dec.current1, dec.current2;
    ghost var s1 := dec.View();
    AppendInst(dec, whole, winstart, h1, before, out);
    out2 := OutputHalf(env, s1.(out := out), h1).value.out;
    OutputKeeps(env, s1.(out := out), h1);
    if h2.type_ != NOOP {
      ghost var s2 := dec.View();
      assert s2.(out := out2) == OutputHalf(env, s1.(out := out), h1).value;
      AppendInst(dec, whole, winstart, h2, before, out2);
      OutputKeeps(env, s2.(out := out2), h2);
      out2 := OutputHalf(env, s2.(out := out2), h2).value.out;
    }
    assert dec.View().(out := out2) == next;
    OutAside(env, next, next.out, dec.View().out, before, whole.View(), w);
  }

  lemma OutputKeeps(env: Env, st: State, h: Half)
    requires env.Valid() && Ready(env, st.out, h) && OutputHalf(env, st, h).Ok?
    ensures OutputHalf(env, st, h).value == st.(data := OutputHalf(env, st, h).value.data, out := OutputHalf(env, st, h).value.out)
  {
  }

  /** One window of a file: where it copies from, how long it is, and its three sections. */
  datatype Window = Window(cpyoff: nat, cpylen: nat, tgtlen: nat, inst: seq<byte>, data: seq<byte>, addr: seq<byte>,
                           adler32: nat) {
    function InFile(src: seq<byte>, blksize: nat): Env {
      Env(src, blksize, cpyoff, cpylen, tgtlen)
    }
  }

  /** Every window decodes; the target is their results one after the other. */
  ghost predicate AllDecode(src: seq<byte>, blksize: nat, wins: seq<Window>) {
    forall i :: 0 <= i < |wins| ==>
      wins[i].InFile(src, blksize).Valid()
      && DecodeWindow(wins[i].InFile(src, blksize), wins[i].inst, wins[i].data, wins[i].addr).Ok?
  }

  ghost function Target(src: seq<byte>, blksize: nat, wins: seq<Window>): seq<byte>
    requires AllDecode(src, blksize, wins)
  {
    if wins == [] then []
    else
      var n := |wins| - 1;
      Target(src, blksize, wins[..n])
        + DecodeWindow(wins[n].InFile(src, blksize), wins[n].inst, wins[n].data, wins[n].addr).value
  }

  lemma TargetNext(src: seq<byte>, blksize: nat, wins: seq<Window>, i: nat)
    requires AllDecode(src, blksize, wins) && i < |wins|
    ensures AllDecode(src, blksize, wins[..i]) && AllDecode(src, blksize, wins[..i + 1])
    ensures wins[i].InFile(src, blksize).Valid()
    ensures
      var w := DecodeWindow(wins[i].InFile(src, blksize), wins[i].inst, wins[i].data, wins[i].addr);
      w.Ok? && Target(src, blksize, wins[..i + 1]) == Target(src, blksize, wins[..i]) + w.value
  {
    hide DecodeWindow;
    assert wins[..i + 1][..i] == wins[..i];
  }

  /** The record of window `i`: where in the target it starts, how long it is, and the checksum it came with. */
  ghost predicate RecordOf(src: seq<byte>, blksize: nat, wins: seq<Window>, i: nat, info: Merge.WinInfo) {
    && i < |wins| && AllDecode(src, blksize, wins[..i]) && AllDecode(src, blksize, wins[..i + 1])
    && info.offset == |Target(src, blksize, wins[..i])|
    && info.offset + info.length == |Target(src, blksize, wins[..i + 1])|
    && info.adler32 == wins[i].adler32
  }

  ghost predicate Recorded(src: seq<byte>, blksize: nat, wins: seq<Window>, infos: seq<Merge.WinInfo>) {
    |infos| == |wins| && forall i :: 0 <= i < |infos| ==> RecordOf(src, blksize, wins, i, infos[i])
  }

  /** A record does not depend on what follows its window. */
  lemma RecordStays(src: seq<byte>, blksize: nat, wins: seq<Window>, n: nat, i: nat, info: Merge.WinInfo)
    requires i < n <= |wins|
    ensures RecordOf(src, blksize, wins[..n], i, info) <==> RecordOf(src, blksize, wins, i, info)
  {
    hide AllDecode, Target;
    assert wins[..n][..i] == wins[..i] && wins[..n][..i + 1] == wins[..i + 1];
  }

  lemma RecordedNext(src: seq<byte>, blksize: nat, wins: seq<Window>, i: nat, infos: seq<Merge.WinInfo>)
    requires AllDecode(src, blksize, wins) && i < |wins| && Recorded(src, blksize, wins[..i], infos)
    ensures DecodeWindow(wins[i].InFile(src, blksize), wins[i].inst, wins[i].data, wins[i].addr).Ok?
    ensures AllDecode(src, blksize, wins[..i])
    ensures
      var w := DecodeWindow(wins[i].InFile(src, blksize), wins[i].inst, wins[i].data, wins[i].addr).value;
      Recorded(src, blksize, wins[..i + 1],
               infos + [Merge.WinInfo(|Target(src, blksize, wins[..i])|, |w|, wins[i].adler32)])
  {
    hide DecodeWindow, AllDecode, Target, RecordOf;
    TargetNext(src, blksize, wins, i);
    var w := DecodeWindow(wins[i].InFile(src, blksize), wins[i].inst, wins[i].data, wins[i].addr).value;
    var info := Merge.WinInfo(|Target(src, blksize, wins[..i])|, |w|, wins[i].adler32);
    LastRecord(src, blksize, wins, i, info);
    forall k | 0 <= k <= i ensures RecordOf(src, blksize, wins[..i + 1], k, (infos + [info])[k]) {
      RecordStays(src, blksize, wins, i + 1, k, (infos + [info])[k]);
      if k < i {
        RecordStays(src, blksize, wins, i, k, infos[k]);
      }
    }
  }

  lemma LastRecord(src: seq<byte>, blksize: nat, wins: seq<Window>, i: nat, info: Merge.WinInfo)
    requires AllDecode(src, blksize, wins) && i < |wins| && AllDecode(src, blksize, wins[..i])
    requires info.offset == |Target(src, blksize, wins[..i])| && info.adler32 == wins[i].adler32
    requires
      var w := DecodeWindow(wins[i].InFile(src, blksize), wins[i].inst, wins[i].data, wins[i].addr);
      w.Ok? && info.length == |w.value|
    ensures RecordOf(src, blksize, wins, i, info)
  {
    hide DecodeWindow, AllDecode, Target;
    TargetNext(src, blksize, wins, i);
  }

  /** One window of a file that decodes. */
  method FlattenWindow(whole: Merge.WholeState, src: seq<byte>, blksize: nat, win: Window, ghost before: seq<byte>)
    requires blksize > 0 && win.InFile(src, blksize).Valid() && Denotes(src, whole.View(), before)
    requires DecodeWindow(win.InFile(src, blksize), win.inst, win.data, win.addr).Ok?
    modifies whole
    ensures
      Denotes(src, whole.View(), before + DecodeWindow(win.InFile(src, blksize), win.inst, win.data, win.addr).value)
    ensures
      var w := DecodeWindow(win.InFile(src, blksize), win.inst, win.data, win.addr).value;
      whole.wininfo == old(whole.wininfo) + [Merge.WinInfo(|before|, |w|, win.adler32)]
  {
    hide Denotes, DecodeWindow, Block, Source.Valid, Decoder.Underway, Decoder.Promise, Decoder.Valid, Decoder.View, Env.Valid;
    hide WindowFormat.Start, Entry, DefaultCache, AddrCache.Valid, AddrCache.View;
    var env := win.InFile(src, blksize);
    var source := new Source(src, blksize);
    var dec := new Decoder(env, win.inst, win.data, win.addr, env.tgtlen, source);
    ghost var w := DecodeWindow(env, win.inst, win.data, win.addr).value;
    LengthDenoted(src, whole.View(), before);
    AppendWindow(dec, whole, whole.length, win.adler32, before, w);
  }

  /** Flattens a whole file: one list for all windows, which denotes the concatenation of what the windows decode to. */
  method FlattenFile(src: seq<byte>, blksize: nat, wins: seq<Window>) returns (whole: Merge.WholeState)
    requires blksize > 0 && AllDecode(src, blksize, wins)
    ensures fresh(whole)
    ensures Denotes(src, whole.View(), Target(src, blksize, wins))
    ensures WellFormed(whole.View(), |src|) && Apply(src, whole.View()) == Target(src, blksize, wins)
    ensures Recorded(src, blksize, wins, whole.wininfo)
  {
    hide Denotes, DecodeWindow, AllDecode, WellFormed, Apply, Recorded;
    whole := new Merge.WholeState();
    EmptyDenotes(src, blksize, wins);
    for i := 0 to |wins|
      invariant AllDecode(src, blksize, wins[..i]) && fresh(whole)
      invariant Denotes(src, whole.View(), Target(src, blksize, wins[..i]))
      invariant Recorded(src, blksize, wins[..i], whole.wininfo)
    {
      TargetNext(src, blksize, wins, i);
      RecordedNext(src, blksize, wins, i, whole.wininfo);
      FlattenWindow(whole, src, blksize, wins[i], Target(src, blksize, wins[..i]));
    }
    assert wins[..|wins|] == wins;
    DenotesIsApply(src, whole.View(), Target(src, blksize, wins));
  }

  lemma EmptyDenotes(src: seq<byte>, blksize: nat, wins: seq<Window>)
    ensures Denotes(src, Delta([], [], 0), [])
    ensures AllDecode(src, blksize, wins[..0]) && Target(src, blksize, wins[..0]) == []
    ensures Recorded(src, blksize, wins[..0], [])
  {
  }
}
