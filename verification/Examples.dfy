/** Deltas written out byte by byte, and what they decode to. */
module Examples {
  import opened Arithmetic
  import opened Bytes
  import opened Results
  import opened Integers
  import opened AddressCache
  import opened BlockedSource
  import opened CodeTable
  import opened WindowFormat
  import opened StreamFormat
  import opened StreamEncoder
  import opened StreamChecks
  import opened AnyInput
  import Adler

  // ----- One instruction after the other

  /** What is left of a window while it is decoded. */
  predicate At(env: Env, st: State) {
    env.Valid() && DefaultCache(st.cache) && st.position == env.cpylen + |st.out|
  }

  lemma OneByte(a: byte, rest: seq<byte>)
    requires a < 128
    ensures ReadInt([a] + rest, 0) == Read(a, rest)
  {
    assert ([a] + rest)[1..] == rest;
  }

  lemma TwoBytes(a: byte, b: byte, rest: seq<byte>)
    requires a >= 128 > b
    ensures ReadInt([a, b] + rest, 0) == Read(128 * (a - 128) + b, rest)
  {
    assert ([a, b] + rest)[1..] == [b] + rest && ([b] + rest)[1..] == rest;
  }

  /** An ADD of a size in its code. */
  lemma AddStep(env: Env, st: State, code: byte, bytes: seq<byte>, inst: seq<byte>, data: seq<byte>)
    requires At(env, st) && st.inst == [code] + inst && 2 <= code <= 18 && st.data == bytes + data
    requires |bytes| == code - 1 && |st.out| + |bytes| <= env.tgtlen
    ensures
      var next := State(inst, data, st.addr, st.cache, st.position + |bytes|, st.out + bytes);
      At(env, next) && Run(env, st) == Run(env, next)
  {
    hide Run, DecodeAddress, ReadInt;
    assert st.inst[1..] == inst;
    assert (bytes + data)[..|bytes|] == bytes && (bytes + data)[|bytes|..] == data;
    SingleRows(0, code - 1);
    RunNext(env, st);
  }

  /** A RUN, with its size behind it. */
  lemma RunStep(env: Env, st: State, size: byte, b: byte, inst: seq<byte>, data: seq<byte>)
    requires At(env, st) && st.inst == [0, size] + inst && size < 128 && st.data == [b] + data
    requires |st.out| + size <= env.tgtlen
    ensures
      var next := State(inst, data, st.addr, st.cache, st.position + size, st.out + Repeat(b, size));
      At(env, next) && Run(env, st) == Run(env, next)
  {
    hide Run, DecodeAddress, ReadInt;
    assert st.inst[1..] == [size] + inst && st.data[1..] == data;
    OneByte(size, inst);
    SingleRows(0, 1);
    RunNext(env, st);
  }

  lemma RunNext(env: Env, st: State)
    requires At(env, st) && st.inst != []
    ensures Run(env, st) == match Instruction(env, st) case InvalidInput => InvalidInput case Ok(next) => Run(env, next)
  {
  }

  /** A copy of a size in its code, from the source or from what is already there. */
  lemma CopyStep(env: Env, st: State, code: byte, mode: nat, size: nat, a: nat, inst: seq<byte>, addr: seq<byte>,
                 c: Cache)
    requires At(env, st) && st.inst == [code] + inst && mode <= 8 && 4 <= size <= 18 && code == 16 + 16 * mode + size
    requires st.cache.Valid() && DecodeAddress(st.cache, st.position, mode, st.addr) == Addr(a, addr, c)
    requires a < st.position && |st.out| + size <= env.tgtlen
    requires a < env.cpylen ==> a + size <= env.cpylen && env.cpyoff + a + size <= |env.src|
    ensures
      var out := if a < env.cpylen then st.out + env.src[env.cpyoff + a..env.cpyoff + a + size]
                 else CopyWithin(st.out, a - env.cpylen, size);
      var next := State(inst, st.data, addr, c, st.position + size, out);
      At(env, next) && Run(env, st) == Run(env, next)
  {
    hide Run, DecodeAddress, ReadInt, ReadBlocks, CopyWithin;
    assert st.inst[1..] == inst;
    SingleRows(mode, size);
    if a < env.cpylen {
      ReadBlocksIsSlice(env.src, env.blksize, env.cpyoff + a, size);
    }
    RunNext(env, st);
  }

  lemma Done(env: Env, st: State)
    requires At(env, st) && st.inst == [] && st.data == [] && st.addr == [] && |st.out| == env.tgtlen
    ensures WindowFormat.Finished(env, Run(env, st)) == Ok(st.out)
  {
  }

  // ----- Source copies in the modes SELF and NEAR

  /** Copies of four bytes from 300 and from 500, and then from the address that is still in slot 0. */
  lemma NearExample(src: seq<byte>, blksize: nat)
    requires blksize > 0 && |src| >= 1000
    ensures
      DecodeWindow(Env(src, blksize, 0, 1000, 12), [20, 20, 52], [], [0x82, 0x2c, 0x83, 0x74, 0x00])
      == Ok(src[300..304] + src[500..504] + src[300..304])
  {
    hide Run, InitCache, UpdateCache, DecodeAddress, DefaultCache;
    var env := Env(src, blksize, 0, 1000, 12);
    var c0 := InitCache(4, 3);
    var c1, c2 := UpdateCache(c0, 300), UpdateCache(UpdateCache(c0, 300), 500);
    var c3 := UpdateCache(c2, 300);
    FirstSlot(c0, c2);
    ThreeAddresses(c0, c1, c2);
    var st0 := WindowFormat.Start(env, [20, 20, 52], [], [0x82, 0x2c, 0x83, 0x74, 0x00]);
    assert st0.inst == [20] + [20, 52];
    CopyStep(env, st0, 20, 0, 4, 300, [20, 52], [0x83, 0x74, 0x00], c1);
    assert [] + src[300..304] == src[300..304] && [20, 52] == [20] + [52] && [52] == [52] + [];
    var st1 := State([20, 52], [], [0x83, 0x74, 0x00], c1, 1004, src[300..304]);
    CopyStep(env, st1, 20, 0, 4, 500, [52], [0x00], c2);
    var st2 := State([52], [], [0x00], c2, 1008, src[300..304] + src[500..504]);
    CopyStep(env, st2, 52, 2, 4, 300, [], [], c3);
    Done(env, State([], [], [], c3, 1012, src[300..304] + src[500..504] + src[300..304]));
  }

  lemma FirstSlot(c0: Cache, c2: Cache)
    requires c0 == InitCache(4, 3) && c2 == UpdateCache(UpdateCache(c0, 300), 500)
    ensures c0.Valid() && DefaultCache(c0) && DefaultCache(UpdateCache(c0, 300)) && DefaultCache(c2)
    ensures c2.near[0] == 300
  {
  }

  /** An address written in full. */
  lemma SelfAddress(c: Cache, here: nat, input: seq<byte>, v: nat, rest: seq<byte>)
    requires DefaultCache(c) && ReadInt(input, 0) == Read(v, rest)
    ensures DecodeAddress(c, here, 0, input) == Addr(v, rest, UpdateCache(c, v))
  {
    hide UpdateCache, ReadInt;
  }

  lemma ThreeAddresses(c0: Cache, c1: Cache, c2: Cache)
    requires DefaultCache(c0) && DefaultCache(c1) && DefaultCache(c2) && c2.near[0] == 300
    ensures DecodeAddress(c0, 1000, 0, [0x82, 0x2c, 0x83, 0x74, 0x00])
         == Addr(300, [0x83, 0x74, 0x00], UpdateCache(c0, 300))
    ensures DecodeAddress(c1, 1004, 0, [0x83, 0x74, 0x00]) == Addr(500, [0x00], UpdateCache(c1, 500))
    ensures DecodeAddress(c2, 1008, 2, [0x00]) == Addr(300, [], UpdateCache(c2, 300))
  {
    hide *;
    assert [0x82, 0x2c] + [0x83, 0x74, 0x00] == [0x82, 0x2c, 0x83, 0x74, 0x00];
    assert [0x83, 0x74] + [0x00] == [0x83, 0x74, 0x00];
    assert [0x00] + [] == [0x00];
    TwoBytes(0x82, 0x2c, [0x83, 0x74, 0x00]);
    TwoBytes(0x83, 0x74, [0x00]);
    OneByte(0x00, []);
    SelfAddress(c0, 1000, [0x82, 0x2c, 0x83, 0x74, 0x00], 300, [0x83, 0x74, 0x00]);
    SelfAddress(c1, 1004, [0x83, 0x74, 0x00], 500, [0x00]);
    NearAddress(c2, 1008);
  }

  lemma NearAddress(c: Cache, here: nat)
    requires DefaultCache(c) && c.near[0] == 300
    ensures DecodeAddress(c, here, 2, [0x00]) == Addr(300, [], UpdateCache(c, 300))
  {
    hide UpdateCache, ReadInt;
    assert [0x00] + [] == [0x00];
    OneByte(0x00, []);
  }

  // ----- The example in section 3 of RFC 3284

  /** Sixteen letters from a on. */
  const LETTERS: seq<byte> :=
    [0x61, 0x62, 0x63, 0x64, 0x65, 0x66, 0x67, 0x68, 0x69, 0x6a, 0x6b, 0x6c, 0x6d, 0x6e, 0x6f, 0x70]

  lemma Parts()
    ensures |LETTERS| == 16 && 16 + 28 < TWO_64
    ensures LETTERS[0..4] == [0x61, 0x62, 0x63, 0x64] && LETTERS[4..8] == [0x65, 0x66, 0x67, 0x68]
  {
  }

  /** The copy of twelve bytes from eight bytes into the target reads what it has written itself. */
  lemma CopiesItself(o: seq<byte>, four: seq<byte>)
    requires |o| == 12 && |four| == 4 && o[8..12] == four
    ensures CopyWithin(o, 8, 12) == o + four + four + four
  {
    hide CopyWithin;
    forall k | 8 <= k < 12 ensures o[k] == four[k - 8] {
      assert o[8..12][k - 8] == o[k];
    }
    CopyFour(o, 8, 8, four);
    CopyFour(o + four, 12, 4, four);
    CopyFour(o + four + four, 16, 0, four);
    NothingCopied(o + four + four + four, 20);
  }

  lemma CopyFour(o: seq<byte>, addr: nat, more: nat, four: seq<byte>)
    requires |four| == 4 && addr + 4 <= |o| && o[addr..addr + 4] == four
    ensures addr + 4 < |o + four| && CopyWithin(o, addr, 4 + more) == CopyWithin(o + four, addr + 4, more)
  {
    forall k | 0 <= k < 4 ensures o[addr + k] == four[k] {
      assert o[addr..addr + 4][k] == o[addr + k];
    }
    CopyOne(o, addr, 3 + more);
    CopyOne(o + [four[0]], addr + 1, 2 + more);
    CopyOne(o + [four[0]] + [four[1]], addr + 2, 1 + more);
    CopyOne(o + [four[0]] + [four[1]] + [four[2]], addr + 3, more);
    assert o + [four[0]] + [four[1]] + [four[2]] + [four[3]] == o + four;
  }

  lemma CopyOne(o: seq<byte>, addr: nat, more: nat)
    requires addr < |o|
    ensures CopyWithin(o, addr, 1 + more) == CopyWithin(o + [o[addr]], addr + 1, more)
  {
  }

  lemma NothingCopied(o: seq<byte>, addr: nat)
    ensures CopyWithin(o, addr, 0) == o
  {
  }

  /** COPY 4, 0; ADD 4, wxyz; COPY 4, 4; COPY 12, 24; RUN 4, z. */
  lemma RfcExample(blksize: nat)
    requires blksize > 0
    ensures
      var abcd, wxyz, efgh, z := [0x61, 0x62, 0x63, 0x64], [0x77, 0x78, 0x79, 0x7a], [0x65, 0x66, 0x67, 0x68], [0x7a];
      DecodeWindow(Env(LETTERS, blksize, 0, 16, 28), [20, 5, 20, 28, 0, 4], wxyz + z, [0, 4, 24])
      == Ok(abcd + wxyz + efgh + efgh + efgh + efgh + (z + z + z + z))
  {
    hide Run, InitCache, UpdateCache, DecodeAddress, DefaultCache, DecodeWindow, WindowFormat.Finished, Repeat, LETTERS,
         At;
    Parts();
    var abcd: seq<byte>, wxyz: seq<byte> := [0x61, 0x62, 0x63, 0x64], [0x77, 0x78, 0x79, 0x7a];
    var efgh: seq<byte>, z: seq<byte> := [0x65, 0x66, 0x67, 0x68], [0x7a];
    var env := Env(LETTERS, blksize, 0, 16, 28);
    var c0 := InitCache(4, 3);
    var c1, c2 := UpdateCache(c0, 0), UpdateCache(UpdateCache(c0, 0), 4);
    var c3 := UpdateCache(c2, 24);
    FirstCaches(c0, c1, c2);
    SmallAddresses(c0, c1, c2);
    Begin(env, [20, 5, 20, 28, 0, 4], wxyz + z, [0, 4, 24]);
    var st0 := State([20, 5, 20, 28, 0, 4], wxyz + z, [0, 4, 24], c0, 16, []);
    FirstThree(env, c0, c1, c2, wxyz, z);
    LastTwo(env, c2, c3, abcd + wxyz + efgh, efgh, z);
    FourTimes(0x7a);
  }

  lemma Begin(env: Env, inst: seq<byte>, data: seq<byte>, addr: seq<byte>)
    requires env.Valid()
    ensures
      var st := State(inst, data, addr, InitCache(4, 3), env.cpylen, []);
      At(env, st) && DecodeWindow(env, inst, data, addr) == WindowFormat.Finished(env, Run(env, st))
  {
    hide Run;
  }

  lemma FirstThree(env: Env, c0: Cache, c1: Cache, c2: Cache, wxyz: seq<byte>, z: seq<byte>)
    requires env.Valid() && env.cpyoff == 0 && env.cpylen == 16 && env.tgtlen == 28 && |env.src| >= 16 && |wxyz| == 4
    requires DefaultCache(c0) && DefaultCache(c1) && DefaultCache(c2)
    requires DecodeAddress(c0, 16, 0, [0, 4, 24]) == Addr(0, [4, 24], c1)
    requires DecodeAddress(c1, 24, 0, [4, 24]) == Addr(4, [24], c2)
    ensures
      var st := State([20, 5, 20, 28, 0, 4], wxyz + z, [0, 4, 24], c0, 16, []);
      var next := State([28, 0, 4], z, [24], c2, 28, env.src[0..4] + wxyz + env.src[4..8]);
      At(env, st) && At(env, next) && Run(env, st) == Run(env, next)
  {
    hide Run, DecodeAddress;
    var o := env.src[0..4];
    var st := State([20] + [5, 20, 28, 0, 4], wxyz + z, [0, 4, 24], c0, 16, []);
    assert [20] + [5, 20, 28, 0, 4] == [20, 5, 20, 28, 0, 4] && [] + o == o;
    CopyStep(env, st, 20, 0, 4, 0, [5, 20, 28, 0, 4], [4, 24], c1);
    var st1 := State([5] + [20, 28, 0, 4], wxyz + z, [4, 24], c1, 20, o);
    assert [5] + [20, 28, 0, 4] == [5, 20, 28, 0, 4];
    AddStep(env, st1, 5, wxyz, [20, 28, 0, 4], z);
    var st2 := State([20] + [28, 0, 4], z, [4, 24], c1, 24, o + wxyz);
    assert [20] + [28, 0, 4] == [20, 28, 0, 4];
    CopyStep(env, st2, 20, 0, 4, 4, [28, 0, 4], [24], c2);
  }

  lemma LastTwo(env: Env, c2: Cache, c3: Cache, o: seq<byte>, four: seq<byte>, z: seq<byte>)
    requires env.Valid() && env.cpyoff == 0 && env.cpylen == 16 && env.tgtlen == 28 && |o| == 12 && z == [0x7a]
    requires DefaultCache(c2) && o[8..12] == four
    requires DecodeAddress(c2, 28, 0, [24]) == Addr(24, [], c3)
    ensures
      var st := State([28, 0, 4], z, [24], c2, 28, o);
      At(env, st) && WindowFormat.Finished(env, Run(env, st)) == Ok(o + four + four + four + Repeat(0x7a, 4))
  {
    hide Run, DecodeAddress, CopyWithin, Repeat;
    var st := State([28] + [0, 4], z, [24], c2, 28, o);
    assert [28] + [0, 4] == [28, 0, 4] && [0, 4] + [] == [0, 4] && [0x7a] + [] == z;
    CopyStep(env, st, 28, 0, 12, 24, [0, 4], [], c3);
    CopiesItself(o, four);
    RunStep(env, State([0, 4], z, [], c3, 40, o + four + four + four), 4, 0x7a, [], []);
    Done(env, State([], [], [], c3, 44, o + four + four + four + Repeat(0x7a, 4)));
  }

  lemma FourTimes(b: byte)
    ensures Repeat(b, 4) == [b] + [b] + [b] + [b]
  {
  }

  lemma FirstCaches(c0: Cache, c1: Cache, c2: Cache)
    requires c0 == InitCache(4, 3) && c1 == UpdateCache(c0, 0) && c2 == UpdateCache(c1, 4)
    ensures DefaultCache(c0) && DefaultCache(c1) && DefaultCache(c2)
  {
  }

  lemma SmallAddresses(c0: Cache, c1: Cache, c2: Cache)
    requires DefaultCache(c0) && DefaultCache(c1) && DefaultCache(c2)
    ensures DecodeAddress(c0, 16, 0, [0, 4, 24]) == Addr(0, [4, 24], UpdateCache(c0, 0))
    ensures DecodeAddress(c1, 24, 0, [4, 24]) == Addr(4, [24], UpdateCache(c1, 4))
    ensures DecodeAddress(c2, 28, 0, [24]) == Addr(24, [], UpdateCache(c2, 24))
  {
    hide *;
    assert [0] + [4, 24] == [0, 4, 24] && [4] + [24] == [4, 24] && [24] + [] == [24];
    OneByte(0, [4, 24]);
    OneByte(4, [24]);
    OneByte(24, []);
    SelfAddress(c0, 16, [0, 4, 24], 0, [4, 24]);
    SelfAddress(c1, 24, [4, 24], 4, [24]);
    SelfAddress(c2, 28, [24], 24, []);
  }

  // ----- Whole files

  /** The header of a file and one window. */
  lemma OneWindow(cfg: Config, w: Written)
    requires cfg.blksize > 0 && Writable(w)
    ensures
      var r := Feed(cfg, FRESH, [0xd6, 0xc3, 0xc4, 0, 0] + BytesOf(w));
      && (r.failed.None? <==> exists out :: Stands(cfg, w, out))
      && (r.failed.Some? ==> r.events == [] || r.events == [GotHeader])
      && (forall out :: Stands(cfg, w, out) ==> r.events == [GotHeader, Output(out), WinFinish])
  {
    hide Feed, BytesOf, Stands, Writable;
    HeaderReadsBack(cfg, None, BytesOf(w));
    assert FileHeader(None) == [0xd6, 0xc3, 0xc4, 0, 0];
    var m := HeaderRead(None);
    WindowExactly(cfg, m, w);
    assert m.events == [] && [] + [GotHeader] == [GotHeader];
  }

  lemma SmallNumbers()
    ensures forall n: byte :: n < 128 ==> EmitInt(n) == [n]
  {
  }

  /** An ADD of the letter A with a checksum. */
  function OneLetter(c0: byte, c1: byte, c2: byte, c3: byte): Written {
    Written(4, 0, 0, 11, 1, 0, [c0, c1, c2, c3], [0x41], [2], [])
  }

  /** What follows the length of the encoding when all lengths take one byte. */
  lemma ShortBehind(w: Written)
    requires w.tgtlen < 128 && |w.data| < 128 && |w.inst| < 128 && |w.addr| < 128
    ensures Behind(w)
         == [w.tgtlen, w.delInd, |w.data|, |w.inst|, |w.addr|] + (w.cksum + (w.data + (w.inst + w.addr)))
  {
    hide EmitInt;
    SmallNumbers();
    var tgtlen: byte, data: byte, inst: byte, addr: byte := w.tgtlen, |w.data|, |w.inst|, |w.addr|;
    assert EmitInt(tgtlen) == [tgtlen] && EmitInt(data) == [data] && EmitInt(inst) == [inst] && EmitInt(addr) == [addr];
    FiveInFront(tgtlen, w.delInd, data, inst, addr, w.cksum + Sections(w));
  }

  lemma FiveInFront(a: byte, b: byte, c: byte, d: byte, e: byte, rest: seq<byte>)
    ensures [a] + ([b] + ([c] + ([d] + ([e] + rest)))) == [a, b, c, d, e] + rest
  {
  }

  lemma OneLetterBytes(c0: byte, c1: byte, c2: byte, c3: byte)
    ensures |Behind(OneLetter(c0, c1, c2, c3))| == 11 && Writable(OneLetter(c0, c1, c2, c3))
    ensures [0xd6, 0xc3, 0xc4, 0, 0] + BytesOf(OneLetter(c0, c1, c2, c3))
         == [0xd6, 0xc3, 0xc4, 0, 0, 4, 11, 1, 0, 1, 1, 0, c0, c1, c2, c3, 0x41, 2]
  {
    hide EmitInt, Behind;
    SmallNumbers();
    var w := OneLetter(c0, c1, c2, c3);
    assert EmitInt(w.enclen) == [11];
    ShortBehind(w);
    assert Behind(w) == [1, 0, 1, 1, 0, c0, c1, c2, c3, 0x41, 2];
  }

  lemma OneLetterDecodes(src: seq<byte>, blksize: nat)
    requires blksize > 0
    ensures DecodeWindow(Env(src, blksize, 0, 0, 1), [2], [0x41], []) == Ok([0x41])
  {
    hide Run, InitCache, DecodeWindow, WindowFormat.Finished, At;
    var env := Env(src, blksize, 0, 0, 1);
    Begin(env, [2], [0x41], []);
    var st := State([2], [0x41], [], InitCache(4, 3), 0, []);
    assert [2] + [] == [2] && [0x41] + [] == [0x41] && [] + [0x41] == [0x41];
    AddStep(env, st, 2, [0x41], [], []);
    Done(env, State([], [], [], InitCache(4, 3), 1, [0x41]));
  }

  lemma ChecksumOfLetter()
    ensures Adler.Checksum([0x41]) == 0x42_0042
  {
    Adler.ChecksumClosed([0x41]);
    assert [0x41][..0] == [];
  }

  lemma ValueIs(c0: byte, c1: byte, c2: byte, c3: byte)
    ensures Value([c0, c1, c2, c3]) == 0x42_0042 <==> c0 == 0 && c1 == 0x42 && c2 == 0 && c3 == 0x42
  {
  }

  /** A file of eighteen bytes is decoded with the right checksum and refused with any other. */
  lemma FileExample(cfg: Config, c0: byte, c1: byte, c2: byte, c3: byte)
    requires cfg.blksize > 0
    ensures
      var r := Feed(cfg, FRESH, [0xd6, 0xc3, 0xc4, 0, 0, 4, 11, 1, 0, 1, 1, 0, c0, c1, c2, c3, 0x41, 2]);
      if c0 == 0 && c1 == 0x42 && c2 == 0 && c3 == 0x42
      then r.failed.None? && r.events == [GotHeader, Output([0x41]), WinFinish]
      else r.failed.Some? && (r.events == [] || r.events == [GotHeader])
  {
    hide Feed, BytesOf, Behind, DecodeWindow, Adler.Checksum, Value, Writable;
    var w := OneLetter(c0, c1, c2, c3);
    OneLetterBytes(c0, c1, c2, c3);
    OneWindow(cfg, w);
    OneLetterDecodes(if cfg.src.Some? then cfg.src.value else [], cfg.blksize);
    ChecksumOfLetter();
    ValueIs(c0, c1, c2, c3);
    if c0 == 0 && c1 == 0x42 && c2 == 0 && c3 == 0x42 {
      assert Stands(cfg, w, [0x41]);
    }
  }

  function RfcWindow(): Written {
    Written(1, 16, 0, 19, 28, 0, [], [0x77, 0x78, 0x79, 0x7a, 0x7a], [20, 5, 20, 28, 0, 4], [0, 4, 24])
  }

  lemma RfcWindowBytes()
    ensures |Behind(RfcWindow())| == 19 && Writable(RfcWindow())
    ensures [0xd6, 0xc3, 0xc4, 0, 0] + BytesOf(RfcWindow())
         == [0xd6, 0xc3, 0xc4, 0, 0, 1, 16, 0, 19, 28, 0, 5, 6, 3] + [0x77, 0x78, 0x79, 0x7a, 0x7a]
            + [20, 5, 20, 28, 0, 4] + [0, 4, 24]
  {
    hide EmitInt, Behind;
    SmallNumbers();
    var w := RfcWindow();
    assert EmitInt(w.cpylen) == [16] && EmitInt(w.cpyoff) == [0] && EmitInt(w.enclen) == [19];
    ShortBehind(w);
    InFront(w.data, w.inst, w.addr);
  }

  lemma InFront(data: seq<byte>, inst: seq<byte>, addr: seq<byte>)
    ensures [0xd6, 0xc3, 0xc4, 0, 0] + ([1] + (([16] + [0]) + ([19] + ([28, 0, 5, 6, 3] + ([] + (data + (inst + addr)))))))
         == [0xd6, 0xc3, 0xc4, 0, 0, 1, 16, 0, 19, 28, 0, 5, 6, 3] + data + inst + addr
  {
  }

  /** The RFC's example as a file: a segment's length comes before its offset, and the sections are data, instructions
      and addresses, in this order. */
  lemma RfcFile(cfg: Config)
    requires cfg.blksize > 0 && cfg.src == Some(LETTERS)
    ensures
      var r := Feed(cfg, FRESH, [0xd6, 0xc3, 0xc4, 0, 0, 1, 16, 0, 19, 28, 0, 5, 6, 3] + [0x77, 0x78, 0x79, 0x7a, 0x7a]
                                + [20, 5, 20, 28, 0, 4] + [0, 4, 24]);
      var abcd, wxyz, efgh, z := [0x61, 0x62, 0x63, 0x64], [0x77, 0x78, 0x79, 0x7a], [0x65, 0x66, 0x67, 0x68], [0x7a];
      r.failed.None?
      && r.events == [GotHeader, Output(abcd + wxyz + efgh + efgh + efgh + efgh + (z + z + z + z)), WinFinish]
  {
    hide Feed, BytesOf, Behind, DecodeWindow, Adler.Checksum, Value, Writable;
    var w := RfcWindow();
    RfcWindowBytes();
    OneWindow(cfg, w);
    RfcExample(cfg.blksize);
    var abcd: seq<byte>, wxyz: seq<byte> := [0x61, 0x62, 0x63, 0x64], [0x77, 0x78, 0x79, 0x7a];
    var efgh: seq<byte>, z: seq<byte> := [0x65, 0x66, 0x67, 0x68], [0x7a];
    assert w.data == wxyz + z;
    assert Stands(cfg, w, abcd + wxyz + efgh + efgh + efgh + efgh + (z + z + z + z));
  }
}
