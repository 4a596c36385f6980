/** The headers the encoder writes, and that a decoder fed with them and the sections gets every window back. */
module StreamEncoder {
  import opened Arithmetic
  import opened Bytes
  import opened Results
  import opened Integers
  import opened StreamFormat
  import opened StreamDecoder
  import opened WindowFormat
  import Adler

  /** A window ready to be sent: its source segment if it uses one (base and length), its checksum if it carries one. */
  datatype OutWindow = OutWindow(src: Option<(nat, nat)>, adler32: Option<nat>, tgtlen: nat,
                                 data: seq<byte>, inst: seq<byte>, addr: seq<byte>)

  /** The header of a file, with its application header. */
  function FileHeader(apphead: Option<seq<byte>>): seq<byte> {
    [0xd6, 0xc3, 0xc4, 0, if apphead.Some? then 4 else 0]
    + (if apphead.Some? then EmitInt(|apphead.value|) + apphead.value else [])
  }

  function Indicator(w: OutWindow): byte {
    (if w.src.Some? then 1 else 0) + (if w.adler32.Some? then 4 else 0)
  }

  function EncLen(w: OutWindow): nat {
    1 + SizeOfInt(w.tgtlen) + SizeOfInt(|w.data|) + SizeOfInt(|w.inst|) + SizeOfInt(|w.addr|)
    + |w.data| + |w.inst| + |w.addr| + (if w.adler32.Some? then 4 else 0)
  }

  function FourBytes(a: nat): seq<byte>
    requires a < 0x1_0000_0000
  {
    [a / 0x100_0000, a / 0x1_0000 % 0x100, a / 0x100 % 0x100, a % 0x100]
  }

  predicate Sendable(w: OutWindow) {
    && w.tgtlen <= HARD_MAX_WINDOW && EncLen(w) < TWO_64
    && (w.src.Some? ==> w.src.value.0 + w.src.value.1 < TWO_64 && w.src.value.1 + w.tgtlen < TWO_64)
    && (w.adler32.Some? ==> w.adler32.value < 0x1_0000_0000)
  }

  function SourcePart(w: OutWindow): seq<byte> {
    if w.src.Some? then EmitInt(w.src.value.1) + EmitInt(w.src.value.0) else []
  }

  function LengthsPart(w: OutWindow): seq<byte> {
    EmitInt(EncLen(w)) + (EmitInt(w.tgtlen) + ([0] + (EmitInt(|w.data|) + (EmitInt(|w.inst|) + EmitInt(|w.addr|)))))
  }

  function CksumPart(w: OutWindow): seq<byte>
    requires Sendable(w)
  {
    if w.adler32.Some? then FourBytes(w.adler32.value) else []
  }

  function WindowHeader(w: OutWindow): seq<byte>
    requires Sendable(w)
  {
    [Indicator(w)] + (SourcePart(w) + (LengthsPart(w) + CksumPart(w)))
  }

  function WindowBytes(w: OutWindow): seq<byte>
    requires Sendable(w)
  {
    WindowHeader(w) + (w.data + (w.inst + w.addr))
  }

  // ----- Reading the parts back

  /** A number fed to the machine arrives where the machine wants it. */
  lemma {:induction false} FeedsNumber(cfg: Config, m: Machine, input: seq<byte>, v: nat, rest: seq<byte>)
    requires cfg.blksize > 0 && Sane(m) && m.failed.None? && TakesNumber(m.phase) && NeedsByte(m)
    requires ReadInt(input, m.part) == Read(v, rest)
    ensures v < TWO_64 && Sane(m.(part := 0))
    ensures Feed(cfg, m, input) == Feed(cfg, SizeDone(m.(part := 0), v), rest)
    decreases |input|
  {
    hide Feed, SizeDone, Sane, NeedsByte, ReadInt, IntByte;
    PartFits(m);
    ReadIntStep(input, m.part);
    NumberByte(cfg, m, input);
    var step := IntByte(m.part, input[0]);
    if step.More? {
      var n := m.(part := step.part);
      FeedsNumber(cfg, n, input[1..], v, rest);
      assert n.(part := 0) == m.(part := 0);
    }
  }

  lemma PartFits(m: Machine)
    requires Sane(m)
    ensures m.part < TWO_64
  {
  }

  lemma ReadIntStep(input: seq<byte>, part: nat)
    requires part < TWO_64 && ReadInt(input, part).Read?
    ensures input != [] && !IntByte(part, input[0]).TooBig?
    ensures
      var r := IntByte(part, input[0]);
      && (r.More? ==> ReadInt(input, part) == ReadInt(input[1..], r.part))
      && (r.Whole? ==> ReadInt(input, part) == Read(r.value, input[1..]))
  {
    hide *;
    OneMoreByte(input, part);
    IntByteIs(part, input[0]);
  }

  lemma OneMoreByte(input: seq<byte>, part: nat)
    requires part < TWO_64 && ReadInt(input, part).Read?
    ensures input != [] && part < OVERFLOW_AT && Extended(part, input[0]) < TWO_64
    ensures
      ReadInt(input, part) ==
      if input[0] < 128 then Read(Extended(part, input[0]), input[1..]) else ReadInt(input[1..], Extended(part, input[0]))
  {
    hide ReadInt, Extended;
    OneByteRead(input, part);
    ExtendedIs(part, input[0]);
  }

  lemma ExtendedIs(part: nat, b: byte)
    ensures Extended(part, b) == part * 128 + b % 128
  {
  }

  /** The number with one more group of seven bits. */
  function Extended(part: nat, b: byte): (e: nat)
    ensures part < OVERFLOW_AT ==> e < TWO_64
  {
    part * 128 + b % 128
  }

  lemma IntByteIs(part: nat, b: byte)
    requires part < OVERFLOW_AT
    ensures IntByte(part, b) == if b < 128 then Whole(Extended(part, b)) else More(Extended(part, b))
  {
  }

  lemma OneByteRead(input: seq<byte>, part: nat)
    requires part < TWO_64 && ReadInt(input, part).Read?
    ensures input != [] && part < OVERFLOW_AT
    ensures
      var next := part * 128 + input[0] % 128;
      ReadInt(input, part) == if input[0] < 128 then Read(next, input[1..]) else ReadInt(input[1..], next)
  {
  }

  lemma FeedsEmitted(cfg: Config, m: Machine, v: nat, rest: seq<byte>)
    requires cfg.blksize > 0 && Sane(m) && m.failed.None? && TakesNumber(m.phase) && NeedsByte(m)
    requires m.part == 0 && v < TWO_64
    ensures Feed(cfg, m, EmitInt(v) + rest) == Feed(cfg, SizeDone(m, v), rest)
  {
    hide Feed, SizeDone, Sane, NeedsByte, EmitInt;
    ReadEmitted(v, rest);
    FeedsNumber(cfg, m, EmitInt(v) + rest, v, rest);
    assert m.(part := 0) == m;
  }

  lemma BigEndianNext(s: seq<byte>, b: byte)
    ensures BigEndian(s + [b]) == 256 * BigEndian(s) + b
  {
    assert (s + [b])[..|s|] == s;
  }

  lemma BigEndianFour(b0: byte, b1: byte, b2: byte, b3: byte)
    ensures BigEndian([b0, b1, b2, b3]) == 256 * (256 * (256 * b0 + b1) + b2) + b3
  {
    hide BigEndian;
    BigEndianNone();
    BigEndianNext([], b0);
    BigEndianNext([b0], b1);
    BigEndianNext([b0, b1], b2);
    BigEndianNext([b0, b1, b2], b3);
    assert [] + [b0] == [b0] && [b0] + [b1] == [b0, b1] && [b0, b1] + [b2] == [b0, b1, b2];
    assert [b0, b1, b2] + [b3] == [b0, b1, b2, b3];
  }

  lemma BigEndianNone()
    ensures BigEndian([]) == 0
  {
  }

  lemma FourParts(a: nat)
    ensures a == 256 * (256 * (256 * (a / 0x100_0000) + a / 0x1_0000 % 0x100) + a / 0x100 % 0x100) + a % 0x100
  {
    var h, q := a / 0x100, a / 0x1_0000;
    assert q == h / 0x100 && a / 0x100_0000 == q / 0x100;
  }

  lemma FourBytesBack(a: nat)
    requires a < 0x1_0000_0000
    ensures BigEndian(FourBytes(a)) == a
  {
    hide BigEndian;
    FourParts(a);
    BigEndianFour(a / 0x100_0000, a / 0x1_0000 % 0x100, a / 0x100 % 0x100, a % 0x100);
  }

  lemma JoinAssociates(a: seq<byte>, b: seq<byte>, c: seq<byte>)
    ensures a + b + c == a + (b + c)
  {
  }

  /** The machine between windows. */
  predicate Between(m: Machine) {
    Sane(m) && m.failed.None? && m.phase == WIN_IND && m.part == 0
  }

  /** The machine once the window's indicator and source segment have been read. */
  function WithSource(m: Machine, w: OutWindow): Machine {
    m.(winInd := Indicator(w), winstart := m.winstart + m.tgtlen, cksum := [], phase := ENC_LEN,
       cpylen := if w.src.Some? then w.src.value.1 else 0, cpyoff := if w.src.Some? then w.src.value.0 else 0)
  }

  lemma IndicatorFlags(w: OutWindow)
    ensures Indicator(w) < 8
    ensures Flag(Indicator(w), VCD_SOURCE) == w.src.Some? && !Flag(Indicator(w), VCD_TARGET)
    ensures Flag(Indicator(w), VCD_ADLER32) == w.adler32.Some?
    ensures SrcOrTgt(Indicator(w)) == if w.src.Some? then VCD_SOURCE else 0
  {
  }

  lemma ReadsSegment(cfg: Config, n: Machine, base: nat, len: nat, rest: seq<byte>)
    requires cfg.blksize > 0 && Sane(n) && n.failed.None? && n.part == 0 && n.phase == CPY_LEN
    requires SrcOrTgt(n.winInd) != 0 && !Flag(n.winInd, VCD_TARGET) && base + len < TWO_64
    ensures
      var r := n.(cpylen := len, cpyoff := base, phase := ENC_LEN);
      Sane(r) && Feed(cfg, n, EmitInt(len) + (EmitInt(base) + rest)) == Feed(cfg, r, rest)
  {
    hide Feed, EmitInt, SizeDone, NeedsByte, Flag, SrcOrTgt;
    MoveNumber(cfg, n, EmitInt(len) + (EmitInt(base) + rest));
    FeedsEmitted(cfg, n, len, EmitInt(base) + rest);
    DoneAt(n, len);
    var n2 := n.(cpylen := len, phase := CPY_OFF);
    MoveNumber(cfg, n2, EmitInt(base) + rest);
    FeedsEmitted(cfg, n2, base, rest);
    DoneAt(n2, base);
  }

  lemma SkipsSegment(cfg: Config, n: Machine, rest: seq<byte>)
    requires cfg.blksize > 0 && Sane(n) && n.failed.None? && n.part == 0 && n.phase == CPY_LEN
    requires SrcOrTgt(n.winInd) == 0 && !Flag(n.winInd, VCD_TARGET) && n.cpylen == 0 && n.cpyoff == 0
    ensures
      var r := n.(phase := ENC_LEN);
      Sane(r) && Feed(cfg, n, rest) == Feed(cfg, r, rest)
  {
    hide Feed, NeedsByte, Flag, SrcOrTgt;
    MoveNumber(cfg, n, rest);
    MoveNumber(cfg, n.(phase := CPY_OFF), rest);
  }

  lemma ReadsSource(cfg: Config, m: Machine, w: OutWindow, rest: seq<byte>)
    requires cfg.blksize > 0 && Between(m) && Sendable(w) && m.winstart + m.tgtlen < TWO_64
    ensures Sane(WithSource(m, w))
    ensures Feed(cfg, m, [Indicator(w)] + (SourcePart(w) + rest)) == Feed(cfg, WithSource(m, w), rest)
  {
    hide Feed, EmitInt, NeedsByte, Indicator, EncLen, Flag, SrcOrTgt, Sane;
    IndicatorFlags(w);
    var input := [Indicator(w)] + (SourcePart(w) + rest);
    ByteWinInd(cfg, m, input);
    assert input[1..] == SourcePart(w) + rest;
    var n := StartWindow(m, Indicator(w));
    if w.src.Some? {
      JoinAssociates(EmitInt(w.src.value.1), EmitInt(w.src.value.0), rest);
      ReadsSegment(cfg, n, w.src.value.0, w.src.value.1, rest);
    } else {
      assert [] + rest == rest;
      SkipsSegment(cfg, n, rest);
    }
  }

  /** The machine once all lengths have been read. */
  function WithLengths(m: Machine, w: OutWindow): Machine {
    m.(enclen := EncLen(w), tgtlen := w.tgtlen, delInd := 0, phase := CKSUM,
       data := Section(|w.data|, []), inst := Section(|w.inst|, []), addr := Section(|w.addr|, []))
  }

  lemma ReadsOne(cfg: Config, m: Machine, v: nat, rest: seq<byte>)
    requires cfg.blksize > 0 && Sane(m) && m.failed.None? && m.part == 0 && v < TWO_64
    requires ENC_LEN <= m.phase <= ADDR_LEN && m.phase != DEL_IND
    ensures Sane(SizeDone(m, v)) && Feed(cfg, m, EmitInt(v) + rest) == Feed(cfg, SizeDone(m, v), rest)
  {
    hide Feed, EmitInt, SizeDone;
    MoveNumber(cfg, m, EmitInt(v) + rest);
    FeedsEmitted(cfg, m, v, rest);
  }

  lemma ReadsTwoLengths(cfg: Config, m: Machine, w: OutWindow, rest: seq<byte>)
    requires cfg.blksize > 0 && Sane(m) && m.failed.None? && m.part == 0 && m.phase == ENC_LEN
    requires Sendable(w) && m.cpylen + w.tgtlen < TWO_64
    ensures
      var n := m.(enclen := EncLen(w), tgtlen := w.tgtlen, phase := DEL_IND);
      && Sane(n)
      && Feed(cfg, m, EmitInt(EncLen(w)) + (EmitInt(w.tgtlen) + rest)) == Feed(cfg, n, rest)
  {
    hide Feed, EmitInt, SizeDone, EncLen, NeedsByte;
    ReadsOne(cfg, m, EncLen(w), EmitInt(w.tgtlen) + rest);
    DoneAt(m, EncLen(w));
    var n := m.(enclen := EncLen(w), phase := TGT_LEN);
    ReadsOne(cfg, n, w.tgtlen, rest);
    DoneAt(n, w.tgtlen);
  }

  lemma ReadsSectionLengths(cfg: Config, m: Machine, a: nat, b: nat, c: nat, rest: seq<byte>)
    requires cfg.blksize > 0 && Sane(m) && m.failed.None? && m.part == 0 && m.phase == DATA_LEN
    requires a < TWO_64 && b < TWO_64 && c < TWO_64
    ensures
      var n := m.(data := Section(a, []), inst := Section(b, []), addr := Section(c, []), phase := CKSUM);
      && Sane(n)
      && Feed(cfg, m, EmitInt(a) + (EmitInt(b) + (EmitInt(c) + rest))) == Feed(cfg, n, rest)
  {
    hide Feed, EmitInt, SizeDone, NeedsByte;
    ReadsOne(cfg, m, a, EmitInt(b) + (EmitInt(c) + rest));
    DoneAt(m, a);
    var n := m.(data := Section(a, []), phase := INST_LEN);
    ReadsOne(cfg, n, b, EmitInt(c) + rest);
    DoneAt(n, b);
    var n2 := n.(inst := Section(b, []), phase := ADDR_LEN);
    ReadsOne(cfg, n2, c, rest);
    DoneAt(n2, c);
  }

  lemma ReadsLengths(cfg: Config, m: Machine, w: OutWindow, rest: seq<byte>)
    requires cfg.blksize > 0 && Sane(m) && m.failed.None? && m.part == 0 && m.phase == ENC_LEN
    requires Sendable(w) && m.cpylen + w.tgtlen < TWO_64
    ensures Sane(WithLengths(m, w))
    ensures Feed(cfg, m, LengthsPart(w) + rest) == Feed(cfg, WithLengths(m, w), rest)
  {
    LengthsSplit(w, rest);
    hide Feed, EmitInt, LengthsPart, NeedsByte, Sane;
    SmallSections(w);
    var three := EmitInt(|w.data|) + (EmitInt(|w.inst|) + (EmitInt(|w.addr|) + rest));
    ReadsTwoLengths(cfg, m, w, [0] + three);
    var n := m.(enclen := EncLen(w), tgtlen := w.tgtlen, phase := DEL_IND);
    ByteDelInd(cfg, n, [0] + three);
    assert ([0] + three)[1..] == three;
    var n2 := n.(delInd := 0, phase := DATA_LEN);
    ReadsSectionLengths(cfg, n2, |w.data|, |w.inst|, |w.addr|, rest);
  }

  lemma SmallSections(w: OutWindow)
    requires Sendable(w)
    ensures |w.data| < TWO_64 && |w.inst| < TWO_64 && |w.addr| < TWO_64
    ensures |w.inst| + |w.addr| + |w.data| < TWO_64
  {
  }

  lemma LengthsSplit(w: OutWindow, rest: seq<byte>)
    ensures LengthsPart(w) + rest
         == EmitInt(EncLen(w)) + (EmitInt(w.tgtlen) + ([0]
            + (EmitInt(|w.data|) + (EmitInt(|w.inst|) + (EmitInt(|w.addr|) + rest)))))
  {
    hide EmitInt, EncLen;
    var e, t, d, i, a := EmitInt(EncLen(w)), EmitInt(w.tgtlen), EmitInt(|w.data|), EmitInt(|w.inst|), EmitInt(|w.addr|);
    JoinAssociates(e, t + ([0] + (d + (i + a))), rest);
    JoinAssociates(t, [0] + (d + (i + a)), rest);
    JoinAssociates([0], d + (i + a), rest);
    JoinAssociates(d, i + a, rest);
    JoinAssociates(i, a, rest);
  }

  /** The machine once the window has been announced. */
  function Announced(m: Machine, w: OutWindow): Machine
  {
    m.(phase := DATA, events := m.events + [if m.count == 0 then GotHeader else WinStart],
       adler32 := if w.adler32.Some? then w.adler32.value else m.adler32,
       cksum := if w.adler32.Some? && w.adler32.value < 0x1_0000_0000 then FourBytes(w.adler32.value) else [])
  }

  lemma EncLenAgrees(m: Machine, w: OutWindow)
    requires Sendable(w) && m.winInd == Indicator(w) && m.tgtlen == w.tgtlen
    requires m.data.size == |w.data| && m.inst.size == |w.inst| && m.addr.size == |w.addr|
    ensures EnclenCheck(m) == EncLen(w)
  {
    hide SizeOfInt;
    IndicatorFlags(w);
    hide Indicator, Flag;
  }

  lemma ReadsCksum(cfg: Config, m: Machine, w: OutWindow, rest: seq<byte>)
    requires cfg.blksize > 0 && Sane(m) && m.failed.None? && m.phase == CKSUM && m.cksum == []
    requires Sendable(w) && m.winInd == Indicator(w) && m.tgtlen == w.tgtlen && m.enclen == EncLen(w)
    requires m.data == Section(|w.data|, []) && m.inst == Section(|w.inst|, []) && m.addr == Section(|w.addr|, [])
    ensures Sane(Announced(m, w))
    ensures Feed(cfg, m, CksumPart(w) + rest) == Feed(cfg, Announced(m, w), rest)
  {
    hide Feed, EncLen, EnclenCheck, Indicator, Flag, BigEndian, FourBytes;
    IndicatorFlags(w);
    EncLenAgrees(m, w);
    if w.adler32.Some? {
      var a := w.adler32.value;
      FourBytesBack(a);
      FourLong(a);
      TakeCksum(cfg, m, FourBytes(a), rest);
      var n := m.(cksum := m.cksum + FourBytes(a));
      assert [] + FourBytes(a) == FourBytes(a);
      EncLenAgrees(n, w);
      MoveCksum(cfg, n, rest);
    } else {
      assert [] + rest == rest;
      MoveCksum(cfg, m, rest);
    }
  }

  lemma FourLong(a: nat)
    requires a < 0x1_0000_0000
    ensures |FourBytes(a)| == 4
  {
  }

  /** The machine once the sections have been read. */
  function WithSections(m: Machine, w: OutWindow): Machine {
    m.(phase := EMIT, data := Section(|w.data|, w.data), inst := Section(|w.inst|, w.inst),
       addr := Section(|w.addr|, w.addr))
  }

  lemma ReadsSections(cfg: Config, m: Machine, w: OutWindow, rest: seq<byte>)
    requires cfg.blksize > 0 && Sane(m) && m.failed.None? && m.phase == DATA && Sendable(w)
    requires m.data == Section(|w.data|, []) && m.inst == Section(|w.inst|, []) && m.addr == Section(|w.addr|, [])
    ensures Sane(WithSections(m, w))
    ensures Feed(cfg, m, w.data + (w.inst + (w.addr + rest))) == Feed(cfg, WithSections(m, w), rest)
  {
    hide Feed, NeedsByte;
    SmallSections(w);
    assert [] + w.data == w.data && [] + w.inst == w.inst && [] + w.addr == w.addr;
    MoveSection(cfg, m, w.data, w.inst + (w.addr + rest));
    var n := m.(data := Section(|w.data|, w.data), phase := INST);
    MoveSection(cfg, n, w.inst, w.addr + rest);
    var n2 := n.(inst := Section(|w.inst|, w.inst), phase := ADDR);
    MoveSection(cfg, n2, w.addr, rest);
  }

  /** The machine after a whole window `out`. */
  function AfterWindow(m: Machine, w: OutWindow, out: seq<byte>): Machine {
    m.(phase := WIN_IND, count := m.count + 1, events := m.events + [Output(out)] + [WinFinish],
       data := Section(|w.data|, []), inst := Section(|w.inst|, []), addr := Section(|w.addr|, []))
  }

  lemma ReadsEmit(cfg: Config, m: Machine, w: OutWindow, out: seq<byte>, rest: seq<byte>)
    requires cfg.blksize > 0 && Sane(m) && m.failed.None? && m.phase == EMIT && m.winInd == Indicator(w)
    requires m.data == Section(|w.data|, w.data) && m.inst == Section(|w.inst|, w.inst)
    requires m.addr == Section(|w.addr|, w.addr)
    requires w.src.Some? ==> cfg.src.Some?
    requires DecodeWindow(WindowEnv(cfg, m), w.inst, w.data, w.addr) == Ok(out)
    requires w.adler32.Some? ==> m.adler32 == Adler.Checksum(out)
    ensures Sane(AfterWindow(m, w, out))
    ensures Feed(cfg, m, rest) == Feed(cfg, AfterWindow(m, w, out), rest)
  {
    hide Feed, DecodeWindow, Adler.Checksum, Indicator, Flag, NeedsByte;
    IndicatorFlags(w);
    MoveEmit(cfg, m, rest);
    var n := m.(phase := FINISH, events := m.events + [Output(out)], data := Section(|w.data|, []),
                inst := Section(|w.inst|, []), addr := Section(|w.addr|, []));
    MoveFinish(cfg, n, rest);
  }

  /** What a window decodes against at the decoder. */
  function EnvOf(cfg: Config, w: OutWindow): Env {
    Env(if cfg.src.Some? then cfg.src.value else [], cfg.blksize,
        if w.src.Some? then w.src.value.0 else 0, if w.src.Some? then w.src.value.1 else 0, w.tgtlen)
  }

  /** The window means `out` to this decoder. */
  ghost predicate Means(cfg: Config, w: OutWindow, out: seq<byte>) {
    && cfg.blksize > 0 && Sendable(w) && (w.src.Some? ==> cfg.src.Some?)
    && DecodeWindow(EnvOf(cfg, w), w.inst, w.data, w.addr) == Ok(out)
    && (w.adler32.Some? ==> w.adler32.value == Adler.Checksum(out))
  }

  function Finished(m: Machine, w: OutWindow, out: seq<byte>): Machine
    requires Sendable(w)
  {
    AfterWindow(Announced(WithLengths(WithSource(m, w), w), w), w, out)
  }

  lemma WindowSplit(w: OutWindow, rest: seq<byte>)
    requires Sendable(w)
    ensures WindowBytes(w) + rest
         == [Indicator(w)] + (SourcePart(w) + (LengthsPart(w) + (CksumPart(w) + (w.data + (w.inst + (w.addr + rest))))))
  {
    hide Indicator, SourcePart, LengthsPart, CksumPart;
    var i, s, l, c := [Indicator(w)], SourcePart(w), LengthsPart(w), CksumPart(w);
    var body := w.data + (w.inst + w.addr);
    JoinAssociates(i + (s + (l + c)), body, rest);
    JoinAssociates(i, s + (l + c), body + rest);
    JoinAssociates(s, l + c, body + rest);
    JoinAssociates(l, c, body + rest);
    JoinAssociates(w.data, w.inst + w.addr, rest);
    JoinAssociates(w.inst, w.addr, rest);
  }

  /** Every window that is sent comes out again, and the decoder stands before the next one. */
  lemma WindowReadsBack(cfg: Config, m: Machine, w: OutWindow, out: seq<byte>, rest: seq<byte>)
    requires Between(m) && Means(cfg, w, out) && m.winstart + m.tgtlen < TWO_64
    ensures Between(Finished(m, w, out))
    ensures Feed(cfg, m, WindowBytes(w) + rest) == Feed(cfg, Finished(m, w, out), rest)
    ensures Finished(m, w, out).events
         == m.events + [if m.count == 0 then GotHeader else WinStart] + [Output(out)] + [WinFinish]
    ensures Finished(m, w, out).winstart == m.winstart + m.tgtlen && Finished(m, w, out).tgtlen == |out|
    ensures Finished(m, w, out).count == m.count + 1
  {
    hide Feed, DecodeWindow, Adler.Checksum, NeedsByte, WindowBytes, SourcePart, LengthsPart, CksumPart, EncLen, FourBytes;
    WindowSplit(w, rest);
    var sections := w.data + (w.inst + (w.addr + rest));
    var m1 := WithSource(m, w);
    ReadsSource(cfg, m, w, LengthsPart(w) + (CksumPart(w) + sections));
    ReadsLengths(cfg, m1, w, CksumPart(w) + sections);
    var m2 := WithLengths(m1, w);
    ReadsCksum(cfg, m2, w, sections);
    var m3 := Announced(m2, w);
    ReadsSections(cfg, m3, w, rest);
    var m4 := WithSections(m3, w);
    ReadsEmit(cfg, m4, w, out, rest);
    assert AfterWindow(m4, w, out) == Finished(m, w, out);
  }

  // ----- Windows that mean nothing

  /** What goes wrong with a window at this decoder: no source for its segment, sections that do not decode, or a
      checksum that is not the one of what they decode to. */
  ghost predicate Refusable(cfg: Config, w: OutWindow)
    requires cfg.blksize > 0 && Sendable(w)
  {
    || (w.src.Some? && cfg.src.None?)
    || match DecodeWindow(EnvOf(cfg, w), w.inst, w.data, w.addr)
       case InvalidInput => true
       case Ok(out) => w.adler32.Some? && w.adler32.value != Adler.Checksum(out)
  }

  lemma MeansOrRefusable(cfg: Config, w: OutWindow)
    requires cfg.blksize > 0 && Sendable(w)
    ensures Refusable(cfg, w) <==> !exists out :: Means(cfg, w, out)
  {
    hide DecodeWindow, Adler.Checksum;
    if !Refusable(cfg, w) {
      assert Means(cfg, w, DecodeWindow(EnvOf(cfg, w), w.inst, w.data, w.addr).value);
    }
  }

  lemma EmitRefuses(cfg: Config, m: Machine, w: OutWindow, rest: seq<byte>)
    requires cfg.blksize > 0 && Sane(m) && m.failed.None? && m.phase == EMIT && m.winInd == Indicator(w)
    requires m.data == Section(|w.data|, w.data) && m.inst == Section(|w.inst|, w.inst)
    requires m.addr == Section(|w.addr|, w.addr) && Sendable(w) && WindowEnv(cfg, m) == EnvOf(cfg, w)
    requires Refusable(cfg, w) && (w.adler32.Some? ==> m.adler32 == w.adler32.value)
    ensures Feed(cfg, m, rest) == Fail(m, BadInput)
  {
    hide Feed, DecodeWindow, Adler.Checksum, Indicator, Flag, NeedsByte, Sendable, Sane;
    IndicatorFlags(w);
    MoveEmit(cfg, m, rest);
    FeedFailed(cfg, Fail(m, BadInput), rest);
  }

  /** A sent window that means nothing, one with a wrong checksum for example, is announced and refused: the decoder has
      failed, and has put out nothing of it. */
  lemma WindowRefused(cfg: Config, m: Machine, w: OutWindow, rest: seq<byte>)
    requires cfg.blksize > 0 && Between(m) && Sendable(w) && m.winstart + m.tgtlen < TWO_64
    requires Refusable(cfg, w)
    ensures
      var r := Feed(cfg, m, WindowBytes(w) + rest);
      r.failed == Some(BadInput) && r.events == m.events + [if m.count == 0 then GotHeader else WinStart]
  {
    hide Feed, DecodeWindow, Adler.Checksum, NeedsByte, WindowBytes, SourcePart, LengthsPart, CksumPart, EncLen, FourBytes;
    hide Refusable, Indicator;
    WindowSplit(w, rest);
    var sections := w.data + (w.inst + (w.addr + rest));
    var m1 := WithSource(m, w);
    ReadsSource(cfg, m, w, LengthsPart(w) + (CksumPart(w) + sections));
    ReadsLengths(cfg, m1, w, CksumPart(w) + sections);
    var m2 := WithLengths(m1, w);
    ReadsCksum(cfg, m2, w, sections);
    var m3 := Announced(m2, w);
    ReadsSections(cfg, m3, w, rest);
    EmitRefuses(cfg, WithSections(m3, w), w, rest);
  }

  // ----- Whole files

  /** The machine once the file header has been read. */
  function HeaderRead(apphead: Option<seq<byte>>): Machine {
    FRESH.(phase := WIN_IND, magic := [0xd6, 0xc3, 0xc4, 0], hdrInd := if apphead.Some? then 4 else 0,
           appheadsz := if apphead.Some? then |apphead.value| else 0,
           apphead := if apphead.Some? then apphead.value else [])
  }

  lemma NoSecondaryNoTable(cfg: Config, m: Machine, rest: seq<byte>)
    requires cfg.blksize > 0 && Sane(m) && m.failed.None? && m.phase == SECOND_ID
    requires !Flag(m.hdrInd, VCD_SECONDARY) && !Flag(m.hdrInd, VCD_CODETABLE)
    ensures Sane(m.(phase := APP_LEN)) && Feed(cfg, m, rest) == Feed(cfg, m.(phase := APP_LEN), rest)
  {
    hide Feed, NeedsByte, Flag;
    MoveSecondId(cfg, m, rest);
    MoveNumber(cfg, m.(phase := TAB_LEN), rest);
    MoveCacheSize(cfg, m.(phase := NEAR), rest);
    MoveCacheSize(cfg, m.(phase := SAME), rest);
    MoveTabDat(cfg, m.(phase := TAB_DAT), rest);
  }

  lemma HeaderStart(cfg: Config, ind: byte, rest: seq<byte>)
    requires cfg.blksize > 0 && (ind == 0 || ind == 4)
    ensures
      var n := FRESH.(phase := APP_LEN, magic := [0xd6, 0xc3, 0xc4, 0], hdrInd := ind);
      Sane(n) && Feed(cfg, FRESH, [0xd6, 0xc3, 0xc4, 0, ind] + rest) == Feed(cfg, n, rest)
  {
    hide Feed, NeedsByte;
    var magic: seq<byte> := [0xd6, 0xc3, 0xc4, 0];
    var after: seq<byte> := [ind] + rest;
    assert [0xd6, 0xc3, 0xc4, 0, ind] + rest == magic + after;
    assert [] + magic == magic;
    TakeHead(cfg, FRESH, magic, after);
    var m1 := FRESH.(magic := magic);
    SilentHead(cfg, m1, after);
    var m2 := m1.(phase := HDR_IND);
    ByteHdrInd(cfg, m2, after);
    assert after[1..] == rest;
    NoSecondaryNoTable(cfg, m2.(hdrInd := ind, phase := SECOND_ID), rest);
  }

  lemma HeaderReadsBack(cfg: Config, apphead: Option<seq<byte>>, rest: seq<byte>)
    requires cfg.blksize > 0 && (apphead.Some? ==> |apphead.value| + 1 < TWO_64)
    ensures Between(HeaderRead(apphead))
    ensures Feed(cfg, FRESH, FileHeader(apphead) + rest) == Feed(cfg, HeaderRead(apphead), rest)
  {
    hide Feed, EmitInt, SizeDone;
    var ind: byte := if apphead.Some? then 4 else 0;
    var m := FRESH.(phase := APP_LEN, magic := [0xd6, 0xc3, 0xc4, 0], hdrInd := ind);
    if apphead.Some? {
      var a := apphead.value;
      JoinAssociates([0xd6, 0xc3, 0xc4, 0, ind], EmitInt(|a|) + a, rest);
      JoinAssociates(EmitInt(|a|), a, rest);
      HeaderStart(cfg, ind, EmitInt(|a|) + (a + rest));
      MoveNumber(cfg, m, EmitInt(|a|) + (a + rest));
      FeedsEmitted(cfg, m, |a|, a + rest);
      DoneAt(m, |a|);
      var m2 := m.(appheadsz := |a|, apphead := [], phase := APP_DAT);
      TakeAppHeader(cfg, m2, a, rest);
      assert [] + a == a;
      MoveAppDat(cfg, m2.(apphead := a), rest);
    } else {
      assert FileHeader(apphead) == [0xd6, 0xc3, 0xc4, 0, ind];
      HeaderStart(cfg, ind, rest);
      MoveNumber(cfg, m, rest);
      MoveAppDat(cfg, m.(phase := APP_DAT), rest);
    }
  }

  /** The target that the events have put out. */
  function Produced(events: seq<Event>): seq<byte> {
    if events == [] then []
    else
      var last := events[|events| - 1];
      Produced(events[..|events| - 1]) + (if last.Output? then last.bytes else [])
  }

  lemma ProducedMore(events: seq<Event>, e: Event, out: seq<byte>)
    requires !e.Output?
    ensures Produced(events + [e] + [Output(out)] + [WinFinish]) == Produced(events) + out
  {
    var a := events + [e];
    var b := a + [Output(out)];
    assert a[..|a| - 1] == events && b[..|b| - 1] == a;
    assert (b + [WinFinish])[..|b|] == b;
    assert Produced(a) == Produced(events) + [] == Produced(events);
    assert Produced(b + [WinFinish]) == Produced(b) + [] == Produced(b);
  }

  function AllBytes(wins: seq<OutWindow>): seq<byte>
    requires forall i :: 0 <= i < |wins| ==> Sendable(wins[i])
  {
    if wins == [] then [] else WindowBytes(wins[0]) + AllBytes(wins[1..])
  }

  function Concat(outs: seq<seq<byte>>): seq<byte> {
    if outs == [] then [] else outs[0] + Concat(outs[1..])
  }

  ghost predicate AllMean(cfg: Config, wins: seq<OutWindow>, outs: seq<seq<byte>>) {
    |wins| == |outs| && forall i :: 0 <= i < |wins| ==> Means(cfg, wins[i], outs[i])
  }

  lemma {:induction false} WindowsReadBack(cfg: Config, m: Machine, wins: seq<OutWindow>, outs: seq<seq<byte>>)
    requires cfg.blksize > 0 && Between(m) && AllMean(cfg, wins, outs)
    requires m.winstart + m.tgtlen + |Concat(outs)| < TWO_64
    ensures forall i :: 0 <= i < |wins| ==> Sendable(wins[i])
    ensures
      var r := Feed(cfg, m, AllBytes(wins));
      Between(r) && Produced(r.events) == Produced(m.events) + Concat(outs) && r.count == m.count + |wins|
    decreases |wins|
  {
    hide Feed, Means, WindowBytes, Produced, Finished, Sane, Sendable;
    AllSendable(cfg, wins, outs);
    if wins == [] {
      NothingToRead(cfg, m);
      assert Produced(m.events) + [] == Produced(m.events);
    } else {
      AllMeanTail(cfg, wins, outs);
      WindowReadsBack(cfg, m, wins[0], outs[0], AllBytes(wins[1..]));
      var n := Finished(m, wins[0], outs[0]);
      ProducedMore(m.events, if m.count == 0 then GotHeader else WinStart, outs[0]);
      WindowsReadBack(cfg, n, wins[1..], outs[1..]);
      JoinAssociates(Produced(m.events), outs[0], Concat(outs[1..]));
    }
  }

  lemma AllSendable(cfg: Config, wins: seq<OutWindow>, outs: seq<seq<byte>>)
    requires AllMean(cfg, wins, outs)
    ensures forall i :: 0 <= i < |wins| ==> Sendable(wins[i])
  {
    hide Sendable, DecodeWindow;
  }

  lemma AllMeanTail(cfg: Config, wins: seq<OutWindow>, outs: seq<seq<byte>>)
    requires AllMean(cfg, wins, outs) && wins != []
    ensures Means(cfg, wins[0], outs[0]) && AllMean(cfg, wins[1..], outs[1..])
    ensures |Concat(outs)| == |outs[0]| + |Concat(outs[1..])|
  {
    hide Means;
  }

  lemma NothingToRead(cfg: Config, m: Machine)
    requires cfg.blksize > 0 && Between(m)
    ensures Feed(cfg, m, []) == m
  {
    FeedDone(cfg, m);
  }

  /** A whole file: fed to a fresh decoder in any chunks, it yields exactly the windows that went into it. */
  lemma FileReadsBack(cfg: Config, apphead: Option<seq<byte>>, wins: seq<OutWindow>, outs: seq<seq<byte>>,
                      chunks: seq<seq<byte>>)
    requires cfg.blksize > 0 && (apphead.Some? ==> |apphead.value| + 1 < TWO_64)
    requires AllMean(cfg, wins, outs) && |Concat(outs)| < TWO_64
    requires forall i :: 0 <= i < |wins| ==> Sendable(wins[i])
    requires Joined(chunks) == FileHeader(apphead) + AllBytes(wins)
    ensures
      var r := FeedChunks(cfg, FRESH, chunks);
      r.failed.None? && r.phase == WIN_IND && Produced(r.events) == Concat(outs) && r.count == |wins|
      && (apphead.Some? ==> r.apphead == apphead.value)
  {
    hide Feed, FileHeader, AllBytes, AllMean, Sendable, FeedChunks, Produced;
    ChunksDoNotMatter(cfg, FRESH, chunks);
    HeaderReadsBack(cfg, apphead, AllBytes(wins));
    var m := HeaderRead(apphead);
    WindowsReadBack(cfg, m, wins, outs);
    assert Produced(m.events) + Concat(outs) == Concat(outs) by {
      NothingProduced();
    }
    AppHeadStays(cfg, m, wins, outs);
  }

  lemma NothingProduced()
    ensures Produced([]) == []
  {
  }

  lemma {:induction false} AppHeadStays(cfg: Config, m: Machine, wins: seq<OutWindow>, outs: seq<seq<byte>>)
    requires cfg.blksize > 0 && Between(m) && AllMean(cfg, wins, outs)
    requires m.winstart + m.tgtlen + |Concat(outs)| < TWO_64
    requires forall i :: 0 <= i < |wins| ==> Sendable(wins[i])
    ensures Feed(cfg, m, AllBytes(wins)).apphead == m.apphead
    decreases |wins|
  {
    hide Feed, Means, WindowBytes, Sane, Sendable;
    if wins == [] {
      NothingToRead(cfg, m);
    } else {
      AllMeanTail(cfg, wins, outs);
      WindowReadsBack(cfg, m, wins[0], outs[0], AllBytes(wins[1..]));
      AppHeadStays(cfg, Finished(m, wins[0], outs[0]), wins[1..], outs[1..]);
    }
  }

  // ----- The encoder's side

  method EmitFileHeader(apphead: Option<seq<byte>>) returns (hdr: seq<byte>)
    requires apphead.Some? ==> |apphead.value| + 1 < TWO_64
    ensures hdr == FileHeader(apphead)
  {
    hide EmitInt;
    var hdrInd: byte := 0;
    if apphead.Some? {
      hdrInd := hdrInd + 4;
    }
    hdr := [0xd6, 0xc3, 0xc4, 0];
    hdr := hdr + [hdrInd];
    assert hdr == [0xd6, 0xc3, 0xc4, 0, hdrInd];
    if apphead.Some? {
      var size := EmitInteger(|apphead.value|);
      JoinAssociates(hdr, size, apphead.value);
      hdr := hdr + size + apphead.value;
    } else {
      assert hdr + [] == hdr;
    }
  }

  /** The header of one window: indicator, source segment, lengths, checksum. */
  method EmitWindowHeader(w: OutWindow) returns (hdr: seq<byte>)
    requires Sendable(w)
    ensures hdr == WindowHeader(w)
  {
    hide EmitInt, SizeOfInt, Sendable, SourcePart, LengthsPart, CksumPart, FourBytes;
    var winInd: byte := 0;
    if w.src.Some? {
      winInd := winInd + 1;
    }
    if w.adler32.Some? {
      winInd := winInd + 4;
    }
    hdr := [winInd];
    var source := EmitSource(w);
    var lengths := EmitLengths(w);
    var cksum := EmitCksum(w);
    JoinAssociates(hdr, source, lengths + cksum);
    JoinAssociates(hdr + source, lengths, cksum);
    hdr := hdr + source + lengths + cksum;
  }

  method EmitSource(w: OutWindow) returns (s: seq<byte>)
    requires Sendable(w)
    ensures s == SourcePart(w)
  {
    hide EmitInt;
    s := [];
    if w.src.Some? {
      var (base, len) := w.src.value;
      var l := EmitInteger(len);
      var b := EmitInteger(base);
      s := l + b;
    }
  }

  method EmitLengths(w: OutWindow) returns (s: seq<byte>)
    requires Sendable(w)
    ensures s == LengthsPart(w)
  {
    hide EmitInt, SizeOfInt;
    SmallSections(w);
    var dataLen, instLen, addrLen := |w.data|, |w.inst|, |w.addr|;
    var encLen := 1 + SizeOfInt(w.tgtlen) + SizeOfInt(dataLen) + SizeOfInt(instLen) + SizeOfInt(addrLen)
                  + dataLen + instLen + addrLen + (if w.adler32.Some? then 4 else 0);
    var e := EmitInteger(encLen);
    var t := EmitInteger(w.tgtlen);
    var d := EmitInteger(dataLen);
    var i := EmitInteger(instLen);
    var a := EmitInteger(addrLen);
    s := e + t + [0] + d + i + a;
    LengthsJoined(e, t, [0], d, i, a);
  }

  lemma LengthsJoined(e: seq<byte>, t: seq<byte>, z: seq<byte>, d: seq<byte>, i: seq<byte>, a: seq<byte>)
    ensures e + t + z + d + i + a == e + (t + (z + (d + (i + a))))
  {
    JoinAssociates(e + t + z + d, i, a);
    JoinAssociates(e + t + z, d, i + a);
    JoinAssociates(e + t, z, d + (i + a));
    JoinAssociates(e, t, z + (d + (i + a)));
  }

  method EmitCksum(w: OutWindow) returns (s: seq<byte>)
    requires Sendable(w)
    ensures s == CksumPart(w)
  {
    s := [];
    if w.adler32.Some? {
      var a32 := w.adler32.value;
      s := [a32 / 0x100_0000, a32 / 0x1_0000 % 0x100, a32 / 0x100 % 0x100, a32 % 0x100];
    }
  }
}
