/** The file format as a machine that takes one byte at a time: header, window headers, sections, checksums. */
module StreamFormat {
  import opened Arithmetic
  import opened Bytes
  import opened Results
  import opened Integers
  import opened WindowFormat
  import Adler

  const VCD_SECONDARY: nat := 1
  const VCD_CODETABLE: nat := 2
  const VCD_APPHEADER: nat := 4
  const VCD_SOURCE: nat := 1
  const VCD_TARGET: nat := 2
  const VCD_ADLER32: nat := 4
  const HARD_MAX_WINDOW: nat := 0x400_0000

  /** A flag of an indicator byte. */
  predicate Flag(ind: byte, bit: nat)
    requires bit > 0
  {
    ind / bit % 2 == 1
  }

  /** The states of the decoder, in the order in which a file goes through them. */
  type Phase = p: nat | p < 24

  const VC_HEAD: Phase := 0
  const HDR_IND: Phase := 1
  const SECOND_ID: Phase := 2
  const TAB_LEN: Phase := 3
  const NEAR: Phase := 4
  const SAME: Phase := 5
  const TAB_DAT: Phase := 6
  const APP_LEN: Phase := 7
  const APP_DAT: Phase := 8
  const WIN_IND: Phase := 9
  const CPY_LEN: Phase := 10
  const CPY_OFF: Phase := 11
  const ENC_LEN: Phase := 12
  const TGT_LEN: Phase := 13
  const DEL_IND: Phase := 14
  const DATA_LEN: Phase := 15
  const INST_LEN: Phase := 16
  const ADDR_LEN: Phase := 17
  const CKSUM: Phase := 18
  const DATA: Phase := 19
  const INST: Phase := 20
  const ADDR: Phase := 21
  const EMIT: Phase := 22
  const FINISH: Phase := 23

  datatype Error = BadInput | Internal | Unimplemented | BadTable

  /** What a call of the decoder reports, apart from wanting more input. */
  datatype Event = GotHeader | WinStart | Output(bytes: seq<byte>) | WinFinish

  /** A section: its announced size and the bytes read so far. */
  datatype Section = Section(size: nat, bytes: seq<byte>)

  datatype Machine = Machine(
    phase: Phase, failed: Option<Error>, part: nat,
    magic: seq<byte>, hdrInd: byte, codetblsz: nat, appheadsz: nat, apphead: seq<byte>,
    winInd: byte, cpylen: nat, cpyoff: nat, enclen: nat, tgtlen: nat, winstart: nat, delInd: byte,
    data: Section, inst: Section, addr: Section, cksum: seq<byte>, adler32: nat,
    count: nat, events: seq<Event>)

  const EMPTY := Section(0, [])

  /** A decoder that has seen nothing. */
  const FRESH := Machine(VC_HEAD, None, 0, [], 0, 0, 0, [], 0, 0, 0, 0, 0, 0, 0, EMPTY, EMPTY, EMPTY, [], 0, 0, [])

  /** The source file, if one was given, in blocks. */
  datatype Config = Config(src: Option<seq<byte>>, blksize: nat)

  function Fail(m: Machine, e: Error): Machine {
    m.(failed := Some(e))
  }

  /** Which copy window the indicator asks for; with both bits set it is none. */
  function SrcOrTgt(winInd: byte): nat {
    if Flag(winInd, VCD_SOURCE) then (if Flag(winInd, VCD_TARGET) then 0 else VCD_SOURCE)
    else if Flag(winInd, VCD_TARGET) then VCD_TARGET else 0
  }

  predicate Partial(s: Section) {
    |s.bytes| <= s.size < TWO_64
  }

  /** In the phases behind the target length, its bounds have been checked. */
  predicate Sane(m: Machine) {
    && m.part < TWO_64 && |m.magic| <= 4 && |m.cksum| <= 4
    && m.cpylen < TWO_64 && m.tgtlen < TWO_64 && m.appheadsz < TWO_64 && |m.apphead| <= m.appheadsz
    && m.codetblsz < TWO_64
    && Partial(m.data) && Partial(m.inst) && Partial(m.addr)
    && (DEL_IND <= m.phase ==> m.cpylen + m.tgtlen < TWO_64)
  }

  predicate SectionsOverflow(m: Machine) {
    m.inst.size + m.addr.size >= TWO_64 || m.inst.size + m.addr.size + m.data.size >= TWO_64
  }

  predicate InHeader(p: Phase) {
    p <= APP_DAT
  }

  predicate InSections(p: Phase) {
    DATA <= p
  }

  /** Whether the machine cannot go on without a further byte. */
  predicate NeedsByte(m: Machine) {
    if InHeader(m.phase) then HeaderNeeds(m) else if InSections(m.phase) then SectionNeeds(m) else WindowNeeds(m)
  }

  predicate HeaderNeeds(m: Machine) {
    if m.phase == VC_HEAD then |m.magic| < 4
    else if m.phase == HDR_IND then true
    else if m.phase == SECOND_ID then Flag(m.hdrInd, VCD_SECONDARY)
    else if m.phase <= SAME then Flag(m.hdrInd, VCD_CODETABLE)
    else if m.phase == TAB_DAT then false
    else if m.phase == APP_LEN then Flag(m.hdrInd, VCD_APPHEADER)
    else Flag(m.hdrInd, VCD_APPHEADER) && m.appheadsz + 1 < TWO_64 && |m.apphead| < m.appheadsz
  }

  predicate WindowNeeds(m: Machine) {
    if m.phase == CPY_LEN || m.phase == CPY_OFF then SrcOrTgt(m.winInd) != 0
    else if m.phase == CKSUM then Flag(m.winInd, VCD_ADLER32) && |m.cksum| < 4
    else true
  }

  predicate SectionNeeds(m: Machine) {
    if m.phase == DATA then !SectionsOverflow(m) && |m.data.bytes| < m.data.size
    else if m.phase == INST then |m.inst.bytes| < m.inst.size
    else if m.phase == ADDR then |m.addr.bytes| < m.addr.size
    else false
  }

  /** Orders the phases so that every move without input goes down. */
  function Rank(p: Phase): nat {
    if p == WIN_IND then 0 else if p < WIN_IND then 40 - p else 24 - p
  }

  // ----- Moves that take no input

  function CheckMagic(m: Machine): Machine
    requires |m.magic| == 4
  {
    if m.magic[0] != 0xd6 || m.magic[1] != 0xc3 || m.magic[2] != 0xc4 then Fail(m, BadInput)
    else if m.magic[3] != 0 then Fail(m, BadInput)
    else m.(phase := HDR_IND)
  }

  /** Four bytes, most significant first. */
  function BigEndian(s: seq<byte>): nat {
    if s == [] then 0 else 256 * BigEndian(s[..|s| - 1]) + s[|s| - 1]
  }

  function EnclenCheck(m: Machine): nat {
    (1 + SizeOfInt(m.tgtlen) + SizeOfInt(m.data.size) + SizeOfInt(m.inst.size) + SizeOfInt(m.addr.size)
     + m.data.size + m.inst.size + m.addr.size + (if Flag(m.winInd, VCD_ADLER32) then 4 else 0)) % TWO_64
  }

  function CheckEnclen(m: Machine): Machine {
    var n := if Flag(m.winInd, VCD_ADLER32) then m.(adler32 := BigEndian(m.cksum)) else m;
    if n.enclen != EnclenCheck(n) then Fail(n, BadInput)
    else n.(phase := DATA, events := n.events + [if n.count == 0 then GotHeader else WinStart])
  }

  function CheckCopyWindow(m: Machine): Machine {
    if m.cpyoff + m.cpylen >= TWO_64 then Fail(m, BadInput)
    else if Flag(m.winInd, VCD_TARGET) && m.cpyoff + m.cpylen > m.winstart then Fail(m, BadInput)
    else m.(phase := ENC_LEN)
  }

  function WindowEnv(cfg: Config, m: Machine): Env {
    Env(if cfg.src.Some? then cfg.src.value else [], cfg.blksize, m.cpyoff, m.cpylen, m.tgtlen)
  }

  /** The result of a move from `m`: sound, and further down unless the machine has failed. */
  predicate Moved(m: Machine, r: Machine) {
    Sane(r) && (r.failed.Some? || Rank(r.phase) < Rank(m.phase))
  }

  /** Decodes and checks the window that has been read. */
  function Emit(cfg: Config, m: Machine): (r: Machine)
    requires cfg.blksize > 0 && Sane(m) && m.phase == EMIT
    ensures Moved(m, r)
  {
    hide DecodeWindow, Adler.Checksum;
    if Flag(m.winInd, VCD_TARGET) then Fail(m, Unimplemented)
    else if Flag(m.winInd, VCD_SOURCE) && cfg.src.None? then Fail(m, BadInput)
    else
      match DecodeWindow(WindowEnv(cfg, m), m.inst.bytes, m.data.bytes, m.addr.bytes)
      case InvalidInput => Fail(m, BadInput)
      case Ok(w) =>
        if Flag(m.winInd, VCD_ADLER32) && Adler.Checksum(w) != m.adler32 then Fail(m, BadInput)
        else
          m.(phase := FINISH, events := m.events + [Output(w)],
             data := m.data.(bytes := []), inst := m.inst.(bytes := []), addr := m.addr.(bytes := []))
  }

  function SilentHeader(m: Machine): (r: Machine)
    requires Sane(m) && InHeader(m.phase) && m.failed.None? && !NeedsByte(m)
    ensures Moved(m, r)
  {
    if m.phase == VC_HEAD then CheckMagic(m)
    else if m.phase == SECOND_ID then m.(phase := TAB_LEN)
    else if m.phase == TAB_LEN then m.(phase := NEAR)
    else if m.phase == NEAR then m.(phase := SAME)
    else if m.phase == SAME then m.(phase := TAB_DAT)
    else if m.phase == TAB_DAT then
      if Flag(m.hdrInd, VCD_CODETABLE) then Fail(m, Unimplemented) else m.(phase := APP_LEN)
    else if m.phase == APP_LEN then m.(phase := APP_DAT)
    else if Flag(m.hdrInd, VCD_APPHEADER) && m.appheadsz + 1 >= TWO_64 then Fail(m, BadInput)
    else m.(phase := WIN_IND)
  }

  function SilentWindow(m: Machine): (r: Machine)
    requires Sane(m) && !InHeader(m.phase) && !InSections(m.phase) && m.failed.None? && !NeedsByte(m)
    ensures Moved(m, r)
  {
    if m.phase == CPY_LEN then m.(phase := CPY_OFF)
    else if m.phase == CPY_OFF then CheckCopyWindow(m)
    else CheckEnclen(m)
  }

  function SilentSections(cfg: Config, m: Machine): (r: Machine)
    requires cfg.blksize > 0 && Sane(m) && InSections(m.phase) && m.failed.None? && !NeedsByte(m)
    ensures Moved(m, r)
  {
    hide Emit;
    if m.phase == DATA then (if SectionsOverflow(m) then Fail(m, Internal) else m.(phase := INST))
    else if m.phase == INST then m.(phase := ADDR)
    else if m.phase == ADDR then m.(phase := EMIT)
    else if m.phase == EMIT then Emit(cfg, m)
    else m.(phase := WIN_IND, count := m.count + 1, events := m.events + [WinFinish])
  }

  function Silent(cfg: Config, m: Machine): (r: Machine)
    requires cfg.blksize > 0 && Sane(m) && m.failed.None? && !NeedsByte(m)
    ensures Moved(m, r)
  {
    if InHeader(m.phase) then SilentHeader(m)
    else if InSections(m.phase) then SilentSections(cfg, m)
    else SilentWindow(m)
  }

  // ----- Moves that take a byte

  datatype IntStep = More(part: nat) | Whole(value: nat) | TooBig

  function IntByte(part: nat, b: byte): (r: IntStep)
    ensures r.More? ==> r.part < TWO_64
    ensures r.Whole? ==> r.value < TWO_64
  {
    if part >= OVERFLOW_AT then TooBig
    else if b < 128 then Whole(part * 128 + b)
    else More(part * 128 + b - 128)
  }

  predicate TakesNumber(p: Phase) {
    p == TAB_LEN || p == APP_LEN || (CPY_LEN <= p <= ADDR_LEN && p != DEL_IND)
  }

  function SizeRead(m: Machine, b: byte): (r: Machine)
    requires Sane(m) && TakesNumber(m.phase)
    ensures Sane(r)
  {
    match IntByte(m.part, b)
    case TooBig => Fail(m, BadInput)
    case More(part) => m.(part := part)
    case Whole(v) => SizeDone(m.(part := 0), v)
  }

  /** What follows when a number of the header is complete. */
  function SizeDone(m: Machine, v: nat): (r: Machine)
    requires Sane(m) && TakesNumber(m.phase) && v < TWO_64
    ensures Sane(r)
  {
    if m.phase == TAB_LEN then (if v <= 2 then Fail(m, BadTable) else m.(codetblsz := v - 2, phase := NEAR))
    else if m.phase == APP_LEN then m.(appheadsz := v, apphead := [], phase := APP_DAT)
    else if m.phase == CPY_LEN then m.(cpylen := v, phase := CPY_OFF)
    else if m.phase == CPY_OFF then CheckCopyWindow(m.(cpyoff := v))
    else if m.phase == ENC_LEN then m.(enclen := v, phase := TGT_LEN)
    else if m.phase == TGT_LEN then
      if m.cpylen + v >= TWO_64 then Fail(m, BadInput)
      else if v > HARD_MAX_WINDOW then Fail(m, BadInput)
      else m.(tgtlen := v, phase := DEL_IND)
    else if m.phase == DATA_LEN then m.(data := Section(v, []), phase := INST_LEN)
    else if m.phase == INST_LEN then m.(inst := Section(v, []), phase := ADDR_LEN)
    else m.(addr := Section(v, []), phase := CKSUM)
  }

  function StartWindow(m: Machine, b: byte): Machine {
    if m.winstart + m.tgtlen >= TWO_64 then Fail(m, BadInput)
    else
      var n := m.(winInd := b, winstart := m.winstart + m.tgtlen);
      if b >= 8 then Fail(n, BadInput)
      else n.(cpylen := 0, cpyoff := 0, cksum := [], phase := CPY_LEN)
  }

  function OtherByte(m: Machine, b: byte): (r: Machine)
    requires Sane(m) && m.failed.None? && NeedsByte(m) && !TakesNumber(m.phase)
    ensures Sane(r)
  {
    if m.phase == VC_HEAD then m.(magic := m.magic + [b])
    else if m.phase == HDR_IND then (if b >= 8 then Fail(m, BadInput) else m.(hdrInd := b, phase := SECOND_ID))
    else if m.phase == SECOND_ID then Fail(m, if b == 1 || b == 2 || b == 16 then Internal else BadInput)
    else if m.phase == NEAR then m.(phase := SAME)
    else if m.phase == SAME then m.(phase := TAB_DAT)
    else if m.phase == APP_DAT then m.(apphead := m.apphead + [b])
    else if m.phase == WIN_IND then StartWindow(m, b)
    else if m.phase == DEL_IND then
      if b >= 8 then Fail(m, BadInput) else if b != 0 then Fail(m, BadInput)
      else m.(delInd := b, phase := DATA_LEN)
    else if m.phase == CKSUM then m.(cksum := m.cksum + [b])
    else if m.phase == DATA then m.(data := Section(m.data.size, m.data.bytes + [b]))
    else if m.phase == INST then m.(inst := Section(m.inst.size, m.inst.bytes + [b]))
    else m.(addr := Section(m.addr.size, m.addr.bytes + [b]))
  }

  function OnByte(m: Machine, b: byte): (r: Machine)
    requires Sane(m) && m.failed.None? && NeedsByte(m)
    ensures Sane(r)
  {
    if TakesNumber(m.phase) then SizeRead(m, b) else OtherByte(m, b)
  }

  // ----- Whole inputs

  predicate Waits(m: Machine) {
    m.failed.Some? || NeedsByte(m)
  }

  /** All moves that take no input. */
  function Settle(cfg: Config, m: Machine): (r: Machine)
    requires cfg.blksize > 0 && Sane(m)
    ensures Sane(r) && Waits(r)
    decreases m.failed.None?, Rank(m.phase)
  {
    hide Silent, Sane, NeedsByte;
    if Waits(m) then m else Settle(cfg, Silent(cfg, m))
  }

  /** The machine after `input`; a machine that has failed takes nothing any more. */
  function Feed(cfg: Config, m: Machine, input: seq<byte>): (r: Machine)
    requires cfg.blksize > 0 && Sane(m)
    ensures Sane(r) && Waits(r)
    decreases |input|
  {
    hide OnByte, Silent, Sane, NeedsByte;
    var n := Settle(cfg, m);
    if n.failed.Some? || input == [] then n else Feed(cfg, OnByte(n, input[0]), input[1..])
  }

  lemma SettleTwice(cfg: Config, m: Machine)
    requires cfg.blksize > 0 && Sane(m)
    ensures Settle(cfg, Settle(cfg, m)) == Settle(cfg, m)
  {
    hide OnByte, Silent, Sane, NeedsByte;
  }

  /** Cutting the input in two makes no difference, wherever the cut falls. */
  lemma {:induction false} FeedInTwo(cfg: Config, m: Machine, a: seq<byte>, b: seq<byte>)
    requires cfg.blksize > 0 && Sane(m)
    ensures Feed(cfg, m, a + b) == Feed(cfg, Feed(cfg, m, a), b)
    decreases |a|
  {
    hide OnByte, Silent, Sane, NeedsByte;
    var n := Settle(cfg, m);
    SettleTwice(cfg, m);
    if a == [] {
      assert a + b == b;
    } else if n.failed.None? {
      assert (a + b)[0] == a[0] && (a + b)[1..] == a[1..] + b;
      FeedInTwo(cfg, OnByte(n, a[0]), a[1..], b);
    }
  }

  function Joined(chunks: seq<seq<byte>>): seq<byte> {
    if chunks == [] then [] else chunks[0] + Joined(chunks[1..])
  }

  function FeedChunks(cfg: Config, m: Machine, chunks: seq<seq<byte>>): (r: Machine)
    requires cfg.blksize > 0 && Sane(m)
    ensures Sane(r)
    decreases |chunks|
  {
    hide OnByte, Silent, Sane, NeedsByte;
    if chunks == [] then Settle(cfg, m) else FeedChunks(cfg, Feed(cfg, m, chunks[0]), chunks[1..])
  }

  /** Any way of cutting the same bytes into chunks leads to the same windows, or to the same error. */
  lemma {:induction false} ChunksDoNotMatter(cfg: Config, m: Machine, chunks: seq<seq<byte>>)
    requires cfg.blksize > 0 && Sane(m)
    ensures FeedChunks(cfg, m, chunks) == Feed(cfg, m, Joined(chunks))
    decreases |chunks|
  {
    hide Settle, Feed, Sane;
    if chunks == [] {
      FeedNothing(cfg, m);
    } else {
      ChunksDoNotMatter(cfg, Feed(cfg, m, chunks[0]), chunks[1..]);
      FeedInTwo(cfg, m, chunks[0], Joined(chunks[1..]));
    }
  }

  lemma FeedNothing(cfg: Config, m: Machine)
    requires cfg.blksize > 0 && Sane(m)
    ensures Feed(cfg, m, []) == Settle(cfg, m)
  {
    hide OnByte, Silent, Sane, NeedsByte;
  }
}
