/** Exactly which windows and file headers a decoder takes, whoever wrote them: every field may hold anything. */
module AnyInput {
  import opened Arithmetic
  import opened Bytes
  import opened Results
  import opened Integers
  import opened StreamFormat
  import opened StreamDecoder
  import opened StreamEncoder
  import opened StreamChecks
  import opened WindowFormat
  import Adler

  /** The fields of a window, right or wrong. */
  datatype Written = Written(ind: byte, cpylen: nat, cpyoff: nat, enclen: nat, tgtlen: nat, delInd: byte,
                             cksum: seq<byte>, data: seq<byte>, inst: seq<byte>, addr: seq<byte>)

  /** A segment is written when exactly one of the two lowest bits of the indicator is set. */
  predicate HasSegment(w: Written) {
    w.ind % 2 != w.ind / 2 % 2
  }

  function SegmentLength(w: Written): nat {
    if HasSegment(w) then w.cpylen else 0
  }

  function SegmentOffset(w: Written): nat {
    if HasSegment(w) then w.cpyoff else 0
  }

  function Segment(w: Written): seq<byte> {
    if HasSegment(w) then EmitInt(w.cpylen) + EmitInt(w.cpyoff) else []
  }

  function Sections(w: Written): seq<byte> {
    w.data + (w.inst + w.addr)
  }

  /** All that follows the length of the encoding. */
  function Behind(w: Written): seq<byte> {
    EmitInt(w.tgtlen) + ([w.delInd] + (EmitInt(|w.data|) + (EmitInt(|w.inst|) + (EmitInt(|w.addr|)
    + (w.cksum + Sections(w))))))
  }

  function BytesOf(w: Written): seq<byte> {
    [w.ind] + (Segment(w) + (EmitInt(w.enclen) + Behind(w)))
  }

  /** Numbers have 64 bits, so has the position in a file, and the checksum has four bytes where there is one. */
  predicate Writable(w: Written) {
    && w.cpylen < TWO_64 && w.cpyoff < TWO_64 && w.enclen < TWO_64 && w.tgtlen < TWO_64
    && |w.cksum| == (if w.ind / 4 % 2 == 1 then 4 else 0) && |Behind(w)| < TWO_64
  }

  /** What the sections are decoded against. */
  function EnvWritten(cfg: Config, w: Written): Env {
    Env(if cfg.src.Some? then cfg.src.value else [], cfg.blksize, SegmentOffset(w), SegmentLength(w), w.tgtlen)
  }

  /** The header of the window is right. */
  predicate InOrder(w: Written) {
    && w.ind < 8 && SegmentOffset(w) + SegmentLength(w) < 0x1_0000_0000_0000_0000
    && SegmentLength(w) + w.tgtlen < 0x1_0000_0000_0000_0000 && w.tgtlen <= 0x400_0000
    && w.delInd == 0 && w.enclen == |Behind(w)|
  }

  /** The window is right as well, and is `out`. */
  ghost predicate Stands(cfg: Config, w: Written, out: seq<byte>)
    requires cfg.blksize > 0
  {
    && InOrder(w) && w.ind / 2 % 2 == 0 && (w.ind % 2 == 1 ==> cfg.src.Some?)
    && DecodeWindow(EnvWritten(cfg, w), w.inst, w.data, w.addr) == Ok(out)
    && (w.ind / 4 % 2 == 1 ==> |w.cksum| == 4 && Adler.Checksum(out) == Value(w.cksum))
  }

  /** The decoder has refused its input, and these are its events. */
  predicate Refused(r: Machine, events: seq<Event>) {
    r.failed == Some(BadInput) && r.events == events
  }

  lemma FlagsAre(ind: byte)
    ensures Flag(ind, VCD_SOURCE) <==> ind % 2 == 1
    ensures Flag(ind, VCD_TARGET) <==> ind / 2 % 2 == 1
    ensures Flag(ind, VCD_ADLER32) <==> ind / 4 % 2 == 1
    ensures SrcOrTgt(ind) != 0 <==> ind % 2 != ind / 2 % 2
  {
  }

  lemma FailsFor(cfg: Config, m: Machine, e: Error, input: seq<byte>)
    requires cfg.blksize > 0 && Sane(m)
    ensures Sane(Fail(m, e)) && Feed(cfg, Fail(m, e), input) == Fail(m, e)
  {
    hide Feed;
    FeedFailed(cfg, Fail(m, e), input);
  }

  /** The error of a window that is refused once its sections are there. */
  function Complaint(w: Written): Error {
    if w.ind / 2 % 2 == 1 then Unimplemented else BadInput
  }

  // ----- Indicator and segment

  function Begun(m: Machine, w: Written): Machine {
    m.(winInd := w.ind, winstart := m.winstart + m.tgtlen, cpylen := SegmentLength(w), cpyoff := SegmentOffset(w),
       cksum := [], phase := ENC_LEN)
  }

  predicate SegmentFits(m: Machine, w: Written) {
    && SegmentOffset(w) + SegmentLength(w) < TWO_64
    && (w.ind / 2 % 2 == 1 ==> SegmentOffset(w) + SegmentLength(w) <= m.winstart + m.tgtlen)
  }

  lemma TakesSegment(cfg: Config, n: Machine, w: Written, rest: seq<byte>)
    requires cfg.blksize > 0 && Sane(n) && n.failed.None? && n.part == 0 && n.phase == CPY_LEN && n.winInd == w.ind
    requires n.cpylen == 0 && n.cpyoff == 0 && Writable(w)
    ensures
      var r := n.(cpylen := SegmentLength(w), cpyoff := SegmentOffset(w), phase := CPY_OFF);
      && Sane(r) && Sane(CheckCopyWindow(r))
      && Feed(cfg, n, Segment(w) + rest) == Feed(cfg, CheckCopyWindow(r), rest)
  {
    hide Feed, EmitInt, SizeDone, NeedsByte, Flag, SrcOrTgt, CheckCopyWindow, Behind;
    FlagsAre(w.ind);
    if HasSegment(w) {
      JoinAssociates(EmitInt(w.cpylen), EmitInt(w.cpyoff), rest);
      MoveNumber(cfg, n, EmitInt(w.cpylen) + (EmitInt(w.cpyoff) + rest));
      FeedsEmitted(cfg, n, w.cpylen, EmitInt(w.cpyoff) + rest);
      DoneAt(n, w.cpylen);
      var n2 := n.(cpylen := w.cpylen, phase := CPY_OFF);
      MoveNumber(cfg, n2, EmitInt(w.cpyoff) + rest);
      FeedsEmitted(cfg, n2, w.cpyoff, rest);
      DoneAt(n2, w.cpyoff);
    } else {
      assert [] + rest == rest;
      MoveNumber(cfg, n, rest);
      MoveNumber(cfg, n.(phase := CPY_OFF), rest);
    }
  }

  lemma Begins(cfg: Config, m: Machine, w: Written, rest: seq<byte>)
    requires cfg.blksize > 0 && Between(m) && m.winstart + m.tgtlen < TWO_64 && Writable(w)
    ensures
      var r := Feed(cfg, m, [w.ind] + (Segment(w) + rest));
      if w.ind < 8 && SegmentFits(m, w) then Sane(Begun(m, w)) && r == Feed(cfg, Begun(m, w), rest)
      else Refused(r, m.events)
  {
    hide Feed, NeedsByte, Segment, Behind, Flag;
    FlagsAre(w.ind);
    var input := [w.ind] + (Segment(w) + rest);
    ByteWinInd(cfg, m, input);
    assert input[1..] == Segment(w) + rest;
    var n := StartWindow(m, w.ind);
    if w.ind >= 8 {
      FeedFailed(cfg, n, Segment(w) + rest);
    } else {
      TakesSegment(cfg, n, w, rest);
      var c := n.(cpylen := SegmentLength(w), cpyoff := SegmentOffset(w), phase := CPY_OFF);
      if !SegmentFits(m, w) {
        FailsFor(cfg, c, BadInput, rest);
      }
    }
  }

  // ----- Lengths

  /** The numbers behind the indicator of the delta, and what follows them. */
  function SizesThen(w: Written, rest: seq<byte>): seq<byte> {
    EmitInt(|w.data|) + (EmitInt(|w.inst|) + (EmitInt(|w.addr|) + rest))
  }

  function Sized(n: Machine, w: Written): Machine {
    n.(enclen := w.enclen, tgtlen := w.tgtlen, delInd := 0, phase := CKSUM,
       data := Section(|w.data|, []), inst := Section(|w.inst|, []), addr := Section(|w.addr|, []))
  }

  predicate LengthsFit(n: Machine, w: Written) {
    n.cpylen + w.tgtlen < TWO_64 && w.tgtlen <= HARD_MAX_WINDOW && w.delInd == 0
  }

  lemma TakesLengths(cfg: Config, n: Machine, w: Written, rest: seq<byte>)
    requires cfg.blksize > 0 && Sane(n) && n.failed.None? && n.part == 0 && n.phase == ENC_LEN && Writable(w)
    requires |w.data| < TWO_64 && |w.inst| < TWO_64 && |w.addr| < TWO_64
    ensures
      var r := Feed(cfg, n, EmitInt(w.enclen) + (EmitInt(w.tgtlen) + ([w.delInd] + SizesThen(w, rest))));
      if LengthsFit(n, w) then Sane(Sized(n, w)) && r == Feed(cfg, Sized(n, w), rest) else Refused(r, n.events)
  {
    hide Feed, EmitInt, SizeDone, NeedsByte, Behind;
    var third := [w.delInd] + SizesThen(w, rest);
    ReadsOne(cfg, n, w.enclen, EmitInt(w.tgtlen) + third);
    DoneAt(n, w.enclen);
    var n2 := n.(enclen := w.enclen, phase := TGT_LEN);
    ReadsOne(cfg, n2, w.tgtlen, third);
    DoneAt(n2, w.tgtlen);
    if n.cpylen + w.tgtlen >= TWO_64 || w.tgtlen > HARD_MAX_WINDOW {
      FailsFor(cfg, n2, BadInput, third);
    } else {
      var n3 := n2.(tgtlen := w.tgtlen, phase := DEL_IND);
      ByteDelInd(cfg, n3, third);
      assert third[1..] == SizesThen(w, rest);
      if w.delInd != 0 {
        FailsFor(cfg, n3, BadInput, third[1..]);
      } else {
        ReadsSectionLengths(cfg, n3.(delInd := 0, phase := DATA_LEN), |w.data|, |w.inst|, |w.addr|, rest);
      }
    }
  }

  // ----- Checksum

  function Told(n: Machine, w: Written): Machine {
    n.(phase := DATA, events := n.events + [if n.count == 0 then GotHeader else WinStart], cksum := w.cksum,
       adler32 := if |w.cksum| == 4 then Value(w.cksum) else n.adler32)
  }

  lemma TakesCksum(cfg: Config, n: Machine, w: Written, rest: seq<byte>)
    requires cfg.blksize > 0 && Sane(n) && n.failed.None? && n.phase == CKSUM && n.cksum == [] && n.winInd == w.ind
    requires Writable(w)
    ensures
      var r := Feed(cfg, n, w.cksum + rest);
      if n.enclen == EnclenCheck(n) then Sane(Told(n, w)) && r == Feed(cfg, Told(n, w), rest) else Refused(r, n.events)
  {
    hide Feed, Flag, Value, BigEndian, NeedsByte, Behind, SizeOfInt;
    FlagsAre(w.ind);
    assert [] + w.cksum == w.cksum;
    var c := n.(cksum := w.cksum);
    if w.ind / 4 % 2 == 1 {
      TakeCksum(cfg, n, w.cksum, rest);
      ValueOfFour(w.cksum);
    } else {
      assert w.cksum + rest == rest;
    }
    MoveCksum(cfg, c, rest);
    if n.enclen != EnclenCheck(n) {
      var a := c.(adler32 := if w.ind / 4 % 2 == 1 then BigEndian(w.cksum) else c.adler32);
      FailsFor(cfg, a, BadInput, rest);
    }
  }

  /** The length of the encoding counts the bytes that follow it. */
  lemma CountsBehind(n: Machine, w: Written)
    requires Writable(w) && n.winInd == w.ind && n.tgtlen == w.tgtlen
    requires n.data.size == |w.data| && n.inst.size == |w.inst| && n.addr.size == |w.addr|
    ensures |w.data| + |w.inst| + |w.addr| < TWO_64 && EnclenCheck(n) == |Behind(w)|
  {
    hide EmitInt, SizeOfInt, Flag;
    FlagsAre(w.ind);
    EmittedLength(w.tgtlen);
    EmittedLength(|w.data|);
    EmittedLength(|w.inst|);
    EmittedLength(|w.addr|);
  }

  // ----- Sections

  function Loaded(n: Machine, w: Written): Machine {
    n.(phase := EMIT, data := Section(|w.data|, w.data), inst := Section(|w.inst|, w.inst),
       addr := Section(|w.addr|, w.addr))
  }

  lemma TakesSections(cfg: Config, n: Machine, w: Written)
    requires cfg.blksize > 0 && Sane(n) && n.failed.None? && n.phase == DATA
    requires |w.data| + |w.inst| + |w.addr| < TWO_64
    requires n.data == Section(|w.data|, []) && n.inst == Section(|w.inst|, []) && n.addr == Section(|w.addr|, [])
    ensures Sane(Loaded(n, w)) && Feed(cfg, n, Sections(w)) == Feed(cfg, Loaded(n, w), [])
  {
    hide Feed, NeedsByte;
    assert [] + w.data == w.data && [] + w.inst == w.inst && [] + w.addr == w.addr && w.addr + [] == w.addr;
    MoveSection(cfg, n, w.data, w.inst + w.addr);
    var n2 := n.(data := Section(|w.data|, w.data), phase := INST);
    MoveSection(cfg, n2, w.inst, w.addr);
    var n3 := n2.(inst := Section(|w.inst|, w.inst), phase := ADDR);
    MoveSection(cfg, n3, w.addr, []);
  }

  /** The decoder with the whole window in hand. */
  predicate InHand(cfg: Config, n: Machine, w: Written)
    requires cfg.blksize > 0
  {
    && Sane(n) && n.failed.None? && n.phase == EMIT && n.winInd == w.ind && WindowEnv(cfg, n) == EnvWritten(cfg, w)
    && n.data.bytes == w.data && n.inst.bytes == w.inst && n.addr.bytes == w.addr
    && (w.ind / 4 % 2 == 1 ==> |w.cksum| == 4 && n.adler32 == Value(w.cksum))
  }

  lemma Settles(cfg: Config, n: Machine, w: Written)
    requires cfg.blksize > 0 && InHand(cfg, n, w) && InOrder(w)
    ensures
      var r := Feed(cfg, n, []);
      && (r.failed.None? <==> exists out :: Stands(cfg, w, out))
      && (r.failed.Some? ==> r.events == n.events && r.failed.value == Complaint(w))
      && (forall out :: Stands(cfg, w, out) ==> r.phase == WIN_IND && r.events == n.events + [Output(out)] + [WinFinish])
  {
    hide Feed, Flag, Value, DecodeWindow, Adler.Checksum, NeedsByte, InOrder, Sane;
    FlagsAre(w.ind);
    MoveEmit(cfg, n, []);
    var d := Decoded(cfg, n);
    if w.ind / 2 % 2 == 1 {
      FailsFor(cfg, n, Unimplemented, []);
    } else if (w.ind % 2 == 1 && cfg.src.None?) || Checked(cfg, n).InvalidInput? {
      FailsFor(cfg, n, BadInput, []);
    } else {
      var out := Checked(cfg, n).value;
      assert Stands(cfg, w, out);
      var f := n.(phase := FINISH, events := n.events + [Output(out)], data := Section(n.data.size, []),
                  inst := Section(n.inst.size, []), addr := Section(n.addr.size, []));
      MoveFinish(cfg, f, []);
      WaitsForWindow(cfg, f.(phase := WIN_IND, count := f.count + 1, events := f.events + [WinFinish]));
    }
  }

  lemma WaitsForWindow(cfg: Config, n: Machine)
    requires cfg.blksize > 0 && Sane(n) && n.failed.None? && n.phase == WIN_IND
    ensures Feed(cfg, n, []) == n
  {
    FeedDone(cfg, n);
  }

  // ----- The whole window

  lemma SmallParts(w: Written)
    requires Writable(w)
    ensures |w.data| < TWO_64 && |w.inst| < TWO_64 && |w.addr| < TWO_64
    ensures |w.data| + |w.inst| + |w.addr| < TWO_64
    ensures BytesOf(w) == [w.ind] + (Segment(w) + (EmitInt(w.enclen)
              + (EmitInt(w.tgtlen) + ([w.delInd] + SizesThen(w, w.cksum + Sections(w))))))
  {
    hide EmitInt, Segment;
  }

  lemma FitsInOrder(m: Machine, w: Written)
    requires Writable(w) && m.winstart + m.tgtlen < TWO_64
    ensures InOrder(w) ==> w.ind < 8 && LengthsFit(Begun(m, w), w) && w.enclen == |Behind(w)|
    ensures InOrder(w) && w.ind / 2 % 2 == 0 ==> SegmentFits(m, w)
    ensures w.ind < 8 && SegmentFits(m, w) && LengthsFit(Begun(m, w), w) && w.enclen == |Behind(w)| ==> InOrder(w)
  {
    hide EmitInt, Behind;
  }

  lemma NotInOrder(cfg: Config, m: Machine, w: Written)
    requires cfg.blksize > 0 && m.winstart + m.tgtlen < TWO_64 && Writable(w)
    requires !(w.ind < 8 && SegmentFits(m, w) && LengthsFit(Begun(m, w), w) && w.enclen == |Behind(w)|)
    ensures forall out :: !Stands(cfg, w, out)
  {
    hide DecodeWindow, Behind, Value, Adler.Checksum, InOrder, LengthsFit, SegmentFits;
    FitsInOrder(m, w);
  }

  /** Whatever its fields hold: a window is put out exactly when its header is in order, its segment is one of a source
      that is there, its sections decode, and its checksum, if it has one, is that of what they decode to. In all other
      cases the decoder has failed and put out nothing. */
  lemma WindowExactly(cfg: Config, m: Machine, w: Written)
    requires cfg.blksize > 0 && Between(m) && m.winstart + m.tgtlen < TWO_64 && Writable(w)
    ensures
      var r, told := Feed(cfg, m, BytesOf(w)), m.events + [if m.count == 0 then GotHeader else WinStart];
      && (r.failed.None? <==> exists out :: Stands(cfg, w, out))
      && (r.failed.Some? ==> (r.events == m.events || r.events == told)
                             && (r.failed.value == BadInput || (w.ind / 2 % 2 == 1 && r.failed.value == Unimplemented)))
      && (forall out :: Stands(cfg, w, out) ==> r.phase == WIN_IND && r.events == told + [Output(out)] + [WinFinish])
  {
    hide Feed, BytesOf, Segment, Sections, SizesThen, Behind, EmitInt, Stands, Value, EnclenCheck, NeedsByte, Flag, InOrder;
    hide SegmentFits, LengthsFit, Sane;
    SmallParts(w);
    FitsInOrder(m, w);
    var fourth := w.cksum + Sections(w);
    var third := [w.delInd] + SizesThen(w, fourth);
    var second := EmitInt(w.enclen) + (EmitInt(w.tgtlen) + third);
    Begins(cfg, m, w, second);
    var n := Begun(m, w);
    if !(w.ind < 8 && SegmentFits(m, w)) {
      NotInOrder(cfg, m, w);
    } else {
      TakesLengths(cfg, n, w, fourth);
      if !LengthsFit(n, w) {
        NotInOrder(cfg, m, w);
      } else {
        var n2 := Sized(n, w);
        CountsBehind(n2, w);
        TakesCksum(cfg, n2, w, Sections(w));
        if w.enclen != |Behind(w)| {
          NotInOrder(cfg, m, w);
        } else {
          var n3 := Told(n2, w);
          TakesSections(cfg, n3, w);
          Settles(cfg, Loaded(n3, w), w);
        }
      }
    }
  }

  // ----- The header of a file

  /** The decoder behind the five first bytes of a file. */
  function BehindFive(b0: byte, b1: byte, b2: byte, b3: byte, ind: byte): (r: Machine)
    ensures Sane(r)
  {
    var m := FRESH.(magic := [b0, b1, b2, b3]);
    if b0 != 0xd6 || b1 != 0xc3 || b2 != 0xc4 || b3 != 0 then Fail(m, BadInput)
    else if ind >= 8 then Fail(m.(phase := HDR_IND), BadInput)
    else m.(hdrInd := ind, phase := SECOND_ID)
  }

  lemma FiveBytes(cfg: Config, b0: byte, b1: byte, b2: byte, b3: byte, ind: byte, rest: seq<byte>)
    requires cfg.blksize > 0
    ensures Feed(cfg, FRESH, [b0, b1, b2, b3, ind] + rest) == Feed(cfg, BehindFive(b0, b1, b2, b3, ind), rest)
  {
    hide Feed, NeedsByte, Flag;
    var magic: seq<byte> := [b0, b1, b2, b3];
    var after: seq<byte> := [ind] + rest;
    assert [b0, b1, b2, b3, ind] + rest == magic + after && [] + magic == magic && after[1..] == rest;
    TakeHead(cfg, FRESH, magic, after);
    var m := FRESH.(magic := magic);
    SilentHead(cfg, m, after);
    if b0 == 0xd6 && b1 == 0xc3 && b2 == 0xc4 && b3 == 0 {
      ByteHdrInd(cfg, m.(phase := HDR_IND), after);
    } else {
      FeedFailed(cfg, Fail(m, BadInput), after);
      FeedFailed(cfg, Fail(m, BadInput), rest);
    }
  }

  /** The first five bytes are taken exactly when they are those of a delta file, and no unknown bit is set. */
  lemma HeaderExactly(cfg: Config, b0: byte, b1: byte, b2: byte, b3: byte, ind: byte)
    requires cfg.blksize > 0
    ensures
      var r := Feed(cfg, FRESH, [b0, b1, b2, b3, ind]);
      if b0 == 0xd6 && b1 == 0xc3 && b2 == 0xc4 && b3 == 0 && ind < 8 then r.failed.None? && r.events == []
      else Refused(r, [])
  {
    hide Feed, NeedsByte, Flag;
    FiveBytes(cfg, b0, b1, b2, b3, ind, []);
    assert [b0, b1, b2, b3, ind] + [] == [b0, b1, b2, b3, ind];
    var r := BehindFive(b0, b1, b2, b3, ind);
    if r.failed.Some? {
      FeedFailed(cfg, r, []);
    } else {
      HeaderWaits(cfg, r);
    }
  }

  /** In the header the decoder fails without further input only over a code table. */
  lemma {:induction false} HeaderWaits(cfg: Config, m: Machine)
    requires cfg.blksize > 0 && Sane(m) && m.failed.None? && SECOND_ID <= m.phase <= WIN_IND && m.phase != APP_DAT
    requires m.phase == TAB_DAT ==> !Flag(m.hdrInd, VCD_CODETABLE)
    ensures Feed(cfg, m, []).failed.None? && Feed(cfg, m, []).events == m.events
    decreases Rank(m.phase)
  {
    FeedOnce(cfg, m, []);
    SettleOnce(cfg, m);
    if !NeedsByte(m) && m.phase != APP_LEN {
      FeedOnce(cfg, Silent(cfg, m), []);
      HeaderWaits(cfg, Silent(cfg, m));
    }
  }

  /** The file wants a secondary decoder or a code table of its own, or has been refused. */
  predicate BeyondThis(m: Machine) {
    || m.failed.Some?
    || (m.phase == SECOND_ID && m.hdrInd % 2 == 1)
    || (SECOND_ID <= m.phase <= TAB_DAT && m.hdrInd / 2 % 2 == 1)
  }

  lemma StaysBeyond(cfg: Config, m: Machine)
    requires cfg.blksize > 0 && Sane(m) && m.failed.None? && BeyondThis(m)
    ensures !NeedsByte(m) ==> BeyondThis(Silent(cfg, m)) && Silent(cfg, m).events == m.events
    ensures NeedsByte(m) ==> forall b: byte :: BeyondThis(OnByte(m, b)) && OnByte(m, b).events == m.events
  {
  }

  lemma {:induction false} SettlesBeyond(cfg: Config, m: Machine)
    requires cfg.blksize > 0 && Sane(m) && BeyondThis(m)
    ensures BeyondThis(Settle(cfg, m)) && Settle(cfg, m).events == m.events
    decreases m.failed.None?, Rank(m.phase)
  {
    hide Silent, Sane, NeedsByte, Settle, BeyondThis;
    SettleOnce(cfg, m);
    if !Waits(m) {
      StaysBeyond(cfg, m);
      SettlesBeyond(cfg, Silent(cfg, m));
    }
  }

  /** Of such a file no input whatever brings anything out. */
  lemma {:induction false} NothingBeyond(cfg: Config, m: Machine, input: seq<byte>)
    requires cfg.blksize > 0 && Sane(m) && BeyondThis(m)
    ensures Feed(cfg, m, input).events == m.events
    decreases |input|
  {
    hide Feed, OnByte, Silent, Sane, NeedsByte, Settle, BeyondThis;
    var n := Settle(cfg, m);
    SettlesBeyond(cfg, m);
    FeedOnce(cfg, m, input);
    if n.failed.None? && input != [] {
      StaysBeyond(cfg, n);
      NothingBeyond(cfg, OnByte(n, input[0]), input[1..]);
    }
  }

  /** A file whose header has one of the two bits set is never put out. */
  lemma UnsupportedHeader(cfg: Config, ind: byte, input: seq<byte>)
    requires cfg.blksize > 0 && (ind % 2 == 1 || ind / 2 % 2 == 1)
    ensures Feed(cfg, FRESH, [0xd6, 0xc3, 0xc4, 0, ind] + input).events == []
  {
    hide Feed;
    FiveBytes(cfg, 0xd6, 0xc3, 0xc4, 0, ind, input);
    NothingBeyond(cfg, BehindFive(0xd6, 0xc3, 0xc4, 0, ind), input);
  }
}
