/** The resumable decoder: it is called with whatever input there is, and takes up where it left off. */
module StreamDecoder {
  import opened Bytes
  import opened Results
  import opened Integers
  import opened StreamFormat
  import opened WindowFormat
  import WindowDecoder
  import opened BlockedSource
  import Adler
  import opened Arithmetic

  /** What one call returns. For a block it cannot go on without, the decoder comes back as it was, to be called again. */
  datatype Ret = NeedInput | NeedBlock(blkno: nat) | OutOfReach | Reported(event: Event) | Failed(error: Error)

  /** A section on its way in: copied piece by piece, or, when all of it is at hand, taken where it lies. */
  datatype Desect = Desect(size: nat, pos: nat, copied: seq<byte>, buf: seq<byte>)

  function Seen(s: Desect, complete: bool): Section
    requires s.pos <= |s.copied|
  {
    Section(s.size, if complete then s.buf else s.copied[..s.pos])
  }

  /** The event that a return reports. */
  function Told(ret: Option<Ret>): seq<Event> {
    if ret.Some? && ret.value.Reported? then [ret.value.event] else []
  }

  lemma SeenNone(s: Desect)
    requires s.pos <= |s.copied|
    ensures Seen(s.(pos := 0), false) == Section(s.size, [])
    ensures Seen(s, true).size == s.size
  {
  }

  // ----- How the machine moves

  lemma FeedFailed(cfg: Config, m: Machine, input: seq<byte>)
    requires cfg.blksize > 0 && Sane(m) && m.failed.Some?
    ensures Feed(cfg, m, input) == m
  {
  }

  lemma FeedSilent(cfg: Config, m: Machine, input: seq<byte>)
    requires cfg.blksize > 0 && Sane(m) && m.failed.None? && !NeedsByte(m)
    ensures Feed(cfg, m, input) == Feed(cfg, Silent(cfg, m), input)
  {
    hide Silent, Sane, NeedsByte, OnByte;
  }

  lemma FeedByte(cfg: Config, m: Machine, input: seq<byte>)
    requires cfg.blksize > 0 && Sane(m) && m.failed.None? && NeedsByte(m) && input != []
    ensures Feed(cfg, m, input) == Feed(cfg, OnByte(m, input[0]), input[1..])
  {
    hide Silent, Sane, NeedsByte, OnByte;
  }

  lemma FeedDone(cfg: Config, m: Machine)
    requires cfg.blksize > 0 && Sane(m) && Waits(m)
    ensures Feed(cfg, m, []) == m
  {
    hide Silent, Sane, NeedsByte, OnByte;
  }

  /** The machine with `taken` more bytes in the field that its phase fills. */
  function Collected(m: Machine, taken: seq<byte>): Machine {
    if m.phase == VC_HEAD then m.(magic := m.magic + taken)
    else if m.phase == APP_DAT then m.(apphead := m.apphead + taken)
    else if m.phase == CKSUM then m.(cksum := m.cksum + taken)
    else if m.phase == DATA then m.(data := Section(m.data.size, m.data.bytes + taken))
    else if m.phase == INST then m.(inst := Section(m.inst.size, m.inst.bytes + taken))
    else if m.phase == ADDR then m.(addr := Section(m.addr.size, m.addr.bytes + taken))
    else m
  }

  /** How many bytes the field still lacks. */
  function Lacks(m: Machine): nat
    requires Sane(m)
  {
    if m.phase == VC_HEAD then 4 - |m.magic|
    else if !NeedsByte(m) then 0
    else if m.phase == APP_DAT then m.appheadsz - |m.apphead|
    else if m.phase == CKSUM then 4 - |m.cksum|
    else if m.phase == DATA then m.data.size - |m.data.bytes|
    else if m.phase == INST then m.inst.size - |m.inst.bytes|
    else if m.phase == ADDR then m.addr.size - |m.addr.bytes|
    else 0
  }

  lemma CollectOne(m: Machine, b: byte)
    requires Sane(m) && m.failed.None? && Lacks(m) > 0
    ensures NeedsByte(m) && OnByte(m, b) == Collected(m, [b])
    ensures Sane(Collected(m, [b])) && Lacks(Collected(m, [b])) == Lacks(m) - 1
    ensures Collected(m, [b]).failed.None? && Collected(m, [b]).phase == m.phase
  {
  }

  lemma CollectTwice(m: Machine, a: seq<byte>, b: seq<byte>)
    ensures Collected(Collected(m, a), b) == Collected(m, a + b)
    ensures Collected(m, []) == m
  {
    if m.phase == VC_HEAD { AssociateBytes(m.magic, a, b); }
    if m.phase == APP_DAT { AssociateBytes(m.apphead, a, b); }
    if m.phase == CKSUM { AssociateBytes(m.cksum, a, b); }
    if m.phase == DATA { AssociateBytes(m.data.bytes, a, b); }
    if m.phase == INST { AssociateBytes(m.inst.bytes, a, b); }
    if m.phase == ADDR { AssociateBytes(m.addr.bytes, a, b); }
  }

  lemma SplitBytes(s: seq<byte>, k: nat)
    requires k <= |s|
    ensures s[..k] + s[k..] == s && |s[..k]| == k
  {
  }

  lemma AssociateBytes(x: seq<byte>, a: seq<byte>, b: seq<byte>)
    ensures x + a + b == x + (a + b) && x + [] == x
  {
  }

  /** Taking several bytes at once is taking them one by one. */
  lemma {:induction false} FeedMany(cfg: Config, m: Machine, taken: seq<byte>, rest: seq<byte>)
    requires cfg.blksize > 0 && Sane(m) && m.failed.None? && |taken| <= Lacks(m)
    ensures Sane(Collected(m, taken)) && Collected(m, taken).failed.None? && Collected(m, taken).phase == m.phase
    ensures Lacks(Collected(m, taken)) == Lacks(m) - |taken|
    ensures Feed(cfg, m, taken + rest) == Feed(cfg, Collected(m, taken), rest)
    decreases |taken|
  {
    hide Sane, NeedsByte, OnByte, Feed, Collected, Lacks;
    CollectTwice(m, [], []);
    if taken == [] {
      assert taken + rest == rest;
    } else {
      CollectOne(m, taken[0]);
      FeedByte(cfg, m, taken + rest);
      assert (taken + rest)[1..] == taken[1..] + rest;
      FeedMany(cfg, Collected(m, [taken[0]]), taken[1..], rest);
      CollectTwice(m, [taken[0]], taken[1..]);
      assert [taken[0]] + taken[1..] == taken;
    }
  }

  class Stream {
    const cfg: Config
    var nextIn: seq<byte>
    var inPos: nat
    var decState: Phase
    var dec64part: nat
    var decMagic: seq<byte>
    var decHdrInd: byte
    var decCodetblsz: nat
    var decAppheadsz: nat
    var decApphead: seq<byte>
    var decWinInd: byte
    var decCpylen: nat
    var decCpyoff: nat
    var decEnclen: nat
    var decTgtlen: nat
    var decWinstart: nat
    var decDelInd: byte
    var decWinbytes: nat
    var dataSect: Desect
    var instSect: Desect
    var addrSect: Desect
    var decCksum: seq<byte>
    var decAdler32: nat
    var decWindowCount: nat
    /** The window being decoded, from the first block that was missing until it is done. */
    var dec: WindowDecoder.Decoder?
    const source: Source
    /** What has been returned so far, and whether the last return was an error. */
    ghost var events: seq<Event>
    ghost var failed: Option<Error>

    ghost predicate Shaped()
      reads this
    {
      && cfg.blksize > 0 && inPos <= |nextIn|
      && dataSect.pos <= |dataSect.copied| && instSect.pos <= |instSect.copied| && addrSect.pos <= |addrSect.copied|
    }

    /** The machine this decoder is. */
    ghost function View(): Machine
      requires Shaped()
      reads this
    {
      Machine(decState, failed, dec64part, decMagic, decHdrInd, decCodetblsz, decAppheadsz, decApphead,
              decWinInd, decCpylen, decCpyoff, decEnclen, decTgtlen, decWinstart, decDelInd,
              Seen(dataSect, INST <= decState <= EMIT), Seen(instSect, ADDR <= decState <= EMIT),
              Seen(addrSect, decState == EMIT), decCksum, decAdler32, decWindowCount, events)
    }

    /** How many bytes of the sections have been taken. */
    ghost function Taken(): nat
      reads this`decState, this`dataSect, this`instSect, this`addrSect
    {
      if decState == DATA then dataSect.pos
      else if decState == INST then dataSect.size + instSect.pos
      else if decState == ADDR then dataSect.size + instSect.size + addrSect.pos
      else if decState == EMIT then dataSect.size + instSect.size + addrSect.size
      else 0
    }

    /** The bytes of the sections are counted, only the section being read is begun, and their sizes add up. */
    ghost predicate Tidy()
      reads this`decState, this`decWinbytes, this`dataSect, this`instSect, this`addrSect
    {
      && decWinbytes == Taken()
      && (decState != DATA ==> dataSect.pos == 0)
      && (decState != INST ==> instSect.pos == 0)
      && (decState != ADDR ==> addrSect.pos == 0)
      && (INST <= decState <= EMIT ==> instSect.size + addrSect.size + dataSect.size < TWO_64)
    }

    ghost predicate Valid()
      reads this
    {
      Shaped() && Sane(View()) && Tidy()
    }

    /** What a call may change besides the stream itself. */
    ghost function Window(): set<object>
      reads this
    {
      if dec == null then {source} else dec.Frame() + {source}
    }

    /** A window left for a block is on its way to what the machine makes of it. */
    ghost predicate Resumable()
      reads this, Window(), if dec == null then {} else {dec.codeTable}
    {
      && Shaped() && Supplies(cfg, source) && this !in Window()
      && (dec != null ==>
            && decState == EMIT && !Flag(decWinInd, VCD_TARGET) && (Flag(decWinInd, VCD_SOURCE) ==> cfg.src.Some?)
            && dec.Underway() && dec.source == source && this !in dec.Frame() && Sane(View())
            && dec.Promise() == Decoded(cfg, View()))
    }

    /** A return for a block leaves the window on its way and says which block; any other leaves no window. */
    ghost predicate Paused(ret: Ret, answer: nat -> Answer)
      reads this, Window(), if dec == null then {} else {dec.codeTable}
    {
      match ret
      case NeedBlock(b) => Held(WindowDecoder.NeedBlock(b), answer)
      case OutOfReach => Held(WindowDecoder.OutOfReach, answer)
      case Failed(_) => true
      case _ => Resumable() && dec == null
    }

    /** The input not taken yet. */
    ghost function Rest(): seq<byte>
      requires inPos <= |nextIn|
      reads this
    {
      nextIn[inPos..]
    }

    /** Fed with the rest of the input, the decoder becomes `goal`. */
    ghost predicate On(goal: Machine)
      reads this
    {
      Valid() && Feed(cfg, View(), Rest()) == goal
    }

    /** Closer to having used up the input, or further on without using any. */
    ghost predicate Further(pos: nat, phase: Phase)
      reads this
    {
      inPos > pos || (inPos == pos && Rank(decState) < Rank(phase))
    }

    constructor (cfg: Config, source: Source)
      requires cfg.blksize > 0 && Supplies(cfg, source)
      ensures Valid() && View() == FRESH && this.cfg == cfg && nextIn == [] && this.source == source && Resumable()
    {
      this.cfg, this.source, dec := cfg, source, null;
      nextIn, inPos := [], 0;
      decState, dec64part, decMagic, decHdrInd := VC_HEAD, 0, [], 0;
      decCodetblsz, decAppheadsz, decApphead := 0, 0, [];
      decWinInd, decCpylen, decCpyoff, decEnclen, decTgtlen, decWinstart, decDelInd := 0, 0, 0, 0, 0, 0, 0;
      decWinbytes := 0;
      dataSect, instSect, addrSect := Desect(0, 0, [], []), Desect(0, 0, [], []), Desect(0, 0, [], []);
      decCksum, decAdler32, decWindowCount := [], 0, 0;
      events, failed := [], None;
    }

    /** One byte of the input, if there is one. */
    method DecodeByte() returns (b: Option<byte>)
      requires Shaped()
      modifies this`inPos
      ensures Shaped()
      ensures old(Rest()) == [] ==> b.None? && inPos == old(inPos)
      ensures old(Rest()) != [] ==>
        b == Some(old(Rest())[0]) && Rest() == old(Rest())[1..] && inPos == old(inPos) + 1
    {
      if inPos == |nextIn| {
        return None;
      }
      b := Some(nextIn[inPos]);
      inPos := inPos + 1;
    }

    /** As many bytes as are wanted and there. */
    method DecodeBytes(buf: seq<byte>, size: nat) returns (r: seq<byte>, done: bool)
      requires Shaped() && |buf| <= size
      modifies this`inPos
      ensures Shaped() && |buf| <= |r| <= size && (done <==> |r| == size)
      ensures !done ==> Rest() == []
      ensures inPos == old(inPos) + (|r| - |buf|)
      ensures r == buf + old(Rest())[..|r| - |buf|] && Rest() == old(Rest())[|r| - |buf|..]
    {
      r := buf;
      while |r| < size
        invariant Shaped() && |buf| <= |r| <= size
        invariant inPos == old(inPos) + (|r| - |buf|)
        invariant r == buf + old(Rest())[..|r| - |buf|] && Rest() == old(Rest())[|r| - |buf|..]
        decreases size - |r|
      {
        if inPos == |nextIn| {
          return r, false;
        }
        var take := Min(size - |r|, |nextIn| - inPos);
        ghost var k := |r| - |buf|;
        assert old(Rest())[..k + take] == old(Rest())[..k] + Rest()[..take];
        AssociateBytes(buf, old(Rest())[..k], Rest()[..take]);
        assert nextIn[inPos..inPos + take] == Rest()[..take];
        r := r + nextIn[inPos..inPos + take];
        inPos := inPos + take;
      }
      done := true;
    }

    /** What every case of the decoder promises: it stays on course, and it moves on, asks for input, or gives up. */
    ghost predicate Answered(ret: Option<Ret>, goal: Machine, pos: nat, phase: Phase, was: seq<Event>)
      reads this
    {
      && On(goal) && events == was + Told(ret)
      && match ret
         case None => failed.None? && Further(pos, phase)
         case Some(NeedInput) => failed.None? && inPos == |nextIn| && NeedsByte(View())
         case Some(NeedBlock(_)) => false
         case Some(OutOfReach) => false
         case Some(Reported(_)) => failed.None? && Further(pos, phase)
         case Some(Failed(e)) => failed == Some(e)
    }

    /** What a call promises: on course in any case; and when it comes back for a block, nothing has been reported. */
    ghost predicate Replied(ret: Ret, goal: Machine, pos: nat, phase: Phase, was: seq<Event>)
      reads this
    {
      if Waiting(ret) then On(goal) && failed.None? && events == was && decState == EMIT
      else Answered(Some(ret), goal, pos, phase, was)
    }

    lemma Started(goal: Machine)
      requires On(goal)
      ensures Shaped() && Tidy() && Sane(View()) && Feed(cfg, View(), Rest()) == goal
    {
    }

    lemma OnCourse(m: Machine, goal: Machine)
      requires Shaped() && Tidy() && View() == m && Sane(m) && Feed(cfg, m, Rest()) == goal
      ensures On(goal)
    {
    }

    /** Gives up with an error. */
    method GiveUp(e: Error, ghost goal: Machine) returns (ret: Ret)
      requires Shaped() && Tidy() && Sane(Fail(View(), e)) && Feed(cfg, Fail(View(), e), Rest()) == goal
      modifies this`failed
      ensures On(goal) && failed == Some(e) && ret == Failed(e)
    {
      hide Feed, Sane, Seen, Stream.Tidy;
      ghost var m := View();
      failed := Some(e);
      assert View() == Fail(m, e);
      return Failed(e);
    }

    /** Takes what there is of the magic number. */
    method ReadMagic(ghost goal: Machine) returns (done: bool)
      requires On(goal) && failed.None? && decState == VC_HEAD
      modifies this`decMagic, this`inPos
      ensures On(goal) && inPos >= old(inPos) && (done <==> |decMagic| == 4)
      ensures !done ==> inPos == |nextIn| && NeedsByte(View())
    {
      hide Feed, Silent, OnByte, Sane, NeedsByte, Lacks, Collected;
      ghost var m, rest := View(), Rest();
      MagicFits(m);
      var magic;
      magic, done := DecodeBytes(decMagic, 4);
      ghost var taken := rest[..|magic| - |decMagic|];
      TakeHead(cfg, m, taken, Rest());
      SplitBytes(rest, |taken|);
      decMagic := magic;
    }

    /** The magic number and the version. */
    method VersionHead(ghost goal: Machine) returns (ret: Option<Ret>)
      requires On(goal) && failed.None? && decState == VC_HEAD
      modifies this
      ensures Answered(ret, goal, old(inPos), old(decState), old(events)) && nextIn == old(nextIn) && dec == old(dec)
    {
      hide Feed, Silent, OnByte, Sane, NeedsByte, Lacks, Collected;
      var done := ReadMagic(goal);
      if !done {
        return Some(NeedInput);
      }
      SilentHead(cfg, View(), Rest());
      if decMagic[0] != 0xd6 || decMagic[1] != 0xc3 || decMagic[2] != 0xc4 || decMagic[3] != 0 {
        var r := GiveUp(BadInput, goal);
        return Some(r);
      }
      decState := HDR_IND;
      return None;
    }

    /** One more byte of a number. */
    method DecodeSizeByte(ghost goal: Machine) returns (r: Option<IntRet>)
      requires On(goal) && failed.None? && TakesNumber(decState) && NeedsByte(View()) && inPos < |nextIn|
      modifies this`dec64part, this`inPos, this`failed
      ensures inPos == old(inPos) + 1
      ensures r.None? ==> On(goal) && failed.None? && NeedsByte(View())
      ensures r.Some? && r.value.Number? ==>
        && Valid() && failed.None? && dec64part == 0 && r.value.value < TWO_64
        && Feed(cfg, SizeDone(View(), r.value.value), Rest()) == goal
      ensures r.Some? && !r.value.Number? ==> r.value == Overlong && On(goal) && failed == Some(BadInput)
    {
      hide Feed, Silent, OnByte, Sane, NeedsByte, SizeDone;
      NumberByte(cfg, View(), Rest());
      var next := nextIn[inPos];
      assert Rest()[0] == next && Rest()[1..] == nextIn[inPos + 1..];
      inPos := inPos + 1;
      if dec64part >= OVERFLOW_AT {
        failed := Some(BadInput);
        return Some(Overlong);
      }
      var part := dec64part * 128 + next % 128;
      if next < 128 {
        dec64part := 0;
        return Some(Number(part));
      }
      dec64part := part;
      return None;
    }

    /** One number, continued from the part of it read before. */
    method DecodeSize(ghost goal: Machine) returns (r: IntRet)
      requires On(goal) && failed.None? && TakesNumber(decState) && NeedsByte(View())
      modifies this`dec64part, this`inPos, this`failed
      ensures r.Number? ==>
        && Valid() && failed.None? && dec64part == 0 && inPos > old(inPos) && r.value < TWO_64
        && Feed(cfg, SizeDone(View(), r.value), Rest()) == goal
      ensures r.Wanting? ==> On(goal) && failed.None? && inPos == |nextIn| && NeedsByte(View())
      ensures r.Overlong? ==> On(goal) && failed == Some(BadInput)
    {
      hide Feed, Silent, OnByte, Sane, NeedsByte, SizeDone, Stream.On;
      InputLeft(goal);
      while inPos < |nextIn|
        invariant Shaped() && On(goal) && failed.None? && NeedsByte(View()) && old(inPos) <= inPos <= |nextIn|
        decreases |nextIn| - inPos
      {
        var done := DecodeSizeByte(goal);
        if done.Some? {
          return done.value;
        }
        InputLeft(goal);
      }
      return Wanting;
    }

    lemma InputLeft(goal: Machine)
      requires On(goal)
      ensures inPos <= |nextIn| && Shaped()
    {
    }

    /** The header indicator. */
    method HeaderIndicator(ghost goal: Machine) returns (ret: Option<Ret>)
      requires On(goal) && failed.None? && decState == HDR_IND
      modifies this
      ensures Answered(ret, goal, old(inPos), old(decState), old(events)) && nextIn == old(nextIn) && dec == old(dec)
    {
      hide Feed, Silent, OnByte, Sane, NeedsByte;
      ByteHdrInd(cfg, View(), Rest());
      var b := DecodeByte();
      if b.None? {
        return Some(NeedInput);
      }
      if b.value >= 8 {
        var r := GiveUp(BadInput, goal);
        return Some(r);
      }
      decHdrInd := b.value;
      decState := SECOND_ID;
      return None;
    }

    /** A file that names a secondary compressor is refused: none is built in. */
    method SecondaryId(ghost goal: Machine) returns (ret: Option<Ret>)
      requires On(goal) && failed.None? && decState == SECOND_ID
      modifies this
      ensures Answered(ret, goal, old(inPos), old(decState), old(events)) && nextIn == old(nextIn) && dec == old(dec)
    {
      hide Feed, Silent, OnByte, Sane, NeedsByte;
      MoveSecondId(cfg, View(), Rest());
      if Flag(decHdrInd, VCD_SECONDARY) {
        var b := DecodeByte();
        if b.None? {
          return Some(NeedInput);
        }
        var e := if b.value == 1 || b.value == 2 || b.value == 16 then Internal else BadInput;
        var r := GiveUp(e, goal);
        return Some(r);
      }
      decState := TAB_LEN;
      return None;
    }

    /** The two cache sizes of a code table. */
    method CacheSizes(ghost goal: Machine) returns (ret: Option<Ret>)
      requires On(goal) && failed.None? && (decState == NEAR || decState == SAME)
      modifies this
      ensures Answered(ret, goal, old(inPos), old(decState), old(events)) && nextIn == old(nextIn) && dec == old(dec)
    {
      hide Feed, Silent, OnByte, Sane, NeedsByte, SizeDone, DecodeWindow;
      MoveCacheSize(cfg, View(), Rest());
      if Flag(decHdrInd, VCD_CODETABLE) {
        var b := DecodeByte();
        if b.None? {
          return Some(NeedInput);
        }
      }
      decState := if decState == NEAR then SAME else TAB_DAT;
      return None;
    }

    /** Code tables are not supported. */
    method CodeTableData(ghost goal: Machine) returns (ret: Option<Ret>)
      requires On(goal) && failed.None? && decState == TAB_DAT
      modifies this
      ensures Answered(ret, goal, old(inPos), old(decState), old(events)) && nextIn == old(nextIn) && dec == old(dec)
    {
      hide Feed, Silent, OnByte, Sane, NeedsByte, SizeDone, DecodeWindow;
      MoveTabDat(cfg, View(), Rest());
      if Flag(decHdrInd, VCD_CODETABLE) {
        var r := GiveUp(Unimplemented, goal);
        return Some(r);
      }
      decState := APP_LEN;
      return None;
    }

    /** Takes what there is of the application header. */
    method ReadAppHeader(ghost goal: Machine) returns (done: bool)
      requires On(goal) && failed.None? && decState == APP_DAT
      requires Flag(decHdrInd, VCD_APPHEADER) && decAppheadsz + 1 < TWO_64
      modifies this`decApphead, this`inPos
      ensures On(goal) && inPos >= old(inPos) && (done <==> |decApphead| == decAppheadsz)
      ensures !done ==> inPos == |nextIn| && NeedsByte(View())
    {
      hide Feed, Silent, OnByte, Sane, NeedsByte, Lacks, Collected;
      ghost var m, rest := View(), Rest();
      AppHeaderFits(m);
      var head;
      head, done := DecodeBytes(decApphead, decAppheadsz);
      ghost var taken := rest[..|head| - |decApphead|];
      TakeAppHeader(cfg, m, taken, Rest());
      SplitBytes(rest, |taken|);
      decApphead := head;
    }

    /** The application header. */
    method AppHeader(ghost goal: Machine) returns (ret: Option<Ret>)
      requires On(goal) && failed.None? && decState == APP_DAT
      modifies this
      ensures Answered(ret, goal, old(inPos), old(decState), old(events)) && nextIn == old(nextIn) && dec == old(dec)
    {
      hide Feed, Silent, OnByte, Sane, NeedsByte, SizeDone, DecodeWindow;
      if Flag(decHdrInd, VCD_APPHEADER) {
        if decAppheadsz + 1 >= TWO_64 {
          MoveAppDat(cfg, View(), Rest());
          var r := GiveUp(BadInput, goal);
          return Some(r);
        }
        var done := ReadAppHeader(goal);
        if !done {
          return Some(NeedInput);
        }
      }
      MoveAppDat(cfg, View(), Rest());
      decState := WIN_IND;
      return None;
    }

    /** The window indicator starts a new window behind the one before. */
    method WindowIndicator(ghost goal: Machine) returns (ret: Option<Ret>)
      requires On(goal) && failed.None? && decState == WIN_IND
      modifies this
      ensures Answered(ret, goal, old(inPos), old(decState), old(events)) && nextIn == old(nextIn) && dec == old(dec)
    {
      hide Feed, Silent, OnByte, Sane, NeedsByte, SizeDone, DecodeWindow;
      ByteWinInd(cfg, View(), Rest());
      var b := DecodeByte();
      if b.None? {
        return Some(NeedInput);
      }
      ret := InitWindow(b.value, goal);
    }

    method InitWindow(b: byte, ghost goal: Machine) returns (ret: Option<Ret>)
      requires Shaped() && Tidy() && failed.None? && decState == WIN_IND && Sane(StartWindow(View(), b))
      requires Feed(cfg, StartWindow(View(), b), Rest()) == goal
      modifies this`failed, this`decWinInd, this`decWinstart, this`decCpylen, this`decCpyoff, this`decCksum, this`decState
      ensures Concluded(ret, goal, events)
    {
      hide Feed, Sane, NeedsByte, Seen, Stream.On;
      ghost var m := View();
      if decWinstart + decTgtlen >= TWO_64 {
        var r := GiveUp(BadInput, goal);
        return Some(r);
      }
      MoveStart(b);
      if b >= 8 {
        var r := GiveUp(BadInput, goal);
        return Some(r);
      }
      ResetWindow();
      OnCourse(StartWindow(m, b), goal);
      return None;
    }

    /** A window begins where the one before it ends. */
    method MoveStart(b: byte)
      requires Shaped()
      modifies this`decWinInd, this`decWinstart
      ensures Shaped() && View() == old(View()).(winInd := b, winstart := old(decWinstart) + decTgtlen)
    {
      hide Seen;
      ghost var m := View();
      decWinInd, decWinstart := b, decWinstart + decTgtlen;
      assert View() == m.(winInd := b, winstart := m.winstart + m.tgtlen);
    }

    /** A window begins without a copy window and without checksum bytes. */
    method ResetWindow()
      requires Shaped() && decState == WIN_IND
      modifies this`decCpylen, this`decCpyoff, this`decCksum, this`decState
      ensures Shaped() && View() == old(View()).(cpylen := 0, cpyoff := 0, cksum := [], phase := CPY_LEN)
    {
      hide Seen;
      ghost var m := View();
      decCpylen, decCpyoff, decCksum, decState := 0, 0, [], CPY_LEN;
      assert View() == m.(cpylen := 0, cpyoff := 0, cksum := [], phase := CPY_LEN);
    }

    /** The delta indicator: without a secondary compressor it must be zero. */
    method DeltaIndicator(ghost goal: Machine) returns (ret: Option<Ret>)
      requires On(goal) && failed.None? && decState == DEL_IND
      modifies this
      ensures Answered(ret, goal, old(inPos), old(decState), old(events)) && nextIn == old(nextIn) && dec == old(dec)
    {
      hide Feed, Silent, OnByte, Sane, NeedsByte, SizeDone, DecodeWindow;
      ByteDelInd(cfg, View(), Rest());
      var b := DecodeByte();
      if b.None? {
        return Some(NeedInput);
      }
      if b.value >= 8 || b.value != 0 {
        var r := GiveUp(BadInput, goal);
        return Some(r);
      }
      decDelInd := b.value;
      decState := DATA_LEN;
      return None;
    }

    /** After the input has been taken: on course, or given up. */
    ghost predicate Concluded(ret: Option<Ret>, goal: Machine, was: seq<Event>)
      reads this
    {
      && On(goal) && events == was + Told(ret)
      && match ret
         case None => failed.None?
         case Some(NeedInput) => false
         case Some(NeedBlock(_)) => false
         case Some(OutOfReach) => false
         case Some(Reported(_)) => failed.None?
         case Some(Failed(e)) => failed == Some(e)
    }

    /** A number is complete and goes where it belongs. */
    ghost predicate Storing(v: nat, goal: Machine)
      reads this
    {
      && Valid() && failed.None? && dec64part == 0 && v < TWO_64 && TakesNumber(decState)
      && Feed(cfg, SizeDone(View(), v), Rest()) == goal
    }

    /** The header's numbers: the lengths of a code table and of the application header. */
    method StoreHeaderNumber(v: nat, ghost goal: Machine) returns (ret: Option<Ret>)
      requires Storing(v, goal) && (decState == TAB_LEN || decState == APP_LEN)
      modifies this
      ensures Concluded(ret, goal, old(events)) && nextIn == old(nextIn) && dec == old(dec) && inPos == old(inPos)
    {
      hide Feed, Silent, OnByte, Sane, NeedsByte, SizeDone, DecodeWindow, Seen, Stream.On;
      ghost var m := View();
      DoneAt(m, v);
      if decState == TAB_LEN {
        if v <= 2 {
          var r := GiveUp(BadTable, goal);
          return Some(r);
        }
        decCodetblsz := v - 2;
        decState := NEAR;
        OnCourse(m.(codetblsz := v - 2, phase := NEAR), goal);
      } else {
        decAppheadsz, decApphead := v, [];
        decState := APP_DAT;
        OnCourse(m.(appheadsz := v, apphead := [], phase := APP_DAT), goal);
      }
      return None;
    }

    /** The bounds of the copy window. */
    method CheckBounds(ghost goal: Machine) returns (ret: Option<Ret>)
      requires Valid() && failed.None? && decState == CPY_OFF && Sane(CheckCopyWindow(View()))
      requires Feed(cfg, CheckCopyWindow(View()), Rest()) == goal
      modifies this
      ensures Concluded(ret, goal, old(events)) && nextIn == old(nextIn) && dec == old(dec) && inPos == old(inPos)
      ensures ret.None? ==> decState == ENC_LEN
      ensures ret.Some? ==> !ret.value.Reported?
    {
      hide Feed, Silent, OnByte, Sane, NeedsByte, SizeDone, DecodeWindow;
      if decCpyoff + decCpylen >= TWO_64 {
        var r := GiveUp(BadInput, goal);
        return Some(r);
      }
      if Flag(decWinInd, VCD_TARGET) && decCpyoff + decCpylen > decWinstart {
        var r := GiveUp(BadInput, goal);
        return Some(r);
      }
      decState := ENC_LEN;
      return None;
    }

    method StoreCopyWindow(v: nat, ghost goal: Machine) returns (ret: Option<Ret>)
      requires Storing(v, goal) && (decState == CPY_LEN || decState == CPY_OFF)
      modifies this
      ensures Concluded(ret, goal, old(events)) && nextIn == old(nextIn) && dec == old(dec) && inPos == old(inPos)
    {
      hide Feed, Silent, OnByte, Sane, NeedsByte, SizeDone, DecodeWindow;
      DoneAt(View(), v);
      if decState == CPY_LEN {
        decCpylen := v;
        decState := CPY_OFF;
        return None;
      }
      ghost var m := View();
      OffsetSane(m, v);
      decCpyoff := v;
      ret := CheckBounds(goal);
    }

    /** The lengths of the encoding and of the target window; the latter has bounds. */
    method StoreWindowLength(v: nat, ghost goal: Machine) returns (ret: Option<Ret>)
      requires Storing(v, goal) && (decState == ENC_LEN || decState == TGT_LEN)
      modifies this
      ensures Concluded(ret, goal, old(events)) && nextIn == old(nextIn) && dec == old(dec) && inPos == old(inPos)
    {
      hide Feed, Silent, OnByte, Sane, NeedsByte, SizeDone, DecodeWindow, Seen, Stream.On;
      ghost var m := View();
      DoneAt(m, v);
      if decState == ENC_LEN {
        decEnclen := v;
        decState := TGT_LEN;
        OnCourse(m.(enclen := v, phase := TGT_LEN), goal);
        return None;
      }
      if decCpylen + v >= TWO_64 || v > HARD_MAX_WINDOW {
        var r := GiveUp(BadInput, goal);
        return Some(r);
      }
      decTgtlen := v;
      decState := DEL_IND;
      OnCourse(m.(tgtlen := v, phase := DEL_IND), goal);
      return None;
    }

    method StoreSectionLength(v: nat, ghost goal: Machine) returns (ret: Option<Ret>)
      requires Storing(v, goal) && DATA_LEN <= decState <= ADDR_LEN
      modifies this
      ensures Concluded(ret, goal, old(events)) && nextIn == old(nextIn) && dec == old(dec) && inPos == old(inPos)
    {
      hide Feed, Silent, OnByte, Sane, NeedsByte, SizeDone, DecodeWindow, Stream.On;
      ghost var m := View();
      DoneAt(m, v);
      if decState == DATA_LEN {
        dataSect := Desect(v, 0, dataSect.copied, dataSect.buf);
      } else if decState == INST_LEN {
        instSect := Desect(v, 0, instSect.copied, instSect.buf);
      } else {
        addrSect := Desect(v, 0, addrSect.copied, addrSect.buf);
      }
      decState := decState + 1;
      assert View() == SizeDone(m, v);
      OnCourse(SizeDone(m, v), goal);
      return None;
    }

    /** A number that this file does not have. */
    method SkipNumber(ghost goal: Machine) returns (ret: Option<Ret>)
      requires On(goal) && failed.None? && TakesNumber(decState) && !NeedsByte(View())
      modifies this
      ensures Answered(ret, goal, old(inPos), old(decState), old(events)) && nextIn == old(nextIn) && dec == old(dec)
    {
      hide Feed, Silent, OnByte, Sane, NeedsByte, SizeDone, DecodeWindow;
      MoveNumber(cfg, View(), Rest());
      if decState == CPY_OFF {
        ret := CheckBounds(goal);
        ConcludedMoves(ret, goal, old(inPos), old(decState), old(events));
      } else {
        decState := decState + 1;
        return None;
      }
    }

    /** Any number of the headers. */
    method NumberStep(ghost goal: Machine) returns (ret: Option<Ret>)
      requires On(goal) && failed.None? && TakesNumber(decState)
      modifies this
      ensures Answered(ret, goal, old(inPos), old(decState), old(events)) && nextIn == old(nextIn) && dec == old(dec)
    {
      hide Feed, Silent, OnByte, Sane, NeedsByte, SizeDone, DecodeWindow, Stream.Concluded;
      MoveNumber(cfg, View(), Rest());
      if (decState == TAB_LEN && !Flag(decHdrInd, VCD_CODETABLE))
        || (decState == APP_LEN && !Flag(decHdrInd, VCD_APPHEADER))
        || ((decState == CPY_LEN || decState == CPY_OFF) && SrcOrTgt(decWinInd) == 0) {
        ret := SkipNumber(goal);
        return;
      }
      var r := DecodeSize(goal);
      if r.Wanting? {
        return Some(NeedInput);
      }
      if r.Overlong? {
        return Some(Failed(BadInput));
      }
      ret := StoreNumber(r.value, goal);
      ConcludedFurther(ret, goal, old(inPos), old(decState), old(events));
    }

    method StoreNumber(v: nat, ghost goal: Machine) returns (ret: Option<Ret>)
      requires Storing(v, goal)
      modifies this
      ensures Concluded(ret, goal, old(events)) && nextIn == old(nextIn) && dec == old(dec) && inPos == old(inPos)
    {
      hide Feed, Sane, Stream.Storing, Stream.Concluded;
      NumberPhase(v, goal);
      if decState <= APP_LEN {
        ret := StoreHeaderNumber(v, goal);
      } else if decState <= CPY_OFF {
        ret := StoreCopyWindow(v, goal);
      } else if decState <= TGT_LEN {
        ret := StoreWindowLength(v, goal);
      } else {
        ret := StoreSectionLength(v, goal);
      }
    }

    lemma NumberPhase(v: nat, goal: Machine)
      requires Storing(v, goal)
      ensures TakesNumber(decState)
    {
    }

    lemma ConcludedFurther(ret: Option<Ret>, goal: Machine, pos: nat, phase: Phase, was: seq<Event>)
      requires Concluded(ret, goal, was) && inPos > pos
      ensures Answered(ret, goal, pos, phase, was)
    {
      hide Feed, Stream.Valid;
    }

    lemma ConcludedMoves(ret: Option<Ret>, goal: Machine, pos: nat, phase: Phase, was: seq<Event>)
      requires Concluded(ret, goal, was) && inPos == pos && (ret.None? ==> Rank(decState) < Rank(phase))
      requires ret.Some? ==> !ret.value.Reported?
      ensures Answered(ret, goal, pos, phase, was)
    {
      hide Feed, Stream.Valid;
    }

    /** Takes what there is of the checksum. */
    method ReadCksum(ghost goal: Machine) returns (done: bool)
      requires On(goal) && failed.None? && decState == CKSUM && Flag(decWinInd, VCD_ADLER32)
      modifies this`decCksum, this`inPos
      ensures On(goal) && inPos >= old(inPos) && (done <==> |decCksum| == 4)
      ensures !done ==> inPos == |nextIn| && NeedsByte(View())
    {
      hide Feed, Silent, OnByte, Sane, NeedsByte, Lacks, Collected;
      ghost var m, rest := View(), Rest();
      CksumFits(m);
      var bytes;
      bytes, done := DecodeBytes(decCksum, 4);
      ghost var taken := rest[..|bytes| - |decCksum|];
      TakeCksum(cfg, m, taken, Rest());
      SplitBytes(rest, |taken|);
      decCksum := bytes;
    }

    /** The checksum, if the window has one. */
    method WindowChecksum(ghost goal: Machine) returns (ret: Option<Ret>)
      requires On(goal) && failed.None? && decState == CKSUM
      modifies this
      ensures Answered(ret, goal, old(inPos), old(decState), old(events)) && nextIn == old(nextIn) && dec == old(dec)
    {
      hide Feed, Silent, OnByte, Sane, NeedsByte, SizeDone, DecodeWindow, Emit;
      if Flag(decWinInd, VCD_ADLER32) {
        var done := ReadCksum(goal);
        if !done {
          return Some(NeedInput);
        }
      }
      ret := EndOfHeader(goal);
    }

    /** The announced length of the encoding must agree with the other lengths; then the window is announced. */
    method EndOfHeader(ghost goal: Machine) returns (ret: Option<Ret>)
      requires On(goal) && failed.None? && decState == CKSUM
      requires Flag(decWinInd, VCD_ADLER32) ==> |decCksum| == 4
      modifies this`failed, this`decAdler32, this`decState, this`events
      ensures Answered(ret, goal, inPos, CKSUM, old(events))
    {
      hide Feed, Silent, OnByte, Sane, NeedsByte, SizeDone, DecodeWindow, Emit, EnclenCheck, BigEndian, Seen, Stream.On;
      Started(goal);
      ghost var m := View();
      MoveCksum(cfg, m, Rest());
      var adler := decAdler32;
      if Flag(decWinInd, VCD_ADLER32) {
        adler := ShiftIn(adler, decCksum);
      }
      var check := LengthOfEncoding();
      if decEnclen != check {
        decAdler32 := adler;
        assert View() == m.(adler32 := adler);
        var r := GiveUp(BadInput, goal);
        return Some(r);
      }
      var event := if decWindowCount == 0 then GotHeader else WinStart;
      AnnounceWindow(adler, event);
      OnCourse(m.(adler32 := adler, phase := DATA, events := m.events + [event]), goal);
      return Some(Reported(event));
    }

    method AnnounceWindow(adler: nat, event: Event)
      requires Shaped() && decState == CKSUM
      modifies this`decAdler32, this`decState, this`events
      ensures Shaped() && events == old(events) + [event] && decState == DATA
      ensures View() == old(View()).(adler32 := adler, phase := DATA, events := old(events) + [event])
    {
      ghost var m := View();
      decAdler32, decState := adler, DATA;
      events := events + [event];
      assert View() == m.(adler32 := adler, phase := DATA, events := m.events + [event]);
    }

    method LengthOfEncoding() returns (n: nat)
      requires Shaped() && decState == CKSUM
      ensures n == EnclenCheck(View())
    {
      n := (1 + SizeOfInt(decTgtlen) + SizeOfInt(dataSect.size) + SizeOfInt(instSect.size) + SizeOfInt(addrSect.size)
            + dataSect.size + instSect.size + addrSect.size + (if Flag(decWinInd, VCD_ADLER32) then 4 else 0)) % TWO_64;
    }

    /** Takes bytes for a section: all of it where it lies when everything needed is there, else by copying. */
    method DecodeSection(sect: Desect, copy: bool) returns (s: Desect, done: bool, ghost taken: seq<byte>)
      requires Shaped() && sect.pos <= sect.size && sect.pos <= |sect.copied|
      requires !copy ==> sect.size - sect.pos <= |nextIn| - inPos
      modifies this`inPos, this`decWinbytes
      ensures Shaped() && s.size == sect.size && s.pos <= |s.copied|
      ensures sect.pos + |taken| <= sect.size && (done <==> sect.pos + |taken| == sect.size)
      ensures old(Rest()) == taken + Rest() && inPos == old(inPos) + |taken|
      ensures decWinbytes == old(decWinbytes) + |taken|
      ensures done ==> s.pos == 0 && s.buf == sect.copied[..sect.pos] + taken
      ensures !done ==> s.pos == sect.pos + |taken| && s.copied[..s.pos] == sect.copied[..sect.pos] + taken && Rest() == []
    {
      s := sect;
      taken := [];
      assert old(Rest()) == [] + Rest() && sect.copied[..sect.pos] + [] == sect.copied[..sect.pos];
      if s.pos < s.size {
        if inPos == |nextIn| {
          return s, false, taken;
        }
        var take: nat;
        if !copy && s.pos == 0 {
          take := s.size;
          s := s.(buf := nextIn[inPos..inPos + take]);
          assert sect.copied[..0] + s.buf == s.buf;
        } else {
          take := Min(s.size - s.pos, |nextIn| - inPos);
          var copied := s.copied[..s.pos] + nextIn[inPos..inPos + take];
          s := s.(copied := copied, buf := copied);
        }
        taken := nextIn[inPos..inPos + take];
        assert old(Rest()) == taken + nextIn[inPos + take..];
        s := s.(pos := s.pos + take);
        decWinbytes := decWinbytes + take;
        inPos := inPos + take;
      } else {
        s := s.(buf := s.copied[..s.pos]);
      }
      if s.pos < s.size {
        return s, false, taken;
      }
      return s.(pos := 0), true, taken;
    }

    /** The data section with what has been taken for it; the next phase when it is complete. */
    method PutData(s: Desect, done: bool)
      requires Shaped() && decState == DATA && s.pos <= |s.copied|
      modifies this`dataSect, this`decState
      ensures Shaped() && dataSect == s && decState == (if done then INST else DATA)
      ensures View() == old(View()).(phase := decState, data := Seen(s, done))
    {
      hide Seen;
      ghost var m := View();
      dataSect := s;
      if done {
        decState := INST;
      }
      assert View() == m.(phase := decState, data := Seen(s, done));
    }

    method TakeData(copy: bool, ghost goal: Machine) returns (ret: Option<Ret>)
      requires On(goal) && failed.None? && decState == DATA && !SectionsOverflow(View())
      requires !copy ==> dataSect.size - dataSect.pos <= |nextIn| - inPos
      modifies this`inPos, this`decWinbytes, this`dataSect, this`decState
      ensures Answered(ret, goal, old(inPos), old(decState), events)
    {
      hide Feed, Silent, OnByte, Sane, NeedsByte, SizeDone, DecodeWindow, Emit, Stream.On;
      Started(goal);
      ghost var m := View();
      SectionFits(m);
      var s, done;
      ghost var taken;
      s, done, taken := DecodeSection(dataSect, copy);
      DataMoves(cfg, m, taken, Rest(), done);
      PutData(s, done);
      OnCourse(m.(data := Section(m.data.size, m.data.bytes + taken), phase := decState), goal);
      return if done then None else Some(NeedInput);
    }

    /** The instruction section with what has been taken for it; the next phase when it is complete. */
    method PutInst(s: Desect, done: bool)
      requires Shaped() && decState == INST && s.pos <= |s.copied|
      modifies this`instSect, this`decState
      ensures Shaped() && instSect == s && decState == (if done then ADDR else INST)
      ensures View() == old(View()).(phase := decState, inst := Seen(s, done))
    {
      hide Seen;
      ghost var m := View();
      instSect := s;
      if done {
        decState := ADDR;
      }
      assert View() == m.(phase := decState, inst := Seen(s, done));
    }

    method TakeInst(copy: bool, ghost goal: Machine) returns (ret: Option<Ret>)
      requires On(goal) && failed.None? && decState == INST && !SectionsOverflow(View())
      requires !copy ==> instSect.size - instSect.pos <= |nextIn| - inPos
      modifies this`inPos, this`decWinbytes, this`instSect, this`decState
      ensures Answered(ret, goal, old(inPos), old(decState), events)
    {
      hide Feed, Silent, OnByte, Sane, NeedsByte, SizeDone, DecodeWindow, Emit, Stream.On;
      Started(goal);
      ghost var m := View();
      SectionFits(m);
      var s, done;
      ghost var taken;
      s, done, taken := DecodeSection(instSect, copy);
      InstMoves(cfg, m, taken, Rest(), done);
      PutInst(s, done);
      OnCourse(m.(inst := Section(m.inst.size, m.inst.bytes + taken), phase := decState), goal);
      return if done then None else Some(NeedInput);
    }

    /** The address section with what has been taken for it; the next phase when it is complete. */
    method PutAddr(s: Desect, done: bool)
      requires Shaped() && decState == ADDR && s.pos <= |s.copied|
      modifies this`addrSect, this`decState
      ensures Shaped() && addrSect == s && decState == (if done then EMIT else ADDR)
      ensures View() == old(View()).(phase := decState, addr := Seen(s, done))
    {
      hide Seen;
      ghost var m := View();
      addrSect := s;
      if done {
        decState := EMIT;
      }
      assert View() == m.(phase := decState, addr := Seen(s, done));
    }

    method TakeAddr(copy: bool, ghost goal: Machine) returns (ret: Option<Ret>)
      requires On(goal) && failed.None? && decState == ADDR && !SectionsOverflow(View())
      requires !copy ==> addrSect.size - addrSect.pos <= |nextIn| - inPos
      modifies this`inPos, this`decWinbytes, this`addrSect, this`decState
      ensures Answered(ret, goal, old(inPos), old(decState), events)
    {
      hide Feed, Silent, OnByte, Sane, NeedsByte, SizeDone, DecodeWindow, Emit, Stream.On;
      Started(goal);
      ghost var m := View();
      SectionFits(m);
      var s, done;
      ghost var taken;
      s, done, taken := DecodeSection(addrSect, copy);
      AddrMoves(cfg, m, taken, Rest(), done);
      PutAddr(s, done);
      OnCourse(m.(addr := Section(m.addr.size, m.addr.bytes + taken), phase := decState), goal);
      return if done then None else Some(NeedInput);
    }

    /** The three sections: copying is avoided when all that is still needed of them is there. */
    method DecodeSections(ghost goal: Machine) returns (ret: Option<Ret>)
      requires On(goal) && failed.None? && DATA <= decState <= ADDR
      modifies this
      ensures Answered(ret, goal, old(inPos), old(decState), old(events)) && nextIn == old(nextIn) && dec == old(dec)
    {
      hide Feed, Silent, OnByte, Sane, NeedsByte, SizeDone, DecodeWindow, Emit;
      if instSect.size + addrSect.size >= TWO_64 || instSect.size + addrSect.size + dataSect.size >= TWO_64 {
        MoveOverflow(cfg, View(), Rest());
        var r := GiveUp(Internal, goal);
        return Some(r);
      }
      SectionFits(View());
      var need := instSect.size + addrSect.size + dataSect.size;
      var more := need - decWinbytes;
      var copy := |nextIn| - inPos < more;
      if decState == DATA {
        ret := TakeData(copy, goal);
      } else if decState == INST {
        ret := TakeInst(copy, goal);
      } else {
        ret := TakeAddr(copy, goal);
      }
    }

    lemma Apart()
      requires Resumable()
      ensures Supplies(cfg, source) && this !in Window() && (dec != null ==> this !in dec.Frame() && dec.source == source)
    {
    }

    lemma NoWindowLeft()
      requires Shaped() && Supplies(cfg, source) && dec == null
      ensures Resumable()
    {
    }

    lemma EmitSections()
      requires Valid() && decState == EMIT
      ensures Shaped() && Sane(View()) && View().phase == EMIT && failed == View().failed
      ensures WindowEnv(cfg, View()).Valid()
      ensures WindowEnv(cfg, View()) == Env(if cfg.src.Some? then cfg.src.value else [], cfg.blksize, decCpyoff, decCpylen, decTgtlen)
      ensures Decoded(cfg, View()) == DecodeWindow(WindowEnv(cfg, View()), instSect.buf, dataSect.buf, addrSect.buf)
    {
      hide DecodeWindow;
    }

    /** The window that is to be decoded begins. */
    method OpenWindow()
      requires Valid() && Resumable() && dec == null && decState == EMIT
      requires !Flag(decWinInd, VCD_TARGET) && (Flag(decWinInd, VCD_SOURCE) ==> cfg.src.Some?)
      modifies this`dec
      ensures dec != null && Resumable() && fresh(dec.Own())
    {
      hide Feed, Sane, DecodeWindow, WindowDecoder.Remaining, WindowDecoder.Pending, Finished, Stream.Valid, Seen, Decoded;
      hide Stream.Resumable, WindowDecoder.Decoder.Valid, WindowDecoder.Decoder.Underway, WindowDecoder.Decoder.Promise, WindowEnv;
      hide Env.Valid, Block, Source.Valid, NeedsByte;
      EmitSections();
      Apart();
      var env := Env(source.src, cfg.blksize, decCpyoff, decCpylen, decTgtlen);
      var d := new WindowDecoder.Decoder(env, instSect.buf, dataSect.buf, addrSect.buf, decTgtlen, source);
      Adopt(d);
    }

    /** The window being decoded from now on. */
    method Adopt(d: WindowDecoder.Decoder)
      requires Shaped() && Supplies(cfg, source) && decState == EMIT && Sane(View())
      requires !Flag(decWinInd, VCD_TARGET) && (Flag(decWinInd, VCD_SOURCE) ==> cfg.src.Some?)
      requires d.Underway() && d.source == source && this !in d.Frame() && d.Promise() == Decoded(cfg, View())
      modifies this`dec
      ensures dec == d && Resumable()
    {
      hide Sane, Decoded, WindowDecoder.Decoder.Underway, WindowDecoder.Decoder.Promise, Supplies;
      dec := d;
    }

    /** The decoder comes back for a block, with the window on its way. */
    ghost predicate Held(ret: WindowDecoder.Ret, answer: nat -> Answer)
      reads this, Window(), if dec == null then {} else {dec.codeTable}
    {
      Resumable() && dec != null && dec.Stopped(ret, answer)
    }

    /** How far the window is on its way, if it is. */
    ghost function Where(): WindowDecoder.Mark
      reads this, Window(), if dec == null then {} else {dec.codeTable}
    {
      if dec == null then WindowDecoder.NOWHERE else dec.Now()
    }

    /** Goes on with the instructions of the window, and compares the checksum in the end. */
    method RunWindow(answer: nat -> Answer) returns (r: WindowDecoder.Ret)
      requires Valid() && Resumable() && dec != null
      modifies dec.Frame()
      ensures Supplies(cfg, source) && Sane(View())
      ensures r.Window? ==> Checked(cfg, View()) == Ok(r.bytes)
      ensures r.Invalid? ==> Checked(cfg, View()) == InvalidInput
      ensures r.NeedBlock? || r.OutOfReach? ==> Held(r, answer) && dec.Beyond(old(Where()))
    {
      hide Feed, Silent, OnByte, NeedsByte, SizeDone, DecodeWindow, Emit, Adler.Checksum, WindowDecoder.Decoder.Valid;
      hide WindowDecoder.Remaining, WindowDecoder.Pending, Finished, Sane, Decoded;
      ghost var m := View();
      r := dec.Emit(answer);
      assert View() == m;
      if r.Window? && Flag(decWinInd, VCD_ADLER32) {
        var a32 := Adler.Adler32(1, r.bytes);
        Adler.FromOne(r.bytes);
        if a32 != decAdler32 {
          return WindowDecoder.Invalid;
        }
      }
    }

    /** Decodes the window and checks it, or as much of it as the blocks there allow. */
    method EmitWindow(ghost goal: Machine, answer: nat -> Answer) returns (ret: Ret)
      requires On(goal) && failed.None? && decState == EMIT && Resumable()
      modifies this, Window()
      ensures Replied(ret, goal, old(inPos), old(decState), old(events)) && nextIn == old(nextIn) && inPos == old(inPos)
      ensures Paused(ret, answer) && (dec == null || dec == old(dec) || fresh(dec.Own()))
      ensures Waiting(ret) && old(dec) != null ==> dec == old(dec) && dec.Beyond(old(Where()))
    {
      hide Feed, Silent, OnByte, Sane, NeedsByte, SizeDone, DecodeWindow, Emit, WindowDecoder.Decoder.Underway;
      hide WindowDecoder.Decoder.Beyond, WindowDecoder.Decoder.Stopped, Checked, Seen, Stream.Resumable, Stream.Held, Supplies;
      hide Stream.Tidy, Env.Valid;
      Apart();
      MoveEmit(cfg, View(), Rest());
      if Flag(decWinInd, VCD_TARGET) {
        ret := GiveUp(Unimplemented, goal);
        return;
      }
      if Flag(decWinInd, VCD_SOURCE) && cfg.src.None? {
        ret := GiveUp(BadInput, goal);
        return;
      }
      if dec == null {
        OpenWindow();
      }
      Apart();
      var r := RunWindow(answer);
      if r.NeedBlock? {
        return NeedBlock(r.blkno);
      }
      if r.OutOfReach? {
        return OutOfReach;
      }
      ret := CloseWindow(r, goal);
    }

    /** The window is done, for better or worse. */
    method CloseWindow(r: WindowDecoder.Ret, ghost goal: Machine) returns (ret: Ret)
      requires On(goal) && failed.None? && decState == EMIT && Sane(View()) && (r.Window? || r.Invalid?)
      requires !Flag(decWinInd, VCD_TARGET) && (Flag(decWinInd, VCD_SOURCE) ==> cfg.src.Some?)
      requires Checked(cfg, View()) == if r.Window? then Ok(r.bytes) else InvalidInput
      requires Supplies(cfg, source)
      modifies this
      ensures Answered(Some(ret), goal, old(inPos), old(decState), old(events)) && !Waiting(ret)
      ensures nextIn == old(nextIn) && inPos == old(inPos) && dec == null && (!ret.Failed? ==> Resumable())
    {
      hide Feed, Silent, OnByte, Sane, NeedsByte, SizeDone, DecodeWindow, Emit, Checked, Seen, Stream.Resumable, Supplies;
      MoveEmit(cfg, View(), Rest());
      ghost var m := View();
      dec := null;
      if r.Invalid? {
        ret := GiveUp(BadInput, goal);
        return;
      }
      FinishWindow(r.bytes, m);
      NoWindowLeft();
      return Reported(Output(r.bytes));
    }

    /** The sections are ready to be filled again. */
    method ResetSections()
      requires Shaped() && decState == EMIT
      modifies this`decWinbytes, this`dataSect, this`instSect, this`addrSect
      ensures Shaped() && decWinbytes == 0 && dataSect.pos == 0 && instSect.pos == 0 && addrSect.pos == 0
      ensures View() == old(View())
    {
      ghost var m := View();
      decWinbytes := 0;
      dataSect, instSect, addrSect := dataSect.(pos := 0), instSect.(pos := 0), addrSect.(pos := 0);
      assert View() == m;
    }

    method FinishWindow(ghost w: seq<byte>, ghost m: Machine)
      requires Shaped() && decState == EMIT && View() == m
      modifies this`decWinbytes, this`decState, this`dataSect, this`instSect, this`addrSect, this`events
      ensures Shaped() && decWinbytes == 0 && dataSect.pos == 0 && instSect.pos == 0 && addrSect.pos == 0
      ensures events == old(events) + [Output(w)] && decState == FINISH
      ensures View() == m.(phase := FINISH, events := m.events + [Output(w)], data := Section(m.data.size, []),
                           inst := Section(m.inst.size, []), addr := Section(m.addr.size, []))
    {
      ResetSections();
      hide Seen;
      SeenNone(dataSect);
      SeenNone(instSect);
      SeenNone(addrSect);
      decState := FINISH;
      events := events + [Output(w)];
    }

    /** The window is done; the next one is counted. */
    method NextWindow(ghost goal: Machine) returns (ret: Option<Ret>)
      requires On(goal) && failed.None? && decState == FINISH
      modifies this
      ensures Answered(ret, goal, old(inPos), old(decState), old(events)) && nextIn == old(nextIn) && dec == old(dec)
    {
      hide Feed, Silent, OnByte, Sane, NeedsByte, SizeDone, DecodeWindow, Emit;
      MoveFinish(cfg, View(), Rest());
      decWindowCount, decState := decWindowCount + 1, WIN_IND;
      events := events + [WinFinish];
      return Some(Reported(WinFinish));
    }

    /** One case of the decoder's state. */
    method Step(ghost goal: Machine, answer: nat -> Answer) returns (ret: Option<Ret>)
      requires On(goal) && failed.None? && Resumable()
      modifies this, Window()
      ensures ret.None? ==> Answered(ret, goal, old(inPos), old(decState), old(events)) && Resumable() && dec == old(dec) == null
      ensures ret.Some? ==> Replied(ret.value, goal, old(inPos), old(decState), old(events)) && Paused(ret.value, answer)
      ensures ret.Some? && Waiting(ret.value) ==> inPos == old(inPos) && decState == old(decState)
      ensures ret.Some? && Waiting(ret.value) && old(dec) != null ==> dec == old(dec) && dec.Beyond(old(Where()))
      ensures nextIn == old(nextIn) && (dec == null || dec == old(dec) || fresh(dec.Own()))
    {
      hide Stream.On, Stream.Answered, Sane, Feed, Stream.Resumable, WindowDecoder.Decoder.Beyond, Supplies;
      hide WindowDecoder.Decoder.Stopped;
      if decState == EMIT {
        var r := EmitWindow(goal, answer);
        EmitPhase(r, goal, old(inPos), old(decState), old(events));
        return Some(r);
      }
      NoWindow();
      ret := OtherStep(goal);
      StillNoWindow(ret, goal, old(inPos), old(decState), old(events));
    }

    lemma EmitPhase(ret: Ret, goal: Machine, pos: nat, phase: Phase, was: seq<Event>)
      requires Replied(ret, goal, pos, phase, was) && phase == EMIT
      ensures Waiting(ret) ==> decState == EMIT
    {
      hide Feed, Sane;
    }

    lemma NoWindow()
      requires Resumable() && decState != EMIT
      ensures dec == null && Supplies(cfg, source)
    {
    }

    lemma StillNoWindow(ret: Option<Ret>, goal: Machine, pos: nat, phase: Phase, was: seq<Event>)
      requires Answered(ret, goal, pos, phase, was) && dec == null && Supplies(cfg, source)
      ensures Resumable() && (ret.Some? ==> !Waiting(ret.value))
    {
      hide Feed, Sane;
    }

    /** A case that has nothing to do with the window's instructions. */
    method OtherStep(ghost goal: Machine) returns (ret: Option<Ret>)
      requires On(goal) && failed.None? && decState != EMIT
      modifies this
      ensures Answered(ret, goal, old(inPos), old(decState), old(events)) && nextIn == old(nextIn) && dec == old(dec)
    {
      hide Stream.On, Stream.Answered, Sane, Feed;
      if decState == VC_HEAD {
        ret := VersionHead(goal);
      } else if decState == HDR_IND {
        ret := HeaderIndicator(goal);
      } else if decState == SECOND_ID {
        ret := SecondaryId(goal);
      } else if TakesNumber(decState) {
        ret := NumberStep(goal);
      } else if decState == NEAR || decState == SAME {
        ret := CacheSizes(goal);
      } else if decState == TAB_DAT {
        ret := CodeTableData(goal);
      } else if decState == APP_DAT {
        ret := AppHeader(goal);
      } else if decState == WIN_IND {
        ret := WindowIndicator(goal);
      } else if decState == DEL_IND {
        ret := DeltaIndicator(goal);
      } else if decState == CKSUM {
        ret := WindowChecksum(goal);
      } else if decState <= ADDR {
        ret := DecodeSections(goal);
      } else {
        ret := NextWindow(goal);
      }
    }

    /** One call: goes on until there is something to report, input or a block is wanted, or the file is found wrong. */
    method DecodeInput(ghost goal: Machine, answer: nat -> Answer) returns (ret: Ret)
      requires On(goal) && failed.None? && Resumable()
      modifies this, Window()
      ensures Replied(ret, goal, old(inPos), old(decState), old(events)) && nextIn == old(nextIn)
      ensures Paused(ret, answer) && (dec == null || dec == old(dec) || fresh(dec.Own()))
      ensures Waiting(ret) ==> Nearer(old(inPos), old(decState), old(dec), old(Where()))
    {
      hide Stream.On, Sane, Feed, WindowDecoder.Decoder.Beyond, WindowDecoder.Decoder.Stopped, WindowDecoder.Decoder.Now;
      hide Stream.Resumable;
      var r := Step(goal, answer);
      if r.None? {
        InputLeft(goal);
      }
      while r.None?
        invariant r.None? ==> On(goal) && failed.None? && Resumable() && dec == null && events == old(events)
        invariant r.None? ==> Further(old(inPos), old(decState)) && inPos <= |nextIn|
        invariant r.Some? ==> Replied(r.value, goal, old(inPos), old(decState), old(events)) && Paused(r.value, answer)
        invariant r.Some? && Waiting(r.value) ==> Nearer(old(inPos), old(decState), old(dec), old(Where()))
        invariant nextIn == old(nextIn) && (dec == null || dec == old(dec) || fresh(dec.Own()))
        decreases r.None?, |nextIn| - inPos, Rank(decState)
      {
        r := Step(goal, answer);
        if r.None? {
          InputLeft(goal);
        }
      }
      return r.value;
    }

    /** Closer to the end of the input, or of the window: what a return for a block has got done since the call. */
    ghost predicate Nearer(pos: nat, phase: Phase, was: WindowDecoder.Decoder?, mark: WindowDecoder.Mark)
      reads this, Window(), if dec == null then {} else {dec.codeTable}
    {
      || Further(pos, phase)
      || (inPos == pos && decState == phase && dec != null && (was != null ==> dec == was && dec.Beyond(mark)))
    }

    /** With the block it waited for at hand, the decoder has got something done when it next waits for one. */
    lemma GoneOn(ret: Ret, goal: Machine, pos: nat, phase: Phase, was: WindowDecoder.Decoder?, mark: WindowDecoder.Mark,
                 answer: nat -> Answer)
      requires ret.NeedBlock? && Paused(ret, answer) && Nearer(pos, phase, was, mark) && On(goal)
      requires was != null ==> mark.wants == mark.atHand
      ensures Resumable() && dec != null && Where().wants == Some(ret.blkno) && inPos <= |nextIn|
      ensures Further(pos, phase)
              || (inPos == pos && decState == phase && (was != null ==> dec == was && Where().work < mark.work))
    {
      hide Feed, Sane, WindowDecoder.Pending, WindowDecoder.Remaining, Finished;
    }

    lemma Unreachable(answer: nat -> Answer)
      requires Held(WindowDecoder.OutOfReach, answer)
      ensures exists blkno :: answer(blkno) == TooFarBack
    {
      hide WindowDecoder.Pending, WindowDecoder.Remaining, Finished;
    }

    /** The application puts a block in place while the decoder waits. */
    method Supply(blkno: nat, ghost goal: Machine)
      requires Resumable() && On(goal) && dec != null
      modifies source`curblk, source`curblkno
      ensures Resumable() && On(goal) && source.curblkno == Some(blkno)
      ensures dec == old(dec) && Where() == old(Where()).(atHand := Some(blkno))
    {
      hide WindowDecoder.Pending, WindowDecoder.Remaining, Finished;
      source.Provide(blkno);
    }

    /** The block waited for, if one is, has been put in place. */
    ghost predicate Supplied()
      reads this, Window(), if dec == null then {} else {dec.codeTable}
    {
      dec != null ==> Where().wants == Where().atHand
    }

    lemma NothingToSupply()
      requires dec == null
      ensures Supplied()
    {
    }

    /** One call, and the block it asks for put in place. */
    method Serve(ghost goal: Machine, answer: nat -> Answer) returns (ret: Ret)
      requires On(goal) && failed.None? && Resumable() && Supplied()
      modifies this, Window()
      ensures On(goal) && nextIn == old(nextIn) && (dec == null || dec == old(dec) || fresh(dec.Own()))
      ensures ret.NeedInput? ==> failed.None? && Rest() == [] && NeedsByte(View()) && Resumable() && dec == null
      ensures ret.Failed? ==> failed == Some(ret.error)
      ensures ret.OutOfReach? ==> failed.None? && exists blkno :: answer(blkno) == TooFarBack
      ensures ret.NeedBlock? || ret.Reported? ==> failed.None? && Resumable() && Supplied() && inPos <= |nextIn|
      ensures ret.NeedBlock? || ret.Reported? ==>
        || Further(old(inPos), old(decState))
        || (inPos == old(inPos) && decState == old(decState) && dec != null
            && (old(dec) != null ==> dec == old(dec) && Where().work < old(Where().work)))
    {
      hide Feed, Sane, Stream.Resumable, Stream.Held, Stream.Nearer, WindowDecoder.Decoder.Now, Stream.Valid, NeedsByte;
      ghost var pos, phase, was, mark := inPos, decState, dec, Where();
      ret := DecodeInput(goal, answer);
      InputLeft(goal);
      if ret.NeedBlock? {
        GoneOn(ret, goal, pos, phase, was, mark, answer);
        Supply(ret.blkno, goal);
      } else if ret.OutOfReach? {
        Unreachable(answer);
      }
    }

    /** The application's loop: the decoder is called, and given the blocks it asks for, until it wants more than this
        chunk. What the application answers may differ from call to call. */
    method Process(chunk: seq<byte>, answers: nat -> nat -> Answer) returns (ret: Ret)
      requires Valid() && failed.None? && inPos == |nextIn| && Resumable() && dec == null
      modifies this, Window()
      ensures Valid() && (ret.NeedInput? || ret.Failed? || ret.OutOfReach?) && (dec == null || dec == old(dec) || fresh(dec.Own()))
      ensures ret.NeedInput? || ret.Failed? ==> View() == Feed(cfg, old(View()), chunk)
      ensures ret.NeedInput? ==> failed.None? && inPos == |nextIn| && Resumable() && dec == null
      ensures ret.Failed? ==> failed == Some(ret.error)
      ensures ret.OutOfReach? ==> failed.None? && Feed(cfg, View(), Rest()) == Feed(cfg, old(View()), chunk)
      ensures ret.OutOfReach? ==> exists call, blkno :: answers(call)(blkno) == TooFarBack
    {
      hide Feed, Sane, Stream.Resumable, Stream.Supplied, WindowDecoder.Decoder.Now, Stream.Where, NeedsByte, Stream.Tidy;
      ghost var goal := Feed(cfg, View(), chunk);
      TakeChunk(chunk);
      ret := ServeAll(goal, answers);
      if ret.NeedInput? {
        FeedDone(cfg, View());
      } else if ret.Failed? {
        FeedFailed(cfg, View(), Rest());
      }
    }

    /** The next chunk is the input. */
    method TakeChunk(chunk: seq<byte>)
      requires Valid() && Resumable() && dec == null
      modifies this`nextIn, this`inPos
      ensures Valid() && View() == old(View()) && Rest() == chunk && Resumable() && Supplied()
    {
      hide Sane, Seen, Stream.Tidy, Stream.Resumable, Stream.Supplied, Supplies;
      Apart();
      nextIn, inPos := chunk, 0;
      NoWindowLeft();
      NothingToSupply();
    }

    method ServeAll(ghost goal: Machine, answers: nat -> nat -> Answer) returns (ret: Ret)
      requires On(goal) && failed.None? && Resumable() && Supplied() && dec == null
      modifies this, Window()
      ensures On(goal) && (ret.NeedInput? || ret.Failed? || ret.OutOfReach?)
      ensures dec == null || dec == old(dec) || fresh(dec.Own())
      ensures ret.NeedInput? ==> failed.None? && Rest() == [] && NeedsByte(View()) && Resumable() && dec == null
      ensures ret.Failed? ==> failed == Some(ret.error)
      ensures ret.OutOfReach? ==> failed.None? && exists call, blkno :: answers(call)(blkno) == TooFarBack
    {
      hide Feed, Sane, Stream.Resumable, Stream.Supplied, WindowDecoder.Decoder.Now, Stream.Where, NeedsByte, Stream.On;
      var call := 0;
      Apart();
      ret := Serve(goal, answers(call));
      InputLeft(goal);
      while ret.NeedBlock? || ret.Reported?
        invariant Shaped() && On(goal) && (dec == null || dec == old(dec) || fresh(dec.Own()))
        invariant ret.NeedInput? ==> failed.None? && Rest() == [] && NeedsByte(View()) && Resumable() && dec == null
        invariant ret.Failed? ==> failed == Some(ret.error)
        invariant ret.OutOfReach? ==> failed.None? && exists call, blkno :: answers(call)(blkno) == TooFarBack
        invariant ret.NeedBlock? || ret.Reported? ==> failed.None? && Resumable() && Supplied() && inPos <= |nextIn|
        decreases ret.NeedBlock? || ret.Reported?, |nextIn| - inPos, Rank(decState), dec == null, Where().work
      {
        Apart();
        call := call + 1;
        ret := Serve(goal, answers(call));
        InputLeft(goal);
      }
    }

    /** A whole file in chunks: neither how it is cut nor when blocks of the source arrive makes a difference to the
        windows or to the error. */
    method ProcessAll(chunks: seq<seq<byte>>, answers: nat -> nat -> nat -> Answer) returns (ret: Ret)
      requires Valid() && failed.None? && inPos == |nextIn| && Waits(View()) && Resumable() && dec == null
      modifies this, Window()
      ensures Valid() && (ret.NeedInput? || ret.Failed? || ret.OutOfReach?)
      ensures ret.NeedInput? || ret.Failed? ==> View() == Feed(cfg, old(View()), Joined(chunks))
      ensures ret.NeedInput? ==> failed.None?
      ensures ret.Failed? ==> failed == Some(ret.error)
      ensures ret.OutOfReach? ==> exists i, call, blkno :: answers(i)(call)(blkno) == TooFarBack
    {
      hide Feed, Sane, NeedsByte, Stream.Resumable;
      ghost var start := View();
      FeedDone(cfg, start);
      ret := NeedInput;
      var i := 0;
      while i < |chunks| && ret.NeedInput?
        invariant i <= |chunks| && Valid() && (ret.NeedInput? || ret.Failed? || ret.OutOfReach?)
        invariant ret.NeedInput? ==> failed.None? && inPos == |nextIn| && Resumable() && dec == null
        invariant ret.Failed? ==> failed == Some(ret.error)
        invariant ret.NeedInput? || ret.Failed? ==> View() == Feed(cfg, start, Joined(chunks[..i]))
        invariant ret.OutOfReach? ==> exists i, call, blkno :: answers(i)(call)(blkno) == TooFarBack
        invariant (dec == null || dec == old(dec) || fresh(dec.Own()))
      {
        JoinedNext(chunks, i);
        FeedInTwo(cfg, start, Joined(chunks[..i]), chunks[i]);
        ret := Process(chunks[i], answers(i));
        i := i + 1;
      }
      if ret.OutOfReach? {
        return;
      }
      JoinedSplit(chunks, i);
      FeedInTwo(cfg, start, Joined(chunks[..i]), Joined(chunks[i..]));
      if ret.NeedInput? {
        assert Joined(chunks[i..]) == [];
        FeedDone(cfg, View());
      } else {
        FeedFailed(cfg, View(), Joined(chunks[i..]));
      }
    }
  }

  /** The source has the bytes the stream is configured with. */
  ghost predicate Supplies(cfg: Config, source: Source)
    reads source
  {
    source.Valid() && source.blksize == cfg.blksize && source.src == if cfg.src.Some? then cfg.src.value else []
  }

  predicate Waiting(ret: Ret) {
    ret.NeedBlock? || ret.OutOfReach?
  }

  ghost function Decoded(cfg: Config, m: Machine): Result<seq<byte>>
    requires cfg.blksize > 0 && Sane(m) && m.phase == EMIT
  {
    DecodeWindow(WindowEnv(cfg, m), m.inst.bytes, m.data.bytes, m.addr.bytes)
  }

  /** What the sections of the window decode to, if that agrees with the checksum. */
  ghost function Checked(cfg: Config, m: Machine): Result<seq<byte>>
    requires cfg.blksize > 0 && Sane(m) && m.phase == EMIT
  {
    var r := Decoded(cfg, m);
    if r.Ok? && Flag(m.winInd, VCD_ADLER32) && Adler.Checksum(r.value) != m.adler32 then InvalidInput else r
  }

  lemma {:induction false} JoinedSplit(chunks: seq<seq<byte>>, i: nat)
    requires i <= |chunks|
    ensures Joined(chunks) == Joined(chunks[..i]) + Joined(chunks[i..])
  {
    if i == 0 {
      assert chunks[0..] == chunks && [] + Joined(chunks) == Joined(chunks);
    } else {
      JoinedSplit(chunks[1..], i - 1);
      assert chunks[1..][i - 1..] == chunks[i..];
      assert chunks[..i][0] == chunks[0] && chunks[..i][1..] == chunks[1..][..i - 1];
      AssociateBytes(chunks[0], Joined(chunks[1..][..i - 1]), Joined(chunks[i..]));
    }
  }

  lemma JoinedNext(chunks: seq<seq<byte>>, i: nat)
    requires i < |chunks|
    ensures Joined(chunks[..i + 1]) == Joined(chunks[..i]) + chunks[i]
  {
    JoinedSplit(chunks[..i + 1], i);
    assert chunks[..i + 1][..i] == chunks[..i] && chunks[..i + 1][i..] == [chunks[i]];
    assert Joined([chunks[i]]) == chunks[i] + Joined([]);
  }

  lemma SectionFits(m: Machine)
    requires Sane(m)
    ensures |m.data.bytes| <= m.data.size && |m.inst.bytes| <= m.inst.size && |m.addr.bytes| <= m.addr.size
  {
  }

  lemma MoveOverflow(cfg: Config, m: Machine, input: seq<byte>)
    requires cfg.blksize > 0 && Sane(m) && m.failed.None? && m.phase == DATA && SectionsOverflow(m)
    ensures Sane(Fail(m, Internal)) && Feed(cfg, m, input) == Feed(cfg, Fail(m, Internal), input)
  {
    hide Feed;
    FeedSilent(cfg, m, input);
  }

  lemma MoveSection(cfg: Config, m: Machine, taken: seq<byte>, rest: seq<byte>)
    requires cfg.blksize > 0 && Sane(m) && m.failed.None? && DATA <= m.phase <= ADDR && !SectionsOverflow(m)
    requires m.phase == DATA ==> |m.data.bytes| + |taken| <= m.data.size
    requires m.phase == INST ==> |m.inst.bytes| + |taken| <= m.inst.size
    requires m.phase == ADDR ==> |m.addr.bytes| + |taken| <= m.addr.size
    ensures
      var n := Collected(m, taken);
      && Sane(n) && !SectionsOverflow(n)
      && (NeedsByte(n) ==> Feed(cfg, m, taken + rest) == Feed(cfg, n, rest))
      && (NeedsByte(n) <==>
            (m.phase == DATA && |n.data.bytes| < n.data.size) || (m.phase == INST && |n.inst.bytes| < n.inst.size)
            || (m.phase == ADDR && |n.addr.bytes| < n.addr.size))
      && (!NeedsByte(n) ==>
            && Sane(n.(phase := m.phase + 1)) && !SectionsOverflow(n.(phase := m.phase + 1))
            && Feed(cfg, m, taken + rest) == Feed(cfg, n.(phase := m.phase + 1), rest))
  {
    hide Feed;
    var n := Collected(m, taken);
    if NeedsByte(m) {
      FeedMany(cfg, m, taken, rest);
    } else {
      assert taken == [];
      CollectTwice(m, [], []);
      assert taken + rest == rest;
    }
    if !NeedsByte(n) {
      FeedSilent(cfg, n, rest);
    }
  }

  lemma DataMoves(cfg: Config, m: Machine, taken: seq<byte>, rest: seq<byte>, done: bool)
    requires cfg.blksize > 0 && Sane(m) && m.failed.None? && m.phase == DATA && !SectionsOverflow(m)
    requires |m.data.bytes| + |taken| <= m.data.size && (done <==> |m.data.bytes| + |taken| == m.data.size)
    ensures
      var n := m.(data := Section(m.data.size, m.data.bytes + taken), phase := if done then INST else DATA);
      Sane(n) && (!done ==> NeedsByte(n)) && Feed(cfg, m, taken + rest) == Feed(cfg, n, rest)
  {
    hide Feed, Sane, NeedsByte, SectionsOverflow;
    MoveSection(cfg, m, taken, rest);
    assert Collected(m, taken) == m.(data := Section(m.data.size, m.data.bytes + taken));
  }

  lemma InstMoves(cfg: Config, m: Machine, taken: seq<byte>, rest: seq<byte>, done: bool)
    requires cfg.blksize > 0 && Sane(m) && m.failed.None? && m.phase == INST && !SectionsOverflow(m)
    requires |m.inst.bytes| + |taken| <= m.inst.size && (done <==> |m.inst.bytes| + |taken| == m.inst.size)
    ensures
      var n := m.(inst := Section(m.inst.size, m.inst.bytes + taken), phase := if done then ADDR else INST);
      Sane(n) && (!done ==> NeedsByte(n)) && Feed(cfg, m, taken + rest) == Feed(cfg, n, rest)
  {
    hide Feed, Sane, NeedsByte, SectionsOverflow;
    MoveSection(cfg, m, taken, rest);
    assert Collected(m, taken) == m.(inst := Section(m.inst.size, m.inst.bytes + taken));
  }

  lemma AddrMoves(cfg: Config, m: Machine, taken: seq<byte>, rest: seq<byte>, done: bool)
    requires cfg.blksize > 0 && Sane(m) && m.failed.None? && m.phase == ADDR && !SectionsOverflow(m)
    requires |m.addr.bytes| + |taken| <= m.addr.size && (done <==> |m.addr.bytes| + |taken| == m.addr.size)
    ensures
      var n := m.(addr := Section(m.addr.size, m.addr.bytes + taken), phase := if done then EMIT else ADDR);
      Sane(n) && (!done ==> NeedsByte(n)) && Feed(cfg, m, taken + rest) == Feed(cfg, n, rest)
  {
    hide Feed, Sane, NeedsByte, SectionsOverflow;
    MoveSection(cfg, m, taken, rest);
    assert Collected(m, taken) == m.(addr := Section(m.addr.size, m.addr.bytes + taken));
  }

  lemma MoveEmit(cfg: Config, m: Machine, input: seq<byte>)
    requires cfg.blksize > 0 && Sane(m) && m.failed.None? && m.phase == EMIT
    ensures
      var r := Checked(cfg, m);
      var n := if Flag(m.winInd, VCD_TARGET) then Fail(m, Unimplemented)
               else if (Flag(m.winInd, VCD_SOURCE) && cfg.src.None?) || r.InvalidInput? then Fail(m, BadInput)
               else m.(phase := FINISH, events := m.events + [Output(r.value)],
                       data := Section(m.data.size, []), inst := Section(m.inst.size, []),
                       addr := Section(m.addr.size, []));
      Sane(n) && Feed(cfg, m, input) == Feed(cfg, n, input)
  {
    hide Feed, DecodeWindow, Adler.Checksum;
    FeedSilent(cfg, m, input);
  }

  lemma MoveFinish(cfg: Config, m: Machine, input: seq<byte>)
    requires cfg.blksize > 0 && Sane(m) && m.failed.None? && m.phase == FINISH
    ensures
      var n := m.(phase := WIN_IND, count := m.count + 1, events := m.events + [WinFinish]);
      Sane(n) && Feed(cfg, m, input) == Feed(cfg, n, input)
  {
    hide Feed;
    FeedSilent(cfg, m, input);
  }

  /** A byte pushed into a 32-bit word from below. */
  function Push(x: nat, b: byte): nat {
    (x * 256 + b) % 0x1_0000_0000
  }

  lemma ModMod(n: nat, k: nat, c: nat)
    requires k > 0 && c > 0
    ensures k * c > 0 && (n % (k * c)) % k == n % k
  {
    var q, r := n / (k * c), n % (k * c);
    assert n == (k * c) * q + r;
    assert n == k * (c * q + r / k) + r % k by {
      assert (k * c) * q == k * (c * q);
      assert r == k * (r / k) + r % k;
      assert k * (c * q + r / k) == k * (c * q) + k * (r / k);
    }
    DivUnique(k, n, c * q + r / k, r % k);
  }

  lemma PushParts(x: nat, b: byte, k: nat)
    requires k > 0
    ensures x * 256 + b == (256 * k) * (x / k) + ((x % k) * 256 + b)
  {
    assert x == k * (x / k) + x % k;
    assert (256 * k) * (x / k) == 256 * (k * (x / k));
  }

  /** After pushing, the low bytes are the ones pushed, whatever was above them. */
  lemma PushMod(x: nat, b: byte, k: nat, c: nat)
    requires k > 0 && c > 0 && 256 * k * c == 0x1_0000_0000
    ensures Push(x, b) % (256 * k) == (x % k) * 256 + b
  {
    var n := x * 256 + b;
    ModMod(n, 256 * k, c);
    PushParts(x, b, k);
    DivUnique(256 * k, n, x / k, (x % k) * 256 + b);
  }

  /** Four bytes pushed into a 32-bit word push out whatever was in it before. */
  lemma FourPushed(was: nat, b0: byte, b1: byte, b2: byte, b3: byte)
    ensures Push(Push(Push(Push(was, b0), b1), b2), b3) == BigEndian([b0, b1, b2, b3])
  {
    var p1 := Push(was, b0);
    var p2 := Push(p1, b1);
    var p3 := Push(p2, b2);
    PushMod(was, b0, 1, 0x100_0000);
    PushMod(p1, b1, 0x100, 0x1_0000);
    PushMod(p2, b2, 0x1_0000, 0x100);
    PushMod(p3, b3, 0x100_0000, 1);
    assert [b0, b1, b2, b3][..3] == [b0, b1, b2] && [b0, b1, b2][..2] == [b0, b1] && [b0, b1][..1] == [b0];
    assert [b0][..0] == [];
    assert BigEndian([b0]) == b0 && BigEndian([b0, b1]) == b0 * 256 + b1;
    assert BigEndian([b0, b1, b2]) == (b0 * 256 + b1) * 256 + b2;
    hide Push, BigEndian;
  }

  method ShiftIn(was: nat, bytes: seq<byte>) returns (a: nat)
    requires |bytes| == 4
    ensures a == BigEndian(bytes)
  {
    hide Push, BigEndian;
    a := was;
    for i := 0 to 4
      invariant i == 0 ==> a == was
      invariant i == 1 ==> a == Push(was, bytes[0])
      invariant i == 2 ==> a == Push(Push(was, bytes[0]), bytes[1])
      invariant i == 3 ==> a == Push(Push(Push(was, bytes[0]), bytes[1]), bytes[2])
      invariant i == 4 ==> a == Push(Push(Push(Push(was, bytes[0]), bytes[1]), bytes[2]), bytes[3])
    {
      a := Push(a, bytes[i]);
    }
    FourPushed(was, bytes[0], bytes[1], bytes[2], bytes[3]);
    assert bytes == [bytes[0], bytes[1], bytes[2], bytes[3]];
  }

  lemma CksumFits(m: Machine)
    requires Sane(m)
    ensures |m.cksum| <= 4
  {
  }

  lemma TakeCksum(cfg: Config, m: Machine, taken: seq<byte>, rest: seq<byte>)
    requires cfg.blksize > 0 && Sane(m) && m.failed.None? && m.phase == CKSUM
    requires Flag(m.winInd, VCD_ADLER32) && |m.cksum| + |taken| <= 4
    ensures
      var n := m.(cksum := m.cksum + taken);
      Sane(n) && (NeedsByte(n) <==> |n.cksum| < 4) && Feed(cfg, m, taken + rest) == Feed(cfg, n, rest)
  {
    hide Feed;
    FeedMany(cfg, m, taken, rest);
  }

  lemma MoveCksum(cfg: Config, m: Machine, input: seq<byte>)
    requires cfg.blksize > 0 && Sane(m) && m.failed.None? && m.phase == CKSUM
    requires Flag(m.winInd, VCD_ADLER32) ==> |m.cksum| == 4
    ensures
      var n := m.(adler32 := if Flag(m.winInd, VCD_ADLER32) then BigEndian(m.cksum) else m.adler32);
      var r := if m.enclen != EnclenCheck(m) then Fail(n, BadInput)
               else n.(phase := DATA, events := m.events + [if m.count == 0 then GotHeader else WinStart]);
      Sane(r) && Feed(cfg, m, input) == Feed(cfg, r, input)
  {
    hide Feed;
    FeedSilent(cfg, m, input);
  }

  lemma OffsetSane(m: Machine, v: nat)
    requires Sane(m) && m.phase == CPY_OFF && v < TWO_64
    ensures Sane(m.(cpyoff := v)) && Sane(CheckCopyWindow(m.(cpyoff := v)))
  {
  }

  lemma MoveNumber(cfg: Config, m: Machine, input: seq<byte>)
    requires cfg.blksize > 0 && Sane(m) && m.failed.None? && TakesNumber(m.phase)
    ensures NeedsByte(m) <==>
      (m.phase == TAB_LEN ==> Flag(m.hdrInd, VCD_CODETABLE)) && (m.phase == APP_LEN ==> Flag(m.hdrInd, VCD_APPHEADER))
      && (m.phase == CPY_LEN || m.phase == CPY_OFF ==> SrcOrTgt(m.winInd) != 0)
    ensures !NeedsByte(m) && m.phase == TAB_LEN ==>
      Sane(m.(phase := NEAR)) && Feed(cfg, m, input) == Feed(cfg, m.(phase := NEAR), input)
    ensures !NeedsByte(m) && m.phase == APP_LEN ==>
      Sane(m.(phase := APP_DAT)) && Feed(cfg, m, input) == Feed(cfg, m.(phase := APP_DAT), input)
    ensures !NeedsByte(m) && m.phase == CPY_LEN ==>
      Sane(m.(phase := CPY_OFF)) && Feed(cfg, m, input) == Feed(cfg, m.(phase := CPY_OFF), input)
    ensures !NeedsByte(m) && m.phase == CPY_OFF ==>
      Sane(CheckCopyWindow(m)) && Feed(cfg, m, input) == Feed(cfg, CheckCopyWindow(m), input)
  {
    hide Feed;
    if !NeedsByte(m) {
      FeedSilent(cfg, m, input);
    }
  }

  /** Where each number goes. */
  lemma DoneAt(m: Machine, v: nat)
    requires Sane(m) && TakesNumber(m.phase) && v < TWO_64
    ensures m.phase == TAB_LEN ==>
      SizeDone(m, v) == if v <= 2 then Fail(m, BadTable) else m.(codetblsz := v - 2, phase := NEAR)
    ensures m.phase == APP_LEN ==> SizeDone(m, v) == m.(appheadsz := v, apphead := [], phase := APP_DAT)
    ensures m.phase == CPY_LEN ==> SizeDone(m, v) == m.(cpylen := v, phase := CPY_OFF)
    ensures m.phase == CPY_OFF ==> SizeDone(m, v) == CheckCopyWindow(m.(cpyoff := v))
    ensures m.phase == ENC_LEN ==> SizeDone(m, v) == m.(enclen := v, phase := TGT_LEN)
    ensures m.phase == TGT_LEN ==>
      SizeDone(m, v) == if m.cpylen + v >= TWO_64 || v > HARD_MAX_WINDOW then Fail(m, BadInput)
                        else m.(tgtlen := v, phase := DEL_IND)
    ensures m.phase == DATA_LEN ==> SizeDone(m, v) == m.(data := Section(v, []), phase := INST_LEN)
    ensures m.phase == INST_LEN ==> SizeDone(m, v) == m.(inst := Section(v, []), phase := ADDR_LEN)
    ensures m.phase == ADDR_LEN ==> SizeDone(m, v) == m.(addr := Section(v, []), phase := CKSUM)
  {
  }

  lemma MoveCacheSize(cfg: Config, m: Machine, input: seq<byte>)
    requires cfg.blksize > 0 && Sane(m) && m.failed.None? && (m.phase == NEAR || m.phase == SAME)
    ensures
      var n := m.(phase := if m.phase == NEAR then SAME else TAB_DAT);
      && Sane(n) && (NeedsByte(m) <==> Flag(m.hdrInd, VCD_CODETABLE))
      && (!NeedsByte(m) ==> Feed(cfg, m, input) == Feed(cfg, n, input))
      && (NeedsByte(m) && input != [] ==> Feed(cfg, m, input) == Feed(cfg, n, input[1..]))
  {
    hide Feed;
    if !NeedsByte(m) {
      FeedSilent(cfg, m, input);
    } else if input != [] {
      FeedByte(cfg, m, input);
    }
  }

  lemma MoveTabDat(cfg: Config, m: Machine, input: seq<byte>)
    requires cfg.blksize > 0 && Sane(m) && m.failed.None? && m.phase == TAB_DAT
    ensures
      var n := if Flag(m.hdrInd, VCD_CODETABLE) then Fail(m, Unimplemented) else m.(phase := APP_LEN);
      Sane(n) && Feed(cfg, m, input) == Feed(cfg, n, input)
  {
    hide Feed;
    FeedSilent(cfg, m, input);
  }

  lemma AppHeaderFits(m: Machine)
    requires Sane(m)
    ensures |m.apphead| <= m.appheadsz
  {
  }

  lemma TakeAppHeader(cfg: Config, m: Machine, taken: seq<byte>, rest: seq<byte>)
    requires cfg.blksize > 0 && Sane(m) && m.failed.None? && m.phase == APP_DAT
    requires Flag(m.hdrInd, VCD_APPHEADER) && m.appheadsz + 1 < TWO_64 && |m.apphead| + |taken| <= m.appheadsz
    ensures
      var n := m.(apphead := m.apphead + taken);
      Sane(n) && (NeedsByte(n) <==> |n.apphead| < n.appheadsz) && Feed(cfg, m, taken + rest) == Feed(cfg, n, rest)
  {
    hide Feed;
    FeedMany(cfg, m, taken, rest);
  }

  lemma MoveAppDat(cfg: Config, m: Machine, input: seq<byte>)
    requires cfg.blksize > 0 && Sane(m) && m.failed.None? && m.phase == APP_DAT
    requires Flag(m.hdrInd, VCD_APPHEADER) && m.appheadsz + 1 < TWO_64 ==> |m.apphead| == m.appheadsz
    ensures
      var n := if Flag(m.hdrInd, VCD_APPHEADER) && m.appheadsz + 1 >= TWO_64 then Fail(m, BadInput)
               else m.(phase := WIN_IND);
      Sane(n) && Feed(cfg, m, input) == Feed(cfg, n, input)
  {
    hide Feed;
    FeedSilent(cfg, m, input);
  }

  lemma ByteWinInd(cfg: Config, m: Machine, input: seq<byte>)
    requires cfg.blksize > 0 && Sane(m) && m.failed.None? && m.phase == WIN_IND
    ensures NeedsByte(m)
    ensures input != [] ==>
      Sane(StartWindow(m, input[0])) && Feed(cfg, m, input) == Feed(cfg, StartWindow(m, input[0]), input[1..])
  {
    hide Feed;
    if input != [] {
      FeedByte(cfg, m, input);
    }
  }

  lemma ByteDelInd(cfg: Config, m: Machine, input: seq<byte>)
    requires cfg.blksize > 0 && Sane(m) && m.failed.None? && m.phase == DEL_IND
    ensures NeedsByte(m)
    ensures input != [] ==>
      var n := if input[0] != 0 then Fail(m, BadInput) else m.(delInd := input[0], phase := DATA_LEN);
      Sane(n) && Feed(cfg, m, input) == Feed(cfg, n, input[1..])
  {
    hide Feed;
    if input != [] {
      FeedByte(cfg, m, input);
    }
  }

  /** What reading a number comes to. */
  datatype IntRet = Number(value: nat) | Wanting | Overlong

  lemma NumberByte(cfg: Config, m: Machine, input: seq<byte>)
    requires cfg.blksize > 0 && Sane(m) && m.failed.None? && TakesNumber(m.phase) && NeedsByte(m) && input != []
    ensures
      var r := IntByte(m.part, input[0]);
      && (r.TooBig? ==> Sane(Fail(m, BadInput)) && Feed(cfg, m, input) == Feed(cfg, Fail(m, BadInput), input[1..]))
      && (r.More? ==>
            && Sane(m.(part := r.part)) && NeedsByte(m.(part := r.part))
            && Feed(cfg, m, input) == Feed(cfg, m.(part := r.part), input[1..]))
      && (r.Whole? ==>
            Sane(m.(part := 0)) && Feed(cfg, m, input) == Feed(cfg, SizeDone(m.(part := 0), r.value), input[1..]))
  {
    hide Feed, SizeDone;
    FeedByte(cfg, m, input);
  }

  lemma ByteHdrInd(cfg: Config, m: Machine, input: seq<byte>)
    requires cfg.blksize > 0 && Sane(m) && m.failed.None? && m.phase == HDR_IND
    ensures NeedsByte(m)
    ensures input != [] ==>
      var n := if input[0] >= 8 then Fail(m, BadInput) else m.(hdrInd := input[0], phase := SECOND_ID);
      Sane(n) && Feed(cfg, m, input) == Feed(cfg, n, input[1..])
  {
    hide Feed;
    if input != [] {
      FeedByte(cfg, m, input);
    }
  }

  lemma MoveSecondId(cfg: Config, m: Machine, input: seq<byte>)
    requires cfg.blksize > 0 && Sane(m) && m.failed.None? && m.phase == SECOND_ID
    ensures NeedsByte(m) <==> Flag(m.hdrInd, VCD_SECONDARY)
    ensures NeedsByte(m) && input != [] ==>
      var n := Fail(m, if input[0] == 1 || input[0] == 2 || input[0] == 16 then Internal else BadInput);
      Sane(n) && Feed(cfg, m, input) == Feed(cfg, n, input[1..])
    ensures !NeedsByte(m) ==>
      Sane(m.(phase := TAB_LEN)) && Feed(cfg, m, input) == Feed(cfg, m.(phase := TAB_LEN), input)
  {
    hide Feed;
    if !NeedsByte(m) {
      FeedSilent(cfg, m, input);
    } else if input != [] {
      FeedByte(cfg, m, input);
    }
  }

  lemma MagicFits(m: Machine)
    requires Sane(m)
    ensures |m.magic| <= 4
  {
  }

  lemma TakeHead(cfg: Config, m: Machine, taken: seq<byte>, rest: seq<byte>)
    requires cfg.blksize > 0 && Sane(m) && m.failed.None? && m.phase == VC_HEAD && |m.magic| + |taken| <= 4
    ensures
      var n := m.(magic := m.magic + taken);
      Sane(n) && (NeedsByte(n) <==> |n.magic| < 4) && Feed(cfg, m, taken + rest) == Feed(cfg, n, rest)
  {
    hide Feed;
    FeedMany(cfg, m, taken, rest);
  }

  lemma SilentHead(cfg: Config, m: Machine, rest: seq<byte>)
    requires cfg.blksize > 0 && Sane(m) && m.failed.None? && m.phase == VC_HEAD && |m.magic| == 4
    ensures
      var n := if m.magic[0] == 0xd6 && m.magic[1] == 0xc3 && m.magic[2] == 0xc4 && m.magic[3] == 0
               then m.(phase := HDR_IND) else Fail(m, BadInput);
      Sane(n) && Feed(cfg, m, rest) == Feed(cfg, n, rest)
  {
    hide Feed;
    FeedSilent(cfg, m, rest);
  }
}
