/** What the stream decoder does not let through: no window is put out that disagrees with its checksum. */
module StreamChecks {
  import opened Arithmetic
  import opened Bytes
  import opened Results
  import opened StreamFormat
  import opened WindowFormat
  import opened StreamEncoder
  import Adler

  /** Between the checksum's bytes and the end of the window the decoder holds their value. */
  predicate Holding(m: Machine) {
    DATA <= m.phase <= EMIT && m.winInd / 4 % 2 == 1 ==> |m.cksum| == 4 && m.adler32 == Value(m.cksum)
  }

  /** Four bytes, the first the most significant. */
  function Value(s: seq<byte>): nat
    requires |s| == 4
  {
    var b0: nat, b1: nat, b2: nat, b3: nat := s[0], s[1], s[2], s[3];
    0x100_0000 * b0 + 0x1_0000 * b1 + 0x100 * b2 + b3
  }

  /** The decoder behind a window that it put out as event `k`: if the window's indicator has bit 4, its four checksum
      bytes are the checksum of what was put out. */
  predicate PutOut(m: Machine, k: nat, w: seq<byte>) {
    && m.failed.None? && m.phase == WIN_IND && |m.events| == k + 2 && m.events[k] == Output(w)
    && (m.winInd / 4 % 2 == 1 ==> |m.cksum| == 4 && Adler.Checksum(w) == Value(m.cksum))
  }

  lemma ValueOfFour(s: seq<byte>)
    requires |s| == 4
    ensures BigEndian(s) == Value(s)
  {
    BigEndianFour(s[0], s[1], s[2], s[3]);
    assert s == [s[0], s[1], s[2], s[3]];
  }

  lemma SettleOnce(cfg: Config, m: Machine)
    requires cfg.blksize > 0 && Sane(m)
    ensures Waits(m) ==> Settle(cfg, m) == m
    ensures !Waits(m) ==> Settle(cfg, m) == Settle(cfg, Silent(cfg, m)) && Moved(m, Silent(cfg, m))
  {
    hide Silent, Sane, NeedsByte;
  }

  lemma ByteHolds(m: Machine, b: byte)
    requires Sane(m) && m.failed.None? && NeedsByte(m) && Holding(m)
    ensures Holding(OnByte(m, b)) && OnByte(m, b).events == m.events
  {
  }

  lemma SilentHolds(cfg: Config, m: Machine)
    requires cfg.blksize > 0 && Sane(m) && m.failed.None? && !NeedsByte(m) && Holding(m) && m.phase != EMIT
    ensures
      var n := Silent(cfg, m);
      && Holding(n) && (n.events == m.events || exists e: Event :: !e.Output? && n.events == m.events + [e])
  {
    hide Value;
    if m.phase == CKSUM && m.winInd / 4 % 2 == 1 {
      ValueOfFour(m.cksum);
    }
  }

  lemma SilentEmit(cfg: Config, m: Machine)
    requires cfg.blksize > 0 && Sane(m) && m.failed.None? && m.phase == EMIT && Holding(m)
    ensures
      var n := Silent(cfg, m);
      && Holding(n)
      && if n.failed.Some? then n.events == m.events
         else n.phase == FINISH && n.winInd == m.winInd && n.cksum == m.cksum
              && |n.events| == |m.events| + 1 && m.events <= n.events && n.events[|m.events|].Output?
              && (m.winInd / 4 % 2 == 1 ==> Adler.Checksum(n.events[|m.events|].bytes) == m.adler32)
  {
    hide DecodeWindow, Adler.Checksum, Value;
  }

  lemma SilentFinish(cfg: Config, m: Machine)
    requires cfg.blksize > 0 && Sane(m) && m.failed.None? && m.phase == FINISH
    ensures
      var n := Silent(cfg, m);
      !NeedsByte(m) && n == m.(phase := WIN_IND, count := m.count + 1, events := m.events + [WinFinish]) && NeedsByte(n)
  {
  }

  /** The window's end: refused, or put out, counted, and the decoder waits for the next one. */
  lemma EmitHolds(cfg: Config, m: Machine)
    requires cfg.blksize > 0 && Sane(m) && m.failed.None? && m.phase == EMIT && Holding(m)
    ensures
      var r := Settle(cfg, m);
      && Holding(r)
      && if r.failed.Some? then r.events == m.events
         else |r.events| == |m.events| + 2 && m.events <= r.events && r.events[|m.events|].Output?
              && !r.events[|m.events| + 1].Output? && PutOut(r, |m.events|, r.events[|m.events|].bytes)
  {
    hide Silent, Adler.Checksum, Value, Settle;
    SettleOnce(cfg, m);
    SilentEmit(cfg, m);
    var n := Silent(cfg, m);
    SettleOnce(cfg, n);
    if n.failed.None? {
      SilentFinish(cfg, n);
      SettleOnce(cfg, Silent(cfg, n));
    }
  }

  /** What moves without input put out is in order. */
  lemma {:induction false} SettleHolds(cfg: Config, m: Machine)
    requires cfg.blksize > 0 && Sane(m) && Holding(m)
    ensures
      var r := Settle(cfg, m);
      && Holding(r) && m.events <= r.events
      && forall k :: |m.events| <= k < |r.events| && r.events[k].Output? ==> PutOut(r, k, r.events[k].bytes)
    decreases m.failed.None?, Rank(m.phase)
  {
    hide Silent, Sane, NeedsByte, Settle, PutOut, Holding;
    SettleOnce(cfg, m);
    if !Waits(m) {
      if m.phase == EMIT {
        EmitHolds(cfg, m);
      } else {
        SilentHolds(cfg, m);
        SettleHolds(cfg, Silent(cfg, m));
      }
    }
  }

  lemma FeedOnce(cfg: Config, m: Machine, input: seq<byte>)
    requires cfg.blksize > 0 && Sane(m)
    ensures
      var n := Settle(cfg, m);
      if n.failed.Some? || input == [] then Feed(cfg, m, input) == n
      else NeedsByte(n) && Feed(cfg, m, input) == Feed(cfg, OnByte(n, input[0]), input[1..])
  {
    hide OnByte, Silent, Sane, NeedsByte;
  }

  /** Every window put out, whatever the input: at the byte where it ends, it agrees with its four checksum bytes if it
      has any. */
  lemma {:induction false} OutputsAreChecked(cfg: Config, m: Machine, input: seq<byte>)
    requires cfg.blksize > 0 && Sane(m) && Holding(m)
    ensures
      var r := Feed(cfg, m, input);
      && m.events <= r.events
      && forall k :: |m.events| <= k < |r.events| && r.events[k].Output? ==>
           exists n :: 0 <= n <= |input| && PutOut(Feed(cfg, m, input[..n]), k, r.events[k].bytes)
    decreases |input|
  {
    hide Feed, Settle, OnByte, Silent, Sane, NeedsByte, PutOut, Holding;
    var n, r := Settle(cfg, m), Feed(cfg, m, input);
    SettleHolds(cfg, m);
    FeedOnce(cfg, m, input);
    FeedOnce(cfg, m, []);
    assert input[..0] == [];
    if n.failed.None? && input != [] {
      var o, rest := OnByte(n, input[0]), input[1..];
      ByteHolds(n, input[0]);
      OutputsAreChecked(cfg, o, rest);
      forall k | |m.events| <= k < |r.events| && r.events[k].Output?
        ensures exists i :: 0 <= i <= |input| && PutOut(Feed(cfg, m, input[..i]), k, r.events[k].bytes)
      {
        if k < |n.events| {
          assert r.events[k] == n.events[k];
          assert PutOut(Feed(cfg, m, input[..0]), k, r.events[k].bytes);
        } else {
          var i :| 0 <= i <= |rest| && PutOut(Feed(cfg, o, rest[..i]), k, r.events[k].bytes);
          FeedOnce(cfg, m, input[..i + 1]);
          assert input[..i + 1][1..] == rest[..i];
          assert PutOut(Feed(cfg, m, input[..i + 1]), k, r.events[k].bytes);
        }
      }
    } else {
      forall k | |m.events| <= k < |r.events| && r.events[k].Output?
        ensures exists i :: 0 <= i <= |input| && PutOut(Feed(cfg, m, input[..i]), k, r.events[k].bytes)
      {
        assert PutOut(Feed(cfg, m, input[..0]), k, r.events[k].bytes);
      }
    }
  }
}
