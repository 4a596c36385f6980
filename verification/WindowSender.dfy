/** From the matches found in a window to the bytes of that window in the file. */
module WindowSender {
  import opened Arithmetic
  import opened Bytes
  import opened Results
  import opened Integers
  import opened WindowFormat
  import opened BlockedSource
  import opened StreamFormat
  import opened StreamEncoder
  import opened InstructionBuffer
  import Adler
  import CodeTable
  import Overlaps
  import W = WindowEncoder

  /** The same window, decoded against nothing. */
  function Alone(env: Env): Env {
    Env([], env.blksize, 0, 0, env.tgtlen)
  }

  lemma ParseAlone(env: Env, st: State, type_: nat, size0: nat)
    requires env.Valid() && env.cpylen == 0 && DefaultCache(st.cache) && CodeTable.NOOP < type_ < CodeTable.CPY + CodeTable.CPY_MODES
    ensures ParseHalf(env, st, type_, size0) == ParseHalf(Alone(env), st, type_, size0)
  {
  }

  lemma OutputAlone(env: Env, st: State, h: Half)
    requires env.Valid() && env.cpylen == 0 && Ready(env, st.out, h)
    ensures OutputHalf(env, st, h) == OutputHalf(Alone(env), st, h)
  {
  }

  lemma InstructionAlone(env: Env, st: State)
    requires env.Valid() && env.cpylen == 0 && DefaultCache(st.cache) && st.position == |st.out| && st.inst != []
    ensures Instruction(env, st) == Instruction(Alone(env), st)
  {
    hide OutputHalf, ParseHalf, DefaultCache;
    var d := CodeTable.Entry(st.inst[0]);
    var st0 := st.(inst := st.inst[1..]);
    ParseAlone(env, st0, d.type1, d.size1);
    var p := ParseHalf(env, st0, d.type1, d.size1);
    if p.Ok? {
      var (h1, st1) := p.value;
      OutputAlone(env, st1, h1);
      if d.type2 != CodeTable.NOOP {
        ParseAlone(env, st1, d.type2, d.size2);
        var p2 := ParseHalf(env, st1, d.type2, d.size2);
        if p2.Ok? {
          var (h2, st2) := p2.value;
          OutputAlone(env, st2, h1);
          var st3 := OutputHalf(env, st2, h1);
          if st3.Ok? {
            OutputAlone(env, st3.value, h2);
          }
        }
      }
    }
  }

  lemma {:induction false} RunAlone(env: Env, st: State)
    requires env.Valid() && env.cpylen == 0 && DefaultCache(st.cache) && st.position == |st.out|
    ensures Run(env, st) == Run(Alone(env), st)
    decreases |st.inst|
  {
    hide Instruction;
    if st.inst != [] {
      InstructionAlone(env, st);
      if Instruction(env, st).Ok? {
        RunAlone(env, Instruction(env, st).value);
      }
    }
  }

  /** A window without a source segment means the same whatever source the decoder holds. */
  lemma NoSegmentNoSource(env: Env, env': Env, inst: seq<byte>, data: seq<byte>, addr: seq<byte>)
    requires env.Valid() && env'.Valid() && env.cpylen == 0 && env'.cpylen == 0
    requires env.tgtlen == env'.tgtlen && env.blksize == env'.blksize
    ensures DecodeWindow(env, inst, data, addr) == DecodeWindow(env', inst, data, addr)
  {
    hide Run;
    RunAlone(env, Start(env, inst, data, addr));
    RunAlone(env', Start(env', inst, data, addr));
  }

  /** Encodes what the buffer holds and packs the window up.  Unless its lengths outgrow their integers, every decoder
      that has the source file, if the window uses it, gets exactly this window out of it. */
  method PackWindow(buf: Buffer, checksum: bool, ghost cfg: Config) returns (w: OutWindow)
    requires buf.Valid() && buf.InOrder()
    requires |buf.enc.window| <= HARD_MAX_WINDOW && buf.enc.srcbase + buf.enc.srclen < TWO_64
    requires cfg.blksize == buf.enc.blksize && (buf.enc.srclen > 0 ==> cfg.src == Some(buf.enc.file))
    modifies buf`used, buf.enc, buf.enc.acache, buf.enc.acache.nearArray, buf.enc.acache.sameArray
    ensures w.tgtlen == |buf.enc.window| && w.adler32.Some? == checksum
    ensures w.src == if buf.enc.srclen > 0 then Some((buf.enc.srcbase, buf.enc.srclen)) else None
    ensures EncLen(w) < TWO_64 ==> Means(cfg, w, buf.enc.window)
    ensures w.inst == W.AllUnitBytes(buf.enc.units) && W.Shared(buf.enc.units, None)
    ensures
      var c, from := Overlaps.Resolved(old(buf.used), true), old(buf.enc.unencodedOffset);
      W.AllKinds(buf.enc.units) == old(buf.enc.Told()) + Filled(from, c) + W.Gap(EndOf(from, c), |buf.enc.window|)
  {
    hide DecodeWindow, Adler.Checksum, Adler.Reduced, EncLen, W.AllUnitBytes, W.AllKinds, W.Shared, Filled,
         W.Gap, EndOf, Overlaps.Resolved;
    buf.EncodeRest();
    var enc := buf.enc;
    var adler32 := None;
    if checksum {
      var a := Adler.Adler32(1, enc.window);
      Adler.FromOne(enc.window);
      adler32 := Some(a);
    }
    var src := if enc.srclen > 0 then Some((enc.srcbase, enc.srclen)) else None;
    w := OutWindow(src, adler32, |enc.window|, enc.data, enc.inst, enc.addr);
    if enc.srclen == 0 {
      NoSegmentNoSource(enc.TheEnv(), EnvOf(cfg, w), enc.inst, enc.data, enc.addr);
    }
  }
}
