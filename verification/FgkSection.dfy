/** Sections compressed by the adaptive coder: its tree lives on from one section to the next. */
module FgkSection {
  import opened Arithmetic
  import opened BitStream
  import opened Bytes
  import opened Results
  import opened FgkClimb
  import opened FgkCodec
  import opened FgkInit
  import opened FgkOrder
  import opened FgkReach
  import opened FgkStream
  import T = FgkTree

  const ALPHABET_SIZE: nat := 256

  // ----- One section

  /** A decoded section out of what `DecodeAll` gives: as many symbols as wanted, or the input was too short. */
  ghost predicate Gives(r: Option<seq<byte>>, all: (seq<int>, Decoder, seq<bool>), want: nat) {
    if |all.0| == want then r.Some? && r.value == all.0 else r.None?
  }

  lemma NextBit(d: Decoder, b: bool, rest: seq<bool>, want: nat)
    requires want > 0
    ensures
      var (e, done) := DecodeBit(d, b);
      DecodeAll(d, [b] + rest, want) ==
        if !done then DecodeAll(e, rest, want)
        else
          var r := DecodeAll(Taken(e), rest, want - 1);
          ([Picked(e)] + r.0, r.1, r.2)
  {
    hide DecodeSymbol;
    OneBit(d, b, rest);
  }

  /** What has been decoded, and what the rest of the bits will give. */
  function Behind(out: seq<int>, r: (seq<int>, Decoder, seq<bool>)): (seq<int>, Decoder, seq<bool>) {
    (out + r.0, r.1, r.2)
  }

  /** Sends the bits of one code. */
  method SendCode(s: Stream, writer: BitWriter)
    requires s.Valid() && writer.Valid()
    modifies s`depth, writer
    ensures s.Valid() && s.View() == old(s.View()) && writer.Valid()
    ensures writer.Contents() == old(writer.Contents()) + old(s.Pending())
  {
    hide Settled, StreamBits, Flags, Log2, Pow2;
    ghost var goal := writer.Contents() + s.Pending();
    var bits := s.depth;
    while bits > 0
      invariant s.Valid() && s.View() == old(s.View()) && bits == s.depth && writer.Valid()
      invariant writer.Contents() + s.Pending() == goal
    {
      ghost var before, code := writer.Contents(), s.Pending();
      var b := s.GetEncodedBit();
      writer.EncodeBit(b);
      assert before + code == before + [b] + s.Pending();
      bits := bits - 1;
    }
    assert writer.Contents() + s.Pending() == writer.Contents();
  }

  method EncodeFgk(s: Stream, input: seq<byte>) returns (packed: seq<byte>)
    requires s.Valid() && s.n == ALPHABET_SIZE
    modifies s, s.codedBits
    ensures s.Valid() && s.View() == Counting(old(s.View()), input)
    ensures Padded(StreamBits(packed), CodeAll(old(s.View()), input))
  {
    hide Settled, Code, T.Update, StreamBits, Padded, BitWriter.Contents, BitWriter.Valid, CodeAll, Counting, Stream.Pending;
    ghost var t := s.View();
    var writer := new BitWriter();
    var i := 0;
    assert input[0..] == input;
    while i < |input|
      invariant 0 <= i <= |input| && s.Valid() && writer.Valid() && fresh(writer)
      invariant Counting(s.View(), input[i..]) == Counting(t, input)
      invariant writer.Contents() + CodeAll(s.View(), input[i..]) == CodeAll(t, input)
    {
      ghost var sent := writer.Contents();
      SymbolNode(s.View(), input[i]);
      FirstCode(s.View(), input[i..]);
      assert input[i..][1..] == input[i + 1..];
      ghost var code := Code(s.View(), input[i]);
      var bits := s.EncodeData(input[i]);
      SendCode(s, writer);
      i := i + 1;
      assert sent + (code + CodeAll(s.View(), input[i..])) == sent + code + CodeAll(s.View(), input[i..]);
    }
    NoCodes(s.View());
    assert writer.Contents() + [] == writer.Contents();
    writer.FlushBits();
    return writer.output;
  }

  lemma NoCodes(t: T.Tree)
    ensures CodeAll(t, []) == [] && Counting(t, []) == t
  {
  }

  lemma FirstCode(t: T.Tree, xs: seq<int>)
    requires t.Sized() && xs != [] && t.Node(xs[0])
    ensures CodeAll(t, xs) == Code(t, xs[0]) + CodeAll(T.Update(t, xs[0]), xs[1..])
    ensures Counting(t, xs) == Counting(T.Update(t, xs[0]), xs[1..])
  {
  }

  /** Takes one bit, and the symbol if it is complete. */
  method TakeBit(s: Stream, b: bool, out: seq<byte>, want: nat, ghost o: Order, ghost rest: seq<bool>)
    returns (more: seq<byte>, ghost o': Order)
    requires s.Awaits(o) && s.n == ALPHABET_SIZE && |out| < want
    modifies s, s.codedBits
    ensures s.Valid() && |more| <= want && (|more| < want ==> s.Awaits(o'))
    ensures
      Behind(out, DecodeAll(old(s.State()), [b] + rest, want - |out|)) ==
      Behind(more, DecodeAll(s.State(), rest, want - |more|))
  {
    hide Settled, DecodeBit, Awaiting, Complete, DecodeAll, Picked, Taken;
    NextBit(s.State(), b, rest, want - |out|);
    more, o' := out, o;
    var done := s.DecodeBit(b, o);
    if done {
      var x := s.DecodeData(o);
      more := out + [x];
      ghost var r := DecodeAll(s.State(), rest, want - |more|);
      assert out + ([x] + r.0) == more + r.0;
      o' := FirstOrderOf(s);
    }
  }

  /** Takes the bits of one byte, from the lowest, until enough symbols have come out. */
  method TakeByte(s: Stream, curByte: byte, out0: seq<byte>, want: nat, ghost o0: Order, ghost tail: seq<bool>)
    returns (out: seq<byte>, ghost o: Order, ghost rest: seq<bool>)
    requires s.Awaits(o0) && s.n == ALPHABET_SIZE && |out0| < want
    modifies s, s.codedBits
    ensures s.Valid() && |out| <= want && (if |out| < want then s.Awaits(o) && rest == tail else |tail| <= |rest| < |tail| + 8)
    ensures
      Behind(out0, DecodeAll(old(s.State()), ByteBits(curByte) + tail, want - |out0|)) ==
      Behind(out, DecodeAll(s.State(), rest, want - |out|))
  {
    hide Settled, Awaiting, DecodeAll, ByteBits, HasBit, Pow2, Stream.State, Stream.Valid;
    out, o := out0, o0;
    ghost var all := Behind(out, DecodeAll(s.State(), ByteBits(curByte) + tail, want - |out|));
    var curMask := 1;
    ghost var k := 0;
    ByteMasks();
    assert ByteBits(curByte)[0..] == ByteBits(curByte);
    while curMask != 0x100
      invariant 0 <= k <= 8 && curMask == Pow2(k) && (curMask == 0x100 <==> k == 8) && |out| < want && s.Awaits(o)
      invariant all == Behind(out, DecodeAll(s.State(), ByteBits(curByte)[k..] + tail, want - |out|))
      decreases 8 - k
    {
      NextMask(k);
      LastMask(k + 1);
      BitOfByte(curByte, k, tail);
      rest := ByteBits(curByte)[k + 1..] + tail;
      out, o := TakeBit(s, HasBit(curByte, curMask), out, want, o, rest);
      curMask := 2 * curMask;
      k := k + 1;
      if |out| == want {
        return;
      }
    }
    rest := tail;
    NoneLeft(curByte, tail);
  }

  /** Decodes `want` bytes; `next` is the number of bytes of the input that have been begun. */
  method DecodeFgk(s: Stream, input: seq<byte>, want: nat) returns (r: Option<seq<byte>>, next: nat)
    requires s.Valid() && s.n == ALPHABET_SIZE && s.State() == Begin(s.View()) && want > 0
    modifies s, s.codedBits
    ensures Gives(r, DecodeAll(old(s.State()), StreamBits(input), want), want)
    ensures r.Some? ==> s.Valid() && s.State() == DecodeAll(old(s.State()), StreamBits(input), want).1
    ensures
      var rest := DecodeAll(old(s.State()), StreamBits(input), want).2;
      r.Some? ==> next <= |input| && 8 * (|input| - next) <= |rest| < 8 * (|input| - next) + 8
  {
    hide Settled, Awaiting, DecodeAll, StreamBits, ByteBits, Stream.State, Stream.Valid;
    var out: seq<byte> := [];
    next := 0;
    ghost var o := FirstOrderOf(s);
    ghost var rest;
    ghost var all := DecodeAll(s.State(), StreamBits(input), want);
    assert input[0..] == input && [] + all.0 == all.0;
    while true
      invariant 0 <= next <= |input| && |out| < want && s.Awaits(o)
      invariant all == Behind(out, DecodeAll(s.State(), StreamBits(input[next..]), want - |out|))
      decreases |input| - next
    {
      if next == |input| {
        NoMoreBits(s.State(), want - |out|);
        return None, next;
      }
      NextByte(input, next);
      next := next + 1;
      out, o, rest := TakeByte(s, input[next - 1], out, want, o, StreamBits(input[next..]));
      if |out| == want {
        NoneWanted(s.State(), rest);
        return Some(out), next;
      }
    }
  }

  lemma NoMoreBits(d: Decoder, want: nat)
    requires want > 0
    ensures DecodeAll(d, StreamBits([]), want) == ([], d, [])
  {
    NoBits(d);
  }

  lemma LastMask(k: nat)
    requires k <= 8
    ensures Pow2(k) == 0x100 <==> k == 8
  {
    ByteMasks();
    if k < 8 {
      Pow2Monotone(k, 7);
    }
  }

  lemma NoneLeft(b: byte, rest: seq<bool>)
    ensures ByteBits(b)[8..] + rest == rest
  {
  }

  lemma NoneWanted(d: Decoder, rest: seq<bool>)
    ensures DecodeAll(d, rest, 0) == ([], d, rest)
  {
  }

  lemma FirstOrderOf(s: Stream) returns (o: Order)
    requires s.Valid() && s.State() == Begin(s.View())
    ensures s.Awaits(o)
  {
    hide Settled, Awaiting;
    o := OrderOf(s.View());
    BeginAwaits(s.View(), o);
  }

  lemma NextByte(input: seq<byte>, i: nat)
    requires i < |input|
    ensures StreamBits(input[i..]) == ByteBits(input[i]) + StreamBits(input[i + 1..])
  {
    assert input[i..][1..] == input[i + 1..];
  }

  lemma BitOfByte(b: byte, k: nat, rest: seq<bool>)
    requires k < 8
    ensures HasBit(b, Pow2(k)) == ByteBits(b)[k]
    ensures ByteBits(b)[k..] + rest == [ByteBits(b)[k]] + (ByteBits(b)[k + 1..] + rest)
  {
    MaskedFlag(b, k, 8);
  }

  // ----- Sections in a row

  /** What the adaptive coder packs it unpacks, byte for byte, and leaves the tree the encoder has. */
  lemma SectionReadsBack(t: T.Tree, values: seq<byte>, packed: seq<byte>)
    requires Settled(t) && t.n == ALPHABET_SIZE && Padded(StreamBits(packed), CodeAll(t, values))
    ensures
      var r := DecodeAll(Begin(t), StreamBits(packed), |values|);
      r.0 == values && r.1 == Begin(Counting(t, values)) && |r.2| < 8
  {
    hide Settled, StreamBits, CodeAll, DecodeAll, Counting;
    var code := CodeAll(t, values);
    var padding := StreamBits(packed)[|code|..];
    assert StreamBits(packed) == code + padding;
    AllReadBack(t, values, padding);
  }

  /** The trees of encoder and decoder after sections of which some were declined: the encoder has counted them all. */
  function EncoderTree(t: T.Tree, sections: seq<seq<byte>>): T.Tree
    decreases |sections|
  {
    if sections == [] then t else Counting(EncoderTree(t, sections[..|sections| - 1]), sections[|sections| - 1])
  }

  function DecoderTree(t: T.Tree, sections: seq<seq<byte>>, sent: seq<bool>): T.Tree
    requires |sent| == |sections|
    decreases |sections|
  {
    if sections == [] then t
    else
      var last := |sections| - 1;
      var u := DecoderTree(t, sections[..last], sent[..last]);
      if sent[last] then Counting(u, sections[last]) else u
  }

  lemma {:induction false} CountsAll(t: T.Tree, xs: seq<int>)
    requires Settled(t) && forall i :: 0 <= i < |xs| ==> 0 <= xs[i] < t.n
    ensures Settled(Counting(t, xs)) && Counting(t, xs).n == t.n && Total(Counting(t, xs)) == Total(t) + |xs|
    decreases xs
  {
    hide Settled, T.Update, T.Updates, Total, OneMore;
    if xs != [] {
      var o := OrderOf(t);
      SymbolNode(t, xs[0]);
      UpdateSettles(t, xs[0]);
      CountsAll(T.Update(t, xs[0]), xs[1..]);
    }
  }

  /** The encoder is never behind, and level only while nothing but empty sections was declined. */
  lemma {:induction false} EncoderAhead(t: T.Tree, sections: seq<seq<byte>>, sent: seq<bool>)
    requires Settled(t) && t.n == ALPHABET_SIZE && |sent| == |sections|
    ensures
      var e, d := EncoderTree(t, sections), DecoderTree(t, sections, sent);
      && Settled(e) && Settled(d) && e.n == d.n == t.n && Total(d) <= Total(e)
      && (Total(d) == Total(e) <==> forall i :: 0 <= i < |sections| && !sent[i] ==> sections[i] == [])
      && ((forall i :: 0 <= i < |sections| && !sent[i] ==> sections[i] == []) ==> e == d)
    decreases |sections|
  {
    hide Settled, Total, Counting;
    if sections != [] {
      var last := |sections| - 1;
      EncoderAhead(t, sections[..last], sent[..last]);
      CountsAll(EncoderTree(t, sections[..last]), sections[last]);
      NoCodes(EncoderTree(t, sections[..last]));
      var u := DecoderTree(t, sections[..last], sent[..last]);
      CountsAll(u, sections[last]);
      assert (forall i :: 0 <= i < |sections| && !sent[i] ==> sections[i] == []) <==>
        (forall i :: 0 <= i < last && !sent[..last][i] ==> sections[..last][i] == []) &&
        (!sent[last] ==> sections[last] == []);
    }
  }

  /** Encoder and decoder have the same tree exactly if no section with a byte in it was compressed and not sent. */
  lemma TreesAgree(t: T.Tree, sections: seq<seq<byte>>, sent: seq<bool>)
    requires Settled(t) && t.n == ALPHABET_SIZE && |sent| == |sections|
    ensures
      EncoderTree(t, sections) == DecoderTree(t, sections, sent) <==>
      forall i :: 0 <= i < |sections| && !sent[i] ==> sections[i] == []
  {
    hide Settled, Total, EncoderTree, DecoderTree;
    EncoderAhead(t, sections, sent);
  }

  /** While they agree every section that is sent comes back. */
  lemma NextSectionReadsBack(t: T.Tree, sections: seq<seq<byte>>, sent: seq<bool>, values: seq<byte>, packed: seq<byte>)
    requires Settled(t) && t.n == ALPHABET_SIZE && |sent| == |sections|
    requires forall i :: 0 <= i < |sections| && !sent[i] ==> sections[i] == []
    requires Padded(StreamBits(packed), CodeAll(EncoderTree(t, sections), values))
    ensures
      var r := DecodeAll(Begin(DecoderTree(t, sections, sent)), StreamBits(packed), |values|);
      r.0 == values && |r.2| < 8
  {
    hide Settled, Total, EncoderTree, DecoderTree, StreamBits, CodeAll, DecodeAll, Padded;
    EncoderAhead(t, sections, sent);
    SectionReadsBack(EncoderTree(t, sections), values, packed);
  }
}
