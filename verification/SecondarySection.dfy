/** A secondary-compressed section: its size, then the compressed bytes, used up to the last one. */
module SecondarySection {
  import opened Arithmetic
  import opened Bytes
  import opened BitStream
  import opened HuffCoder
  import opened HuffSection
  import opened Integers
  import opened PrefixBuilder
  import opened Results

  const SECONDARY_MIN_INPUT: nat := 10
  const SECONDARY_MIN_SAVINGS: nat := 2

  /** What a section expands to: its size must not be zero, and no byte may be left over. */
  function Expanded(section: seq<byte>): Reply {
    match ReadInt(section, 0)
    case EndOfInput => Bad
    case Overflow => Bad
    case Read(size, rest) =>
      match DecodeSection(StreamBits(rest), size)
      case Corrupt => Bad
      case SeveralGroups => Unsupported
      case Decoded(values, left) => if |left| < 8 then Values(values) else Bad
  }

  lemma SectionExpands(values: seq<byte>, packed: seq<byte>)
    requires 0 < |values| < TWO_64 && StandsFor(StreamBits(packed), values)
    ensures Expanded(EmitInt(|values|) + packed) == Values(values)
  {
    hide DecodeSection, StreamBits, EmitInt, ReadInt;
    ReadEmitted(|values|, packed);
  }

  /** What `EncodeHuff` makes of a section. */
  ghost predicate Comes(head: seq<byte>, inefficient: bool, packed: Option<seq<byte>>) {
    exists lengths, clclen, count, bits :: Pays(head, inefficient, packed, lengths, clclen, count, bits)
  }

  /** Compresses a section of ten bytes or more when that saves more than two of them, or when it is forced; otherwise
      the section stays as it is. */
  method EncodeSecondary(head: seq<byte>, inefficient: bool)
      returns (section: seq<byte>, didIt: bool, ghost packed: Option<seq<byte>>)
    requires |head| + 1 < UINT32
    ensures !didIt ==> section == head
    ensures didIt ==> Expanded(section) == Values(head)
    ensures didIt && !inefficient ==> |section| + 2 < |head|
    ensures |head| < 10 ==> !didIt
    ensures |head| >= 10 ==>
      && Comes(head, inefficient, packed)
      && (didIt <==> packed.Some? && (|EmitInt(|head|)| + |packed.value| < |head| - 2 || inefficient))
      && (didIt ==> section == EmitInt(|head|) + packed.value)
  {
    hide Expanded, StandsFor, EmitInt, Pays;
    if |head| < SECONDARY_MIN_INPUT {
      return head, false, None;
    }
    var size := EmitInteger(|head|);
    var coded, lengths, clclen, count, bits := EncodeHuff(head, inefficient);
    packed := coded;
    assert Comes(head, inefficient, packed);
    if coded.None? {
      return head, false, packed;
    }
    SectionExpands(head, coded.value);
    section := size + coded.value;
    if |section| < |head| - SECONDARY_MIN_SAVINGS || inefficient {
      return section, true, packed;
    }
    return head, false, packed;
  }

  method DecodeSecondary(section: seq<byte>) returns (r: Reply)
    ensures r == Expanded(section)
  {
    hide DecodeSection, StreamBits, ReadInt, BitReader.Remaining, BitReader.Valid;
    var size := ReadInteger(section);
    if !size.Read? || size.value == 0 {
      NoValues(section);
      return Bad;
    }
    var reader := new BitReader(size.rest);
    r := DecodeHuff(reader, size.value);
    if r.Values? {
      reader.UsedUp();
      if reader.next != |size.rest| {
        return Bad;
      }
    }
  }

  lemma NoValues(section: seq<byte>)
    requires ReadInt(section, 0).Read? ==> ReadInt(section, 0).value == 0
    ensures Expanded(section) == Bad
  {
  }
}
