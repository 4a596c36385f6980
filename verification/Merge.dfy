/** Delta merging: one delta that takes the original file straight to the second target. */
module Merge {
  import opened Bytes
  import opened WholeDelta

  datatype Status = Ok | InvalidInput | Internal

  datatype WinInfo = WinInfo(offset: nat, length: nat, adler32: nat)

  /** A growing whole-file delta: instructions, literal data, window records, and the target length so far.
      Methods take the original file and the target as ghosts: the merged list is the same for all of them. */
  class WholeState {
    var inst: seq<WInst>
    var adds: seq<byte>
    var wininfo: seq<WinInfo>
    var length: nat

    constructor ()
      ensures inst == [] && adds == [] && wininfo == [] && length == 0
    {
      inst, adds, wininfo, length := [], [], [], 0;
    }

    function View(): Delta
      reads this
    {
      Delta(inst, adds, length)
    }

    /** The merged instructions so far tile the target up to `at`, find all they need in the original file and
        in `adds`, and are right about every byte of the target they cover. */
    ghost predicate Merged(original: seq<byte>, target: seq<byte>, at: nat)
      reads this
    {
      && Contiguous(inst) && EndOf(inst, |inst|) == at
      && AllLocalOk(adds, inst) && AllSourceOk(inst, |original|)
      && AllExplain(original, adds, target, inst)
    }

    method AppendInst(x: WInst, data: seq<byte>, ghost original: seq<byte>, ghost target: seq<byte>)
      requires Merged(original, target, x.position)
      requires LocalOk(adds + data, x) && SourceOk(x, |original|) && Explains(original, adds + data, target, x)
      modifies this`inst, this`adds
      ensures inst == old(inst) + [x] && adds == old(adds) + data
      ensures Merged(original, target, x.End())
    {
      AppendExplained(original, adds, data, target, inst, x);
      inst := inst + [x];
      adds := adds + data;
      ghost var was := old(inst);
      assert forall i | 0 <= i < |was| :: inst[i] == was[i];
      forall i | 0 <= i < |inst|
        ensures StartsInPlace(inst, i) && LocalOk(adds, inst[i]) && SourceOk(inst[i], |original|)
      {
        if i < |was| { assert StartsInPlace(was, i) && LocalOk(old(adds), was[i]) && SourceOk(was[i], |original|); }
      }
    }

    /** The index of the source instruction whose output contains `address`. */
    method FindPosition(address: nat) returns (ret: Status, instNum: nat)
      requires Placed(View())
      ensures ret == (if address < length then Ok else InvalidInput)
      ensures ret.Ok? ==> instNum < |inst| && inst[instNum].position <= address < inst[instNum].End()
    {
      if address >= length {
        return InvalidInput, 0;
      }
      ret, instNum := Internal, 0;
      var low, high := 0, |inst|;
      while low != high
        invariant low <= high <= |inst|
        invariant EndOf(inst, low) <= address < EndOf(inst, high)
        decreases high - low
      {
        var mid := low + (high - low) / 2;
        assert StartsInPlace(inst, mid);
        var midLpos := inst[mid].position;
        if address < midLpos {
          high := mid;
        } else {
          var midHpos := midLpos + inst[mid].size;
          if address >= midHpos {
            low := mid + 1;
          } else {
            return Ok, mid;
          }
        }
      }
      assert false;
    }

    /** Replaces a copy from the first delta's output by the instructions that produce those bytes from the
        original. Copies inside that output are followed recursively; each step ends strictly earlier. */
    method MergeSourceCopy(source: WholeState, iinstOrig: WInst, ghost original: seq<byte>, ghost target: seq<byte>)
      returns (ret: Status)
      requires source != this
      requires WellFormed(source.View(), |original|) && Positive(source.inst)
      requires Merged(original, target, iinstOrig.position)
      requires iinstOrig.addr < source.length ==> iinstOrig.addr + iinstOrig.size <= source.length
      requires Reads(Apply(original, source.View()), target, iinstOrig)
      modifies this`inst, this`adds
      ensures ret == (if iinstOrig.addr < source.length then Ok else InvalidInput)
      ensures ret.Ok? ==> Merged(original, target, iinstOrig.End())
      ensures Positive(old(inst)) ==> Positive(inst)
      ensures old(inst) <= inst && old(adds) <= adds
      decreases iinstOrig.addr + iinstOrig.size, 1
    {
      var iinst := iinstOrig;
      var sinstNum: nat;
      ret, sinstNum := source.FindPosition(iinst.addr);
      if ret != Ok {
        return;
      }
      ghost var middle := Apply(original, source.View());
      while iinst.size > 0
        invariant ret == Ok && iinst.End() == iinstOrig.End()
        invariant iinst.addr + iinst.size == iinstOrig.addr + iinstOrig.size <= source.length
        invariant iinst.size > 0 ==> sinstNum < |source.inst|
        invariant iinst.size > 0 ==> source.inst[sinstNum].position <= iinst.addr < source.inst[sinstNum].End()
        invariant Merged(original, target, iinst.position) && Reads(middle, target, iinst)
        invariant Positive(old(inst)) ==> Positive(inst)
        invariant old(inst) <= inst && old(adds) <= adds
        decreases iinst.size
      {
        var sinst := source.inst[sinstNum];
        var sinstOffset := iinst.addr - sinst.position;
        var sinstLeft := sinst.size - sinstOffset;
        var thisTake := Min(iinst.size, sinstLeft);
        MergePiece(source, sinstNum, sinstOffset, thisTake, iinst, original, target);
        ReadsRest(middle, target, iinst, thisTake);
        iinst := iinst.(position := iinst.position + thisTake, addr := iinst.addr + thisTake, size := iinst.size - thisTake);
        sinstNum := sinstNum + 1;
        if iinst.size > 0 {
          assert sinstNum < |source.inst| && StartsInPlace(source.inst, sinstNum);
        }
      }
    }

    /** One step of the loop above: the next `thisTake` bytes of the copy, all produced by source instruction
        `sinstNum`. */
    method MergePiece(source: WholeState, sinstNum: nat, sinstOffset: nat, thisTake: nat, iinst: WInst,
                      ghost original: seq<byte>, ghost target: seq<byte>)
      requires source != this && thisTake > 0
      requires WellFormed(source.View(), |original|) && Positive(source.inst) && sinstNum < |source.inst|
      requires iinst.addr == source.inst[sinstNum].position + sinstOffset && sinstOffset + thisTake <= source.inst[sinstNum].size
      requires thisTake <= iinst.size && iinst.addr + iinst.size <= source.length
      requires Merged(original, target, iinst.position) && Reads(Apply(original, source.View()), target, iinst)
      modifies this`inst, this`adds
      ensures Merged(original, target, iinst.position + thisTake)
      ensures Positive(old(inst)) ==> Positive(inst)
      ensures old(inst) <= inst && old(adds) <= adds
      decreases iinst.addr + iinst.size, 0
    {
      hide WholeState.Merged, Reads, Apply, Explains;
      var sinst := source.inst[sinstNum];
      var minst := WInst(sinst.kind, InTarget, thisTake, |adds|, iinst.position);
      match sinst.kind {
        case Run =>
          PieceExplained(original, source.View(), sinstNum, sinstOffset, thisTake, target, iinst, adds);
          AppendInst(minst, [source.adds[sinst.addr]], original, target);
        case Add =>
          var from := sinst.addr + sinstOffset;
          PieceExplained(original, source.View(), sinstNum, sinstOffset, thisTake, target, iinst, adds);
          AppendInst(minst, source.adds[from..from + thisTake], original, target);
        case Copy =>
          if sinst.mode != InTarget {
            PieceExplained(original, source.View(), sinstNum, sinstOffset, thisTake, target, iinst, adds);
            AppendInst(minst.(mode := sinst.mode, addr := sinst.addr + sinstOffset), [], original, target);
          } else {
            var tinst := WInst(Copy, iinst.mode, thisTake, sinst.addr + sinstOffset, iinst.position);
            CopyReadsEarlier(original, source.View(), sinstNum, sinstOffset, thisTake, target, iinst);
            ReadsByPlace(Apply(original, source.View()), target,
                         iinst.(addr := sinst.addr + sinstOffset, size := thisTake), tinst);
            var ret := MergeSourceCopy(source, tinst, original, target);
          }
      }
    }

    method MergeRun(input: WholeState, iinst: WInst, ghost original: seq<byte>, ghost middle: seq<byte>, ghost target: seq<byte>)
      requires input != this && LocalOk(input.adds, iinst) && iinst.kind == Run
      requires length == iinst.position && Merged(original, target, length)
      requires Explains(middle, input.adds, target, iinst)
      modifies this`inst, this`adds, this`length
      ensures length == iinst.End() && Merged(original, target, length)
      ensures inst == old(inst) + [iinst.(addr := |old(adds)|)] && adds == old(adds) + [input.adds[iinst.addr]]
    {
      LiteralExplained(middle, input.adds, original, adds, target, iinst);
      AppendInst(iinst.(addr := |adds|), [input.adds[iinst.addr]], original, target);
      length := length + iinst.size;
    }

    method MergeAdd(input: WholeState, iinst: WInst, ghost original: seq<byte>, ghost middle: seq<byte>, ghost target: seq<byte>)
      requires input != this && LocalOk(input.adds, iinst) && iinst.kind == Add
      requires length == iinst.position && Merged(original, target, length)
      requires Explains(middle, input.adds, target, iinst)
      modifies this`inst, this`adds, this`length
      ensures length == iinst.End() && Merged(original, target, length)
      ensures inst == old(inst) + [iinst.(addr := |old(adds)|)]
      ensures adds == old(adds) + input.adds[iinst.addr..iinst.addr + iinst.size]
    {
      LiteralExplained(middle, input.adds, original, adds, target, iinst);
      AppendInst(iinst.(addr := |adds|), input.adds[iinst.addr..iinst.addr + iinst.size], original, target);
      length := length + iinst.size;
    }

    method MergeTargetCopy(iinst: WInst, ghost iadds: seq<byte>, ghost original: seq<byte>, ghost middle: seq<byte>, ghost target: seq<byte>)
      requires iinst.kind == Copy && iinst.mode == InTarget && iinst.addr < iinst.position
      requires length == iinst.position && Merged(original, target, length)
      requires Explains(middle, iadds, target, iinst)
      modifies this`inst, this`adds
      ensures Merged(original, target, iinst.End())
      ensures inst == old(inst) + [iinst] && adds == old(adds)
    {
      LiteralExplained(middle, iadds, original, adds, target, iinst);
      assert adds + [] == adds;
      AppendInst(iinst, [], original, target);
    }

    /** Merges one instruction of the second delta. */
    method MergeInst(source: WholeState, input: WholeState, iinst: WInst, ghost original: seq<byte>, ghost target: seq<byte>)
      returns (ret: Status)
      requires source != this && input != this
      requires WellFormed(source.View(), |original|) && Positive(source.inst)
      requires LocalOk(input.adds, iinst) && (Mergeable(iinst, source.length) ==> SourceOk(iinst, source.length))
      requires length == iinst.position && Merged(original, target, length)
      requires Mergeable(iinst, source.length) ==> Explains(Apply(original, source.View()), input.adds, target, iinst)
      modifies this`inst, this`adds, this`length
      ensures ret == if Mergeable(iinst, source.length) then Ok else InvalidInput
      ensures ret == Ok ==> length == iinst.End() && Merged(original, target, length)
      ensures Positive(old(inst)) && iinst.size > 0 ==> Positive(inst)
    {
      ret := Ok;
      ghost var middle := Apply(original, source.View());
      match iinst.kind {
        case Run =>
          MergeRun(input, iinst, original, middle, target);
        case Add =>
          MergeAdd(input, iinst, original, middle, target);
        case Copy =>
          if iinst.mode == InTarget {
            MergeTargetCopy(iinst, input.adds, original, middle, target);
          } else if iinst.mode == FromTargetWindow {
            ret := InvalidInput;
          } else {
            ExplainedReads(middle, input.adds, target, iinst);
            ret := MergeSourceCopy(source, iinst, original, target);
          }
          length := length + iinst.size;
      }
    }

    /** Applies the deltas `source` and then `input` in one: the merged list, run on the original file, gives
        what `input` makes of the output of `source`. It fails exactly when some copy of `input` starts outside
        that output or reads an earlier target window. */
    method MergeInputs(source: WholeState, input: WholeState, ghost original: seq<byte>) returns (ret: Status)
      requires source != this && input != this
      requires inst == [] && adds == [] && wininfo == [] && length == 0
      requires WellFormed(source.View(), |original|) && Positive(source.inst)
      requires Placed(input.View()) && CopiesEndInside(input.inst, source.length)
      modifies this
      ensures ret == Ok <==> forall i | 0 <= i < |input.inst| :: Mergeable(input.inst[i], source.length)
      ensures ret != Ok ==> ret == InvalidInput
      ensures ret == Ok ==> WellFormed(View(), |original|) && length == input.length && wininfo == input.wininfo
      ensures ret == Ok ==> AllSourceOk(input.inst, source.length)
      ensures ret == Ok ==> Apply(original, View()) == Apply(Apply(original, source.View()), input.View())
      ensures ret == Ok && Positive(input.inst) ==> Positive(inst)
    {
      var i := 0;
      while i < |input.wininfo|
        invariant i <= |input.wininfo| && wininfo == input.wininfo[..i]
        invariant inst == [] && adds == [] && length == 0
      {
        wininfo := wininfo + [input.wininfo[i]];
        i := i + 1;
      }
      ret := Ok;
      var inputI := 0;
      ghost var middle := Apply(original, source.View());
      ghost var o: seq<byte> := [];
      while ret == Ok && inputI < |input.inst|
        invariant inputI <= |input.inst| && wininfo == input.wininfo
        invariant ret == Ok ==> length == EndOf(input.inst, inputI) == |o| && Merged(original, o, length)
        invariant ret == Ok ==> AllExplain(middle, input.adds, o, input.inst[..inputI])
        invariant ret == Ok ==> forall i | 0 <= i < inputI :: Mergeable(input.inst[i], |middle|)
        invariant ret == Ok && Positive(input.inst) ==> Positive(inst)
        invariant ret != Ok ==> ret == InvalidInput && inputI > 0 && !Mergeable(input.inst[inputI - 1], |middle|)
      {
        var iinst := input.inst[inputI];
        assert StartsInPlace(input.inst, inputI);
        if Mergeable(iinst, |middle|) {
          assert input.inst[..inputI + 1] == input.inst[..inputI] + [iinst];
          o := Extend(middle, input.adds, o, iinst, input.inst[..inputI], original, adds, inst);
        }
        ret := MergeInst(source, input, iinst, original, o);
        inputI := inputI + 1;
      }
      if ret == Ok {
        assert input.inst[..inputI] == input.inst;
        ExplainedIsApply(middle, input.View(), o);
        ExplainedIsApply(original, View(), o);
      }
    }
  }

  /** An instruction of the second delta that merging accepts. */
  predicate Mergeable(x: WInst, len: nat) {
    x.kind == Copy ==> x.mode == InTarget || (x.mode == FromSource && x.addr < len)
  }

  /** A copy that starts inside the first delta's output also ends inside it. */
  ghost predicate CopiesEndInside(inst: seq<WInst>, len: nat) {
    forall i | 0 <= i < |inst| :: Mergeable(inst[i], len) ==> SourceOk(inst[i], len)
  }

  /** The target holds, where instruction `x` writes, the bytes of `from` that `x` addresses. */
  ghost predicate Reads(from: seq<byte>, target: seq<byte>, x: WInst) {
    x.addr < |from| && x.addr + x.size <= |from| ==> x.End() <= |target| && target[x.position..x.End()] == from[x.addr..x.addr + x.size]
  }

  lemma ReadsRest(from: seq<byte>, target: seq<byte>, x: WInst, take: nat)
    requires take <= x.size && Reads(from, target, x)
    ensures Reads(from, target, x.(position := x.position + take, addr := x.addr + take, size := x.size - take))
    ensures Reads(from, target, x.(size := take)) || x.addr + x.size > |from|
  {
    if x.addr < |from| && x.addr + x.size <= |from| {
      var here, there := target[x.position..x.End()], from[x.addr..x.addr + x.size];
      assert here[take..] == target[x.position + take..x.End()] && there[take..] == from[x.addr + take..x.addr + x.size];
      assert here[..take] == target[x.position..x.position + take] && there[..take] == from[x.addr..x.addr + take];
    }
  }

  /** The merged form of `take` bytes at `offset` of a first-delta instruction, placed at `at`: the instruction,
      and the literal data it brings along (stored from `base`). Copies inside that delta's output have none. */
  function PieceInst(s: WInst, offset: nat, take: nat, at: nat, base: nat): WInst {
    if s.kind == Copy then WInst(s.kind, s.mode, take, s.addr + offset, at)
    else WInst(s.kind, InTarget, take, base, at)
  }

  function PieceData(s: WInst, adds: seq<byte>, offset: nat, take: nat): seq<byte>
    requires LocalOk(adds, s) && offset + take <= s.size
  {
    match s.kind
    case Run => [adds[s.addr]]
    case Add => adds[s.addr + offset..s.addr + offset + take]
    case Copy => []
  }

  /** A piece of a first-delta instruction says the same about the target as the bytes it was cut from. */
  lemma PieceExplained(original: seq<byte>, d: Delta, i: nat, offset: nat, take: nat, target: seq<byte>, x: WInst, adds: seq<byte>)
    requires WellFormed(d, |original|) && i < |d.inst| && take > 0 && offset + take <= d.inst[i].size
    requires x.addr == d.inst[i].position + offset && take <= x.size && x.addr + x.size <= d.length
    requires Reads(Apply(original, d), target, x)
    requires d.inst[i].kind == Copy ==> d.inst[i].mode == FromSource
    ensures var s := d.inst[i];
            Explains(original, adds + PieceData(s, d.adds, offset, take), target, PieceInst(s, offset, take, x.position, |adds|))
  {
    var s := d.inst[i];
    var middle := Apply(original, d);
    ApplyExplains(original, d);
    assert Explains(original, d.adds, middle, s);
    var data, m := PieceData(s, d.adds, offset, take), PieceInst(s, offset, take, x.position, |adds|);
    forall k: nat | k < take ensures Gives(original, adds + data, target, m, k) {
      assert Gives(original, d.adds, middle, s, offset + k);
      assert target[x.position..x.End()][k] == middle[x.addr..x.addr + x.size][k];
    }
  }

  /** Whether the bytes are there does not depend on what kind of instruction they are for. */
  lemma ReadsByPlace(from: seq<byte>, target: seq<byte>, x: WInst, y: WInst)
    requires Reads(from, target, x) && y.position == x.position && y.addr == x.addr && y.size == x.size
    ensures Reads(from, target, y)
  {
  }

  /** Bytes that a target copy of the first delta produced are also found where that copy read them. */
  lemma CopyReadsEarlier(original: seq<byte>, d: Delta, i: nat, offset: nat, take: nat, target: seq<byte>, x: WInst)
    requires WellFormed(d, |original|) && i < |d.inst| && take > 0 && offset + take <= d.inst[i].size
    requires x.addr == d.inst[i].position + offset && take <= x.size && x.addr + x.size <= d.length
    requires Reads(Apply(original, d), target, x)
    requires d.inst[i].kind == Copy && d.inst[i].mode == InTarget
    ensures d.inst[i].addr + offset + take < d.length
    ensures Reads(Apply(original, d), target, x.(addr := d.inst[i].addr + offset, size := take))
  {
    var s := d.inst[i];
    var middle := Apply(original, d);
    ApplyExplains(original, d);
    assert Explains(original, d.adds, middle, s);
    assert s.addr < s.position && s.End() <= |middle|;
    var here, there := target[x.position..x.position + take], middle[s.addr + offset..s.addr + offset + take];
    forall k | 0 <= k < take ensures here[k] == there[k] {
      assert Gives(original, d.adds, middle, s, offset + k);
      assert target[x.position..x.End()][k] == middle[x.addr..x.addr + x.size][k];
    }
    assert here == there;
  }

  /** The second delta's own runs, adds and target copies keep their meaning when moved over. */
  lemma LiteralExplained(middle: seq<byte>, iadds: seq<byte>, original: seq<byte>, adds: seq<byte>, target: seq<byte>, x: WInst)
    requires LocalOk(iadds, x) && Explains(middle, iadds, target, x)
    requires x.kind == Copy ==> x.mode == InTarget
    ensures Explains(original, adds + PieceData(x, iadds, 0, x.size), target,
                     if x.kind == Copy then x else x.(addr := |adds|))
  {
    var m := if x.kind == Copy then x else x.(addr := |adds|);
    forall j: nat | j < x.size ensures Gives(original, adds + PieceData(x, iadds, 0, x.size), target, m, j) {
      assert Gives(middle, iadds, target, x, j);
    }
  }

  lemma AppendExplained(src: seq<byte>, adds: seq<byte>, data: seq<byte>, t: seq<byte>, inst: seq<WInst>, x: WInst)
    requires AllExplain(src, adds, t, inst) && Explains(src, adds + data, t, x)
    ensures AllExplain(src, adds + data, t, inst + [x])
  {
    forall i | 0 <= i < |inst| ensures Explains(src, adds + data, t, inst[i]) {
      forall j: nat | j < inst[i].size ensures Gives(src, adds + data, t, inst[i], j) {
        assert Gives(src, adds, t, inst[i], j);
      }
    }
  }

  lemma ExplainedReads(from: seq<byte>, adds: seq<byte>, target: seq<byte>, x: WInst)
    requires x.kind == Copy && x.mode == FromSource
    requires x.addr < |from| ==> Explains(from, adds, target, x)
    ensures Reads(from, target, x)
  {
    if x.addr < |from| && x.addr + x.size <= |from| {
      forall j | 0 <= j < x.size ensures target[x.position..x.End()][j] == from[x.addr..x.addr + x.size][j] {
        assert Gives(from, adds, target, x, j);
      }
    }
  }

  /** The target grown by one instruction of the second delta; everything explained so far stays explained. */
  lemma Extend(middle: seq<byte>, iadds: seq<byte>, o: seq<byte>, x: WInst, before: seq<WInst>,
               original: seq<byte>, adds: seq<byte>, inst: seq<WInst>) returns (o': seq<byte>)
    requires x.position == |o| && LocalOk(iadds, x) && SourceOk(x, |middle|)
    requires AllExplain(original, adds, o, inst) && AllExplain(middle, iadds, o, before)
    ensures o' == Step(middle, iadds, o, x)
    ensures AllExplain(original, adds, o', inst) && AllExplain(middle, iadds, o', before + [x])
    ensures Explains(middle, iadds, o', x)
  {
    o' := Step(middle, iadds, o, x);
    StepExplains(middle, iadds, o, x);
    forall i | 0 <= i < |inst| ensures Explains(original, adds, o', inst[i]) {
      ExplainsMonotone(original, adds, o, o', inst[i]);
    }
    forall i | 0 <= i < |before| ensures Explains(middle, iadds, o', before[i]) {
      ExplainsMonotone(middle, iadds, o, o', before[i]);
    }
  }
}
