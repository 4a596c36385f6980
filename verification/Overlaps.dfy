/** Resolving overlaps between the matches that lazy matching leaves in the instruction buffer. */
module Overlaps {
  import opened Sequences
  import opened Bytes
  import opened CodeTable
  import opened WindowEncoder

  const MAX_MATCH_SPLIT: nat := 18

  function End(x: RInst): nat {
    x.pos + x.size
  }

  /** Matches in the order found: every one starts later and ends later than all before it. */
  predicate Increasing(s: seq<RInst>) {
    && (forall i :: 0 <= i < |s| ==> s[i].size >= MIN_MATCH)
    && (forall i, j :: 0 <= i < j < |s| ==> s[i].pos < s[j].pos && End(s[i]) < End(s[j]))
  }

  /** The first `n` instructions do not overlap. */
  predicate Apart(s: seq<RInst>, n: nat)
    requires n <= |s|
  {
    forall i, j :: 0 <= i < j < n ==> End(s[i]) <= s[j].pos
  }

  /** `y` is what is left of `x` after cutting off either end, with the address moved along. */
  predicate Trimmed(x: RInst, y: RInst) {
    && y.type_ == x.type_ && y.xtra == x.xtra && y.size >= MIN_MATCH
    && x.pos <= y.pos && End(y) <= End(x) && y.addr == x.addr + (y.pos - x.pos)
  }

  predicate PartOf(orig: seq<RInst>, y: RInst) {
    exists j :: 0 <= j < |orig| && Trimmed(orig[j], y)
  }

  /** Every instruction is a part of an original one. */
  predicate Trims(orig: seq<RInst>, s: seq<RInst>) {
    forall k :: 0 <= k < |s| ==> PartOf(orig, s[k])
  }

  /** A part of a true match is a true match. */
  lemma TrimmedGenuine(file: seq<byte>, srcbase: nat, srclen: nat, window: seq<byte>, x: RInst, y: RInst)
    requires Genuine(file, srcbase, srclen, window, x) && Trimmed(x, y)
    ensures Genuine(file, srcbase, srclen, window, y)
  {
    var d := y.pos - x.pos;
    SubRange(window, x.pos, x.size, d, y.size);
    if x.type_ == RUN {
      assert Repeat(x.xtra, x.size)[d..d + y.size] == Repeat(x.xtra, y.size);
    } else if x.type_ == CPY {
      SubRange(if x.xtra != 0 then file else window, x.addr, x.size, d, y.size);
    }
  }

  lemma SubRange(s: seq<byte>, from: nat, size: nat, d: nat, n: nat)
    requires from + size <= |s| && d + n <= size
    ensures s[from..from + size][d..d + n] == s[from + d..from + d + n]
  {
    var t, u := s[from..from + size], s[from + d..from + d + n];
    assert forall k :: 0 <= k < n ==> t[d..d + n][k] == t[d + k] == s[from + d + k] == u[k];
  }

  /** Two overlapping matches of which neither covers almost all of the other are cut so that the second begins
      where the first ends. */
  function Shortened(r1: RInst, r2: RInst): (r: (RInst, RInst))
    requires r1.pos < r2.pos < End(r1) < End(r2)
    requires End(r2) - r1.pos >= 2 * MIN_MATCH && End(r2) - End(r1) > 2 && r2.pos - r1.pos > 2
    requires r1.size >= MIN_MATCH && r2.size >= MIN_MATCH
    ensures Trimmed(r1, r.0) && Trimmed(r2, r.1)
    ensures r.0.pos == r1.pos && End(r.0) == r.1.pos <= End(r1) && End(r.1) == End(r2)
  {
    var gap := End(r2) - r1.pos;
    var average := gap / 2;
    var newsize := Min(MAX_MATCH_SPLIT, gap - average);
    if newsize > r1.size then
      (r1, Advanced(r2, End(r1) - r2.pos))
    else if newsize > r2.size then
      (r1.(size := r1.size - (End(r1) - r2.pos)), r2)
    else
      var cut := r1.size - newsize;
      var adjust := if r2.pos > End(r1) - cut then cut - (r2.pos - (End(r1) - cut)) else cut;
      var first := r1.(size := r1.size - adjust);
      (first, Advanced(r2, End(first) - r2.pos))
  }

  function Advanced(r: RInst, n: nat): RInst
    requires n < r.size
  {
    r.(size := r.size - n, pos := r.pos + n, addr := r.addr + n)
  }

  /** The cut is in the middle of both together, rounded up, or 18 bytes from the start if that is less, but nowhere
      outside the overlap. */
  lemma CutAt(r1: RInst, r2: RInst)
    requires r1.pos < r2.pos < End(r1) < End(r2)
    requires End(r2) - r1.pos >= 2 * MIN_MATCH && End(r2) - End(r1) > 2 && r2.pos - r1.pos > 2
    requires r1.size >= MIN_MATCH && r2.size >= MIN_MATCH
    ensures
      var middle := r1.pos + Min(18, (End(r2) - r1.pos + 1) / 2);
      Shortened(r1, r2).1.pos == if middle < r2.pos then r2.pos else Min(middle, End(r1))
  {
  }

  lemma TrimsCompose(a: seq<RInst>, b: seq<RInst>, c: seq<RInst>)
    requires Trims(a, b) && Trims(b, c)
    ensures Trims(a, c)
  {
    forall k | 0 <= k < |c| ensures PartOf(a, c[k]) {
      assert PartOf(b, c[k]);
      var i :| 0 <= i < |b| && Trimmed(b[i], c[k]);
      assert PartOf(a, b[i]);
      var j :| 0 <= j < |a| && Trimmed(a[j], b[i]);
      assert Trimmed(a[j], c[k]);
    }
  }

  /** What holds while the loop stands at instruction `i` of the list: all before it are settled. */
  ghost predicate Settling(orig: seq<RInst>, s: seq<RInst>, i: nat) {
    Increasing(s) && Trims(orig, s) && i <= |s| && Apart(s, if i < |s| then i + 1 else i)
  }

  lemma SettleStart(s: seq<RInst>)
    requires Increasing(s)
    ensures Settling(s, s, 0)
  {
    forall k | 0 <= k < |s| ensures PartOf(s, s[k]) {
      assert Trimmed(s[k], s[k]);
    }
  }

  lemma SettleNext(orig: seq<RInst>, s: seq<RInst>, i: nat)
    requires Settling(orig, s, i) && i + 1 < |s| && End(s[i]) <= s[i + 1].pos
    ensures Settling(orig, s, i + 1)
  {
  }

  lemma TrimsWithout(s: seq<RInst>, k: nat)
    requires k < |s| && Increasing(s)
    ensures Trims(s, Without(s, k))
  {
    forall m | 0 <= m < |Without(s, k)| ensures PartOf(s, Without(s, k)[m]) {
      assert Trimmed(s[if m < k then m else m + 1], Without(s, k)[m]);
    }
  }

  lemma IncreasingWithout(s: seq<RInst>, k: nat)
    requires k < |s| && Increasing(s)
    ensures Increasing(Without(s, k))
  {
    var t := Without(s, k);
    assert forall m :: 0 <= m < |t| ==> t[m] == s[if m < k then m else m + 1];
  }

  /** Dropping the second of two overlapping matches. */
  lemma DropSecond(orig: seq<RInst>, s: seq<RInst>, i: nat)
    requires Settling(orig, s, i) && i + 1 < |s|
    ensures Settling(orig, Without(s, i + 1), i)
    ensures i + 2 < |s| ==> Without(s, i + 1)[i + 1] == s[i + 2]
    ensures i + 2 == |s| || End(s[i]) <= s[i + 2].pos ==> Settling(orig, Without(s, i + 1), i + 1)
  {
    IncreasingWithout(s, i + 1);
    TrimsWithout(s, i + 1);
    TrimsCompose(orig, s, Without(s, i + 1));
    hide PartOf, Trims;
  }

  /** Dropping the first of two overlapping matches. */
  lemma DropFirst(orig: seq<RInst>, s: seq<RInst>, i: nat)
    requires Settling(orig, s, i) && i + 1 < |s|
    ensures Settling(orig, Without(s, i), i)
  {
    IncreasingWithout(s, i);
    TrimsWithout(s, i);
    TrimsCompose(orig, s, Without(s, i));
    var t := Without(s, i);
    forall a, b | 0 <= a < b < i + 1 ensures End(t[a]) <= t[b].pos {
      if b == i {
        assert End(s[a]) <= s[i].pos < s[i + 1].pos;
      }
    }
  }

  lemma CutTrims(s: seq<RInst>, i: nat, a: RInst, b: RInst)
    requires Increasing(s) && i + 1 < |s| && Trimmed(s[i], a) && Trimmed(s[i + 1], b)
    ensures Trims(s, s[i := a][i + 1 := b])
  {
    var t := s[i := a][i + 1 := b];
    forall k | 0 <= k < |t| ensures PartOf(s, t[k]) {
      assert Trimmed(s[k], t[k]);
    }
  }

  lemma CutIncreasing(s: seq<RInst>, i: nat, a: RInst, b: RInst)
    requires Increasing(s) && i + 1 < |s|
    requires a.pos == s[i].pos && End(a) == b.pos && End(b) == End(s[i + 1]) && b.pos <= End(s[i])
    requires a.size >= MIN_MATCH && b.size >= MIN_MATCH
    requires i + 2 < |s| ==> End(s[i]) + 1 < s[i + 2].pos
    requires End(a) <= End(s[i]) && b.pos >= s[i + 1].pos
    requires forall k :: 0 <= k < i ==> End(s[k]) <= s[i].pos
    ensures Increasing(s[i := a][i + 1 := b])
  {
    var t := s[i := a][i + 1 := b];
    forall k, m | 0 <= k < m < |t| ensures t[k].pos < t[m].pos && End(t[k]) < End(t[m]) {
      assert s[k].pos < s[m].pos && End(s[k]) < End(s[m]);
    }
  }

  /** Cutting two overlapping matches apart. */
  lemma CutApart(orig: seq<RInst>, s: seq<RInst>, i: nat, a: RInst, b: RInst)
    requires Settling(orig, s, i) && i + 1 < |s|
    requires Trimmed(s[i], a) && Trimmed(s[i + 1], b) && a.pos == s[i].pos && End(a) == b.pos && End(b) == End(s[i + 1])
    requires i + 2 < |s| ==> End(s[i]) + 1 < s[i + 2].pos
    ensures Settling(orig, s[i := a][i + 1 := b], i + 1)
  {
    var t := s[i := a][i + 1 := b];
    CutTrims(s, i, a, b);
    TrimsCompose(orig, s, t);
    CutIncreasing(s, i, a, b);
    forall k, m | 0 <= k < m < i + 2 ensures End(t[k]) <= t[m].pos {
      if k < i {
        assert End(s[k]) <= s[i].pos;
      }
    }
    hide PartOf, Trims, Increasing, Trimmed;
  }

  /** The loop's invariant; without force the last instruction is never touched. */
  ghost predicate Compacting(orig: seq<RInst>, s: seq<RInst>, i: nat, force: bool) {
    && Settling(orig, s, i) && |s| <= |orig|
    && (orig != [] ==> s != [] && orig[0].pos <= s[0].pos)
    && (!force && s != [] ==> i < |s| && s[|s| - 1] == orig[|orig| - 1])
    && (!force && |orig| >= 2 ==> |s| >= 2)
  }

  lemma CompactStart(s: seq<RInst>, force: bool)
    requires Increasing(s)
    ensures Compacting(s, s, 0, force)
  {
    SettleStart(s);
  }

  lemma CompactPair(orig: seq<RInst>, s: seq<RInst>, i: nat, force: bool)
    requires Compacting(orig, s, i, force) && i + 1 < |s|
    ensures s[i].pos < s[i + 1].pos && End(s[i]) < End(s[i + 1])
    ensures s[i].size >= MIN_MATCH && s[i + 1].size >= MIN_MATCH
    ensures End(s[i]) <= s[i + 1].pos ==> Compacting(orig, s, i + 1, force)
  {
    if End(s[i]) <= s[i + 1].pos {
      SettleNext(orig, s, i);
    }
    hide Apart, Trims;
  }

  /** The third match starts where the first ends or before: the second is not needed. */
  lemma CompactSecond(orig: seq<RInst>, s: seq<RInst>, i: nat, force: bool)
    requires Compacting(orig, s, i, force) && i + 1 < |s| && (force || i + 2 < |s|)
    ensures Compacting(orig, Without(s, i + 1), i, force)
    ensures i + 2 == |s| || End(s[i]) <= s[i + 2].pos ==> Compacting(orig, Without(s, i + 1), i + 1, force)
  {
    DropSecond(orig, s, i);
    hide Settling;
  }

  lemma CompactFirst(orig: seq<RInst>, s: seq<RInst>, i: nat, force: bool)
    requires Compacting(orig, s, i, force) && i + 1 < |s| && (force || i + 2 < |s|)
    ensures Compacting(orig, Without(s, i), i, force)
  {
    assert s[0].pos <= s[1].pos;
    DropFirst(orig, s, i);
    hide Settling;
  }

  lemma CompactCut(orig: seq<RInst>, s: seq<RInst>, i: nat, force: bool, a: RInst, b: RInst)
    requires Compacting(orig, s, i, force) && i + 1 < |s| && (force || i + 2 < |s|)
    requires Trimmed(s[i], a) && Trimmed(s[i + 1], b) && a.pos == s[i].pos && End(a) == b.pos && End(b) == End(s[i + 1])
    requires i + 2 < |s| ==> End(s[i]) + 1 < s[i + 2].pos
    ensures Compacting(orig, s[i := a][i + 1 := b], i + 1, force)
  {
    CutApart(orig, s, i, a, b);
    hide Settling, Trimmed;
  }

  lemma Compacted(orig: seq<RInst>, s: seq<RInst>, i: nat, force: bool)
    requires Compacting(orig, s, i, force)
    requires |s| <= i + 1 || (!force && i + 2 == |s|)
    ensures Increasing(s) && Trims(orig, s) && |s| <= |orig|
    ensures orig != [] ==> s != [] && orig[0].pos <= s[0].pos
    ensures force ==> Apart(s, |s|)
    ensures !force ==> Apart(s, if s == [] then 0 else |s| - 1)
    ensures !force && s != [] ==> s[|s| - 1] == orig[|orig| - 1]
    ensures !force && |orig| >= 2 ==> |s| >= 2
  {
  }

  /** One look at the match at `i` and its successor: the new list, where to go on, and whether to stop. */
  ghost function StepOf(orig: seq<RInst>, s: seq<RInst>, i: nat, force: bool): (r: (seq<RInst>, nat, bool))
    requires Compacting(orig, s, i, force) && i + 1 < |s|
    ensures Compacting(orig, r.0, r.1, force) && |r.0| <= |s|
    ensures if r.2 then r.0 == s && r.1 == i && !force && i + 2 == |s| else |r.0| - r.1 < |s| - i
  {
    hide Compacting, Trimmed;
    var r1, r2 := s[i], s[i + 1];
    CompactPair(orig, s, i, force);
    if End(r1) <= r2.pos then (s, i + 1, false)
    else if i + 2 == |s| && !force then (s, i, true)
    else if i + 2 < |s| && s[i + 2].pos <= End(r1) + 1 then
      CompactSecond(orig, s, i, force);
      (Without(s, i + 1), i, false)
    else if End(r2) - r1.pos < 2 * MIN_MATCH || End(r2) - End(r1) <= 2 || r2.pos - r1.pos <= 2 then
      if r1.size < r2.size then
        CompactFirst(orig, s, i, force);
        (Without(s, i), i, false)
      else
        CompactSecond(orig, s, i, force);
        (Without(s, i + 1), i + 1, false)
    else
      var cut := Shortened(r1, r2);
      CompactCut(orig, s, i, force, cut.0, cut.1);
      (s[i := cut.0][i + 1 := cut.1], i + 1, false)
  }

  /** Of two overlapping matches one is dropped exactly when a third one begins no more than a byte behind the first, or
      when, nothing being left open for a later one, they are too close for two of at least four bytes or one reaches
      no more than two bytes beyond the other: the second then, unless the first is shorter and there is no such third.
      Otherwise both stay, cut apart or, at the end without force, as they are. */
  lemma DroppedExactly(orig: seq<RInst>, s: seq<RInst>, i: nat, force: bool)
    requires Compacting(orig, s, i, force) && i + 1 < |s|
    ensures
      var (first, second, next) := (s[i], s[i + 1], StepOf(orig, s, i, force).0);
      var overlap := second.pos < first.pos + first.size;
      var third := i + 2 < |s| && s[i + 2].pos <= first.pos + first.size + 1;
      var close := second.pos + second.size < first.pos + 8 || second.pos <= first.pos + 2
                   || second.pos + second.size <= first.pos + first.size + 2;
      && (|next| == |s| - 1 <==> overlap && (third || ((i + 2 < |s| || force) && close)))
      && (|next| < |s| ==> next == Without(s, if !third && first.size < second.size then i else i + 1))
      && (|next| == |s| ==> |next| > i + 1 && next[i].pos == first.pos && End(next[i + 1]) == End(second))
      && (|next| == |s| && overlap && (i + 2 < |s| || force) ==> End(next[i]) == next[i + 1].pos)
      && (!overlap || (i + 2 == |s| && !force) ==> next == s)
  {
    hide Compacting, Trimmed, Without;
    CompactPair(orig, s, i, force);
  }

  /** The pass over the whole list, from instruction `i` on. */
  ghost function Pass(orig: seq<RInst>, s: seq<RInst>, i: nat, force: bool): (r: seq<RInst>)
    requires Compacting(orig, s, i, force)
    ensures |r| <= |s|
    decreases |s| - i
  {
    if i + 1 >= |s| then s
    else
      var step := StepOf(orig, s, i, force);
      if step.2 then s else Pass(orig, step.0, step.1, force)
  }

  /** How many bytes of the window the matches cover, when `e` bytes are covered already. */
  function Coverage(s: seq<RInst>, e: nat): int {
    if s == [] then 0
    else End(s[0]) - Max(s[0].pos, e) + Coverage(s[1..], End(s[0]))
  }

  lemma {:induction false} CoverageWithout(s: seq<RInst>, k: nat, e: nat, loss: nat)
    requires k < |s| && Increasing(s)
    requires
      var before := if k == 0 then e else End(s[k - 1]);
      End(s[k]) - Max(s[k].pos, before) - (if k + 1 < |s| then Max(s[k + 1].pos, End(s[k])) - Max(s[k + 1].pos, before) else 0)
      <= loss
    ensures Coverage(s, e) <= Coverage(Without(s, k), e) + loss
    decreases k
  {
    var t := Without(s, k);
    if k == 0 {
      assert t == s[1..];
    } else {
      assert t[1..] == Without(s[1..], k - 1);
      CoverageWithout(s[1..], k - 1, End(s[0]), loss);
    }
  }

  lemma {:induction false} CoverageCut(s: seq<RInst>, i: nat, e: nat, a: RInst, b: RInst)
    requires i + 1 < |s| && s[i + 1].pos < End(s[i])
    requires a.pos == s[i].pos && End(a) == b.pos <= End(s[i]) && End(b) == End(s[i + 1])
    requires i == 0 ==> e <= End(a)
    requires i > 0 ==> End(s[i - 1]) <= End(a)
    ensures Coverage(s[i := a][i + 1 := b], e) == Coverage(s, e)
    decreases i
  {
    var t := s[i := a][i + 1 := b];
    if i == 0 {
      assert t[1..][1..] == s[1..][1..];
    } else {
      assert t[1..] == s[1..][i - 1 := a][i := b];
      CoverageCut(s[1..], i - 1, End(s[0]), a, b);
    }
  }

  /** A match that the one behind it all but reaches over, or that is hardly longer than what its neighbours cover. */
  lemma DropLosesLittle(s: seq<RInst>, i: nat, k: nat)
    requires Increasing(s) && i + 1 < |s| && (i > 0 ==> End(s[i - 1]) <= s[i].pos) && s[i + 1].pos < End(s[i])
    requires s[i].pos < s[i + 1].pos && End(s[i]) < End(s[i + 1])
    requires i + 2 < |s| ==> s[i + 1].pos < s[i + 2].pos && End(s[i + 1]) < End(s[i + 2])
    requires
      var third := i + 2 < |s| && s[i + 2].pos <= End(s[i]) + 1;
      && (third ==> k == i + 1)
      && (!third ==> k == (if s[i].size < s[i + 1].size then i else i + 1))
      && (!third ==> End(s[i + 1]) - s[i].pos < 2 * MIN_MATCH || End(s[i + 1]) - End(s[i]) <= 2
                     || s[i + 1].pos - s[i].pos <= 2)
    ensures Coverage(s, 0) <= Coverage(Without(s, k), 0) + 3
  {
    hide Coverage, Increasing, Without;
    CoverageWithout(s, k, 0, 3);
  }

  lemma StepLosesLittle(orig: seq<RInst>, s: seq<RInst>, i: nat, force: bool)
    requires Compacting(orig, s, i, force) && i + 1 < |s|
    ensures
      var r := StepOf(orig, s, i, force).0;
      Coverage(s, 0) <= Coverage(r, 0) + 3 * (|s| - |r|)
  {
    hide Compacting, Coverage, Increasing, Trimmed, Without, Shortened;
    var r1, r2 := s[i], s[i + 1];
    CompactPair(orig, s, i, force);
    PassPrevious(orig, s, i, force);
    if End(r1) <= r2.pos || (i + 2 == |s| && !force) {
    } else if i + 2 < |s| && s[i + 2].pos <= End(r1) + 1 {
      DropLosesLittle(s, i, i + 1);
    } else if End(r2) - r1.pos < 2 * MIN_MATCH || End(r2) - End(r1) <= 2 || r2.pos - r1.pos <= 2 {
      DropLosesLittle(s, i, if r1.size < r2.size then i else i + 1);
    } else {
      var cut := Shortened(r1, r2);
      CoverageCut(s, i, 0, cut.0, cut.1);
    }
  }

  /** Cutting loses nothing, and every match dropped loses at most three bytes of what was covered. */
  lemma {:induction false} PassLosesLittle(orig: seq<RInst>, s: seq<RInst>, i: nat, force: bool)
    requires Compacting(orig, s, i, force)
    ensures
      var r := Pass(orig, s, i, force);
      Coverage(s, 0) <= Coverage(r, 0) + 3 * (|s| - |r|)
    decreases |s| - i
  {
    hide Compacting, Coverage, StepOf;
    if i + 1 < |s| {
      var step := StepOf(orig, s, i, force);
      if !step.2 {
        StepLosesLittle(orig, s, i, force);
        PassLosesLittle(orig, step.0, step.1, force);
      }
    }
  }

  lemma PassPrevious(orig: seq<RInst>, s: seq<RInst>, i: nat, force: bool)
    requires Compacting(orig, s, i, force) && i + 1 < |s|
    ensures Increasing(s)
    ensures i > 0 ==> End(s[i - 1]) <= s[i].pos
    ensures i + 2 < |s| ==> s[i + 1].pos < s[i + 2].pos && End(s[i + 1]) < End(s[i + 2])
  {
  }

  lemma {:induction false} PassSettles(orig: seq<RInst>, s: seq<RInst>, i: nat, force: bool)
    requires Compacting(orig, s, i, force)
    ensures
      var r := Pass(orig, s, i, force);
      && Increasing(r) && Trims(orig, r)
      && (force ==> Apart(r, |r|))
      && (!force ==> Apart(r, if r == [] then 0 else |r| - 1))
      && (!force && |orig| >= 2 ==> |r| >= 2)
      && (!force && r != [] ==> orig != [] && r[|r| - 1] == orig[|orig| - 1])
    decreases |s| - i
  {
    hide Compacting, Increasing, Trims, Apart, StepOf;
    if i + 1 >= |s| || StepOf(orig, s, i, force).2 {
      Compacted(orig, s, i, force);
    } else {
      var step := StepOf(orig, s, i, force);
      PassSettles(orig, step.0, step.1, force);
    }
  }

  ghost function Resolved(s: seq<RInst>, force: bool): (r: seq<RInst>)
    requires Increasing(s)
    ensures |r| <= |s|
  {
    CompactStart(s, force);
    Pass(s, s, 0, force)
  }

  /** A forced pass leaves matches that do not overlap, in order, none below the minimum, each a part of a true one;
      without force only the last may still overlap the one before it. */
  lemma ResolvedIsSettled(s: seq<RInst>, force: bool)
    requires Increasing(s)
    ensures
      var r := Resolved(s, force);
      && Increasing(r) && Trims(s, r)
      && (force ==> Apart(r, |r|))
      && (!force ==> Apart(r, if r == [] then 0 else |r| - 1))
      && (!force && |s| >= 2 ==> |r| >= 2)
      && (!force && r != [] ==> s != [] && r[|r| - 1] == s[|s| - 1])
  {
    hide Increasing, Trims, Apart, Pass, Compacting;
    CompactStart(s, force);
    PassSettles(s, s, 0, force);
  }

  lemma ResolvedLosesLittle(s: seq<RInst>, force: bool)
    requires Increasing(s)
    ensures
      var r := Resolved(s, force);
      Coverage(s, 0) <= Coverage(r, 0) + 3 * (|s| - |r|)
  {
    CompactStart(s, force);
    PassLosesLittle(s, s, 0, force);
  }

  lemma PassDropsSecond(orig: seq<RInst>, s: seq<RInst>, i: nat, force: bool)
    requires Compacting(orig, s, i, force) && i + 2 < |s|
    requires End(s[i]) > s[i + 1].pos && s[i + 2].pos <= End(s[i]) + 1
    ensures Compacting(orig, Without(s, i + 1), i, force)
    ensures Pass(orig, s, i, force) == Pass(orig, Without(s, i + 1), i, force)
  {
    hide Compacting, Shortened, Trimmed;
    CompactPair(orig, s, i, force);
    CompactSecond(orig, s, i, force);
  }

  lemma PassStops(orig: seq<RInst>, s: seq<RInst>, i: nat)
    requires Compacting(orig, s, i, false) && i + 2 == |s| && End(s[i]) > s[i + 1].pos
    ensures Pass(orig, s, i, false) == s
  {
    hide Compacting, Shortened, Trimmed;
    CompactPair(orig, s, i, false);
  }

  lemma {:induction false} PassCollapses(orig: seq<RInst>, s: seq<RInst>)
    requires Compacting(orig, s, 0, false) && |s| >= 2 && Increasing(s) && End(s[0]) > s[|s| - 1].pos
    ensures Pass(orig, s, 0, false) == [s[0], s[|s| - 1]]
    decreases |s|
  {
    hide Compacting, Pass;
    if |s| == 2 {
      PassStops(orig, s, 0);
    } else {
      assert s[1].pos < s[|s| - 1].pos && s[2].pos <= s[|s| - 1].pos;
      PassDropsSecond(orig, s, 0, false);
      PassCollapses(orig, Without(s, 1));
    }
  }

  /** Matches that all begin inside the first one: without force only the first and the last are left, and they overlap. */
  lemma CollapseToTwo(s: seq<RInst>)
    requires Increasing(s) && |s| >= 2 && End(s[0]) > s[|s| - 1].pos
    ensures Resolved(s, false) == [s[0], s[|s| - 1]]
  {
    hide Compacting, Increasing, Pass;
    CompactStart(s, false);
    PassCollapses(s, s);
  }

  /** A last match that begins behind the end of the one before it is never left with one that it overlaps. */
  lemma ApartAtTheEnd(s: seq<RInst>)
    requires Increasing(s) && |s| >= 2 && End(s[|s| - 2]) <= s[|s| - 1].pos
    ensures
      var r := Resolved(s, false);
      |r| == 2 ==> End(r[0]) <= r[1].pos
  {
    hide Resolved;
    var r := Resolved(s, false);
    ResolvedIsSettled(s, false);
    if |r| == 2 {
      assert PartOf(s, r[0]);
      var i :| 0 <= i < |s| && Trimmed(s[i], r[0]);
      assert i < |s| - 2 ==> End(s[i]) < End(s[|s| - 2]);
    }
  }
}
