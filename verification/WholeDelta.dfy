/** Whole-file deltas: the instruction lists that delta merging reads and writes, and what they mean. */
module WholeDelta {
  import opened Bytes

  datatype Kind = Run | Add | Copy

  /** Where a copy reads: the file being built (mode 0), the original file, or an earlier window of the target. */
  datatype Mode = InTarget | FromSource | FromTargetWindow

  /** One instruction of a whole-file list; `position` is the absolute offset of its first output byte. */
  datatype WInst = WInst(kind: Kind, mode: Mode, size: nat, addr: nat, position: nat) {
    function End(): nat { position + size }
  }

  datatype Delta = Delta(inst: seq<WInst>, adds: seq<byte>, length: nat)

  /** Where instruction `i` has to start: right behind its predecessor. */
  function EndOf(inst: seq<WInst>, i: nat): nat
    requires i <= |inst|
  {
    if i == 0 then 0 else inst[i - 1].End()
  }

  predicate StartsInPlace(inst: seq<WInst>, i: nat)
    requires i < |inst|
  {
    inst[i].position == EndOf(inst, i)
  }

  ghost predicate Contiguous(inst: seq<WInst>) {
    forall i | 0 <= i < |inst| :: StartsInPlace(inst, i)
  }

  ghost predicate Positive(inst: seq<WInst>) {
    forall i | 0 <= i < |inst| :: inst[i].size > 0
  }

  /** The operands that do not depend on the original file: literal data, and backward copies inside the target. */
  predicate LocalOk(adds: seq<byte>, x: WInst) {
    match x.kind
    case Run => x.addr < |adds|
    case Add => x.addr + x.size <= |adds|
    case Copy => x.mode == InTarget ==> x.addr < x.position
  }

  /** A copy from the original stays inside it; copies from earlier target windows are not supported. An empty copy
      reads nothing. */
  predicate SourceOk(x: WInst, srcLen: nat) {
    x.kind == Copy && x.size > 0 ==> (x.mode == FromSource ==> x.addr + x.size <= srcLen) && x.mode != FromTargetWindow
  }

  ghost predicate AllLocalOk(adds: seq<byte>, inst: seq<WInst>) {
    forall i | 0 <= i < |inst| :: LocalOk(adds, inst[i])
  }

  ghost predicate AllSourceOk(inst: seq<WInst>, srcLen: nat) {
    forall i | 0 <= i < |inst| :: SourceOk(inst[i], srcLen)
  }

  /** The list tiles the target and all literal data is present. */
  ghost predicate Placed(d: Delta) {
    && Contiguous(d.inst)
    && d.length == EndOf(d.inst, |d.inst|)
    && AllLocalOk(d.adds, d.inst)
  }

  ghost predicate WellFormed(d: Delta, srcLen: nat) {
    Placed(d) && AllSourceOk(d.inst, srcLen)
  }

  /** Executes one instruction on the output built so far. */
  function Step(src: seq<byte>, adds: seq<byte>, o: seq<byte>, x: WInst): (r: seq<byte>)
    requires x.position == |o| && LocalOk(adds, x) && SourceOk(x, |src|)
    ensures |r| == x.End() && o <= r
  {
    match x.kind
    case Run => o + Repeat(adds[x.addr], x.size)
    case Add => o + adds[x.addr..x.addr + x.size]
    case Copy =>
      if x.size == 0 then o
      else if x.mode == FromSource then o + src[x.addr..x.addr + x.size]
      else CopyWithin(o, x.addr, x.size)
  }

  /** The output of the first `n` instructions, executed in order. */
  function Exec(src: seq<byte>, d: Delta, n: nat): (o: seq<byte>)
    requires WellFormed(d, |src|) && n <= |d.inst|
    ensures |o| == EndOf(d.inst, n)
  {
    if n == 0 then [] else
      assert StartsInPlace(d.inst, n - 1);
      Step(src, d.adds, Exec(src, d, n - 1), d.inst[n - 1])
  }

  /** The file a delta describes, given the original. */
  function Apply(src: seq<byte>, d: Delta): (t: seq<byte>)
    requires WellFormed(d, |src|)
    ensures |t| == d.length
  {
    Exec(src, d, |d.inst|)
  }

  /** The byte of target `t` at offset `j` of instruction `x` is the one `x` asks for. */
  predicate Gives(src: seq<byte>, adds: seq<byte>, t: seq<byte>, x: WInst, j: nat) {
    x.position + j < |t| &&
    var b := t[x.position + j];
    match x.kind
    case Run => x.addr < |adds| && b == adds[x.addr]
    case Add => x.addr + j < |adds| && b == adds[x.addr + j]
    case Copy =>
      if x.mode == FromSource then x.addr + j < |src| && b == src[x.addr + j]
      else x.mode == InTarget && x.addr < x.position && x.addr + j < |t| && b == t[x.addr + j]
  }

  /** Every byte of `t` covered by `x` is the one `x` asks for. */
  ghost predicate Explains(src: seq<byte>, adds: seq<byte>, t: seq<byte>, x: WInst) {
    && x.End() <= |t|
    && forall j: nat | j < x.size :: Gives(src, adds, t, x, j)
  }

  ghost predicate AllExplain(src: seq<byte>, adds: seq<byte>, t: seq<byte>, inst: seq<WInst>) {
    forall i | 0 <= i < |inst| :: Explains(src, adds, t, inst[i])
  }

  lemma {:induction false} ExecGrows(src: seq<byte>, d: Delta, n: nat, m: nat)
    requires WellFormed(d, |src|) && n <= m <= |d.inst|
    ensures Exec(src, d, n) <= Exec(src, d, m)
    decreases m
  {
    if n < m {
      ExecGrows(src, d, n, m - 1);
      assert StartsInPlace(d.inst, m - 1);
    }
  }

  /** One executed instruction explains the bytes it wrote, self-overlapping copies included. */
  lemma StepExplains(src: seq<byte>, adds: seq<byte>, o: seq<byte>, x: WInst)
    requires x.position == |o| && LocalOk(adds, x) && SourceOk(x, |src|)
    ensures Explains(src, adds, Step(src, adds, o, x), x)
  {
    var r := Step(src, adds, o, x);
    forall j: nat | j < x.size ensures Gives(src, adds, r, x, j) {
      if x.kind == Copy && x.mode == InTarget { CopyWithinAt(o, x.addr, x.size, j); }
    }
  }

  lemma ExplainsMonotone(src: seq<byte>, adds: seq<byte>, t: seq<byte>, t': seq<byte>, x: WInst)
    requires Explains(src, adds, t, x) && t <= t'
    ensures Explains(src, adds, t', x)
  {
    forall j: nat | j < x.size ensures Gives(src, adds, t', x, j) {
      assert Gives(src, adds, t, x, j);
      assert t'[x.position + j] == t[x.position + j];
    }
  }

  /** Running a delta yields a target that every one of its instructions explains. */
  lemma ApplyExplains(src: seq<byte>, d: Delta)
    requires WellFormed(d, |src|)
    ensures AllExplain(src, d.adds, Apply(src, d), d.inst)
  {
    forall i | 0 <= i < |d.inst| ensures Explains(src, d.adds, Apply(src, d), d.inst[i]) {
      assert StartsInPlace(d.inst, i);
      StepExplains(src, d.adds, Exec(src, d, i), d.inst[i]);
      ExecGrows(src, d, i + 1, |d.inst|);
      ExplainsMonotone(src, d.adds, Exec(src, d, i + 1), Apply(src, d), d.inst[i]);
    }
  }

  /** In a contiguous list every offset of the target belongs to some instruction. */
  lemma {:induction false} Covered(inst: seq<WInst>, n: nat, t: nat) returns (i: nat)
    requires Contiguous(inst) && n <= |inst| && t < EndOf(inst, n)
    ensures i < n && inst[i].position <= t < inst[i].End()
  {
    assert StartsInPlace(inst, n - 1);
    if t < EndOf(inst, n - 1) {
      i := Covered(inst, n - 1, t);
    } else {
      i := n - 1;
    }
  }

  /** A target that all instructions explain is the only one: explanation and execution agree. */
  lemma ExplainedIsApply(src: seq<byte>, d: Delta, t: seq<byte>)
    requires WellFormed(d, |src|)
    requires |t| == d.length && AllExplain(src, d.adds, t, d.inst)
    ensures t == Apply(src, d)
  {
    ApplyExplains(src, d);
    ExplainedPrefix(src, d, t, |t|);
    assert t == t[..|t|];
  }

  lemma {:induction false} ExplainedPrefix(src: seq<byte>, d: Delta, t: seq<byte>, n: nat)
    requires WellFormed(d, |src|) && |t| == d.length && n <= |t|
    requires AllExplain(src, d.adds, t, d.inst) && AllExplain(src, d.adds, Apply(src, d), d.inst)
    ensures t[..n] == Apply(src, d)[..n]
  {
    if n > 0 {
      var u := Apply(src, d);
      ExplainedPrefix(src, d, t, n - 1);
      var i := Covered(d.inst, |d.inst|, n - 1);
      var x := d.inst[i];
      var j := n - 1 - x.position;
      assert Gives(src, d.adds, t, x, j);
      assert Gives(src, d.adds, u, x, j);
      if x.kind == Copy && x.mode == InTarget {
        assert t[..n - 1][x.addr + j] == u[..n - 1][x.addr + j];
      }
      assert SourceOk(x, |src|);
      assert t[..n] == t[..n - 1] + [t[n - 1]];
      assert u[..n] == u[..n - 1] + [u[n - 1]];
    }
  }
}
