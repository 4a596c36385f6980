/** How runs are found: the length of the run at the end of the look-ahead is carried along byte by byte. */
module RunScan {
  import opened Bytes
  import opened CodeTable
  import opened WindowEncoder

  /** The length of the run of equal bytes at the end of `s`. */
  function TailRun(s: seq<byte>): (n: nat)
    ensures n <= |s| && (s != [] ==> n > 0)
  {
    if s == [] then 0
    else if |s| > 1 && s[|s| - 2] == s[|s| - 1] then 1 + TailRun(s[..|s| - 1])
    else 1
  }

  /** One more byte, as the run counter sees it. */
  function NextRun(runL: nat, runC: byte, c: byte): (r: (nat, byte)) {
    if c == runC then (runL + 1, runC) else (1, c)
  }

  /** All of the last `n` bytes are equal. */
  lemma {:induction false} TailIsRun(s: seq<byte>)
    requires s != []
    ensures forall k :: |s| - TailRun(s) <= k < |s| ==> s[k] == s[|s| - 1]
    ensures TailRun(s) < |s| ==> s[|s| - TailRun(s) - 1] != s[|s| - 1]
  {
    if |s| > 1 && s[|s| - 2] == s[|s| - 1] {
      TailIsRun(s[..|s| - 1]);
    }
  }

  /** The run at the end of a look-ahead of `look` bytes. */
  method CompRun(seg: seq<byte>, look: nat) returns (runL: nat, runC: byte)
    requires 0 < look <= |seg|
    ensures runL == TailRun(seg[..look]) && runC == seg[look - 1]
  {
    runL, runC := 0, 0;
    var i := 0;
    while i < look
      invariant i <= look && runL == TailRun(seg[..i]) && (i > 0 ==> runC == seg[i - 1])
      invariant i == 0 ==> runC == 0
    {
      assert seg[..i + 1][..i] == seg[..i];
      var next := NextRun(runL, runC, seg[i]);
      runL, runC := next.0, next.1;
      i := i + 1;
    }
  }

  /** The counter stands for the run at the end of the look-ahead, unless a longer run has been expanded. */
  predicate Tracks(window: seq<byte>, pos: nat, look: nat, runL: nat, runC: byte) {
    && 0 < look && pos + look <= |window| && runC == window[pos + look - 1]
    && (runL > look || runL == TailRun(window[pos..pos + look]))
  }

  lemma {:induction false} TailDrops(s: seq<byte>)
    requires |s| > 1
    ensures TailRun(s[1..]) == Min(TailRun(s), |s| - 1)
  {
    if |s| > 2 && s[|s| - 2] == s[|s| - 1] {
      TailDrops(s[..|s| - 1]);
      assert s[1..][..|s| - 2] == s[..|s| - 1][1..];
    }
  }

  lemma TailGrows(s: seq<byte>, b: byte)
    requires s != []
    ensures TailRun(s + [b]) == if b == s[|s| - 1] then 1 + TailRun(s) else 1
  {
    assert (s + [b])[..|s|] == s;
  }

  /** Moving on by one byte keeps the counter right: a counter that has just reached the look-ahead was expanded, so
      the run is known to stop there. */
  lemma StepTracks(window: seq<byte>, pos: nat, look: nat, runL: nat, runC: byte)
    requires Tracks(window, pos, look, runL, runC) && pos + look < |window|
    requires runL == look ==> window[pos + look] != runC
    ensures var next := NextRun(runL, runC, window[pos + look]);
            Tracks(window, pos + 1, look, next.0, next.1)
  {
    var s, b := window[pos..pos + look], window[pos + look];
    TailGrows(s, b);
    TailDrops(s + [b]);
    assert (s + [b])[1..] == window[pos + 1..pos + 1 + look];
  }

  /** A counter as long as the look-ahead starts a run here; it is followed to its end. */
  method ExpandRun(window: seq<byte>, pos: nat, look: nat, runC: byte) returns (runL: nat)
    requires Tracks(window, pos, look, look, runC)
    ensures Tracks(window, pos, look, runL, runC) && look <= runL && pos + runL <= |window|
    ensures window[pos..pos + runL] == Repeat(runC, runL)
    ensures pos + runL < |window| ==> window[pos + runL] != runC
  {
    TailIsRun(window[pos..pos + look]);
    runL := look;
    while pos + runL < |window| && window[pos + runL] == runC
      invariant look <= runL && pos + runL <= |window|
      invariant forall k :: pos <= k < pos + runL ==> window[k] == runC
    {
      runL := runL + 1;
    }
  }

  /** Such a run is one the encoder takes. */
  lemma RunGenuine(file: seq<byte>, srcbase: nat, srclen: nat, window: seq<byte>, pos: nat, runL: nat, runC: byte)
    requires 0 < runL && pos + runL <= |window| && window[pos..pos + runL] == Repeat(runC, runL)
    ensures Genuine(file, srcbase, srclen, window, RInst(RUN, runC, pos, runL, 0, 0, 0))
  {
  }
}
