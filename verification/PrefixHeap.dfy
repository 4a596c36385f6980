/** The array heap from which the prefix tree is built: entries ordered by weight, then by depth. */
module PrefixHeap {

  datatype Heapen = Heapen(depth: nat, freq: nat, parent: nat)

  predicate Less(a: Heapen, b: Heapen) {
    a.freq < b.freq || (a.freq == b.freq && a.depth < b.depth)
  }

  predicate InTable(ents: seq<Heapen>, heap: seq<nat>, n: nat) {
    && n < |heap| && heap[0] == 0
    && |ents| > 0 && ents[0].freq == 0 && ents[0].depth == 0
    && (forall i :: 0 <= i <= n ==> heap[i] < |ents|)
  }

  /** No entry is smaller than its parent; slot zero holds an entry that nothing is smaller than. */
  predicate Ordered(ents: seq<Heapen>, heap: seq<nat>, n: nat) {
    && InTable(ents, heap, n)
    && (forall i :: 2 <= i <= n ==> !Less(ents[heap[i]], ents[heap[i / 2]]))
  }

  function Entries(heap: seq<nat>, n: nat): multiset<nat>
    requires n < |heap|
  {
    multiset(heap[1..n + 1])
  }

  lemma SwapEntries(heap: seq<nat>, n: nat, i: nat, j: nat)
    requires 1 <= i <= n && 1 <= j <= n < |heap|
    ensures Entries(heap[i := heap[j]][j := heap[i]], n) == Entries(heap, n)
  {
    var s := heap[1..n + 1];
    assert heap[i := heap[j]][j := heap[i]][1..n + 1] == s[i - 1 := s[j - 1]][j - 1 := s[i - 1]];
  }

  lemma AddEntry(heap: seq<nat>, n: nat, e: nat)
    requires 1 <= n < |heap|
    ensures Entries(heap[n := e], n) == Entries(heap, n - 1) + multiset{e}
  {
    assert heap[n := e][1..n + 1] == heap[1..n] + [e];
  }

  /** The heap is in order except that the entry at `p` may be smaller than its parent. */
  predicate RisingAt(ents: seq<Heapen>, heap: seq<nat>, n: nat, p: nat) {
    && InTable(ents, heap, n) && 1 <= p <= n
    && (forall i :: 2 <= i <= n && i != p ==> !Less(ents[heap[i]], ents[heap[i / 2]]))
    && (forall i :: 2 <= i <= n && i / 2 == p && p >= 2 ==> !Less(ents[heap[i]], ents[heap[p / 2]]))
  }

  lemma Rise(ents: seq<Heapen>, heap: seq<nat>, n: nat, p: nat)
    requires RisingAt(ents, heap, n, p)
    requires Less(ents[heap[p]], ents[heap[p / 2]])
    ensures p >= 2 && heap[p / 2 / 2] < |ents|
    ensures RisingAt(ents, heap[p := heap[p / 2]][p / 2 := heap[p]], n, p / 2)
    ensures Entries(heap[p := heap[p / 2]][p / 2 := heap[p]], n) == Entries(heap, n)
  {
    hide Entries;
    if p >= 2 {
      SwapEntries(heap, n, p, p / 2);
    }
  }

  method HeapInsert(heap: array<nat>, ents: seq<Heapen>, last: nat, e: nat)
    requires 1 <= last < heap.Length && e < |ents|
    requires Ordered(ents, heap[..], last - 1)
    modifies heap
    ensures Ordered(ents, heap[..], last)
    ensures Entries(heap[..], last) == Entries(old(heap[..]), last - 1) + multiset{e}
  {
    var p := last;
    AddEntry(heap[..], last, e);
    StartRising(ents, heap[..], last, e);
    hide *;
    while Less(ents[e], ents[heap[p / 2]])
      invariant 1 <= p <= last && heap[p / 2] < |ents|
      invariant RisingAt(ents, heap[..][p := e], last, p)
      invariant Entries(heap[..][p := e], last) == Entries(old(heap[..]), last - 1) + multiset{e}
      decreases p
    {
      ghost var before := heap[..][p := e];
      Rise(ents, before, last, p);
      heap[p] := heap[p / 2];
      assert heap[..][p / 2 := e] == before[p := before[p / 2]][p / 2 := before[p]];
      p := p / 2;
    }
    Risen(ents, heap[..][p := e], last, p);
    heap[p] := e;
    assert heap[..] == heap[..][p := e];
  }

  lemma StartRising(ents: seq<Heapen>, heap: seq<nat>, n: nat, e: nat)
    requires 1 <= n < |heap| && e < |ents| && Ordered(ents, heap, n - 1)
    ensures RisingAt(ents, heap[n := e], n, n) && heap[n / 2] < |ents|
  {
  }

  lemma Risen(ents: seq<Heapen>, heap: seq<nat>, n: nat, p: nat)
    requires RisingAt(ents, heap, n, p) && !Less(ents[heap[p]], ents[heap[p / 2]])
    ensures Ordered(ents, heap, n)
  {
  }

  /** The heap is in order except that the entry at `p` may be larger than its children. */
  predicate SinkingAt(ents: seq<Heapen>, heap: seq<nat>, n: nat, p: nat) {
    && InTable(ents, heap, n) && 1 <= p
    && (forall i :: 2 <= i <= n && i / 2 != p ==> !Less(ents[heap[i]], ents[heap[i / 2]]))
    && (forall i :: 2 <= i <= n && i / 2 == p && p >= 2 ==> !Less(ents[heap[i]], ents[heap[p / 2]]))
  }

  lemma Sink(ents: seq<Heapen>, heap: seq<nat>, n: nat, p: nat, c: nat)
    requires SinkingAt(ents, heap, n, p) && c <= n && c / 2 == p
    requires Less(ents[heap[c]], ents[heap[p]])
    requires forall i :: 2 <= i <= n && i / 2 == p ==> !Less(ents[heap[i]], ents[heap[c]])
    ensures SinkingAt(ents, heap[p := heap[c]][c := heap[p]], n, c)
    ensures Entries(heap[p := heap[c]][c := heap[p]], n) == Entries(heap, n)
  {
    SwapEntries(heap, n, p, c);
  }

  /** The root of an ordered heap is a smallest entry. */
  lemma {:induction false} RootIsLeast(ents: seq<Heapen>, heap: seq<nat>, n: nat, i: nat)
    requires Ordered(ents, heap, n) && 1 <= i <= n
    ensures !Less(ents[heap[i]], ents[heap[1]])
  {
    if i > 1 {
      RootIsLeast(ents, heap, n, i / 2);
    }
  }

  predicate Lightest(ents: seq<Heapen>, bag: multiset<nat>, least: nat) {
    && least in bag && least < |ents|
    && (forall e :: e in bag ==> e < |ents| && !Less(ents[e], ents[least]))
  }

  lemma LeastOfEntries(ents: seq<Heapen>, heap: seq<nat>, n: nat)
    requires Ordered(ents, heap, n) && n >= 1
    ensures Lightest(ents, Entries(heap, n), heap[1])
  {
    var s := heap[1..n + 1];
    assert s[0] == heap[1];
    forall e | e in Entries(heap, n) ensures e < |ents| && !Less(ents[e], ents[heap[1]]) {
      var i :| 0 <= i < |s| && s[i] == e;
      RootIsLeast(ents, heap, n, i + 1);
    }
  }

  lemma MoveLast(heap: seq<nat>, n: nat)
    requires 1 <= n + 1 < |heap|
    ensures Entries(heap[1 := heap[n + 1]], n) == Entries(heap, n + 1) - multiset{heap[1]}
  {
    var s := heap[1..n + 2];
    if n >= 1 {
      assert s == [heap[1]] + heap[2..n + 1] + [heap[n + 1]];
      assert heap[1 := heap[n + 1]][1..n + 1] == [heap[n + 1]] + heap[2..n + 1];
    } else {
      assert s == [heap[1]];
    }
  }

  /** Lets the entry at the root sink until no child is smaller. */
  method Reheapify(heap: array<nat>, ents: seq<Heapen>, last: nat)
    requires SinkingAt(ents, heap[..], last, 1)
    modifies heap
    ensures Ordered(ents, heap[..], last)
    ensures Entries(heap[..], last) == Entries(old(heap[..]), last)
  {
    hide *;
    var p := 1;
    InBounds(ents, heap[..], last, p);
    while 2 * p <= last
      invariant 1 <= p && last < heap.Length
      invariant SinkingAt(ents, heap[..], last, p)
      invariant Entries(heap[..], last) == Entries(old(heap[..]), last)
      decreases last - p
    {
      InBounds(ents, heap[..], last, p);
      var pc := SmallerChild(heap, ents, last, p);
      if !Less(ents[heap[pc]], ents[heap[p]]) {
        Settled(ents, heap[..], last, p, pc);
        return;
      }
      ghost var before := heap[..];
      Sink(ents, before, last, p, pc);
      heap[pc], heap[p] := heap[p], heap[pc];
      assert heap[..] == before[p := before[pc]][pc := before[p]];
      p := pc;
    }
    AtBottom(ents, heap[..], last, p);
  }

  method SmallerChild(heap: array<nat>, ents: seq<Heapen>, last: nat, p: nat) returns (pc: nat)
    requires InTable(ents, heap[..], last) && 1 <= p && 2 * p <= last
    ensures pc <= last && pc / 2 == p && p < pc
    ensures forall i :: 2 <= i <= last && i / 2 == p ==> !Less(ents[heap[i]], ents[heap[pc]])
  {
    pc := 2 * p;
    if pc < last && Less(ents[heap[pc + 1]], ents[heap[pc]]) {
      pc := pc + 1;
    }
    LeastChild(ents, heap[..], last, p, pc);
  }

  /** Takes the root out; the caller has already lowered the count, so the entry past `last` fills the gap. */
  method HeapExtract(heap: array<nat>, ents: seq<Heapen>, last: nat) returns (smallest: nat)
    requires last + 1 < heap.Length && Ordered(ents, heap[..], last + 1)
    modifies heap
    ensures Lightest(ents, Entries(old(heap[..]), last + 1), smallest)
    ensures Ordered(ents, heap[..], last)
    ensures Entries(heap[..], last) == Entries(old(heap[..]), last + 1) - multiset{smallest}
  {
    smallest := heap[1];
    LeastOfEntries(ents, heap[..], last + 1);
    MoveLast(heap[..], last);
    StartSinking(ents, heap[..], last);
    hide *;
    ghost var start := heap[..];
    heap[1] := heap[last + 1];
    assert heap[..] == start[1 := start[last + 1]];
    Reheapify(heap, ents, last);
  }

  lemma StartSinking(ents: seq<Heapen>, heap: seq<nat>, n: nat)
    requires n + 1 < |heap| && Ordered(ents, heap, n + 1)
    ensures SinkingAt(ents, heap[1 := heap[n + 1]], n, 1)
  {
  }

  lemma InBounds(ents: seq<Heapen>, heap: seq<nat>, n: nat, p: nat)
    requires SinkingAt(ents, heap, n, p)
    ensures n < |heap| && InTable(ents, heap, n)
    ensures forall i :: 0 <= i <= n ==> heap[i] < |ents|
  {
  }

  lemma AtBottom(ents: seq<Heapen>, heap: seq<nat>, n: nat, p: nat)
    requires SinkingAt(ents, heap, n, p) && 2 * p > n
    ensures Ordered(ents, heap, n)
  {
  }

  lemma LeastChild(ents: seq<Heapen>, heap: seq<nat>, n: nat, p: nat, c: nat)
    requires InTable(ents, heap, n) && 1 <= p && c / 2 == p && c <= n
    requires c == 2 * p ==> c == n || !Less(ents[heap[c + 1]], ents[heap[c]])
    requires c == 2 * p + 1 ==> Less(ents[heap[c]], ents[heap[c - 1]])
    ensures forall i :: 2 <= i <= n && i / 2 == p ==> !Less(ents[heap[i]], ents[heap[c]])
  {
  }

  lemma Settled(ents: seq<Heapen>, heap: seq<nat>, n: nat, p: nat, c: nat)
    requires SinkingAt(ents, heap, n, p) && c <= n && c / 2 == p
    requires !Less(ents[heap[c]], ents[heap[p]])
    requires forall i :: 2 <= i <= n && i / 2 == p ==> !Less(ents[heap[i]], ents[heap[c]])
    ensures Ordered(ents, heap, n)
  {
  }
}
