/** The circular doubly linked list that the buffers are kept in: links sit inside their owners. */
module LinkedRing {
  import opened Sequences

  class Link {
    /** The index of the owner of this link. */
    const owner: nat
    var next: Link
    var prev: Link

    constructor (owner: nat)
      ensures this.owner == owner && next == this && prev == this
      ensures Ring([this])
    {
      this.owner := owner;
      next, prev := this, this;
    }
  }

  /** Following `next` from the head visits exactly `r` and comes back; `prev` goes the other way. */
  ghost predicate Ring(r: seq<Link>)
    reads r
  {
    && r != []
    && (forall i, j :: 0 <= i < j < |r| ==> r[i] != r[j])
    && (forall i :: 0 <= i < |r| - 1 ==> r[i].next == r[i + 1])
    && (forall i :: 0 < i < |r| ==> r[i].prev == r[i - 1])
    && r[|r| - 1].next == r[0] && r[0].prev == r[|r| - 1]
  }

  /** All but the element at `k`. */
  method PushBack(l: Link, x: Link, ghost r: seq<Link>)
    requires Ring(r) && r[0] == l && x !in r
    modifies l, l.prev, x
    ensures Ring(r + [x])
  {
    Add(l.prev, l, x);
  }

  method Add(prev: Link, next: Link, ins: Link)
    requires ins != prev && ins != next
    modifies prev, next, ins
    ensures next.prev == ins && prev.next == ins && ins.next == next && ins.prev == prev
    ensures next != prev ==> next.next == old(next.next) && prev.prev == old(prev.prev)
  {
    next.prev := ins;
    prev.next := ins;
    ins.next := next;
    ins.prev := prev;
  }

  method Remove(x: Link, ghost r: seq<Link>, ghost k: nat)
    requires Ring(r) && 0 < k < |r| && r[k] == x
    modifies x.next, x.prev
    ensures Ring(Without(r, k))
  {
    Neighbours(r, k);
    Delete(x.next, x.prev);
  }

  lemma Neighbours(r: seq<Link>, k: nat)
    requires Ring(r) && 0 < k < |r|
    ensures r[k].prev == r[k - 1] && r[k].next == r[if k + 1 < |r| then k + 1 else 0]
    ensures r[k].next != r[k] && r[k].prev != r[k]
  {
  }

  method Delete(next: Link, prev: Link)
    modifies next, prev
    ensures next.prev == prev && prev.next == next
    ensures next != prev ==> next.next == old(next.next) && prev.prev == old(prev.prev)
  {
    next.prev := prev;
    prev.next := next;
  }

  method PopFront(l: Link, ghost r: seq<Link>) returns (x: Link)
    requires Ring(r) && r[0] == l && |r| > 1
    modifies l, l.next.next
    ensures x == r[1] && Ring(Without(r, 1))
  {
    x := l.next;
    Neighbours(r, 1);
    Delete(x.next, x.prev);
  }

  method Empty(l: Link, ghost r: seq<Link>) returns (e: bool)
    requires Ring(r) && r[0] == l
    ensures e <==> |r| == 1
  {
    assert |r| > 1 ==> r[0].next == r[1];
    e := l == l.next;
  }

  method Length(l: Link, ghost r: seq<Link>) returns (c: nat)
    requires Ring(r) && r[0] == l
    ensures c == |r| - 1
  {
    c := 0;
    var p := l.next;
    while p != l
      invariant c < |r| && p == if c + 1 < |r| then r[c + 1] else l
      decreases |r| - c
    {
      c := c + 1;
      p := p.next;
    }
  }

  /** Moves one element to the end. */
  method MoveBack(l: Link, x: Link, ghost r: seq<Link>, ghost k: nat)
    requires Ring(r) && r[0] == l && 0 < k < |r| && r[k] == x
    modifies r
    ensures Ring(Without(r, k) + [x])
  {
    Neighbours(r, k);
    Remove(x, r, k);
    Neighbour0(Without(r, k));
    PushBack(l, x, Without(r, k));
  }

  lemma Neighbour0(r: seq<Link>)
    requires Ring(r)
    ensures r[0].prev in r
  {
  }

  /** Moves the front element to the end. */
  method FrontToBack(l: Link, ghost r: seq<Link>) returns (x: Link)
    requires Ring(r) && r[0] == l && |r| > 1
    modifies r
    ensures x == r[1] && Ring(Without(r, 1) + [x])
  {
    Neighbours(r, 1);
    x := PopFront(l, r);
    Neighbour0(Without(r, 1));
    PushBack(l, x, Without(r, 1));
  }
}
