/** The expiry heap of the session store: a binary heap in a vector whose element 0 is an unused
    sentinel (src/session/include_exported/bsrvcore/internal/session/detail/heap.h). */
module SessionHeap {

  /** A session id with one of the expiry times it was ever given. */
  datatype Entry = Entry(id: string, expiry: int)

  /** The ordering the heap is built on: an entry is "less" when it expires later. */
  predicate Later(a: Entry, b: Entry) {
    a.expiry > b.expiry
  }

  /** No child expires before its parent, the link above `hole` aside. */
  ghost predicate OrderedBut(c: seq<Entry>, hole: nat) {
    forall i :: 2 <= i < |c| && i != hole ==> c[i / 2].expiry <= c[i].expiry
  }

  /** No child expires before its parent, the links below `hole` aside. */
  ghost predicate OrderedAbove(c: seq<Entry>, hole: nat) {
    forall i :: 2 <= i < |c| && i / 2 != hole ==> c[i / 2].expiry <= c[i].expiry
  }

  ghost predicate Ordered(c: seq<Entry>) {
    |c| >= 1 && forall i :: 2 <= i < |c| ==> c[i / 2].expiry <= c[i].expiry
  }

  lemma {:induction false} TopIsEarliest(c: seq<Entry>, i: nat)
    requires Ordered(c) && 1 <= i < |c|
    ensures c[1].expiry <= c[i].expiry
    decreases i
  {
    if i > 1 { TopIsEarliest(c, i / 2); }
  }

  /** `x` is on its way up: it belongs in the hole, and only the link above the hole may be out of
      order; what hangs below the hole fits below the hole's parent. */
  ghost predicate Rising(c: seq<Entry>, hole: nat, x: Entry) {
    && 1 <= hole < |c|
    && OrderedBut(c[hole := x], hole)
    && (hole >= 2 ==> forall i :: 2 <= i < |c| && i / 2 == hole ==> c[hole / 2].expiry <= c[i].expiry)
  }

  lemma {:induction false} RiseStart(c: seq<Entry>, x: Entry)
    requires Ordered(c)
    ensures Rising(c + [x], |c|, x) && (c + [x])[|c| := x] == c + [x]
  {
  }

  lemma {:induction false} RiseEnd(c: seq<Entry>, hole: nat, x: Entry)
    requires Rising(c, hole, x) && (hole == 1 || !Later(c[hole / 2], x))
    ensures Ordered(c[hole := x])
  {
  }

  /** Moving the parent into the hole moves the hole up. */
  lemma {:induction false} SiftUp(c: seq<Entry>, hole: nat, x: Entry)
    requires 2 <= hole && Rising(c, hole, x) && Later(c[hole / 2], x)
    ensures Rising(c[hole := c[hole / 2]], hole / 2, x)
    ensures multiset(c[hole := c[hole / 2]][hole / 2 := x]) == multiset(c[hole := x])
  {
    var cur := c[hole := x];
    var up := c[hole := c[hole / 2]];
    var next := up[hole / 2 := x];
    forall i | 2 <= i < |c| && i != hole / 2 ensures next[i / 2].expiry <= next[i].expiry {
      if i / 2 != hole && i != hole { assert cur[i / 2].expiry <= cur[i].expiry; }
    }
    forall i | 2 <= i < |c| && i / 2 == hole / 2 && hole / 2 >= 2 ensures up[hole / 2 / 2].expiry <= up[i].expiry {
      assert cur[hole / 2 / 2].expiry <= cur[hole / 2].expiry;
      if i != hole { assert cur[i / 2].expiry <= cur[i].expiry; }
    }
    assert next == cur[hole := cur[hole / 2]][hole / 2 := x];
  }

  /** The child that expires first, of the one or two children of `hole`. */
  function FirstChild(c: seq<Entry>, hole: nat): (k: nat)
    requires 1 <= hole && 2 * hole < |c|
    ensures k / 2 == hole && k < |c|
    ensures forall i :: 2 <= i < |c| && i / 2 == hole ==> c[k].expiry <= c[i].expiry
  {
    if 2 * hole + 1 >= |c| then 2 * hole
    else if Later(c[2 * hole], c[2 * hole + 1]) then 2 * hole + 1 else 2 * hole
  }

  /** `x` is on its way down: it belongs in the hole, and only the links below the hole may be out of
      order; the hole's parent fits above `x` and above what hangs below the hole. */
  ghost predicate Sinking(c: seq<Entry>, hole: nat, x: Entry) {
    && 1 <= hole < |c|
    && OrderedAbove(c[hole := x], hole)
    && (hole >= 2 ==> forall i :: 2 <= i < |c| && i / 2 == hole ==> c[hole / 2].expiry <= c[i].expiry)
  }

  lemma {:induction false} SinkStart(c: seq<Entry>, x: Entry)
    requires Ordered(c + [x]) && |c| >= 2
    ensures Sinking(c, 1, x)
  {
  }

  lemma {:induction false} SinkEnd(c: seq<Entry>, hole: nat, x: Entry)
    requires Sinking(c, hole, x) && (2 * hole >= |c| || !Later(x, c[FirstChild(c, hole)]))
    ensures Ordered(c[hole := x])
  {
  }

  /** Moving the earlier child into the hole moves the hole down. */
  lemma {:induction false} SiftDown(c: seq<Entry>, hole: nat, x: Entry, k: nat)
    requires Sinking(c, hole, x) && 2 * hole < |c| && k == FirstChild(c, hole) && Later(x, c[k])
    ensures Sinking(c[hole := c[k]], k, x)
    ensures multiset(c[hole := c[k]][k := x]) == multiset(c[hole := x])
  {
  }

  class Heap {
    var container: seq<Entry>

    ghost predicate Valid()
      reads this
    {
      Ordered(container)
    }

    ghost function Contents(): multiset<Entry>
      reads this
    {
      if container == [] then multiset{} else multiset(container[1..])
    }

    constructor ()
      ensures Valid() && Contents() == multiset{}
    {
      container := [Entry("", 0)];
    }

    function Size(): (n: nat)
      requires Valid()
      reads this
      ensures n == |Contents()|
    {
      |container| - 1
    }

    /** The entry that expires first. */
    method Top() returns (e: Entry)
      requires Valid() && Contents() != multiset{}
      ensures |container| >= 2 && e == container[1]
      ensures e in Contents() && forall f :: f in Contents() ==> e.expiry <= f.expiry
    {
      e := container[1];
      assert e == container[1..][0];
      forall f | f in Contents() ensures e.expiry <= f.expiry {
        var i :| 0 <= i < |container[1..]| && container[1..][i] == f;
        TopIsEarliest(container, i + 1);
      }
    }

    /** Sift a new entry up from the end. */
    method Push(e: Entry)
      requires Valid()
      modifies this
      ensures Valid() && Contents() == old(Contents()) + multiset{e}
    {
      hide Ordered, Rising;
      var c := container + [e];
      var child := |container|;
      ghost var all := multiset(c);
      Sized(container);
      RiseStart(container, e);
      while child / 2 > 0
        invariant 1 <= child < |c| && c[0] == old(container)[0]
        invariant multiset(c[child := e]) == all && Rising(c, child, e)
        decreases child
      {
        if !Later(c[child / 2], e) {
          break;
        }
        SiftUp(c, child, e);
        c := c[child := c[child / 2]];
        child := child / 2;
      }
      RiseEnd(c, child, e);
      container := c[child := e];
      Sized(container);
      PushedContents(old(container), container, e);
    }

    /** Remove the earliest entry: put the last one into the hole at the root and sift it down. */
    method Pop() returns (e: Entry)
      requires Valid() && Contents() != multiset{}
      modifies this
      ensures Valid() && e in old(Contents()) && Contents() == old(Contents()) - multiset{e}
      ensures forall f :: f in old(Contents()) ==> e.expiry <= f.expiry
    {
      hide Ordered, Sinking;
      Sized(container);
      e := Top();
      var last := |container| - 1;
      var x := container[last];
      var c := container[..last];
      assert container == c + [x];
      if last < 2 {
        OnlyOne(container);
        container := c;
        return;
      }
      ghost var all := multiset(c[1 := x]);
      var curr := 1;
      SinkStart(c, x);
      while curr * 2 < |c|
        invariant container == old(container) && 1 <= curr < |c| == last && c[0] == container[0]
        invariant multiset(c[curr := x]) == all && Sinking(c, curr, x)
        decreases |c| - curr
      {
        var k := FirstChild(c, curr);
        if !Later(x, c[k]) {
          break;
        }
        SiftDown(c, curr, x, k);
        c := c[curr := c[k]];
        curr := k;
      }
      SinkEnd(c, curr, x);
      container := c[curr := x];
      PoppedContents(old(container), container, e);
    }
  }

  lemma Sized(c: seq<Entry>)
    requires Ordered(c)
    ensures |c| >= 1
  {
  }

  lemma {:induction false} PushedContents(c: seq<Entry>, d: seq<Entry>, e: Entry)
    requires |c| >= 1 && |d| >= 1 && d[0] == c[0] && multiset(d) == multiset(c + [e])
    ensures multiset(d[1..]) == multiset(c[1..]) + multiset{e}
  {
    Body(c, c[0]);
    Body(d, c[0]);
  }

  lemma {:induction false} OnlyOne(c: seq<Entry>)
    requires |c| == 2
    ensures multiset(c[1..]) == multiset{c[1]} && c[..1][1..] == [] && Ordered(c[..1])
  {
  }

  lemma {:induction false} PoppedContents(c: seq<Entry>, d: seq<Entry>, e: Entry)
    requires |c| >= 3 && |d| == |c| - 1 && d[0] == c[0] && c[1] == e
    requires multiset(d) == multiset(c[..|c| - 1][1 := c[|c| - 1]])
    ensures multiset(d[1..]) == multiset(c[1..]) - multiset{e}
  {
    Body(c, c[0]);
    Body(d, c[0]);
    assert c == c[..|c| - 1] + [c[|c| - 1]];
  }

  /** The entries without the sentinel. */
  lemma {:induction false} Body(c: seq<Entry>, first: Entry)
    requires |c| >= 1 && c[0] == first
    ensures multiset(c[1..]) == multiset(c) - multiset{first}
  {
    assert c == [first] + c[1..];
  }
}
