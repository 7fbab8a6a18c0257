/** The session store as an object; its methods are steps of `SessionStore`. */
module SessionMap {
  import opened SessionHeap
  import opened SessionStore

  /** Popping one more expired minimum and dropping the session it belongs to. */
  ghost function PopOne(s: Store, e: Entry): Store {
    s.(heap := s.heap - multiset{e},
       sessions := if e.id in s.sessions && s.sessions[e.id].expiry == e.expiry then s.sessions - {e.id} else s.sessions)
  }

  lemma PoppedOne(s: Store, e: Entry, sessions: map<string, Session>, heap: multiset<Entry>)
    requires heap == s.heap - multiset{e}
    requires sessions == if e.id in s.sessions && s.sessions[e.id].expiry == e.expiry then s.sessions - {e.id} else s.sessions
    ensures PopOne(s, e) == Store(sessions, heap, s.timeout, s.made)
  {
  }

  /** The earliest entry decides whether any is expired. */
  lemma EarliestDecides(heap: multiset<Entry>, top: Entry, now: int)
    requires top in heap && forall f :: f in heap ==> top.expiry <= f.expiry
    ensures NoneExpired(heap, now) <==> top.expiry > now
  {
  }

  lemma EmptyDecides(heap: multiset<Entry>, now: int)
    requires |heap| == 0
    ensures NoneExpired(heap, now)
  {
  }

  lemma {:induction false} PopMoreSessions(sessions: map<string, Session>, popped: multiset<Entry>, e: Entry)
    ensures var now := Surviving(sessions, popped);
            Surviving(sessions, popped + multiset{e}) ==
              if e.id in now && now[e.id].expiry == e.expiry then now - {e.id} else now
  {
  }

  lemma {:induction false} PopMore(s0: Store, popped: multiset<Entry>, now: int, s: Store, e: Entry)
    requires Popped(s0, popped, now, s) && e in s.heap && e.expiry <= now
    requires forall f :: f in s.heap ==> e.expiry <= f.expiry
    ensures Popped(s0, popped + multiset{e}, now, PopOne(s, e))
  {
    PopMoreSessions(s0.sessions, popped, e);
  }

  lemma {:induction false} PopNone(s: Store, now: int)
    ensures Popped(s, multiset{}, now, s)
  {
  }

  class SessionMap {
    var sessions: map<string, Session>
    var heap: Heap
    var timeout: nat
    var made: nat

    ghost predicate Valid()
      reads this, heap
    {
      heap.Valid() && Covered(Value())
    }

    ghost function Value(): Store
      reads this, heap
    {
      Store(sessions, heap.Contents(), timeout, made)
    }

    constructor ()
      ensures Valid() && Value() == EMPTY && fresh(heap)
    {
      sessions, timeout, made := map[], 7200000, 0;
      heap := new Heap();
    }

    /** Pop the earliest entry and drop its session if the entry is not stale. */
    method PopEarliest(ghost s0: Store, ghost popped: multiset<Entry>, now: int) returns (more: bool,
                       ghost popped': multiset<Entry>)
      requires heap.Valid() && Popped(s0, popped, now, Value())
      modifies this`sessions, heap
      ensures heap.Valid() && Popped(s0, popped', now, Value())
      ensures more <==> !NoneExpired(old(heap.Contents()), now)
      ensures |popped'| == |popped| + (if more then 1 else 0) && popped' <= s0.heap
      ensures !more ==> Value() == old(Value()) && popped' == popped
    {
      hide Popped, Ordered, NoneExpired, PopOne, Heap.Contents, Heap.Size;
      popped' := popped;
      PoppedPart(s0, popped, now, Value());
      if heap.Size() == 0 {
        EmptyDecides(heap.Contents(), now);
        return false, popped;
      }
      var top := heap.Top();
      EarliestDecides(heap.Contents(), top, now);
      if top.expiry > now {
        return false, popped;
      }
      var e := DropTop();
      PopMore(s0, popped, now, old(Value()), e);
      popped' := popped + multiset{e};
      PoppedPart(s0, popped', now, Value());
      more := true;
    }

    /** Pop an earliest entry and the session it belongs to. */
    method DropTop() returns (e: Entry)
      requires heap.Valid() && heap.Contents() != multiset{}
      modifies this`sessions, heap
      ensures heap.Valid() && e in old(heap.Contents()) && Value() == PopOne(old(Value()), e)
      ensures forall f :: f in old(heap.Contents()) ==> e.expiry <= f.expiry
    {
      hide Ordered, PopOne, Heap.Contents;
      e := heap.Pop();
      if e.id in sessions && sessions[e.id].expiry == e.expiry {
        sessions := sessions - {e.id};
      }
      PoppedOne(old(Value()), e, sessions, heap.Contents());
    }

    lemma PoppedPart(s0: Store, popped: multiset<Entry>, now: int, s: Store)
      requires Popped(s0, popped, now, s)
      ensures popped <= s0.heap
    {
    }

    /** Drop at most eight expired heap entries, if more than half of the heap is stale. */
    method ShortClean(now: int)
      requires heap.Valid()
      modifies this`sessions, heap
      ensures heap.Valid() && ShortCleaned(old(Value()), now, Value())
    {
      hide Popped, NoneExpired, Ordered;
      if heap.Size() > |sessions| * 2 {
        ghost var s0, popped: multiset<Entry> := Value(), multiset{};
        PopNone(s0, now);
        var count := 0;
        while count < MAX_SHORT_CLEAN
          invariant heap.Valid() && Popped(s0, popped, now, Value())
          invariant |popped| == count <= MAX_SHORT_CLEAN
        {
          var more;
          more, popped := PopEarliest(s0, popped, now);
          if !more {
            break;
          }
          count := count + 1;
        }
      }
    }

    /** Drop every expired heap entry. */
    method ThoroughClean(now: int)
      requires heap.Valid()
      modifies this`sessions, heap
      ensures heap.Valid() && ThoroughlyCleaned(old(Value()), now, Value())
    {
      hide Popped, NoneExpired, Ordered;
      ghost var s0, popped: multiset<Entry> := Value(), multiset{};
      PopNone(s0, now);
      var more := true;
      while more
        invariant heap.Valid() && Popped(s0, popped, now, Value())
        invariant popped <= s0.heap
        invariant !more ==> NoneExpired(heap.Contents(), now)
        decreases |s0.heap| - |popped|, more
      {
        ghost var before := popped;
        more, popped := PopEarliest(s0, popped, now);
        Smaller(popped, s0.heap);
      }
    }

    lemma {:induction false} Smaller(a: multiset<Entry>, b: multiset<Entry>)
      requires a <= b
      ensures |a| <= |b|
    {
      assert b == a + (b - a);
    }

    method Extend(id: string, now: int) returns (context: nat)
      requires heap.Valid() && id in sessions
      modifies this`sessions, heap
      ensures heap.Valid() && Value() == Extended(old(Value()), id, now) && context == old(sessions)[id].context
    {
      hide Ordered;
      context := sessions[id].context;
      var lease := Max(now + timeout, sessions[id].expiry);
      if lease != sessions[id].expiry {
        heap.Push(Entry(id, lease));
      }
      sessions := sessions[id := sessions[id].(expiry := lease)];
    }

    method Create(id: string, now: int) returns (context: nat)
      requires heap.Valid()
      modifies this`sessions, this`made, heap
      ensures heap.Valid() && Value() == Created(old(Value()), id, now) && context == old(made)
    {
      hide Ordered;
      context := made;
      made := made + 1;
      var lease := now + Max(MIN_TIMEOUT, timeout);
      if id !in sessions {
        sessions := sessions[id := Session(context, lease)];
      }
      heap.Push(Entry(id, lease));
    }

    /** Return the live session of `id` with an extended lease, or a new context. */
    method GetSession(id: string, t1: int, t2: int) returns (context: nat)
      requires Valid() && t1 <= t2
      modifies this, heap
      ensures Valid() && heap == old(heap) && Next(old(Value()), Step(Get(id), t1, t2, context), Value())
    {
      hide Ordered, ShortCleaned, Covered, Extended, Created;
      ghost var s := Value();
      if id in sessions && sessions[id].expiry > t1 {
        context := Extend(id, t1);
      } else {
        context := Create(id, t1);
      }
      ShortClean(t2);
      NextCovers(s, Step(Get(id), t1, t2, context), Value());
    }

    method RemoveSession(id: string, t1: int, t2: int) returns (found: bool)
      requires Valid() && t1 <= t2
      modifies this, heap
      ensures Valid() && heap == old(heap) && Next(old(Value()), Step(Remove(id), t1, t2, 0), Value())
      ensures found <==> id in old(sessions)
    {
      hide Ordered, ShortCleaned, Covered;
      ghost var s := Value();
      found := id in sessions;
      sessions := sessions - {id};
      ShortClean(t2);
      NextCovers(s, Step(Remove(id), t1, t2, 0), Value());
    }

    /** The part of `SetSessionTimeout` before its clean-up. */
    method Prolong(id: string, ms: nat, now: int)
      requires heap.Valid()
      modifies this`sessions, this`made, heap
      ensures heap.Valid() && Value() == Prolonged(old(Value()), id, ms, now)
    {
      hide Ordered;
      var lease := now + Max(MIN_TIMEOUT, ms);
      if id in sessions {
        var longer := Max(sessions[id].expiry, lease);
        if longer != sessions[id].expiry {
          heap.Push(Entry(id, longer));
          sessions := sessions[id := sessions[id].(expiry := longer)];
        }
      } else {
        sessions := sessions[id := Session(made, lease)];
        made := made + 1;
        heap.Push(Entry(id, lease));
      }
    }

    /** Lengthen the lease of `id`, creating the session if it has no entry. */
    method SetSessionTimeout(id: string, ms: nat, t1: int, t2: int)
      requires Valid() && t1 <= t2
      modifies this, heap
      ensures Valid() && heap == old(heap) && Next(old(Value()), Step(SetTimeout(id, ms), t1, t2, 0), Value())
    {
      hide Ordered, ShortCleaned, Covered, Prolonged;
      ghost var s := Value();
      Prolong(id, ms, t1);
      ShortClean(t2);
      NextCovers(s, Step(SetTimeout(id, ms), t1, t2, 0), Value());
    }

    method SetDefaultSessionTimeout(ms: nat, t: int)
      requires Valid()
      modifies this
      ensures Valid() && heap == old(heap) && Next(old(Value()), Step(SetDefault(ms), t, t, 0), Value())
    {
      timeout := ms;
    }

    /** The timer's clean-up: thorough when the heap is at least eight times the map. */
    method BackgroundClean(t1: int, t2: int)
      requires Valid() && t1 <= t2
      modifies this, heap
      ensures Valid() && heap == old(heap) && Next(old(Value()), Step(Background, t1, t2, 0), Value())
    {
      hide Ordered, ShortCleaned, ThoroughlyCleaned, Covered;
      ghost var s := Value();
      if heap.Size() < |sessions| * 8 {
        ShortClean(t2);
      } else {
        ThoroughClean(t2);
      }
      NextCovers(s, Step(Background, t1, t2, 0), Value());
    }
  }
}
