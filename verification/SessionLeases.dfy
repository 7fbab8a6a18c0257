/** What each session operation does to leases, over steps and runs (src/session/session_map.cc,
    session_map_cleaner.cc), in terms of the clock readings and the states before and after only. */
module SessionLeases {
  import opened SessionHeap
  import opened SessionStore

  /** Sessions other than `id` are kept while their lease lasts, and change in no other way than being dropped. */
  ghost predicate OthersKept(s: Store, step: Step, s': Store, id: string) {
    && (forall other :: other != id && other in s'.sessions ==>
          other in s.sessions && s'.sessions[other] == s.sessions[other])
    && (forall other :: other != id && other in s.sessions && s.sessions[other].expiry > step.t2 ==>
          other in s'.sessions)
  }

  /** A clean-up changes no session it keeps, and keeps those whose lease lasts. */
  lemma {:induction false} CleanKeepsAll(s: Store, now: int, s': Store)
    requires ShortCleaned(s, now, s') || ThoroughlyCleaned(s, now, s')
    ensures forall id :: id in s'.sessions ==> id in s.sessions && s'.sessions[id] == s.sessions[id]
    ensures forall id :: id in s.sessions && s.sessions[id].expiry > now ==> id in s'.sessions
    ensures s'.made == s.made && s'.timeout == s.timeout
  {
    if ShortCleaned(s, now, s') {
      forall id | id in s.sessions && s.sessions[id].expiry > now ensures id in s'.sessions {
        ShortCleanKeeps(s, now, s', id);
      }
    }
  }

  lemma {:induction false} RemoveStep(s: Store, step: Step, s': Store)
    requires Next(s, step, s') && step.op.Remove?
    ensures step.op.id !in s'.sessions && s'.made == s.made && OthersKept(s, step, s', step.op.id)
  {
    hide ShortCleaned;
    CleanKeepsAll(Removed(s, step.op.id), step.t2, s');
  }

  /** Removal, in every run: the id is gone, every other session whose lease lasts is kept as it is, and no later
      `Get` of any id returns the removed context. */
  lemma {:induction false} RemovedIsGone(states: seq<Store>, steps: seq<Step>, k: nat, id: string)
    requires Run(states, steps) && k < |steps| && steps[k].op == Remove(id)
    ensures id !in states[k + 1].sessions
    ensures forall other :: other != id && other in states[k].sessions &&
                            states[k].sessions[other].expiry > steps[k].t2 ==>
              other in states[k + 1].sessions && states[k + 1].sessions[other] == states[k].sessions[other]
    ensures Distinct(states[k]) && id in states[k].sessions ==>
              forall j :: k < j < |steps| && steps[j].op.Get? ==> steps[j].context != states[k].sessions[id].context
  {
    hide Next;
    RemoveStep(states[k], steps[k], states[k + 1]);
    if Distinct(states[k]) && id in states[k].sessions {
      var c := states[k].sessions[id].context;
      assert Forgotten(states[k + 1], c);
      RunContexts(states, steps, k + 1, |steps|, c);
    }
  }

  /** The longer of two leases. */
  function Longer(a: int, b: int): (r: int)
    ensures r >= a && r >= b && (r == a || r == b)
  {
    if a < b then b else a
  }

  /** A `Get` of a live session returns its context and lengthens its lease to at least the default timeout from now. */
  lemma {:induction false} GetLengthens(s: Store, step: Step, s': Store, id: string)
    requires Next(s, step, s') && step.op == Get(id) && id in s.sessions && s.sessions[id].expiry > step.t1
    ensures step.context == s.sessions[id].context && s'.made == s.made && OthersKept(s, step, s', id)
    ensures var lease := Longer(s.sessions[id].expiry, step.t1 + s.timeout);
            && (lease > step.t2 ==> id in s'.sessions)
            && (id in s'.sessions ==> s'.sessions[id] == Session(s.sessions[id].context, lease))
  {
    hide ShortCleaned;
    CleanKeepsAll(Extended(s, id, step.t1), step.t2, s');
  }

  /** A `Get` of an absent id makes a new context and leases it for the default timeout, for a second at least. */
  lemma {:induction false} GetCreates(s: Store, step: Step, s': Store, id: string)
    requires Next(s, step, s') && step.op == Get(id) && id !in s.sessions
    ensures step.context == s.made && s'.made == s.made + 1 && OthersKept(s, step, s', id)
    ensures var lease := step.t1 + Longer(1000, s.timeout);
            && (lease > step.t2 ==> id in s'.sessions)
            && (id in s'.sessions ==> s'.sessions[id] == Session(s.made, lease))
  {
    hide ShortCleaned;
    CleanKeepsAll(Created(s, id, step.t1), step.t2, s');
  }

  /** A `Get` of an id whose expired entry is still there makes a new context too, but the entry stays the old one. */
  lemma {:induction false} GetOfExpired(s: Store, step: Step, s': Store, id: string)
    requires Next(s, step, s') && step.op == Get(id) && id in s.sessions && s.sessions[id].expiry <= step.t1
    ensures step.context == s.made && s'.made == s.made + 1 && OthersKept(s, step, s', id)
    ensures id in s'.sessions ==> s'.sessions[id] == s.sessions[id]
  {
    hide ShortCleaned;
    CleanKeepsAll(Created(s, id, step.t1), step.t2, s');
  }

  /** Setting a session's timeout lengthens the lease of an entry, or makes a session with that lease; never less than a
      second from now, never shorter than before. */
  lemma {:induction false} SetTimeoutLengthens(s: Store, step: Step, s': Store, id: string, ms: nat)
    requires Next(s, step, s') && step.op == SetTimeout(id, ms)
    ensures OthersKept(s, step, s', id) && s'.made == s.made + (if id in s.sessions then 0 else 1)
    ensures var asked := step.t1 + Longer(1000, ms);
            var lease := if id in s.sessions then Longer(s.sessions[id].expiry, asked) else asked;
            && (lease > step.t2 ==> id in s'.sessions)
            && (id in s'.sessions ==>
                  s'.sessions[id] == Session(if id in s.sessions then s.sessions[id].context else s.made, lease))
  {
    hide ShortCleaned;
    CleanKeepsAll(Prolonged(s, id, ms, step.t1), step.t2, s');
  }

  // ----- the default timeout -----

  /** The last default timeout set among `steps`, or `initial`. */
  function LastDefault(initial: nat, steps: seq<Step>): nat {
    if steps == [] then initial
    else if steps[|steps| - 1].op.SetDefault? then steps[|steps| - 1].op.ms
    else LastDefault(initial, steps[..|steps| - 1])
  }

  lemma {:induction false} TimeoutStep(s: Store, step: Step, s': Store)
    requires Next(s, step, s')
    ensures s'.timeout == if step.op.SetDefault? then step.op.ms else s.timeout
  {
    hide ShortCleaned, ThoroughlyCleaned;
    match step.op
    case Get(id) => CleanKeepsAll(Gotten(s, id, step.t1).0, step.t2, s');
    case Remove(id) => CleanKeepsAll(Removed(s, id), step.t2, s');
    case SetTimeout(id, ms) => CleanKeepsAll(Prolonged(s, id, ms, step.t1), step.t2, s');
    case SetDefault(_) =>
    case Background => CleanKeepsAll(s, step.t2, s');
  }

  /** In every run the timeout in force is the last default set. */
  lemma {:induction false} TimeoutInForce(states: seq<Store>, steps: seq<Step>, k: nat)
    requires Run(states, steps) && k < |states|
    ensures states[k].timeout == LastDefault(states[0].timeout, steps[..k])
    decreases k
  {
    hide Next;
    if k > 0 {
      TimeoutInForce(states, steps, k - 1);
      TimeoutStep(states[k - 1], steps[k - 1], states[k]);
      assert steps[..k][..k - 1] == steps[..k - 1];
    }
  }

  /** So a session a `Get` creates in a run from the empty store is leased for the last default set, two hours if none
      was, and for a second at least. */
  lemma {:induction false} CreatedLease(states: seq<Store>, steps: seq<Step>, k: nat, id: string)
    requires Run(states, steps) && states[0] == EMPTY && k < |steps| && steps[k].op == Get(id)
    requires id !in states[k].sessions && id in states[k + 1].sessions
    ensures states[k + 1].sessions[id].expiry == steps[k].t1 + Longer(1000, LastDefault(7200000, steps[..k]))
  {
    hide Next;
    TimeoutInForce(states, steps, k);
    GetCreates(states[k], steps[k], states[k + 1], id);
  }

  // ----- the background clean-up -----

  /** When the heap holds eight entries or more for each session, the background clean-up leaves nothing that has
      expired: in every run from the empty store exactly the sessions whose lease lasts stay. */
  lemma {:induction false} BackgroundExact(states: seq<Store>, steps: seq<Step>, k: nat)
    requires Run(states, steps) && states[0] == EMPTY && k < |steps| && steps[k].op == Background
    requires |states[k].heap| >= 8 * |states[k].sessions|
    ensures states[k + 1].sessions ==
            map id | id in states[k].sessions && states[k].sessions[id].expiry > steps[k].t2 :: states[k].sessions[id]
    ensures forall e :: e in states[k + 1].heap ==> e.expiry > steps[k].t2
  {
    hide Covered, Popped;
    assert Covered(EMPTY) by { EmptyCovered(); }
    RunCovers(states, steps, k);
    assert Next(states[k], steps[k], states[k + 1]);
    ThoroughCleanExact(states[k], steps[k].t2, states[k + 1]);
  }

  lemma EmptyCovered()
    ensures Covered(EMPTY)
  {
  }

  lemma {:induction false} PoppedSize(s: Store, popped: multiset<Entry>, now: int, s': Store)
    requires Popped(s, popped, now, s')
    ensures |s.heap| == |s'.heap| + |popped|
  {
    assert s.heap == s'.heap + popped;
  }

  lemma {:induction false} ShortCleanSize(s: Store, now: int, s': Store)
    requires |s.heap| > 2 * |s.sessions| && ShortCleaned(s, now, s')
    ensures |s.heap| - 8 <= |s'.heap| <= |s.heap|
    ensures (exists e :: e in s.heap && e.expiry <= now) ==> |s'.heap| < |s.heap|
  {
    var popped :| Popped(s, popped, now, s') && |popped| <= MAX_SHORT_CLEAN &&
                  (|popped| == MAX_SHORT_CLEAN || NoneExpired(s'.heap, now));
    PoppedSize(s, popped, now, s');
    if popped == multiset{} { assert s'.heap == s.heap; }
  }

  /** Otherwise it takes at most eight entries, at least one if one has expired and the heap holds more than two
      entries for each session, and none at all if it does not. */
  lemma {:induction false} BackgroundBounded(s: Store, step: Step, s': Store)
    requires Next(s, step, s') && step.op == Background && |s.heap| < 8 * |s.sessions|
    ensures |s.heap| - 8 <= |s'.heap| <= |s.heap|
    ensures |s.heap| <= 2 * |s.sessions| ==> s' == s
    ensures |s.heap| > 2 * |s.sessions| && (exists e :: e in s.heap && e.expiry <= step.t2) ==> |s'.heap| < |s.heap|
  {
    if |s.heap| > 2 * |s.sessions| {
      hide ShortCleaned;
      ShortCleanSize(s, step.t2, s');
    }
  }
}
