/** The session store: a map of sessions and a lazily cleaned expiry heap
    (src/session/session_map.cc, session_map_cleaner.cc). Times are milliseconds; every operation
    reads the clock twice, first for its own work and then for the clean-up that ends it. */
module SessionStore {
  import opened SessionHeap

  /** A stored session: which context object it holds and when its lease ends. */
  datatype Session = Session(context: nat, expiry: int)

  /** The store as a value. `made` counts the context objects ever created; the next one gets that
      number. */
  datatype Store = Store(sessions: map<string, Session>, heap: multiset<Entry>, timeout: nat, made: nat)

  const MIN_TIMEOUT: nat := 1000
  const MAX_SHORT_CLEAN: nat := 8

  function Max(a: int, b: int): int {
    if a >= b then a else b
  }

  /** Every stored session has a heap entry with its exact expiry. */
  ghost predicate Covered(s: Store) {
    forall id :: id in s.sessions ==> Entry(id, s.sessions[id].expiry) in s.heap
  }

  /** Contexts in the store are distinct objects made by the store. */
  ghost predicate Distinct(s: Store) {
    && (forall id :: id in s.sessions ==> s.sessions[id].context < s.made)
    && (forall a, b :: a in s.sessions && b in s.sessions && s.sessions[a].context == s.sessions[b].context ==> a == b)
  }

  // ----- what the operations do before their clean-up -----

  predicate Live(s: Store, id: string, now: int) {
    id in s.sessions && s.sessions[id].expiry > now
  }

  /** A live session's lease is extended, never shortened. */
  function Extended(s: Store, id: string, now: int): Store
    requires id in s.sessions
  {
    var e := s.sessions[id];
    var lease := Max(now + s.timeout, e.expiry);
    s.(sessions := s.sessions[id := e.(expiry := lease)],
       heap := if lease != e.expiry then s.heap + multiset{Entry(id, lease)} else s.heap)
  }

  /** A new context is made; it is stored only if the id has no entry at all. */
  function Created(s: Store, id: string, now: int): Store {
    var lease := now + Max(MIN_TIMEOUT, s.timeout);
    s.(sessions := if id in s.sessions then s.sessions else s.sessions[id := Session(s.made, lease)],
       heap := s.heap + multiset{Entry(id, lease)},
       made := s.made + 1)
  }

  /** The store and the context `GetSession` hands out at time `now`. */
  function Gotten(s: Store, id: string, now: int): (r: (Store, nat)) {
    if Live(s, id, now) then (Extended(s, id, now), s.sessions[id].context) else (Created(s, id, now), s.made)
  }

  function Removed(s: Store, id: string): Store {
    s.(sessions := s.sessions - {id})
  }

  function Prolonged(s: Store, id: string, ms: nat, now: int): Store {
    var lease := now + Max(MIN_TIMEOUT, ms);
    if id in s.sessions then
      var e := s.sessions[id];
      var longer := Max(e.expiry, lease);
      if longer == e.expiry then s
      else s.(sessions := s.sessions[id := e.(expiry := longer)], heap := s.heap + multiset{Entry(id, longer)})
    else s.(sessions := s.sessions[id := Session(s.made, lease)],
            heap := s.heap + multiset{Entry(id, lease)}, made := s.made + 1)
  }

  // ----- clean-up -----

  /** The sessions whose own heap entry is not among `popped`. */
  ghost function Surviving(sessions: map<string, Session>, popped: multiset<Entry>): map<string, Session> {
    map id | id in sessions && Entry(id, sessions[id].expiry) !in popped :: sessions[id]
  }

  /** `s'` is `s` after popping the entries `popped`, all expired at `now` and none later than what
      stays, and dropping exactly the sessions they belong to. */
  ghost predicate Popped(s: Store, popped: multiset<Entry>, now: int, s': Store) {
    && popped <= s.heap && s'.heap == s.heap - popped
    && (forall e :: e in popped ==> e.expiry <= now)
    && (forall e, f :: e in popped && f in s'.heap ==> e.expiry <= f.expiry)
    && s'.sessions == Surviving(s.sessions, popped)
    && s'.timeout == s.timeout && s'.made == s.made
  }

  ghost predicate NoneExpired(heap: multiset<Entry>, now: int) {
    forall e :: e in heap ==> e.expiry > now
  }

  /** The bounded clean-up after every operation: it runs only when more than half the heap is stale,
      and stops after eight entries or when nothing expired is left. */
  ghost predicate ShortCleaned(s: Store, now: int, s': Store) {
    if |s.heap| > 2 * |s.sessions| then
      exists popped ::
        Popped(s, popped, now, s') && |popped| <= MAX_SHORT_CLEAN &&
        (|popped| == MAX_SHORT_CLEAN || NoneExpired(s'.heap, now))
    else s' == s
  }

  ghost predicate ThoroughlyCleaned(s: Store, now: int, s': Store) {
    exists popped :: Popped(s, popped, now, s') && NoneExpired(s'.heap, now)
  }

  // ----- steps and runs -----

  datatype Op =
    | Get(id: string)
    | Remove(id: string)
    | SetTimeout(id: string, ms: nat)
    | SetDefault(ms: nat)
    | Background

  /** One operation at clock readings `t1` and `t2`; `context` is what a `Get` returned. */
  datatype Step = Step(op: Op, t1: int, t2: int, context: nat)

  ghost predicate Next(s: Store, step: Step, s': Store) {
    step.t1 <= step.t2 &&
    match step.op
    case Get(id) => var (mid, context) := Gotten(s, id, step.t1); step.context == context && ShortCleaned(mid, step.t2, s')
    case Remove(id) => ShortCleaned(Removed(s, id), step.t2, s')
    case SetTimeout(id, ms) => ShortCleaned(Prolonged(s, id, ms, step.t1), step.t2, s')
    case SetDefault(ms) => s' == s.(timeout := ms)
    case Background => if |s.heap| < 8 * |s.sessions| then ShortCleaned(s, step.t2, s') else ThoroughlyCleaned(s, step.t2, s')
  }

  /** A run: `states[k]` goes to `states[k + 1]` by `steps[k]`. */
  ghost predicate Run(states: seq<Store>, steps: seq<Step>) {
    |states| == |steps| + 1 && forall k :: 0 <= k < |steps| ==> Next(states[k], steps[k], states[k + 1])
  }

  // ----- coverage -----

  lemma {:induction false} ShortCleanCovers(s: Store, now: int, s': Store)
    requires Covered(s) && ShortCleaned(s, now, s')
    ensures Covered(s')
  {
  }

  lemma {:induction false} ThoroughCleanCovers(s: Store, now: int, s': Store)
    requires Covered(s) && ThoroughlyCleaned(s, now, s')
    ensures Covered(s')
  {
  }

  lemma {:induction false} GetCovered(s: Store, id: string, now: int)
    requires Covered(s)
    ensures id in s.sessions ==> Covered(Extended(s, id, now))
    ensures Covered(Created(s, id, now))
  {
  }

  lemma {:induction false} ChangesCovered(s: Store, id: string, ms: nat, now: int)
    requires Covered(s)
    ensures Covered(Removed(s, id)) && Covered(Prolonged(s, id, ms, now))
  {
  }

  /** Every operation keeps a heap entry for every session, although the heap may hold any number of
      stale entries besides. */
  lemma {:induction false} NextCovers(s: Store, step: Step, s': Store)
    requires Covered(s) && Next(s, step, s')
    ensures Covered(s')
  {
    hide Covered, ShortCleaned, ThoroughlyCleaned, Extended, Created, Removed, Prolonged;
    match step.op
    case Get(id) =>
      GetCovered(s, id, step.t1);
      ShortCleanCovers(Gotten(s, id, step.t1).0, step.t2, s');
    case Remove(id) =>
      ChangesCovered(s, id, 0, step.t1);
      ShortCleanCovers(Removed(s, id), step.t2, s');
    case SetTimeout(id, ms) =>
      ChangesCovered(s, id, ms, step.t1);
      ShortCleanCovers(Prolonged(s, id, ms, step.t1), step.t2, s');
    case SetDefault(ms) =>
      DefaultCovered(s, ms);
    case Background =>
      if |s.heap| < 8 * |s.sessions| {
        ShortCleanCovers(s, step.t2, s');
      } else {
        ThoroughCleanCovers(s, step.t2, s');
      }
  }

  lemma DefaultCovered(s: Store, ms: nat)
    requires Covered(s)
    ensures Covered(s.(timeout := ms))
  {
  }

  lemma {:induction false} RunCovers(states: seq<Store>, steps: seq<Step>, k: nat)
    requires Run(states, steps) && Covered(states[0]) && k < |states|
    ensures Covered(states[k])
    decreases k
  {
    if k > 0 {
      RunCovers(states, steps, k - 1);
      NextCovers(states[k - 1], steps[k - 1], states[k]);
    }
  }

  /** A thorough clean-up of a covered store leaves exactly the sessions whose lease has not ended. */
  lemma {:induction false} ThoroughCleanExact(s: Store, now: int, s': Store)
    requires Covered(s) && ThoroughlyCleaned(s, now, s')
    ensures s'.sessions == map id | id in s.sessions && s.sessions[id].expiry > now :: s.sessions[id]
  {
  }

  // ----- stability -----

  /** `id` is stored with `context` and a lease of at least `lease`. */
  ghost predicate Holds(s: Store, id: string, context: nat, lease: int) {
    id in s.sessions && s.sessions[id].context == context && s.sessions[id].expiry >= lease
  }

  lemma {:induction false} ShortCleanKeeps(s: Store, now: int, s': Store, id: string)
    requires ShortCleaned(s, now, s') && Live(s, id, now)
    ensures id in s'.sessions && s'.sessions[id] == s.sessions[id]
  {
    if |s.heap| > 2 * |s.sessions| {
      var popped :| Popped(s, popped, now, s');
      if Entry(id, s.sessions[id].expiry) in popped { assert false; }
    }
  }

  lemma {:induction false} ThoroughCleanKeeps(s: Store, now: int, s': Store, id: string)
    requires ThoroughlyCleaned(s, now, s') && Live(s, id, now)
    ensures id in s'.sessions && s'.sessions[id] == s.sessions[id]
  {
  }

  /** No operation but its removal touches a session before its lease ends: the context stays, the
      lease never shortens, and a `Get` of the session returns the stored context. */
  lemma {:induction false} NextKeeps(s: Store, step: Step, s': Store, id: string)
    requires Next(s, step, s') && Live(s, id, step.t2) && step.op != Remove(id)
    ensures Holds(s', id, s.sessions[id].context, s.sessions[id].expiry)
    ensures step.op == Get(id) ==> step.context == s.sessions[id].context
  {
    hide ShortCleaned, ThoroughlyCleaned, Gotten, Removed, Prolonged;
    match step.op
    case Get(other) =>
      ChangesKeep(s, other, 0, step.t1, id);
      ShortCleanKeeps(Gotten(s, other, step.t1).0, step.t2, s', id);
    case Remove(other) =>
      ChangesKeep(s, other, 0, step.t1, id);
      ShortCleanKeeps(Removed(s, other), step.t2, s', id);
    case SetTimeout(other, ms) =>
      ChangesKeep(s, other, ms, step.t1, id);
      ShortCleanKeeps(Prolonged(s, other, ms, step.t1), step.t2, s', id);
    case SetDefault(_) =>
    case Background =>
      if |s.heap| < 8 * |s.sessions| {
        ShortCleanKeeps(s, step.t2, s', id);
      } else {
        ThoroughCleanKeeps(s, step.t2, s', id);
      }
  }

  lemma {:induction false} ChangesKeep(s: Store, other: string, ms: nat, now: int, id: string)
    requires Live(s, id, now)
    ensures var (mid, context) := Gotten(s, other, now);
            && Holds(mid, id, s.sessions[id].context, s.sessions[id].expiry)
            && (other == id ==> context == s.sessions[id].context)
    ensures other != id ==> Holds(Removed(s, other), id, s.sessions[id].context, s.sessions[id].expiry)
    ensures Holds(Prolonged(s, other, ms, now), id, s.sessions[id].context, s.sessions[id].expiry)
  {
  }

  /** In steps `from` up to `until` the session `id` is not removed and the clock stays before its lease. */
  ghost predicate InLease(states: seq<Store>, steps: seq<Step>, id: string, from: nat, until: nat)
    requires Run(states, steps) && from <= until <= |steps|
  {
    forall k :: from <= k < until && id in states[k].sessions ==>
      steps[k].op != Remove(id) && steps[k].t2 < states[k].sessions[id].expiry
  }

  /** Session stability: from any point of any run on, as long as a session is not removed and its
      (possibly extended) lease has not ended, the store keeps its context and never shortens its
      lease, and every `Get` of it returns that context, whatever other operations and clean-ups
      happen in between. */
  lemma {:induction false} SessionStable(states: seq<Store>, steps: seq<Step>, id: string, from: nat, until: nat)
    requires Run(states, steps) && from <= until <= |steps| && id in states[from].sessions
    requires InLease(states, steps, id, from, until)
    ensures Holds(states[until], id, states[from].sessions[id].context, states[from].sessions[id].expiry)
    ensures forall k :: from <= k < until && steps[k].op == Get(id) ==>
              steps[k].context == states[from].sessions[id].context
    decreases until - from
  {
    hide Next;
    if from < until {
      NextKeeps(states[from], steps[from], states[from + 1], id);
      SessionStable(states, steps, id, from + 1, until);
    }
  }

  /** A `Get` stores the context it returns, under a lease of at least the minimum, exactly when the
      id was absent or live. When an expired entry is still there the returned context is new and is
      stored nowhere. */
  lemma {:induction false} GetStoresResult(s: Store, id: string, now: int)
    requires Distinct(s)
    ensures var (mid, context) := Gotten(s, id, now);
            && (id in mid.sessions && mid.sessions[id].context == context <==> id !in s.sessions || Live(s, id, now))
            && (id in s.sessions && !Live(s, id, now) ==> forall other :: other in mid.sessions ==>
                                                            mid.sessions[other].context != context)
            && (id !in s.sessions ==> mid.sessions[id].expiry >= now + MIN_TIMEOUT)
  {
  }

  /** The store as constructed: empty, with a default timeout of two hours. */
  const EMPTY := Store(map[], multiset{}, 7200000, 0)

  /** The states of a run of three `Get`s of one id: the second comes one millisecond after the first lease ended,
      the third one millisecond later. */
  function First(id: string): Store {
    Store(map[id := Session(0, 7200000)], multiset{Entry(id, 7200000)}, 7200000, 1)
  }

  function Second(id: string): Store {
    Store(map[id := Session(0, 7200000)], multiset{Entry(id, 7200000), Entry(id, 14400001)}, 7200000, 2)
  }

  function Third(id: string): Store {
    Store(map[], multiset{Entry(id, 14400001), Entry(id, 14400002)}, 7200000, 3)
  }

  lemma {:induction false} FirstGet(id: string)
    ensures Next(EMPTY, Step(Get(id), 0, 0, 0), First(id))
  {
    assert Created(EMPTY, id, 0).heap == First(id).heap && Created(EMPTY, id, 0).sessions == First(id).sessions;
    assert Gotten(EMPTY, id, 0) == (First(id), 0);
    assert |First(id).heap| == 1 && |First(id).sessions| == 1;
  }

  lemma {:induction false} SecondGet(id: string)
    ensures Next(First(id), Step(Get(id), 7200001, 7200001, 1), Second(id))
  {
    assert Created(First(id), id, 7200001).heap == Second(id).heap;
    assert Gotten(First(id), id, 7200001) == (Second(id), 1);
    assert |Second(id).heap| == 2 && |Second(id).sessions| == 1;
  }

  lemma {:induction false} ThirdGet(id: string)
    ensures Next(Second(id), Step(Get(id), 7200002, 7200002, 2), Third(id))
  {
    var mid := Second(id).(heap := Second(id).heap + multiset{Entry(id, 14400002)}, made := 3);
    assert Gotten(Second(id), id, 7200002) == (mid, 2);
    var popped := multiset{Entry(id, 7200000)};
    assert mid.heap - popped == Third(id).heap;
    assert Surviving(mid.sessions, popped) == map[];
    assert Popped(mid, popped, 7200002, Third(id));
    assert |mid.heap| == 3 && |mid.sessions| == 1 && |popped| == 1;
  }

  /** So two `Get`s of an id with a leftover expired entry do not agree: in this run the third `Get` returns another
      context than the second, well within the two hours the second was promised. */
  lemma {:induction false} ExpiredGetForgets(id: string) returns (states: seq<Store>, steps: seq<Step>)
    ensures Run(states, steps) && states[0] == EMPTY && |steps| == 3
    ensures forall k :: 0 <= k < 3 ==> steps[k].op == Get(id)
    ensures steps[2].t2 < steps[1].t1 + 7200000 && steps[2].context != steps[1].context
  {
    hide Next, First, Second, Third;
    states := [EMPTY, First(id), Second(id), Third(id)];
    steps := [Step(Get(id), 0, 0, 0), Step(Get(id), 7200001, 7200001, 1), Step(Get(id), 7200002, 7200002, 2)];
    FirstGet(id);
    SecondGet(id);
    ThirdGet(id);
  }

  // ----- contexts over runs -----

  /** Context `c` has been made and is stored nowhere. */
  ghost predicate Forgotten(s: Store, c: nat) {
    c < s.made && forall id :: id in s.sessions ==> s.sessions[id].context != c
  }

  /** Every session of `s'` keeps the context it has in `s`, so nothing is added but expiry times. */
  ghost predicate Within(s: Store, s': Store) {
    s'.made == s.made &&
    forall id :: id in s'.sessions ==> id in s.sessions && s'.sessions[id].context == s.sessions[id].context
  }

  lemma {:induction false} CleanWithin(s: Store, now: int, s': Store)
    requires ShortCleaned(s, now, s') || ThoroughlyCleaned(s, now, s')
    ensures Within(s, s')
  {
  }

  lemma WithinKeeps(s: Store, s': Store, c: nat)
    requires Within(s, s')
    ensures Distinct(s) ==> Distinct(s')
    ensures Forgotten(s, c) ==> Forgotten(s', c)
  {
  }

  lemma {:induction false} GetContexts(s: Store, id: string, now: int, c: nat)
    ensures var (mid, context) := Gotten(s, id, now);
            && (Distinct(s) ==> Distinct(mid))
            && (Forgotten(s, c) ==> Forgotten(mid, c) && context != c)
  {
  }

  lemma {:induction false} ChangesContexts(s: Store, id: string, ms: nat, now: int, c: nat)
    ensures Distinct(s) ==> Distinct(Removed(s, id)) && Distinct(Prolonged(s, id, ms, now))
    ensures Forgotten(s, c) ==> Forgotten(Removed(s, id), c) && Forgotten(Prolonged(s, id, ms, now), c)
  {
  }

  /** Every operation keeps contexts distinct, keeps a forgotten context forgotten and never returns it. */
  lemma {:induction false} NextContexts(s: Store, step: Step, s': Store, c: nat)
    requires Next(s, step, s')
    ensures Distinct(s) ==> Distinct(s')
    ensures Forgotten(s, c) ==> Forgotten(s', c) && (step.op.Get? ==> step.context != c)
  {
    hide ShortCleaned, ThoroughlyCleaned, Gotten, Removed, Prolonged, Distinct, Forgotten, Within;
    match step.op
    case Get(id) =>
      GetContexts(s, id, step.t1, c);
      var mid := Gotten(s, id, step.t1).0;
      CleanWithin(mid, step.t2, s');
      WithinKeeps(mid, s', c);
    case Remove(id) =>
      ChangesContexts(s, id, 0, step.t1, c);
      CleanWithin(Removed(s, id), step.t2, s');
      WithinKeeps(Removed(s, id), s', c);
    case SetTimeout(id, ms) =>
      ChangesContexts(s, id, ms, step.t1, c);
      CleanWithin(Prolonged(s, id, ms, step.t1), step.t2, s');
      WithinKeeps(Prolonged(s, id, ms, step.t1), s', c);
    case SetDefault(ms) =>
      SameWithin(s, ms);
      WithinKeeps(s, s', c);
    case Background =>
      CleanWithin(s, step.t2, s');
      WithinKeeps(s, s', c);
  }

  lemma SameWithin(s: Store, ms: nat)
    ensures Within(s, s.(timeout := ms))
  {
  }

  /** Along every run stored contexts stay distinct, and a forgotten context is never returned again. */
  lemma {:induction false} RunContexts(states: seq<Store>, steps: seq<Step>, from: nat, until: nat, c: nat)
    requires Run(states, steps) && from <= until <= |steps|
    ensures Distinct(states[from]) ==> Distinct(states[until])
    ensures Forgotten(states[from], c) ==>
      Forgotten(states[until], c) && forall k :: from <= k < until && steps[k].op.Get? ==> steps[k].context != c
    decreases until - from
  {
    hide Next, Distinct, Forgotten;
    if from < until {
      NextContexts(states[from], steps[from], states[from + 1], c);
      RunContexts(states, steps, from + 1, until, c);
    }
  }

  /** A context handed out for an absent or live id is returned by every later `Get` of the id while it is
      not removed and its lease lasts. */
  lemma {:induction false} ReturnedAgain(states: seq<Store>, steps: seq<Step>, id: string, from: nat, until: nat)
    requires Run(states, steps) && from < until <= |steps| && steps[from].op == Get(id)
    requires id !in states[from].sessions || Live(states[from], id, steps[from].t1)
    requires Live(Gotten(states[from], id, steps[from].t1).0, id, steps[from].t2)
    requires InLease(states, steps, id, from + 1, until)
    ensures forall k :: from <= k < until && steps[k].op == Get(id) ==> steps[k].context == steps[from].context
  {
    hide ShortCleaned;
    var mid := Gotten(states[from], id, steps[from].t1).0;
    assert Next(states[from], steps[from], states[from + 1]);
    ShortCleanKeeps(mid, steps[from].t2, states[from + 1], id);
    SessionStable(states, steps, id, from + 1, until);
  }

  /** A context handed out for an id whose expired entry was still there is never returned by any later `Get`. */
  lemma {:induction false} NeverReturnedAgain(states: seq<Store>, steps: seq<Step>, id: string, from: nat, until: nat)
    requires Run(states, steps) && from < until <= |steps| && steps[from].op == Get(id)
    requires Distinct(states[from]) && id in states[from].sessions && !Live(states[from], id, steps[from].t1)
    ensures forall k :: from < k < until && steps[k].op.Get? ==> steps[k].context != steps[from].context
  {
    hide ShortCleaned, Within;
    var mid := Gotten(states[from], id, steps[from].t1).0;
    var c := steps[from].context;
    assert Next(states[from], steps[from], states[from + 1]);
    assert Forgotten(mid, c);
    CleanWithin(mid, steps[from].t2, states[from + 1]);
    WithinKeeps(mid, states[from + 1], c);
    RunContexts(states, steps, from + 1, until, c);
  }
}
