/** Which `Start` calls of an SSE task are answered (src/connection/client/http_sse_client_task_startup.cc:151-185,
    289-347). The public header promises each its callback exactly once; a later `Start` replaces it. */
module SseStart {
  import opened Text
  import opened SseTask

  /** How many `Start` calls of the history had a callback; the next one gets that number. */
  function Calls(h: seq<Step>): nat {
    if h == [] then 0 else Calls(h[..|h| - 1]) + (if h[|h| - 1] == Start(true) then 1 else 0)
  }

  /** The number of the last `Start` call, unless its callback was empty. */
  function Current(h: seq<Step>): Option<nat> {
    if h == [] then None
    else
      var last := h[|h| - 1];
      if last.Start? then (if last.callback then Some(Calls(h[..|h| - 1])) else None) else Current(h[..|h| - 1])
  }

  /** The start is not decided yet. */
  predicate Undecided(t: Task) {
    t.phase == Idle || t.phase == Starting
  }

  /** Step `m` of the run decides the start: the stream opens or the task is done. */
  ghost predicate Decides(setup: Setup, h: seq<Step>, m: nat) {
    m < |h| && Undecided(After(Fresh(setup), h[..m])) && !Undecided(After(Fresh(setup), h[..m + 1]))
  }

  ghost predicate AnsweredStart(t: Task, call: nat) {
    exists i :: 0 <= i < |t.starts| && t.starts[i].call == call
  }

  // ----- numbering -----

  lemma {:induction false} CallsMonotone(h: seq<Step>, k: nat)
    requires k <= |h|
    ensures Calls(h[..k]) <= Calls(h)
  {
    if k < |h| {
      CallsMonotone(h[..|h| - 1], k);
      assert h[..|h| - 1][..k] == h[..k];
    } else {
      assert h[..k] == h;
    }
  }

  lemma {:induction false} CurrentBelow(h: seq<Step>)
    ensures Current(h).Some? ==> Current(h).value < Calls(h)
  {
    if h != [] { CurrentBelow(h[..|h| - 1]); }
  }

  /** Call `k` is the current one of a history exactly when no later `Start` is in it. */
  lemma {:induction false} CurrentIff(h: seq<Step>, k: nat)
    requires k < |h| && h[k] == Start(true)
    ensures Current(h) == Some(Calls(h[..k])) <==> forall j :: k < j < |h| ==> !h[j].Start?
  {
    var front := h[..|h| - 1];
    if k < |front| {
      assert front[..k] == h[..k] && front[k] == h[k];
      CurrentIff(front, k);
      if h[|h| - 1].Start? {
        assert front[..k + 1][..k] == h[..k];
        CallsMonotone(front, k + 1);
      } else {
        assert forall j :: k < j < |front| ==> front[j] == h[j];
      }
    }
  }

  // ----- one step -----

  /** The stored callback after a step, had nothing been answered. */
  function Stored(t: Task, step: Step): Option<nat> {
    if step.Start? then (if step.callback then Some(t.calls) else None) else t.start
  }

  /** The step that decides the start answers the stored callback; no other step answers any. */
  ghost predicate AnswersStored(t: Task, step: Step, t': Task) {
    && t'.calls == t.calls + (if step == Start(true) then 1 else 0)
    && (Undecided(t) && Undecided(t') ==> t'.start == Stored(t, step) && t'.starts == t.starts)
    && (Undecided(t) && !Undecided(t') ==> t'.starts == t.starts + StartReply(Stored(t, step), t'.phase == Streaming))
    && (!Undecided(t) ==> !Undecided(t') && t'.starts == t.starts)
  }

  lemma FailStartAnswers(t: Task, c: Completion)
    requires t.phase == Starting
    ensures FailStart(t, c).phase == Done && FailStart(t, c).calls == t.calls
    ensures FailStart(t, c).starts == t.starts + StartReply(t.start, false)
  {
  }

  lemma {:induction false} StartCallAnswers(t: Task, callback: bool)
    ensures AnswersStored(t, Start(callback), OnStart(t, callback))
  {
    hide FailStart, StartReply;
    if t.phase == Idle {
      FailStartAnswers(StoreStart(t, callback).(phase := Starting), OtherError);
    }
  }

  lemma {:induction false} StartupAnswers(t: Task, step: Step)
    requires Lifecycle(t) && Enabled(t, step) && (step.Acquired? || step.Written? || step.HeaderRead?)
    ensures AnswersStored(t, step, Do(t, step))
  {
    hide FailStart, StartReply;
    var s := t.(pending := NoOp, body := if step.HeaderRead? then t.body + step.text else t.body);
    FailStartAnswers(s, step.c);
    FailStartAnswers(s, OtherError);
  }

  lemma {:induction false} LaterAnswers(t: Task, step: Step)
    requires Lifecycle(t) && Enabled(t, step) && (step.Next? || step.Cancel? || step.ChunkRead?)
    ensures AnswersStored(t, step, Do(t, step))
  {
    hide StartReply;
  }

  lemma {:induction false} StepAnswers(t: Task, step: Step)
    requires Lifecycle(t) && Enabled(t, step)
    ensures AnswersStored(t, step, Do(t, step))
  {
    hide AnswersStored, Lifecycle, Enabled, OnStart, OnAcquired, OnWritten, OnHeaderRead, OnNext, OnCancel, OnChunkRead;
    match step
    case Start(callback) => StartCallAnswers(t, callback);
    case Next(_) => LaterAnswers(t, step);
    case Cancel => LaterAnswers(t, step);
    case ChunkRead(_, _, _) => LaterAnswers(t, step);
    case _ => StartupAnswers(t, step);
  }

  // ----- whole runs -----

  /** Before the start is decided the last call is stored and nothing is answered; afterwards the deciding
      step has answered the call stored then. */
  ghost predicate StartState(setup: Setup, h: seq<Step>) {
    var t := After(Fresh(setup), h);
    && t.calls == Calls(h)
    && (Undecided(t) ==> t.start == Current(h) && t.starts == [])
    && (!Undecided(t) ==> exists m: nat :: Decides(setup, h, m) && DecidedBy(setup, h, m))
  }

  ghost predicate DecidedBy(setup: Setup, h: seq<Step>, m: nat)
    requires m < |h|
  {
    After(Fresh(setup), h).starts == StartReply(Current(h[..m + 1]), After(Fresh(setup), h[..m + 1]).phase == Streaming)
  }

  lemma {:induction false} StartStateKept(setup: Setup, h: seq<Step>)
    requires Run(Fresh(setup), h)
    ensures StartState(setup, h) && Lifecycle(After(Fresh(setup), h))
  {
    hide Do, Enabled, Lifecycle, StartReply;
    if h == [] {
      FreshLifecycle(setup);
    } else {
      var n := |h| - 1;
      var front, t, t' := h[..n], After(Fresh(setup), h[..n]), After(Fresh(setup), h);
      StartStateKept(setup, front);
      DoLifecycle(t, h[n]);
      StepAnswers(t, h[n]);
      if Undecided(t) && !Undecided(t') {
        assert h[..n + 1] == h;
        assert t'.starts == StartReply(Current(h), t'.phase == Streaming);
        assert Decides(setup, h, n) && DecidedBy(setup, h, n);
      } else if !Undecided(t) {
        var m: nat :| Decides(setup, front, m) && DecidedBy(setup, front, m);
        assert front[..m] == h[..m] && front[..m + 1] == h[..m + 1];
        assert Decides(setup, h, m) && DecidedBy(setup, h, m);
      }
    }
  }

  lemma {:induction false} RunPrefix(t: Task, h: seq<Step>, k: nat)
    requires Run(t, h) && k <= |h|
    ensures Run(t, h[..k])
  {
    hide Enabled, After;
    if k < |h| {
      RunPrefix(t, h[..|h| - 1], k);
      assert h[..|h| - 1][..k] == h[..k];
    } else {
      assert h[..k] == h;
    }
  }

  /** A decided start stays decided. */
  lemma {:induction false} StaysDecided(setup: Setup, h: seq<Step>, k: nat)
    requires Run(Fresh(setup), h) && k <= |h| && !Undecided(After(Fresh(setup), h[..k]))
    ensures !Undecided(After(Fresh(setup), h))
  {
    hide Do, Enabled, Undecided, Lifecycle;
    if k < |h| {
      var front := h[..|h| - 1];
      assert front[..k] == h[..k];
      StaysDecided(setup, front, k);
      StartStateKept(setup, front);
      StepAnswers(After(Fresh(setup), front), h[|h| - 1]);
    } else {
      assert h[..k] == h;
    }
  }

  lemma {:induction false} DecidesOnce(setup: Setup, h: seq<Step>, m: nat, n: nat)
    requires Run(Fresh(setup), h) && Decides(setup, h, m) && Decides(setup, h, n)
    ensures m == n
  {
    hide Run, After;
    if m < n {
      DecidesOnceOrdered(setup, h, m, n);
    } else if n < m {
      DecidesOnceOrdered(setup, h, n, m);
    }
  }

  lemma {:induction false} DecidesOnceOrdered(setup: Setup, h: seq<Step>, m: nat, n: nat)
    requires Run(Fresh(setup), h) && Decides(setup, h, m) && Decides(setup, h, n)
    ensures m >= n
  {
    hide Run, After;
    if m < n {
      RunPrefix(Fresh(setup), h, n);
      assert h[..n][..m + 1] == h[..m + 1];
      StaysDecided(setup, h[..n], m + 1);
    }
  }

  /** Step `m` decides the start and call `k` is the last one up to it. */
  ghost predicate DecidesFor(setup: Setup, h: seq<Step>, k: nat, m: nat) {
    Decides(setup, h, m) && k <= m && forall j :: k < j <= m ==> !h[j].Start?
  }

  /** In every run, a `Start` with a callback is answered if and only if the start is decided at it or later with
      no other `Start` in between; at most one call is answered, and with success exactly when the deciding
      step opened the stream. */
  lemma {:induction false} StartAnsweredIff(setup: Setup, h: seq<Step>, k: nat)
    requires Run(Fresh(setup), h) && k < |h| && h[k] == Start(true)
    ensures var t := After(Fresh(setup), h);
            && |t.starts| <= 1
            && (AnsweredStart(t, Calls(h[..k])) <==> exists m: nat :: DecidesFor(setup, h, k, m))
            && (forall m: nat :: DecidesFor(setup, h, k, m) ==>
                  t.starts == [StartAnswer(Calls(h[..k]), After(Fresh(setup), h[..m + 1]).phase == Streaming)])
  {
    hide After, Run, Lifecycle;
    StartStateKept(setup, h);
    var t := After(Fresh(setup), h);
    if Undecided(t) {
      forall m: nat ensures !Decides(setup, h, m) {
        if Decides(setup, h, m) { StaysDecided(setup, h, m + 1); }
      }
    } else {
      var m: nat :| Decides(setup, h, m) && DecidedBy(setup, h, m);
      AnsweredWhenDecided(setup, h, k, m);
      forall n: nat | Decides(setup, h, n) ensures n == m { DecidesOnce(setup, h, m, n); }
    }
  }

  lemma {:induction false} AnsweredWhenDecided(setup: Setup, h: seq<Step>, k: nat, m: nat)
    requires k < |h| && h[k] == Start(true) && Decides(setup, h, m) && DecidedBy(setup, h, m)
    ensures var t := After(Fresh(setup), h);
            && |t.starts| <= 1
            && (AnsweredStart(t, Calls(h[..k])) <==> DecidesFor(setup, h, k, m))
            && (DecidesFor(setup, h, k, m) ==>
                  t.starts == [StartAnswer(Calls(h[..k]), After(Fresh(setup), h[..m + 1]).phase == Streaming)])
  {
    hide After;
    var g := h[..m + 1];
    if k <= m {
      assert g[..k] == h[..k] && g[k] == h[k] && forall j :: k < j <= m ==> g[j] == h[j];
      CurrentIff(g, k);
      assert (forall j :: k < j < |g| ==> !g[j].Start?) <==> (forall j :: k < j <= m ==> !h[j].Start?);
      var t := After(Fresh(setup), h);
      if t.starts != [] { assert t.starts[0].call == Current(g).value; }
    } else {
      assert h[..k][..m + 1] == g;
      CallsMonotone(h[..k], m + 1);
      CurrentBelow(g);
    }
  }

  /** A `Start` made when the stream is open or done is never answered. */
  lemma {:induction false} LateStartUnanswered(setup: Setup, h: seq<Step>, k: nat)
    requires Run(Fresh(setup), h) && k < |h| && h[k] == Start(true)
    requires !Undecided(After(Fresh(setup), h[..k]))
    ensures !AnsweredStart(After(Fresh(setup), h), Calls(h[..k]))
  {
    hide After, Run, AnsweredStart, Undecided;
    StartAnsweredIff(setup, h, k);
    forall m: nat ensures !DecidesFor(setup, h, k, m) {
      if DecidesFor(setup, h, k, m) {
        RunPrefix(Fresh(setup), h, m);
        assert h[..m][..k] == h[..k];
        StaysDecided(setup, h[..m], k);
      }
    }
  }

  /** In this run the first of two callbacks is lost for good: the stream opens for the second. */
  lemma {:induction false} FirstStartLost() returns (h: seq<Step>)
    ensures Run(Fresh(Raw(true)), h) && |h| == 4 && h[..2] == [Start(true), Start(true)]
    ensures After(Fresh(Raw(true)), h).phase == Streaming
    ensures !AnsweredStart(After(Fresh(Raw(true)), h), 0) && AnsweredStart(After(Fresh(Raw(true)), h), 1)
  {
    var t0 := Fresh(Raw(true));
    RunSnoc(t0, [], Start(true));
    RunSnoc(t0, [] + [Start(true)], Start(true));
    RunSnoc(t0, [] + [Start(true)] + [Start(true)], Written(Success));
    RunSnoc(t0, [] + [Start(true)] + [Start(true)] + [Written(Success)], HeaderRead(Success, true, true, ""));
    h := [] + [Start(true)] + [Start(true)] + [Written(Success)] + [HeaderRead(Success, true, true, "")];
    var t := After(t0, h);
    assert t.starts == [StartAnswer(1, true)];
    assert t.starts[0].call == 1;
  }
}
