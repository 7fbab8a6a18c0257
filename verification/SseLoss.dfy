/** Which `Next` calls of an SSE task lose text: a chunk that answers an empty callback reaches nobody
    (src/connection/client/http_sse_client_task_startup.cc:139-149, http_sse_client_task_stream.cc:47-152). */
module SseLoss {
  import opened Text
  import opened SseTask

  /** Step `i` is a `Next` that starts a read. */
  ghost predicate Accepted(setup: Setup, h: seq<Step>, i: nat) {
    i < |h| && h[i].Next? && After(Fresh(setup), h[..i]).phase == Streaming && !After(Fresh(setup), h[..i]).nextPending
  }

  /** Step `j` is a successful read that brings text not emitted yet. */
  ghost predicate BringsText(setup: Setup, h: seq<Step>, j: nat) {
    && j < |h| && h[j].ChunkRead? && h[j].c == Success
    && var t := After(Fresh(setup), h[..j]); |t.body + h[j].text| > t.emitted
  }

  /** No chunk read completes from step `i` on, up to `j`. */
  ghost predicate NoReadBetween(h: seq<Step>, i: nat, j: nat)
    requires i <= j <= |h|
  {
    forall k :: i <= k < j ==> !h[k].ChunkRead?
  }

  /** An accepted `Next` without a callback is completed by a read that brings text. */
  ghost predicate Loses(setup: Setup, h: seq<Step>, i: nat, j: nat) {
    i < j < |h| && Accepted(setup, h, i) && h[i] == Next(false) && NoReadBetween(h, i, j) && BringsText(setup, h, j)
  }

  lemma {:induction false} NextLosesNothing(t: Task, callback: bool)
    ensures Lost(OnNext(t, callback).answers) <==> Lost(t.answers)
  {
    var t' := OnNext(t, callback);
    if Lost(t.answers) {
      var i :| 0 <= i < |t.answers| && LostAt(t.answers[i]);
      assert t'.answers[i] == t.answers[i];
    }
  }

  lemma {:induction false} ChunkLoses(t: Task, c: Completion, text: string, finished: bool)
    requires t.emitted <= |t.body|
    ensures Lost(OnChunkRead(t, c, text, finished).answers) <==>
              Lost(t.answers) || (t.next.None? && c == Success && |t.body + text| > t.emitted)
  {
    hide OnChunkRead;
    var t' := OnChunkRead(t, c, text, finished);
    ChunkAnswer(t, c, text, finished);
    ChunkReply(t, c, text, finished);
    var a := t'.answers[|t.answers|];
    assert Lost(t'.answers) <==> Lost(t.answers) || LostAt(a) by {
      if Lost(t.answers) {
        var i :| 0 <= i < |t.answers| && LostAt(t.answers[i]);
        assert t'.answers[i] == t.answers[i];
      }
    }
  }

  /** A step loses text exactly when it is a read with new text for an empty callback. */
  lemma {:induction false} LosesStep(t: Task, step: Step)
    requires t.emitted <= |t.body|
    ensures Lost(Do(t, step).answers) <==>
              || Lost(t.answers)
              || (step.ChunkRead? && t.next.None? && step.c == Success && |t.body + step.text| > t.emitted)
  {
    hide OnNext, OnChunkRead, Lost;
    if step.Next? {
      NextLosesNothing(t, step.callback);
    } else if step.ChunkRead? {
      ChunkLoses(t, step.c, step.text, step.finished);
    } else {
      hide Do;
      QuietSteps(t, step);
    }
  }

  /** The accepted `Next` at `i` is still outstanding after the whole history. */
  ghost predicate OutstandingSince(setup: Setup, h: seq<Step>, i: nat) {
    i < |h| && Accepted(setup, h, i) && NoReadBetween(h, i, |h|)
  }

  lemma {:induction false} PendingStep(t: Task, step: Step)
    requires Lifecycle(t) && Enabled(t, step) && !step.ChunkRead?
    ensures t.nextPending ==> Do(t, step).nextPending && Do(t, step).next.Some? == t.next.Some?
    ensures !t.nextPending && (!step.Next? || t.phase != Streaming) ==> !Do(t, step).nextPending
    ensures !t.nextPending && step.Next? && t.phase == Streaming ==>
              Do(t, step).nextPending && Do(t, step).next.Some? == step.callback
  {
    if !step.Next? {
      hide Do;
      QuietSteps(t, step);
      QuietPending(t, step);
    }
  }

  /** While a `Next` is outstanding, its callback is the one stored. */
  lemma {:induction false} StillOutstanding(setup: Setup, h: seq<Step>, i: nat)
    requires Run(Fresh(setup), h) && OutstandingSince(setup, h, i)
    ensures var t := After(Fresh(setup), h); t.nextPending && t.next.Some? == h[i].callback
  {
    hide Do, Enabled, Lifecycle;
    var n := |h| - 1;
    var t := After(Fresh(setup), h[..n]);
    FreshLifecycle(setup);
    LifecycleKept(Fresh(setup), h[..n]);
    PendingStep(t, h[n]);
    if i < n {
      assert h[..n][..i] == h[..i];
      StillOutstanding(setup, h[..n], i);
    }
  }

  /** An outstanding read goes back to an accepted `Next`. */
  lemma {:induction false} PendingSince(setup: Setup, h: seq<Step>) returns (i: nat)
    requires Run(Fresh(setup), h) && After(Fresh(setup), h).nextPending
    ensures OutstandingSince(setup, h, i)
  {
    hide Do, Enabled, Lifecycle;
    var n := |h| - 1;
    var t := After(Fresh(setup), h[..n]);
    FreshLifecycle(setup);
    LifecycleKept(Fresh(setup), h[..n]);
    if h[n].ChunkRead? { ReadAnswers(t, h[n]); }
    PendingStep(t, h[n]);
    if t.nextPending {
      i := PendingSince(setup, h[..n]);
      assert h[..n][..i] == h[..i];
      assert forall k :: i <= k < n ==> h[..n][k] == h[k];
    } else {
      i := n;
    }
  }

  lemma ReadAnswers(t: Task, step: Step)
    requires step.ChunkRead?
    ensures !Do(t, step).nextPending
  {
  }

  /** In every run, text is lost if and only if an accepted `Next` without a callback is completed by a successful
      read that brings text. */
  lemma {:induction false} LostIff(setup: Setup, h: seq<Step>)
    requires Run(Fresh(setup), h)
    ensures Lost(After(Fresh(setup), h).answers) <==> exists i: nat, j: nat :: Loses(setup, h, i, j)
  {
    hide Do, Enabled, Lost, Accounted, Faithful;
    if h != [] {
      var n := |h| - 1;
      LostIff(setup, h[..n]);
      PullProtocol(setup, h[..n]);
      LosesLater(setup, h);
      var t := After(Fresh(setup), h[..n]);
      InvBounds(t);
      LosesStep(t, h[n]);
      if h[n].ChunkRead? { LosesNow(setup, h); }
    } else {
      NothingAnswered();
    }
  }

  lemma NothingAnswered()
    ensures !Lost([])
  {
  }

  /** The last step completes some accepted `Next`, and it loses text exactly when that one had no callback. */
  lemma {:induction false} LosesNow(setup: Setup, h: seq<Step>)
    requires h != [] && Run(Fresh(setup), h) && h[|h| - 1].ChunkRead?
    ensures var n := |h| - 1;
            (exists i: nat :: Loses(setup, h, i, n)) <==>
            After(Fresh(setup), h[..n]).next.None? && BringsText(setup, h, n)
  {
    hide Do, Lifecycle, BringsText;
    var n := |h| - 1;
    var front, t := h[..n], After(Fresh(setup), h[..n]);
    FreshLifecycle(setup);
    LifecycleKept(Fresh(setup), front);
    ReadPending(t, h[n]);
    if i: nat :| Loses(setup, h, i, n) {
      assert front[..i] == h[..i];
      assert OutstandingSince(setup, front, i);
      StillOutstanding(setup, front, i);
    }
    if t.next.None? && BringsText(setup, h, n) {
      var i := PendingSince(setup, front);
      assert front[..i] == h[..i];
      StillOutstanding(setup, front, i);
      assert forall k :: i <= k < n ==> front[k] == h[k];
      assert Loses(setup, h, i, n);
    }
  }

  lemma ReadPending(t: Task, step: Step)
    requires Lifecycle(t) && Enabled(t, step) && step.ChunkRead?
    ensures t.nextPending
  {
  }

  /** What loses text before the last step is what loses it in the shorter history. */
  lemma {:induction false} LosesLater(setup: Setup, h: seq<Step>)
    requires h != []
    ensures var n := |h| - 1;
            (exists i: nat, j: nat :: Loses(setup, h, i, j)) <==>
            (exists i: nat, j: nat :: Loses(setup, h[..n], i, j)) || (exists i: nat :: Loses(setup, h, i, n))
  {
    hide After;
    var n := |h| - 1;
    forall i: nat, j: nat | i < j < n ensures Loses(setup, h[..n], i, j) <==> Loses(setup, h, i, j) {
      assert h[..n][..i] == h[..i] && h[..n][..j] == h[..j];
      assert forall k :: 0 <= k < n ==> h[..n][k] == h[k];
    }
    if i: nat, j: nat :| Loses(setup, h, i, j) {
      assert j == n || Loses(setup, h[..n], i, j);
    }
    if i: nat, j: nat :| Loses(setup, h[..n], i, j) {
      assert Loses(setup, h, i, j);
    }
  }

  /** Every `Next` of the history has a callback. */
  ghost predicate AlwaysListening(h: seq<Step>) {
    forall k :: 0 <= k < |h| && h[k].Next? ==> h[k].callback
  }

  /** A caller that gives every `Next` a callback loses nothing. */
  lemma {:induction false} ListenersLoseNothing(setup: Setup, h: seq<Step>)
    requires Run(Fresh(setup), h) && AlwaysListening(h)
    ensures !Lost(After(Fresh(setup), h).answers)
  {
    hide After, Run, Lost;
    LostIff(setup, h);
  }

  /** Text is lost in this run: the only `Next` has an empty callback and its read yields "x". */
  lemma {:induction false} LosingRun() returns (steps: seq<Step>)
    ensures Run(Fresh(Raw(true)), steps)
    ensures var t := After(Fresh(Raw(true)), steps);
            Lost(t.answers) && t.body == "x" && t.emitted == 1 && Heard(t.answers) == []
  {
    var head := Opening();
    var t0 := Fresh(Raw(true));
    RunSnoc(t0, head, Next(false));
    RunSnoc(t0, head + [Next(false)], ChunkRead(Success, "x", false));
    steps := head + [Next(false)] + [ChunkRead(Success, "x", false)];
    var t := After(t0, steps);
    assert t.answers == [Answer(None, Chunk("x"))];
    assert LostAt(t.answers[0]);
  }

  /** A shortest run that opens the stream. */
  lemma {:induction false} Opening() returns (steps: seq<Step>)
    ensures Run(Fresh(Raw(true)), steps)
    ensures After(Fresh(Raw(true)), steps) ==
              Fresh(Raw(true)).(phase := Streaming, calls := 1, starts := [StartAnswer(0, true)])
  {
    var t0 := Fresh(Raw(true));
    RunSnoc(t0, [], Start(true));
    RunSnoc(t0, [] + [Start(true)], Written(Success));
    RunSnoc(t0, [] + [Start(true)] + [Written(Success)], HeaderRead(Success, true, true, ""));
    steps := [] + [Start(true)] + [Written(Success)] + [HeaderRead(Success, true, true, "")];
  }
}
