/** How every run of the SSE client task ends, when it is open and what each `Next` is told, from its steps alone
    (src/connection/client/http_sse_client_task_stream.cc, http_sse_client_task_startup.cc). */
module SseEnds {
  import opened Text
  import opened SseTask

  // ----- phase and ending -----

  /** A start-up step that fails a task that has not ended yet. */
  predicate FailsStart(setup: Setup, step: Step) {
    match step
    case Start(_) => setup == Broken || setup == Raw(false)
    case Acquired(c, hasStream) => c != Success || !hasStream
    case Written(c) => c != Success
    case HeaderRead(c, statusOk, typeOk, _) => c != Success || !statusOk || !typeOk
    case _ => false
  }

  /** The completion was an abort. */
  predicate Aborts(step: Step) {
    Completes(step) && step.c == Aborted
  }

  /** The ending a step calls for, when a cancellation was asked for before or not. */
  function EndingOf(setup: Setup, step: Step, cancelled: bool): Ending {
    if FailsStart(setup, step) then (if Aborts(step) || cancelled then Cancelled else Failure)
    else if !step.ChunkRead? then Running
    else if step.c == Success then (if step.finished then Eof else Running)
    else if Aborts(step) || cancelled then Cancelled
    else if step.c == EndOfStream then Eof
    else Failure
  }

  /** The first ending some step calls for. */
  function Verdict(setup: Setup, steps: seq<Step>): Ending {
    if steps == [] then Running
    else
      var front := steps[..|steps| - 1];
      if Verdict(setup, front) != Running then Verdict(setup, front)
      else EndingOf(setup, steps[|steps| - 1], Cancel in front)
  }

  predicate Starts(step: Step) {
    step.Start?
  }

  /** The response header was accepted. */
  predicate Opens(step: Step) {
    step.HeaderRead? && step.c == Success && step.statusOk && step.typeOk
  }

  ghost predicate AnyStart(steps: seq<Step>) {
    exists k :: 0 <= k < |steps| && Starts(steps[k])
  }

  ghost predicate AnyOpen(steps: seq<Step>) {
    exists k :: 0 <= k < |steps| && Opens(steps[k])
  }

  /** The phase the steps lead to. */
  ghost function PhaseOf(setup: Setup, steps: seq<Step>): Phase {
    if Verdict(setup, steps) != Running then Done
    else if AnyOpen(steps) then Streaming
    else if AnyStart(steps) then Starting
    else Idle
  }

  lemma {:induction false} SnocIn(steps: seq<Step>)
    requires steps != []
    ensures var front, step := steps[..|steps| - 1], steps[|steps| - 1];
            && (Cancel in steps <==> Cancel in front || step == Cancel)
            && (AnyStart(steps) <==> AnyStart(front) || Starts(step))
            && (AnyOpen(steps) <==> AnyOpen(front) || Opens(step))
  {
    hide Starts, Opens;
    var front, step := steps[..|steps| - 1], steps[|steps| - 1];
    assert steps == front + [step];
    if AnyStart(front) { var k :| 0 <= k < |front| && Starts(front[k]); assert steps[k] == front[k]; }
    if AnyOpen(front) { var k :| 0 <= k < |front| && Opens(front[k]); assert steps[k] == front[k]; }
  }

  ghost predicate Stands(t: Task, setup: Setup, steps: seq<Step>) {
    && t.setup == setup && t.ending == Verdict(setup, steps) && t.phase == PhaseOf(setup, steps)
    && (t.phase in {Starting, Streaming} ==> !FailsStart(setup, Start(true)))
    && (t.phase != Done ==> (t.cancelRequested <==> Cancel in steps))
  }

  /** What one step does to a task that has not ended. */
  ghost predicate Moves(t: Task, step: Step, t': Task) {
    && t'.setup == t.setup && t'.ending == EndingOf(t.setup, step, t.cancelRequested)
    && (t'.phase == Done <==> t'.ending != Running)
    && (t'.phase == Streaming <==> t'.ending == Running && (t.phase == Streaming || Opens(step)))
    && (t'.phase == Idle <==> t.phase == Idle && !Starts(step))
    && (t'.phase in {Starting, Streaming} ==> !FailsStart(t.setup, Start(true)))
    && (t'.phase != Done ==> (t'.cancelRequested <==> t.cancelRequested || step.Cancel?))
  }

  ghost predicate Midway(t: Task) {
    && Lifecycle(t) && t.phase != Done
    && (t.phase in {Starting, Streaming} ==> !FailsStart(t.setup, Start(true)))
  }

  lemma {:induction false} CallMoves(t: Task, step: Step)
    requires Midway(t) && !Completes(step)
    ensures Moves(t, step, Do(t, step))
  {
  }

  lemma {:induction false} StartupMoves(t: Task, step: Step)
    requires Midway(t) && Enabled(t, step) && Completes(step) && !step.ChunkRead?
    ensures Moves(t, step, Do(t, step))
  {
  }

  lemma {:induction false} ChunkMoves(t: Task, step: Step)
    requires Midway(t) && Enabled(t, step) && step.ChunkRead?
    ensures Moves(t, step, Do(t, step))
  {
  }

  lemma {:induction false} DoMoves(t: Task, step: Step)
    requires Midway(t) && Enabled(t, step)
    ensures Moves(t, step, Do(t, step))
  {
    hide Moves, Midway, Do;
    if !Completes(step) {
      CallMoves(t, step);
    } else if step.ChunkRead? {
      ChunkMoves(t, step);
    } else {
      StartupMoves(t, step);
    }
  }

  lemma {:induction false} EndedStays(t: Task, step: Step)
    requires Lifecycle(t) && t.phase == Done && Enabled(t, step)
    ensures var t' := Do(t, step); t'.setup == t.setup && t'.ending == t.ending && t'.phase == Done
  {
    hide FailStart, OnAcquired, OnWritten, OnHeaderRead, OnChunkRead;
  }

  lemma {:induction false} StandsStep(t: Task, setup: Setup, steps: seq<Step>)
    requires steps != [] && Lifecycle(t) && Stands(t, setup, steps[..|steps| - 1]) && Enabled(t, steps[|steps| - 1])
    ensures Stands(Do(t, steps[|steps| - 1]), setup, steps)
  {
    hide Do, EndingOf, AnyOpen, AnyStart, Starts, Opens, Enabled, FailsStart;
    SnocIn(steps);
    if t.phase == Done {
      EndedStays(t, steps[|steps| - 1]);
    } else {
      DoMoves(t, steps[|steps| - 1]);
    }
  }

  lemma {:induction false} RunStands(setup: Setup, steps: seq<Step>)
    requires Run(Fresh(setup), steps)
    ensures Stands(After(Fresh(setup), steps), setup, steps)
  {
    hide Do, Enabled, Stands, Lifecycle;
    if steps == [] {
      FreshStands(setup);
    } else {
      var front := steps[..|steps| - 1];
      RunStands(setup, front);
      FreshLifecycle(setup);
      LifecycleKept(Fresh(setup), front);
      StandsStep(After(Fresh(setup), front), setup, steps);
    }
  }

  lemma FreshStands(setup: Setup)
    ensures Stands(Fresh(setup), setup, [])
  {
  }

  /** In every run phase and ending are those the steps lead to: the stream is open from an accepted header to the first
      step that calls for an ending, which then never changes. */
  lemma {:induction false} EndingExact(setup: Setup, steps: seq<Step>)
    requires Run(Fresh(setup), steps)
    ensures var t := After(Fresh(setup), steps); t.ending == Verdict(setup, steps) && t.phase == PhaseOf(setup, steps)
  {
    hide After, Run;
    RunStands(setup, steps);
  }

  // ----- text -----

  function TextOf(step: Step): string {
    match step
    case HeaderRead(_, _, _, text) => text
    case ChunkRead(_, text, _) => text
    case _ => ""
  }

  function BodyOf(steps: seq<Step>): string {
    if steps == [] then "" else BodyOf(steps[..|steps| - 1]) + TextOf(steps[|steps| - 1])
  }

  /** How much of the body had been handed out after the last successful chunk read. */
  function DeliveredOf(steps: seq<Step>): nat {
    if steps == [] then 0
    else
      var step := steps[|steps| - 1];
      if step.ChunkRead? && step.c == Success then |BodyOf(steps)| else DeliveredOf(steps[..|steps| - 1])
  }

  /** A `Next` was accepted and not answered yet. */
  ghost function Outstanding(setup: Setup, steps: seq<Step>): bool {
    steps != [] &&
    var front := steps[..|steps| - 1];
    match steps[|steps| - 1]
    case Next(_) => Outstanding(setup, front) || PhaseOf(setup, front) == Streaming
    case ChunkRead(_, _, _) => false
    case _ => Outstanding(setup, front)
  }

  ghost predicate Delivers(t: Task, setup: Setup, steps: seq<Step>) {
    && t.body == BodyOf(steps) && t.emitted == DeliveredOf(steps) && t.emitted <= |t.body|
    && t.nextPending == Outstanding(setup, steps)
  }

  lemma {:induction false} QuietText(t: Task, step: Step)
    requires !step.ChunkRead?
    ensures var t' := Do(t, step);
            && t'.body == t.body + TextOf(step) && t'.emitted == t.emitted
            && t'.nextPending == (t.nextPending || (step.Next? && t.phase == Streaming))
  {
    assert t.body + "" == t.body;
  }

  lemma {:induction false} ReadText(t: Task, step: Step)
    requires step.ChunkRead? && t.emitted <= |t.body|
    ensures var t' := Do(t, step);
            && t'.body == t.body + step.text && !t'.nextPending
            && t'.emitted == if step.c == Success then |t'.body| else t.emitted
  {
  }

  lemma {:induction false} DeliversStep(t: Task, setup: Setup, steps: seq<Step>)
    requires steps != [] && Delivers(t, setup, steps[..|steps| - 1]) && t.phase == PhaseOf(setup, steps[..|steps| - 1])
    ensures Delivers(Do(t, steps[|steps| - 1]), setup, steps)
  {
    hide PhaseOf, Do;
    var step := steps[|steps| - 1];
    if step.ChunkRead? {
      ReadText(t, step);
    } else {
      QuietText(t, step);
    }
  }

  /** In every run the body is the text read, in order, and the successful chunk reads handed out all of it up to the
      last of them. */
  lemma {:induction false} DeliveredExact(setup: Setup, steps: seq<Step>)
    requires Run(Fresh(setup), steps)
    ensures Delivers(After(Fresh(setup), steps), setup, steps)
  {
    hide Do, Enabled, Delivers;
    if steps == [] {
      FreshDelivers(setup);
    } else {
      var front := steps[..|steps| - 1];
      DeliveredExact(setup, front);
      EndingExact(setup, front);
      DeliversStep(After(Fresh(setup), front), setup, steps);
    }
  }

  lemma FreshDelivers(setup: Setup)
    ensures Delivers(Fresh(setup), setup, [])
  {
  }

  // ----- answers -----

  /** A `Next` outside streaming is not permitted, a second one while one is outstanding is refused, and any other
      waits. */
  lemma {:induction false} NextAnswered(setup: Setup, steps: seq<Step>, callback: bool)
    requires Run(Fresh(setup), steps)
    ensures var t, t' := After(Fresh(setup), steps), After(Fresh(setup), steps + [Next(callback)]);
            var ask := if callback then Some(t.asks) else None;
            t'.answers == t.answers + (if PhaseOf(setup, steps) != Streaming then [Answer(ask, NotPermitted)]
                                       else if Outstanding(setup, steps) then [Answer(ask, InProgress)] else [])
  {
    hide Run, After, PhaseOf, Outstanding;
    RunSnoc(Fresh(setup), steps, Next(callback));
    EndingExact(setup, steps);
    DeliveredExact(setup, steps);
  }

  /** A chunk read answers the outstanding `Next`: with the text not handed out yet, as the last piece if the message is
      complete, or with the ending the steps call for. */
  lemma {:induction false} ChunkAnswered(setup: Setup, steps: seq<Step>, c: Completion, text: string, finished: bool)
    requires Run(Fresh(setup), steps + [ChunkRead(c, text, finished)])
    ensures DeliveredOf(steps) <= |BodyOf(steps) + text|
    ensures var step := ChunkRead(c, text, finished);
            var t, t' := After(Fresh(setup), steps), After(Fresh(setup), steps + [step]);
            var rest := (BodyOf(steps) + text)[DeliveredOf(steps)..];
            t'.answers == t.answers + [Answer(t.next, if c != Success then Stopped(Verdict(setup, steps + [step]))
                                                      else if finished then Last(rest) else Chunk(rest))]
  {
    hide Run, After, Verdict, Outstanding, BodyOf, DeliveredOf, PhaseOf, Do;
    var step := ChunkRead(c, text, finished);
    RunSnoc(Fresh(setup), steps, step);
    DeliveredExact(setup, steps);
    EndingExact(setup, steps + [step]);
    ReadAnswers(After(Fresh(setup), steps), step);
  }

  lemma {:induction false} ReadAnswers(t: Task, step: Step)
    requires step.ChunkRead? && t.emitted <= |t.body|
    ensures var t' := Do(t, step);
            var rest := (t.body + step.text)[t.emitted..];
            t'.answers == t.answers + [Answer(t.next, if step.c != Success then Stopped(t'.ending)
                                                      else if step.finished then Last(rest) else Chunk(rest))]
  {
  }
}
