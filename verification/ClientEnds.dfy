/** How every run of the HTTP client task ends and what it delivers, told from its steps alone
    (src/connection/client/http_client_task_flow.cc). */
module ClientEnds {
  import opened ClientRun

  // ----- the outcome -----

  /** The step ends a task that has not ended yet without success: a creation error at the start, no stream, an error
      of any operation; the end of the stream or of a partial message is no error while the body is read. */
  predicate EndsBadly(setup: Setup, step: Step) {
    match step
    case Start => setup == Broken || setup == Raw(false)
    case Cancel => false
    case Acquired(c, hasStream) => c != Ok || !hasStream
    case Written(c) => c != Ok
    case HeaderRead(c, _, _) => c != Ok
    case AllRead(c, _, _) => c == Aborted || c == OtherError
    case SomeRead(c, _, _, _) => c == Aborted || c == OtherError
  }

  /** The step completes the body. */
  predicate EndsWell(step: Step) {
    match step
    case AllRead(c, _, _) => c != Aborted && c != OtherError
    case SomeRead(c, _, finished, _) => c != Aborted && c != OtherError && finished
    case _ => false
  }

  /** The outcome the steps call for. A bad end is a cancellation if the operation was aborted or a cancellation was
      asked for before, and a failure otherwise. */
  function Verdict(setup: Setup, steps: seq<Step>): Outcome {
    if steps == [] then Open
    else
      var front, step := steps[..|steps| - 1], steps[|steps| - 1];
      if Verdict(setup, front) != Open then Verdict(setup, front)
      else if EndsBadly(setup, step) then (if Aborts(step) || Cancel in front then Cancelled else Failure)
      else if EndsWell(step) then Success
      else Open
  }

  /** The task after the steps stands where they say. */
  ghost predicate Stands(t: Task, setup: Setup, steps: seq<Step>) {
    && t.setup == setup && t.outcome == Verdict(setup, steps)
    && (t.phase == Done <==> t.outcome != Open)
    && (t.phase == Idle <==> Start !in steps)
    && (t.phase != Running ==> t.pending == NoOp)
    && (t.phase == Running ==> !EndsBadly(setup, Start))
    && (t.phase != Done ==> (t.cancelRequested <==> Cancel in steps))
  }

  lemma {:induction false} SnocIn(steps: seq<Step>, x: Step)
    requires steps != []
    ensures x in steps <==> x in steps[..|steps| - 1] || x == steps[|steps| - 1]
  {
    assert steps == steps[..|steps| - 1] + [steps[|steps| - 1]];
  }

  /** What one step does to a task that has not ended. */
  ghost predicate Moves(t: Task, step: Step, t': Task) {
    && t'.setup == t.setup
    && t'.outcome == (if EndsBadly(t.setup, step)
                      then (if Aborts(step) || t.cancelRequested then Cancelled else Failure)
                      else if EndsWell(step) then Success else Open)
    && (t'.phase == Done <==> t'.outcome != Open)
    && (t'.phase == Idle <==> t.phase == Idle && !step.Start?)
    && (t'.phase != Running ==> t'.pending == NoOp)
    && (t'.phase == Running ==> !EndsBadly(t.setup, Start))
    && (t'.phase != Done ==> (t'.cancelRequested <==> t.cancelRequested || step.Cancel?))
  }

  /** A task in the middle of a run. */
  ghost predicate Midway(t: Task) {
    && t.phase != Done && t.outcome == Open
    && (t.phase != Running ==> t.pending == NoOp) && (t.phase == Running ==> !EndsBadly(t.setup, Start))
  }

  lemma {:induction false} CallMoves(t: Task, step: Step)
    requires Midway(t) && (step.Start? || step.Cancel?)
    ensures Moves(t, step, Do(t, step))
  {
  }

  lemma {:induction false} StartupMoves(t: Task, step: Step)
    requires Midway(t) && Enabled(t, step) && (step.Acquired? || step.Written? || step.HeaderRead?)
    ensures Moves(t, step, Do(t, step))
  {
  }

  lemma {:induction false} BodyMoves(t: Task, step: Step)
    requires Midway(t) && Enabled(t, step) && (step.AllRead? || step.SomeRead?)
    ensures Moves(t, step, Do(t, step))
  {
  }

  lemma {:induction false} DoMoves(t: Task, step: Step)
    requires Midway(t) && Enabled(t, step)
    ensures Moves(t, step, Do(t, step))
  {
    hide Moves, Midway, Do;
    if step.Start? || step.Cancel? {
      CallMoves(t, step);
    } else if step.AllRead? || step.SomeRead? {
      BodyMoves(t, step);
    } else {
      StartupMoves(t, step);
    }
  }

  lemma {:induction false} EndedStays(t: Task, step: Step)
    requires t.phase == Done && t.pending == NoOp && Enabled(t, step)
    ensures Do(t, step) == t
  {
  }

  lemma {:induction false} StandsStep(t: Task, setup: Setup, steps: seq<Step>)
    requires steps != [] && Stands(t, setup, steps[..|steps| - 1]) && Enabled(t, steps[|steps| - 1])
    ensures Stands(Do(t, steps[|steps| - 1]), setup, steps)
  {
    hide Do, EndsBadly, EndsWell, Aborts;
    SnocIn(steps, Start);
    SnocIn(steps, Cancel);
    if t.phase == Done {
      EndedStays(t, steps[|steps| - 1]);
    } else {
      DoMoves(t, steps[|steps| - 1]);
    }
  }

  lemma {:induction false} RunStands(setup: Setup, hook: bool, steps: seq<Step>)
    requires Run(Fresh(setup, hook), steps)
    ensures Stands(After(Fresh(setup, hook), steps), setup, steps)
  {
    hide Do, Enabled, Stands;
    if steps == [] {
      FreshStands(setup, hook);
    } else {
      RunStands(setup, hook, steps[..|steps| - 1]);
      StandsStep(After(Fresh(setup, hook), steps[..|steps| - 1]), setup, steps);
    }
  }

  lemma FreshStands(setup: Setup, hook: bool)
    ensures Stands(Fresh(setup, hook), setup, [])
  {
  }

  /** In every run the outcome is the one the steps call for: open until a step ends the task, then fixed. */
  lemma {:induction false} OutcomeExact(setup: Setup, hook: bool, steps: seq<Step>)
    requires Run(Fresh(setup, hook), steps)
    ensures After(Fresh(setup, hook), steps).outcome == Verdict(setup, steps)
    ensures After(Fresh(setup, hook), steps).phase ==
            if Verdict(setup, steps) != Open then Done else if Start in steps then Running else Idle
  {
    hide After, Run;
    RunStands(setup, hook, steps);
  }

  // ----- the body and the chunks -----

  /** The response text a step brings. */
  function TextOf(step: Step): string {
    match step
    case HeaderRead(_, text, _) => text
    case AllRead(_, text, _) => text
    case SomeRead(_, text, _, _) => text
    case _ => ""
  }

  function BodyOf(steps: seq<Step>): string {
    if steps == [] then "" else BodyOf(steps[..|steps| - 1]) + TextOf(steps[|steps| - 1])
  }

  /** The non-empty texts of the partial reads that succeeded. */
  function Pieces(steps: seq<Step>): seq<string> {
    if steps == [] then []
    else
      var step := steps[|steps| - 1];
      Pieces(steps[..|steps| - 1])
      + (if step.SomeRead? && !EndsBadly(Broken, step) && step.text != "" then [step.text] else [])
  }

  /** The texts handed to the chunk callback. */
  function Chunks(es: seq<Emission>): seq<string> {
    if es == [] then []
    else Chunks(es[..|es| - 1]) + (if es[|es| - 1].Chunk? && es[|es| - 1].ok then [es[|es| - 1].text] else [])
  }

  ghost predicate Delivers(t: Task, steps: seq<Step>) {
    && t.body == BodyOf(steps) && Chunks(t.emitted) == Pieces(steps)
    && (t.pending == ReadingSome ==> t.lastEmitted == |t.body|)
    && (t.phase != Running ==> t.pending == NoOp)
  }

  lemma {:induction false} ChunksSnoc(es: seq<Emission>, e: Emission)
    ensures Chunks(es + [e]) == Chunks(es) + (if e.Chunk? && e.ok then [e.text] else [])
  {
    assert (es + [e])[..|es|] == es;
  }

  lemma {:induction false} ChunksQuiet(es: seq<Emission>, a: Emission, b: Emission)
    requires !(a.Chunk? && a.ok) && !(b.Chunk? && b.ok)
    ensures Chunks(es + [a]) == Chunks(es) && Chunks(es + [a, b]) == Chunks(es)
  {
    ChunksSnoc(es, a);
    ChunksSnoc(es + [a], b);
    assert es + [a, b] == es + [a] + [b];
  }

  /** Nothing new was reported as a chunk. */
  lemma {:induction false} FailQuiet(t: Task, stage: ErrorStage, c: Completion)
    ensures var t' := Fail(t, stage, c);
            t'.body == t.body && Chunks(t'.emitted) == Chunks(t.emitted) && t'.pending == t.pending
  {
    hide Chunks;
    var outcome := if t.cancelRequested || c == Aborted then Cancelled else Failure;
    ChunksQuiet(t.emitted, StageOf(stage), Finished(outcome, ""));
  }

  lemma {:induction false} SucceedQuiet(t: Task, keepAlive: bool)
    ensures var t' := Succeed(t, keepAlive);
            t'.body == t.body && Chunks(t'.emitted) == Chunks(t.emitted) && t'.pending == t.pending
  {
    hide Chunks;
    ChunksQuiet(t.emitted, Finished(Success, t.body), Finished(Success, t.body));
  }

  lemma {:induction false} EarlyDelivers(t: Task, step: Step)
    requires Enabled(t, step) && (step.Start? || step.Cancel? || step.Acquired? || step.Written?)
    requires t.phase != Running ==> t.pending == NoOp
    ensures var t' := Do(t, step);
            && t'.body == t.body && Chunks(t'.emitted) == Chunks(t.emitted) && (t'.phase != Running ==>
                  t'.pending == NoOp)
            && (t'.pending == ReadingSome ==> t' == t || t' == t.(cancelRequested := true))
  {
    hide Chunks, Fail;
    ChunksQuiet(t.emitted, Connected(true), Connected(true));
    FailQuiet(t.(phase := Running), Create, OtherError);
    FailQuiet(t.(pending := NoOp), Connect, OtherError);
    if step.Acquired? { FailQuiet(t.(pending := NoOp), Connect, step.c); }
    if step.Written? { FailQuiet(t.(pending := NoOp), WriteRequest, step.c); }
  }

  lemma {:induction false} HeaderDelivers(t: Task, step: Step)
    requires Enabled(t, step) && step.HeaderRead? && (t.phase != Running ==> t.pending == NoOp)
    ensures var t' := Do(t, step);
            && t'.body == t.body + step.text && Chunks(t'.emitted) == Chunks(t.emitted)
            && (t'.phase != Running ==> t'.pending == NoOp) && (t'.pending == ReadingSome ==>
                  t'.lastEmitted == |t'.body|)
  {
    hide Chunks, Fail;
    ChunksQuiet(t.emitted, Header(true), Header(true));
    FailQuiet(t.(pending := NoOp, body := t.body + step.text), ReadHeader, step.c);
  }

  lemma {:induction false} AllDelivers(t: Task, step: Step)
    requires Enabled(t, step) && step.AllRead?
    ensures var t' := Do(t, step);
            t'.body == t.body + step.text && Chunks(t'.emitted) == Chunks(t.emitted) && t'.pending == NoOp
  {
    hide Chunks, Fail, Succeed;
    var s := t.(pending := NoOp, body := t.body + step.text);
    FailQuiet(s, ReadBody, step.c);
    SucceedQuiet(s, step.keepAlive);
  }

  lemma {:induction false} SomeDelivers(t: Task, step: Step)
    requires Enabled(t, step) && step.SomeRead? && t.lastEmitted == |t.body| && (t.phase != Running ==>
              t.pending == NoOp)
    ensures var t' := Do(t, step);
            && t'.body == t.body + step.text
            && Chunks(t'.emitted) ==
               Chunks(t.emitted) + (if EndsBadly(Broken, step) || step.text == "" then [] else [step.text])
            && (t'.pending == ReadingSome ==> t'.lastEmitted == |t'.body|) && (t'.phase != Running ==>
                  t'.pending == NoOp)
  {
    hide Chunks, Fail, Succeed;
    var s := t.(pending := NoOp, body := t.body + step.text);
    FailQuiet(s, ReadBody, step.c);
    assert s.body[t.lastEmitted..] == step.text;
    ChunksSnoc(t.emitted, Chunk(true, step.text));
    var e := if |s.body| > s.lastEmitted
             then s.(emitted := s.emitted + [Chunk(true, s.body[s.lastEmitted..])], lastEmitted := |s.body|) else s;
    SucceedQuiet(e, step.keepAlive);
  }

  lemma {:induction false} DeliversStep(t: Task, steps: seq<Step>)
    requires steps != [] && Delivers(t, steps[..|steps| - 1]) && Enabled(t, steps[|steps| - 1])
    ensures Delivers(Do(t, steps[|steps| - 1]), steps)
  {
    hide Do, Chunks;
    var step := steps[|steps| - 1];
    assert t.body + "" == t.body && Pieces(steps[..|steps| - 1]) + [] == Pieces(steps[..|steps| - 1]);
    if step.HeaderRead? {
      HeaderDelivers(t, step);
    } else if step.AllRead? {
      AllDelivers(t, step);
    } else if step.SomeRead? {
      SomeDelivers(t, step);
    } else {
      EarlyDelivers(t, step);
    }
  }

  /** In every run the body is the text read, in order, and the chunk callback got exactly the non-empty pieces of the
      partial reads that succeeded, one call for each. */
  lemma {:induction false} DeliveredExact(setup: Setup, hook: bool, steps: seq<Step>)
    requires Run(Fresh(setup, hook), steps)
    ensures Delivers(After(Fresh(setup, hook), steps), steps)
  {
    hide Do, Enabled, Delivers;
    if steps == [] {
      FreshDelivers(setup, hook);
    } else {
      DeliveredExact(setup, hook, steps[..|steps| - 1]);
      DeliversStep(After(Fresh(setup, hook), steps[..|steps| - 1]), steps);
    }
  }

  lemma FreshDelivers(setup: Setup, hook: bool)
    ensures Delivers(Fresh(setup, hook), [])
  {
  }

  /** A run that ends well hands over the whole text read and gives the stream back, open exactly when the last read
      said that the connection may be kept. */
  lemma {:induction false} SuccessDelivers(setup: Setup, hook: bool, steps: seq<Step>, step: Step)
    requires Run(Fresh(setup, hook), steps + [step]) && EndsWell(step)
    ensures var t := After(Fresh(setup, hook), steps + [step]);
            && t.outcome == Success && t.emitted != []
            && t.emitted[|t.emitted| - 1] == Finished(Success, BodyOf(steps) + TextOf(step))
            && (hook ==> t.returned == [!step.keepAlive]) && (!hook ==> t.returned == [])
  {
    hide After, Run, Do, Verdict, Stands, Delivers, BodyOf;
    var s := After(Fresh(setup, hook), steps);
    RunSnoc(Fresh(setup, hook), steps, step);
    RunShape(setup, hook, steps);
    DeliveredExact(setup, hook, steps);
    BodyIs(s, steps);
    LastStep(s, step);
  }

  lemma BodyIs(t: Task, steps: seq<Step>)
    requires Delivers(t, steps)
    ensures t.body == BodyOf(steps)
  {
  }

  lemma {:induction false} LastStep(t: Task, step: Step)
    requires Enabled(t, step) && EndsWell(step) && t.phase == Running && t.returned == []
    ensures var t' := Do(t, step);
            && t'.outcome == Success && t'.emitted != []
            && t'.emitted[|t'.emitted| - 1] == Finished(Success, t.body + TextOf(step))
            && t'.returned == if t.hook then [!step.keepAlive] else []
  {
  }
}
