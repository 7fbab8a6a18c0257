/** The HTTP client task as an object: its handlers, in whatever order they come, make up a run of `ClientRun`. */
module ClientTask {
  import opened ClientRun

  /** What holds of the task after a run: the shape of its emissions, the chunks that make the body, the stream
      given back exactly when done with a hook, and an outcome that agrees with the requests made. */
  ghost predicate Promised(t: Task, h: seq<Step>) {
    && Shaped(t.emitted) && Completed(t)
    && (t.pending != NoOp <==> t.phase == Running)
    && (t.phase == Done <==> t.emitted != [] && t.emitted[|t.emitted| - 1].Finished?)
    && (t.phase == Done ==> (t.outcome == Success <==> forall i :: 0 <= i < |t.emitted| ==> !Broke(t.emitted[i])))
    && |t.returned| == (if t.phase == Done && t.hook then 1 else 0)
    && (t.cancelRequested ==> t.outcome != Failure)
    && (!t.cancelRequested && !AnyAborted(h) ==> t.outcome != Cancelled)
  }

  lemma {:induction false} RunPromises(setup: Setup, hook: bool, h: seq<Step>)
    requires Run(Fresh(setup, hook), h)
    ensures Promised(After(Fresh(setup, hook), h), h)
  {
    hide Run, After, Shaped, Completed, AnyAborted;
    RunShape(setup, hook, h);
    ChunksMakeTheBody(setup, hook, h);
    CancellationReported(setup, hook, h);
  }

  class HttpClientTask {
    const setup: Setup
    /** Whether a hook waits for the stream at the end. */
    const hook: bool
    var phase: Phase
    var outcome: Outcome
    var cancelRequested: bool
    var lastEmitted: nat
    var body: string
    /** The operation in flight, the mode chosen at header time, and the log of effects. */
    var pending: Pending
    var chunked: bool
    var headerLength: nat
    var emitted: seq<Emission>
    var returned: seq<bool>
    /** The handlers run so far. */
    ghost var history: seq<Step>

    ghost function Value(): Task
      reads this
    {
      Task(setup, hook, phase, outcome, pending, cancelRequested, body, chunked, headerLength, lastEmitted, emitted, returned)
    }

    ghost predicate Valid()
      reads this
    {
      Run(Fresh(setup, hook), history) && Value() == After(Fresh(setup, hook), history)
    }

    /** Take a step that is enabled: the history grows, and the handler has to do the same to the fields. */
    ghost method Record(step: Step)
      requires Valid() && Enabled(Value(), step)
      modifies this`history
      ensures history == old(history) + [step] && Run(Fresh(setup, hook), history)
      ensures After(Fresh(setup, hook), history) == Do(Value(), step) && Promised(Do(Value(), step), history)
    {
      hide After, Run, Do, Enabled, Promised;
      RunSnoc(Fresh(setup, hook), history, step);
      history := history + [step];
      RunPromises(setup, hook, history);
    }

    constructor (setup: Setup, hook: bool)
      ensures Valid() && history == [] && this.setup == setup && this.hook == hook
    {
      this.setup, this.hook := setup, hook;
      phase, outcome, pending, cancelRequested, body := Idle, Open, NoOp, false, "";
      chunked, headerLength, lastEmitted, emitted, returned, history := false, 0, 0, [], [], [];
    }

    method Fail(stage: ErrorStage, c: Completion)
      modifies this
      ensures Value() == ClientRun.Fail(old(Value()), stage, c) && history == old(history)
    {
      if phase == Done {
        return;
      }
      outcome := if cancelRequested || c == Aborted then Cancelled else Failure;
      emitted := emitted + [StageOf(stage), Finished(outcome, "")];
      phase := Done;
      if hook {
        returned := returned + [true];
      }
    }

    method Succeed(keepAlive: bool)
      modifies this
      ensures Value() == ClientRun.Succeed(old(Value()), keepAlive) && history == old(history)
    {
      if phase == Done {
        return;
      }
      outcome := Success;
      emitted := emitted + [Finished(Success, body)];
      phase := Done;
      if hook {
        returned := returned + [!keepAlive];
      }
    }

    method Start()
      requires Valid()
      modifies this
      ensures Valid() && Promised(Value(), history) && history == old(history) + [Step.Start]
    {
      hide Run, After, Promised, StageOf, GiveBack, OnCancel, OnAcquired, OnWritten, OnHeaderRead, OnAllRead,
           OnSomeRead;
      Record(Step.Start);
      if phase != Idle {
        return;
      }
      phase := Running;
      match setup {
        case Broken => Fail(Create, OtherError);
        case Assembled => pending := Acquiring;
        case Raw(usable) =>
          if usable {
            emitted, pending := emitted + [Connected(true)], Writing;
          } else {
            Fail(Create, OtherError);
          }
      }
    }

    method Cancel()
      requires Valid()
      modifies this
      ensures Valid() && Promised(Value(), history) && history == old(history) + [Step.Cancel]
    {
      hide Run, After, Promised, StageOf, GiveBack, OnStart, OnAcquired, OnWritten, OnHeaderRead, OnAllRead, OnSomeRead;
      Record(Step.Cancel);
      if phase != Done {
        cancelRequested := true;
      }
    }

    method AcquireComplete(c: Completion, hasStream: bool)
      requires Valid() && pending == Acquiring
      modifies this
      ensures Valid() && Promised(Value(), history) && history == old(history) + [Acquired(c, hasStream)]
    {
      hide Run, After, Promised, StageOf, GiveBack, OnStart, OnCancel, OnWritten, OnHeaderRead, OnAllRead, OnSomeRead;
      Record(Acquired(c, hasStream));
      pending := NoOp;
      if c != Ok {
        Fail(Connect, c);
      } else if !hasStream {
        Fail(Connect, OtherError);
      } else {
        emitted, pending := emitted + [Connected(true)], Writing;
      }
    }

    method WriteComplete(c: Completion)
      requires Valid() && pending == Writing
      modifies this
      ensures Valid() && Promised(Value(), history) && history == old(history) + [Written(c)]
    {
      hide Run, After, Promised, StageOf, GiveBack, OnStart, OnCancel, OnAcquired, OnHeaderRead, OnAllRead, OnSomeRead;
      Record(Written(c));
      pending := NoOp;
      if c != Ok {
        Fail(WriteRequest, c);
      } else {
        pending := ReadingHeader;
      }
    }

    /** The header is complete; `hasChunkCallback` decides how the body is read. */
    method HeaderComplete(c: Completion, text: string, hasChunkCallback: bool)
      requires Valid() && pending == ReadingHeader
      modifies this
      ensures Valid() && Promised(Value(), history) && history == old(history) + [HeaderRead(c, text, hasChunkCallback)]
    {
      hide Run, After, Promised, StageOf, GiveBack, OnStart, OnCancel, OnAcquired, OnWritten, OnAllRead, OnSomeRead;
      Record(HeaderRead(c, text, hasChunkCallback));
      pending, body := NoOp, body + text;
      if c != Ok {
        Fail(ReadHeader, c);
        return;
      }
      emitted, headerLength, chunked := emitted + [Header(true)], |body|, hasChunkCallback;
      if hasChunkCallback {
        lastEmitted, pending := |body|, ReadingSome;
      } else {
        pending := ReadingAll;
      }
    }

    method BodyComplete(c: Completion, text: string, keepAlive: bool)
      requires Valid() && pending == ReadingAll
      modifies this
      ensures Valid() && Promised(Value(), history) && history == old(history) + [AllRead(c, text, keepAlive)]
    {
      hide Run, After, Promised, StageOf, GiveBack, OnStart, OnCancel, OnAcquired, OnWritten, OnHeaderRead, OnSomeRead;
      Record(AllRead(c, text, keepAlive));
      pending, body := NoOp, body + text;
      if BodyError(c) {
        Fail(ReadBody, c);
      } else {
        Succeed(keepAlive);
      }
    }

    /** Report the new suffix of the body; finish, or read on. */
    method ChunkComplete(c: Completion, text: string, finished: bool, keepAlive: bool)
      requires Valid() && pending == ReadingSome
      modifies this
      ensures Valid() && Promised(Value(), history) && history == old(history) + [SomeRead(c, text, finished, keepAlive)]
    {
      hide Run, After, Promised, StageOf, GiveBack, OnStart, OnCancel, OnAcquired, OnWritten, OnHeaderRead, OnAllRead;
      Record(SomeRead(c, text, finished, keepAlive));
      pending, body := NoOp, body + text;
      if BodyError(c) {
        Fail(ReadBody, c);
        return;
      }
      if |body| > lastEmitted {
        emitted, lastEmitted := emitted + [Chunk(true, body[lastEmitted..])], |body|;
      }
      if finished {
        Succeed(keepAlive);
      } else {
        pending := ReadingSome;
      }
    }
  }
}
