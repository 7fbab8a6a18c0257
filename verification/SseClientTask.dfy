/** The SSE client task as an object: its handlers, in whatever order they come, make up a run of `SseTask`. */
module SseClientTask {
  import opened Text
  import opened SseParser
  import opened SseTask
  import opened SseStart
  import opened SseLoss

  /** What holds of the task after a run: the pull protocol, what the callbacks heard and the events in it,
      at most one answered `Start`, and an ending that agrees with the requests made. */
  ghost predicate Promised(t: Task, h: seq<Step>) {
    && Inv(t)
    && (Concat(Heard(t.answers)) == t.body[..t.emitted] <==> !Lost(t.answers))
    && (!Lost(t.answers) ==> FedAll(State("", START), Heard(t.answers)) == Fed(State("", START), t.body[..t.emitted]))
    && (AlwaysListening(h) ==> !Lost(t.answers))
    && |t.starts| <= 1 && (t.starts != [] ==> !Undecided(t))
    && (t.cancelRequested ==> t.ending != Failure)
    && (!t.cancelRequested && !AnyAborted(h) ==> t.ending != Cancelled)
  }

  lemma {:induction false} RunPromises(setup: Setup, h: seq<Step>)
    requires Run(Fresh(setup), h)
    ensures Promised(After(Fresh(setup), h), h)
  {
    hide Run, After, Inv, Lost, Heard, AlwaysListening, AnyAborted, FedAll, Fed, Decides;
    PullProtocol(setup, h);
    InvBounds(After(Fresh(setup), h));
    if !Lost(After(Fresh(setup), h).answers) { HeardEvents(setup, h); }
    if AlwaysListening(h) { ListenersLoseNothing(setup, h); }
    StartStateKept(setup, h);
    CancellationReported(setup, h);
  }

  class HttpSseClientTask {
    const setup: Setup
    var phase: Phase
    var ending: Ending
    var cancelRequested: bool
    var nextReadPending: bool
    var startCallback: Option<nat>
    var nextCallback: Option<nat>
    var lastEmitted: nat
    var body: string
    /** The operation in flight, and the log of calls and replies. */
    var pending: Pending
    var asks: nat
    var answers: seq<Answer>
    var calls: nat
    var starts: seq<StartAnswer>
    /** The handlers run so far. */
    ghost var history: seq<Step>

    ghost function Value(): Task
      reads this
    {
      Task(setup, phase, ending, pending, cancelRequested, startCallback, nextReadPending, nextCallback,
           body, lastEmitted, asks, answers, calls, starts)
    }

    ghost predicate Valid()
      reads this
    {
      Run(Fresh(setup), history) && Value() == After(Fresh(setup), history)
    }

    constructor (setup: Setup)
      ensures Valid() && history == [] && this.setup == setup
    {
      this.setup := setup;
      phase, ending, pending, cancelRequested, startCallback := Idle, Running, NoOp, false, None;
      nextReadPending, nextCallback, body, lastEmitted, asks, answers := false, None, "", 0, 0, [];
      calls, starts, history := 0, [], [];
    }

    /** Take a step that is enabled: the history grows, and the handler has to do the same to the fields. */
    ghost method Record(step: Step)
      requires Valid() && Enabled(Value(), step)
      modifies this`history
      ensures history == old(history) + [step] && Run(Fresh(setup), history)
      ensures After(Fresh(setup), history) == Do(Value(), step) && Promised(Do(Value(), step), history)
    {
      hide After, Run, Do, Enabled, Promised;
      RunSnoc(Fresh(setup), history, step);
      history := history + [step];
      RunPromises(setup, history);
    }

    method FailStart(c: Completion)
      modifies this
      ensures Value() == SseTask.FailStart(old(Value()), c) && history == old(history)
    {
      if phase == Done {
        return;
      }
      ending := if cancelRequested || c == Aborted then Cancelled else Failure;
      phase := Done;
      if startCallback.Some? {
        starts := starts + [StartAnswer(startCallback.value, false)];
      }
      startCallback := None;
    }

    method Start(callback: bool)
      requires Valid()
      modifies this
      ensures Valid() && Promised(Value(), history) && history == old(history) + [Step.Start(callback)]
    {
      hide Run, After, Promised, SseTask.FailStart, OnNext, OnCancel, OnAcquired, OnWritten, OnHeaderRead, OnChunkRead;
      Record(Step.Start(callback));
      startCallback := if callback then Some(calls) else None;
      calls := if callback then calls + 1 else calls;
      if phase != Idle {
        return;
      }
      phase := Starting;
      match setup {
        case Broken => FailStart(OtherError);
        case Raw(usable) =>
          if usable {
            pending := Writing;
          } else {
            FailStart(OtherError);
          }
        case Assembled => pending := Acquiring;
      }
    }

    /** Ask for the next chunk: refused unless streaming with no other `Next` outstanding. */
    method Next(callback: bool)
      requires Valid()
      modifies this
      ensures Valid() && Promised(Value(), history) && history == old(history) + [Step.Next(callback)]
    {
      hide Run, After, Promised, SseTask.FailStart, OnStart, OnCancel, OnAcquired, OnWritten, OnHeaderRead, OnChunkRead;
      Record(Step.Next(callback));
      var ask := if callback then Some(asks) else None;
      asks := if callback then asks + 1 else asks;
      if phase != Streaming {
        answers := answers + [Answer(ask, NotPermitted)];
        return;
      }
      if nextReadPending {
        answers := answers + [Answer(ask, InProgress)];
        return;
      }
      nextReadPending, nextCallback, pending := true, ask, ReadingChunk;
    }

    method Cancel()
      requires Valid()
      modifies this
      ensures Valid() && Promised(Value(), history) && history == old(history) + [Step.Cancel]
    {
      hide Run, After, Promised, SseTask.FailStart, OnStart, OnNext, OnAcquired, OnWritten, OnHeaderRead, OnChunkRead;
      Record(Step.Cancel);
      if phase != Done {
        cancelRequested := true;
      }
    }

    method AcquireComplete(c: Completion, hasStream: bool)
      requires Valid() && pending == Acquiring
      modifies this
      ensures Valid() && Promised(Value(), history) && history == old(history) + [Acquired(c, hasStream)]
    {
      hide Run, After, Promised, SseTask.FailStart, OnStart, OnNext, OnCancel, OnWritten, OnHeaderRead, OnChunkRead;
      Record(Acquired(c, hasStream));
      pending := NoOp;
      if c != Success {
        FailStart(c);
      } else if !hasStream {
        FailStart(OtherError);
      } else {
        pending := Writing;
      }
    }

    method WriteComplete(c: Completion)
      requires Valid() && pending == Writing
      modifies this
      ensures Valid() && Promised(Value(), history) && history == old(history) + [Written(c)]
    {
      hide Run, After, Promised, SseTask.FailStart, OnStart, OnNext, OnCancel, OnAcquired, OnHeaderRead, OnChunkRead;
      Record(Written(c));
      pending := NoOp;
      if c != Success {
        FailStart(c);
      } else {
        pending := ReadingHeader;
      }
    }

    /** The stream opens on a 200 response of type text/event-stream. */
    method HeaderComplete(c: Completion, statusOk: bool, typeOk: bool, text: string)
      requires Valid() && pending == ReadingHeader
      modifies this
      ensures Valid() && Promised(Value(), history) && history == old(history) + [HeaderRead(c, statusOk, typeOk, text)]
    {
      hide Run, After, Promised, SseTask.FailStart, OnStart, OnNext, OnCancel, OnAcquired, OnWritten, OnChunkRead;
      Record(HeaderRead(c, statusOk, typeOk, text));
      pending, body := NoOp, body + text;
      if c != Success {
        FailStart(c);
      } else if !statusOk || !typeOk {
        FailStart(OtherError);
      } else {
        phase := Streaming;
        if startCallback.Some? {
          starts := starts + [StartAnswer(startCallback.value, true)];
        }
        startCallback := None;
      }
    }

    method AnswerPending(reply: Reply)
      modifies this
      ensures Value() == AnswerNext(old(Value()), reply) && history == old(history)
    {
      answers := answers + [Answer(nextCallback, reply)];
      nextReadPending, nextCallback := false, None;
    }

    /** Hand out the newly read suffix of the body, or the reason the stream ended. */
    method ChunkComplete(c: Completion, text: string, finished: bool)
      requires Valid() && pending == ReadingChunk
      modifies this
      ensures Valid() && Promised(Value(), history) && history == old(history) + [ChunkRead(c, text, finished)]
    {
      hide Run, After, Promised, AnswerNext, OnStart, OnNext, OnCancel, OnAcquired, OnWritten, OnHeaderRead;
      EmittedWithin(setup, history);
      Record(ChunkRead(c, text, finished));
      pending, body := NoOp, body + text;
      if c != Success {
        ending := if cancelRequested || c == Aborted then Cancelled else if c == EndOfStream then Eof else Failure;
        phase := Done;
        AnswerPending(Stopped(ending));
        return;
      }
      var chunk := "";
      if |body| > lastEmitted {
        chunk := body[lastEmitted..];
        lastEmitted := |body|;
      } else {
        assert body[lastEmitted..] == "";
      }
      if finished {
        ending, phase := Eof, Done;
        AnswerPending(Last(chunk));
        return;
      }
      AnswerPending(Chunk(chunk));
    }
  }

  lemma {:induction false} EmittedWithin(setup: Setup, h: seq<Step>)
    requires Run(Fresh(setup), h)
    ensures After(Fresh(setup), h).emitted <= |After(Fresh(setup), h).body|
  {
    hide Run, After, Inv;
    PullProtocol(setup, h);
    InvBounds(After(Fresh(setup), h));
  }
}
