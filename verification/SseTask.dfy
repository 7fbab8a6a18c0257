/** The pull protocol of the SSE client task: every handler runs on one strand, so a run is a sequence
    of handler steps (src/connection/client/http_sse_client_task_stream.cc,
    http_sse_client_task_startup.cc). */
module SseTask {
  import opened Text
  import opened SseParser

  datatype Phase = Idle | Starting | Streaming | Done

  datatype Ending = Running | Eof | Failure | Cancelled

  /** The asynchronous operation in flight. */
  datatype Pending = NoOp | Acquiring | Writing | ReadingHeader | ReadingChunk

  datatype Reply =
    | NotPermitted
    | InProgress
    | Chunk(text: string)
    | Last(text: string)
    | Stopped(ending: Ending)

  /** An answered `Next`: its number, unless its callback was empty, and the reply. */
  datatype Answer = Answer(ask: Option<nat>, reply: Reply)

  /** How the task was created: with a creation error, in raw mode with a usable stream or not, or
      with an assembler. */
  datatype Setup = Broken | Raw(usable: bool) | Assembled

  /** An answered `Start`: its number and whether the stream was opened. */
  datatype StartAnswer = StartAnswer(call: nat, ok: bool)

  /** The task. `calls` and `asks` number the `Start` and `Next` calls with a callback; `start` and `next`
      are the stored callbacks; `starts` and `answers` are the callbacks run so far; `body` is all the
      response body parsed so far. */
  datatype Task = Task(
    setup: Setup,
    phase: Phase,
    ending: Ending,
    pending: Pending,
    cancelRequested: bool,
    start: Option<nat>,
    nextPending: bool,
    next: Option<nat>,
    body: string,
    emitted: nat,
    asks: nat,
    answers: seq<Answer>,
    calls: nat,
    starts: seq<StartAnswer>)

  function Fresh(setup: Setup): Task {
    Task(setup, Idle, Running, NoOp, false, None, false, None, "", 0, 0, [], 0, [])
  }

  /** How a read completed. */
  datatype Completion = Success | Aborted | EndOfStream | OtherError

  datatype Step =
    | Start(callback: bool)
    | Next(callback: bool)
    | Cancel
    | Acquired(c: Completion, hasStream: bool)
    | Written(c: Completion)
    | HeaderRead(c: Completion, statusOk: bool, typeOk: bool, text: string)
    | ChunkRead(c: Completion, text: string, finished: bool)

  // ----- handlers -----

  /** The stored start callback is run, if there is one. */
  function StartReply(start: Option<nat>, ok: bool): seq<StartAnswer> {
    if start.Some? then [StartAnswer(start.value, ok)] else []
  }

  /** Fail the start: answer the start callback and finish. */
  function FailStart(t: Task, c: Completion): Task {
    if t.phase == Done then t
    else
      t.(phase := Done, ending := if t.cancelRequested || c == Aborted then Cancelled else Failure,
         starts := t.starts + StartReply(t.start, false), start := None)
  }

  /** Number and store the callback of a `Start` in the place of any other. */
  function StoreStart(t: Task, callback: bool): Task {
    if callback then t.(start := Some(t.calls), calls := t.calls + 1) else t.(start := None)
  }

  /** A second `Start` only replaces the start callback. */
  function OnStart(t: Task, callback: bool): Task {
    var t' := StoreStart(t, callback);
    if t.phase != Idle then t'
    else
      var s := t'.(phase := Starting);
      match t.setup
      case Broken => FailStart(s, OtherError)
      case Raw(usable) => if usable then s.(pending := Writing) else FailStart(s, OtherError)
      case Assembled => s.(pending := Acquiring)
  }

  function OnNext(t: Task, callback: bool): Task {
    var ask := if callback then Some(t.asks) else None;
    var t' := t.(asks := if callback then t.asks + 1 else t.asks);
    if t.phase != Streaming then t'.(answers := t.answers + [Answer(ask, NotPermitted)])
    else if t.nextPending then t'.(answers := t.answers + [Answer(ask, InProgress)])
    else t'.(nextPending := true, next := ask, pending := ReadingChunk)
  }

  function OnCancel(t: Task): Task {
    if t.phase == Done then t else t.(cancelRequested := true)
  }

  function OnAcquired(t: Task, c: Completion, hasStream: bool): Task {
    var t' := t.(pending := NoOp);
    if c != Success then FailStart(t', c)
    else if !hasStream then FailStart(t', OtherError)
    else t'.(pending := Writing)
  }

  function OnWritten(t: Task, c: Completion): Task {
    var t' := t.(pending := NoOp);
    if c != Success then FailStart(t', c) else t'.(pending := ReadingHeader)
  }

  function OnHeaderRead(t: Task, c: Completion, statusOk: bool, typeOk: bool, text: string): Task {
    var t' := t.(pending := NoOp, body := t.body + text);
    if c != Success then FailStart(t', c)
    else if !statusOk || !typeOk then FailStart(t', OtherError)
    else t'.(phase := Streaming, starts := t.starts + StartReply(t.start, true), start := None)
  }

  /** Answer the outstanding `Next`. */
  function AnswerNext(t: Task, reply: Reply): Task {
    t.(nextPending := false, next := None, answers := t.answers + [Answer(t.next, reply)])
  }

  function OnChunkRead(t: Task, c: Completion, text: string, finished: bool): Task {
    var t' := t.(pending := NoOp, body := t.body + text);
    if c != Success then
      var ending :=
        if t.cancelRequested || c == Aborted then Cancelled
        else if c == EndOfStream then Eof else Failure;
      AnswerNext(t'.(phase := Done, ending := ending), Stopped(ending))
    else
      var chunk := t'.body[if t'.emitted <= |t'.body| then t'.emitted else |t'.body|..];
      var t'' := t'.(emitted := if |t'.body| > t'.emitted then |t'.body| else t'.emitted);
      if finished then AnswerNext(t''.(phase := Done, ending := Eof), Last(chunk))
      else AnswerNext(t'', Chunk(chunk))
  }

  function Do(t: Task, step: Step): Task {
    match step
    case Start(cb) => OnStart(t, cb)
    case Next(cb) => OnNext(t, cb)
    case Cancel => OnCancel(t)
    case Acquired(c, s) => OnAcquired(t, c, s)
    case Written(c) => OnWritten(t, c)
    case HeaderRead(c, s, ty, text) => OnHeaderRead(t, c, s, ty, text)
    case ChunkRead(c, text, finished) => OnChunkRead(t, c, text, finished)
  }

  /** A completion needs its operation to be in flight; user calls are always possible. */
  predicate Enabled(t: Task, step: Step) {
    match step
    case Start(_) => true
    case Next(_) => true
    case Cancel => true
    case Acquired(_, _) => t.pending == Acquiring
    case Written(_) => t.pending == Writing
    case HeaderRead(_, _, _, _) => t.pending == ReadingHeader
    case ChunkRead(_, _, _) => t.pending == ReadingChunk
  }

  function After(t: Task, steps: seq<Step>): Task {
    if steps == [] then t else Do(After(t, steps[..|steps| - 1]), steps[|steps| - 1])
  }

  /** Every run of a task: handler steps, each enabled in its turn. */
  ghost predicate Run(t: Task, steps: seq<Step>) {
    steps == [] || (Run(t, steps[..|steps| - 1]) && Enabled(After(t, steps[..|steps| - 1]), steps[|steps| - 1]))
  }

  lemma {:induction false} RunSnoc(t: Task, steps: seq<Step>, step: Step)
    ensures After(t, steps + [step]) == Do(After(t, steps), step)
    ensures Run(t, steps + [step]) <==> Run(t, steps) && Enabled(After(t, steps), step)
  {
    hide Do, Enabled;
    assert (steps + [step])[..|steps|] == steps;
  }

  // ----- what every run keeps -----

  /** The text of a reply, if it carries a chunk. */
  function ChunkOf(reply: Reply): seq<string> {
    match reply
    case Chunk(text) => [text]
    case Last(text) => [text]
    case _ => []
  }

  /** The text taken off the body, answer by answer, whether or not a callback was there to hear it. */
  function Taken(answers: seq<Answer>): seq<string> {
    if answers == [] then []
    else Taken(answers[..|answers| - 1]) + ChunkOf(answers[|answers| - 1].reply)
  }

  /** The text that reached a callback. */
  function Heard(answers: seq<Answer>): seq<string> {
    if answers == [] then []
    else
      var a := answers[|answers| - 1];
      Heard(answers[..|answers| - 1]) + (if a.ask.Some? then ChunkOf(a.reply) else [])
  }

  /** Some text answered an empty callback. */
  predicate LostAt(a: Answer) {
    a.ask.None? && ChunkOf(a.reply) != [] && ChunkOf(a.reply) != [""]
  }

  ghost predicate Lost(answers: seq<Answer>) {
    exists i :: 0 <= i < |answers| && LostAt(answers[i])
  }

  /** The numbers of the answered `Next` calls. */
  function Answered(answers: seq<Answer>): multiset<nat> {
    if answers == [] then multiset{}
    else
      var a := answers[|answers| - 1];
      Answered(answers[..|answers| - 1]) + (if a.ask.Some? then multiset{a.ask.value} else multiset{})
  }

  /** The numbers 0 up to n, once each. */
  function UpTo(n: nat): multiset<nat> {
    if n == 0 then multiset{} else UpTo(n - 1) + multiset{n - 1}
  }

  ghost predicate Lifecycle(t: Task) {
    && (t.phase == Starting <==> t.pending in {Acquiring, Writing, ReadingHeader})
    && (t.nextPending <==> t.pending == ReadingChunk)
    && (t.nextPending ==> t.phase == Streaming)
    && (t.next.Some? ==> t.nextPending)
    && (t.phase == Done <==> t.ending != Running)
  }

  /** Every `Next` is answered exactly once or is the one outstanding. */
  ghost predicate Accounted(t: Task) {
    Answered(t.answers) + (if t.next.Some? then multiset{t.next.value} else multiset{}) == UpTo(t.asks)
  }

  /** The chunks taken off the body are the body up to the emitted length. */
  ghost predicate Faithful(t: Task) {
    t.emitted <= |t.body| && Concat(Taken(t.answers)) == t.body[..t.emitted]
  }

  lemma {:induction false} ConcatSnoc(chunks: seq<string>, c: string)
    ensures Concat(chunks + [c]) == Concat(chunks) + c
  {
    if chunks == [] {
      assert (chunks + [c])[1..] == [];
    } else {
      assert (chunks + [c])[1..] == chunks[1..] + [c];
      ConcatSnoc(chunks[1..], c);
    }
  }

  lemma {:induction false} AnswerSnoc(answers: seq<Answer>, a: Answer)
    ensures Taken(answers + [a]) == Taken(answers) + ChunkOf(a.reply)
    ensures Heard(answers + [a]) == Heard(answers) + (if a.ask.Some? then ChunkOf(a.reply) else [])
    ensures Answered(answers + [a]) == Answered(answers) + (if a.ask.Some? then multiset{a.ask.value} else multiset{})
  {
  }

  /** A failed start leaves a finished task with nothing in flight. */
  lemma FailStartLifecycle(t: Task, c: Completion)
    requires t.phase == Starting && t.pending == NoOp && !t.nextPending && t.next == None && t.ending == Running
    ensures Lifecycle(FailStart(t, c))
  {
  }

  lemma {:induction false} StartLifecycle(t: Task, callback: bool)
    requires Lifecycle(t)
    ensures Lifecycle(OnStart(t, callback))
  {
    hide FailStart;
    if t.phase == Idle {
      FailStartLifecycle(StoreStart(t, callback).(phase := Starting), OtherError);
    }
  }

  lemma {:induction false} StartupLifecycle(t: Task, step: Step)
    requires Lifecycle(t) && Enabled(t, step) && (step.Acquired? || step.Written? || step.HeaderRead?)
    ensures Lifecycle(Do(t, step))
  {
    hide FailStart;
    var t' := t.(pending := NoOp, body := if step.HeaderRead? then t.body + step.text else t.body);
    FailStartLifecycle(t', step.c);
    FailStartLifecycle(t', OtherError);
  }

  lemma {:induction false} CallLifecycle(t: Task, step: Step)
    requires Lifecycle(t) && Enabled(t, step) && (step.Next? || step.Cancel?)
    ensures Lifecycle(Do(t, step))
  {
  }

  lemma {:induction false} DoLifecycle(t: Task, step: Step)
    requires Lifecycle(t) && Enabled(t, step)
    ensures Lifecycle(Do(t, step))
  {
    hide OnStart, OnNext, OnCancel, OnAcquired, OnWritten, OnHeaderRead;
    match step
    case Start(callback) => StartLifecycle(t, callback);
    case Next(_) => CallLifecycle(t, step);
    case Cancel => CallLifecycle(t, step);
    case ChunkRead(_, _, _) =>
    case _ => StartupLifecycle(t, step);
  }

  /** Nothing asked, answered or handed out between the two states. */
  ghost predicate Quiet(t: Task, t': Task) {
    t'.answers == t.answers && t'.asks == t.asks && t'.next == t.next && t'.emitted == t.emitted && t.body <= t'.body
  }

  lemma FailStartQuiet(t: Task, c: Completion)
    ensures Quiet(t, FailStart(t, c))
  {
  }

  /** Startup and cancellation give no answers. */
  lemma {:induction false} QuietSteps(t: Task, step: Step)
    requires !step.Next? && !step.ChunkRead?
    ensures Quiet(t, Do(t, step))
  {
    hide FailStart;
    if step.Start? {
      FailStartQuiet(StoreStart(t, step.callback).(phase := Starting), OtherError);
    } else if !step.Cancel? {
      var t' := t.(pending := NoOp, body := if step.HeaderRead? then t.body + step.text else t.body);
      FailStartQuiet(t', step.c);
      FailStartQuiet(t', OtherError);
    }
  }

  lemma {:induction false} QuietPending(t: Task, step: Step)
    requires !step.Next? && !step.ChunkRead?
    ensures Do(t, step).nextPending == t.nextPending
  {
  }

  lemma {:induction false} NextAccounted(t: Task, callback: bool)
    requires Lifecycle(t) && Accounted(t)
    ensures Accounted(OnNext(t, callback))
  {
    var t' := OnNext(t, callback);
    if |t'.answers| > |t.answers| {
      AnswerSnoc(t.answers, t'.answers[|t.answers|]);
    }
  }

  lemma {:induction false} ChunkAnswer(t: Task, c: Completion, text: string, finished: bool)
    ensures var t' := OnChunkRead(t, c, text, finished);
            && |t'.answers| == |t.answers| + 1 && t'.answers == t.answers + [Answer(t.next, t'.answers[|t.answers|].reply)]
            && t'.next == None && t'.asks == t.asks
  {
  }

  lemma {:induction false} DoAccounted(t: Task, step: Step)
    requires Lifecycle(t) && Accounted(t) && Enabled(t, step)
    ensures Accounted(Do(t, step))
  {
    if step.Next? {
      NextAccounted(t, step.callback);
    } else if step.ChunkRead? {
      hide OnChunkRead;
      var t' := OnChunkRead(t, step.c, step.text, step.finished);
      ChunkAnswer(t, step.c, step.text, step.finished);
      AnswerSnoc(t.answers, Answer(t.next, t'.answers[|t.answers|].reply));
    } else {
      QuietSteps(t, step);
    }
  }

  lemma {:induction false} NextFaithful(t: Task, callback: bool)
    requires Faithful(t)
    ensures Faithful(OnNext(t, callback))
  {
    var t' := OnNext(t, callback);
    if |t'.answers| > |t.answers| {
      AnswerSnoc(t.answers, t'.answers[|t.answers|]);
      assert Taken(t.answers) + [] == Taken(t.answers);
    }
  }

  /** A successful read delivers the new suffix of the body; a failed one delivers nothing. */
  lemma {:induction false} ChunkReply(t: Task, c: Completion, text: string, finished: bool)
    requires t.emitted <= |t.body|
    ensures var t' := OnChunkRead(t, c, text, finished);
            && t'.body == t.body + text && |t'.answers| == |t.answers| + 1
            && var reply := t'.answers[|t.answers|].reply;
               if c == Success then (reply.Chunk? || reply.Last?) && reply.text == t'.body[t.emitted..] && t'.emitted == |t'.body|
               else reply.Stopped? && t'.emitted == t.emitted
  {
  }

  lemma {:induction false} ChunkFaithful(t: Task, c: Completion, text: string, finished: bool)
    requires Faithful(t)
    ensures Faithful(OnChunkRead(t, c, text, finished))
  {
    hide OnChunkRead;
    var t' := OnChunkRead(t, c, text, finished);
    ChunkAnswer(t, c, text, finished);
    ChunkReply(t, c, text, finished);
    var a := Answer(t.next, t'.answers[|t.answers|].reply);
    AnswerSnoc(t.answers, a);
    assert t'.body[..t.emitted] == t.body[..t.emitted];
    if c == Success {
      ConcatSnoc(Taken(t.answers), a.reply.text);
      assert t'.body[..t.emitted] + t'.body[t.emitted..] == t'.body;
      assert t'.body[..|t'.body|] == t'.body;
    } else {
      assert Taken(t.answers) + [] == Taken(t.answers);
    }
  }

  lemma {:induction false} DoFaithful(t: Task, step: Step)
    requires Faithful(t) && Enabled(t, step)
    ensures Faithful(Do(t, step))
  {
    if step.Next? {
      NextFaithful(t, step.callback);
    } else if step.ChunkRead? {
      ChunkFaithful(t, step.c, step.text, step.finished);
    } else {
      QuietSteps(t, step);
      assert Do(t, step).body[..t.emitted] == t.body[..t.emitted];
    }
  }

  ghost predicate Inv(t: Task) {
    Lifecycle(t) && Accounted(t) && Faithful(t)
  }

  lemma {:induction false} InvStep(t: Task, step: Step)
    requires Inv(t) && Enabled(t, step)
    ensures Inv(Do(t, step))
  {
    hide Lifecycle, Accounted, Faithful, Do, Enabled;
    DoLifecycle(t, step);
    DoAccounted(t, step);
    DoFaithful(t, step);
  }

  lemma {:induction false} InvKept(t: Task, steps: seq<Step>)
    requires Inv(t) && Run(t, steps)
    ensures Inv(After(t, steps))
  {
    hide Inv, Do, Enabled;
    if steps != [] {
      InvKept(t, steps[..|steps| - 1]);
      InvStep(After(t, steps[..|steps| - 1]), steps[|steps| - 1]);
    }
  }

  lemma FreshInv(setup: Setup)
    ensures Inv(Fresh(setup))
  {
    assert Fresh(setup).body[..0] == "";
  }

  /** What was heard is all that was taken exactly when no text answered an empty callback. */
  lemma {:induction false} HeardIff(answers: seq<Answer>)
    ensures |Concat(Heard(answers))| <= |Concat(Taken(answers))|
    ensures Concat(Heard(answers)) == Concat(Taken(answers)) <==> !Lost(answers)
    ensures Lost(answers) ==> |Concat(Heard(answers))| < |Concat(Taken(answers))|
  {
    if answers != [] {
      var front, a := answers[..|answers| - 1], answers[|answers| - 1];
      assert answers == front + [a];
      HeardIff(front);
      assert Lost(answers) <==> Lost(front) || LostAt(a) by {
        if Lost(front) { var i :| 0 <= i < |front| && LostAt(front[i]); assert LostAt(answers[i]); }
      }
      if ChunkOf(a.reply) == [] {
        assert Heard(answers) == Heard(front) && Taken(answers) == Taken(front);
      } else {
        var text := ChunkOf(a.reply)[0];
        assert ChunkOf(a.reply) == [text];
        assert Taken(answers) == Taken(front) + [text];
        assert Heard(answers) == if a.ask.Some? then Heard(front) + [text] else Heard(front);
        ConcatSnoc(Taken(front), text);
        ConcatSnoc(Heard(front), text);
      }
    }
  }

  /** The pull protocol: after any run, at most one `Next` is outstanding, exactly while a chunk read is
      in flight, which only happens while streaming; every other `Next` was answered exactly once; the
      chunks taken are the body up to the emitted length; and the callbacks heard exactly that text if
      and only if no text answered an empty callback. */
  lemma {:induction false} PullProtocol(setup: Setup, steps: seq<Step>)
    requires Run(Fresh(setup), steps)
    ensures var t := After(Fresh(setup), steps);
            Inv(t) && (Concat(Heard(t.answers)) == t.body[..t.emitted] <==> !Lost(t.answers))
  {
    FreshInv(setup);
    InvKept(Fresh(setup), steps);
    HeardIff(After(Fresh(setup), steps).answers);
  }

  /** Hence a consumer that feeds every chunk it hears to a parser gets the events of the body prefix
      emitted so far, however the transport cut it, if no text was lost. */
  lemma {:induction false} HeardEvents(setup: Setup, steps: seq<Step>)
    requires Run(Fresh(setup), steps)
    requires !Lost(After(Fresh(setup), steps).answers)
    ensures var t := After(Fresh(setup), steps);
            t.emitted <= |t.body| && FedAll(State("", START), Heard(t.answers)) == Fed(State("", START), t.body[..t.emitted])
  {
    PullProtocol(setup, steps);
    var t := After(Fresh(setup), steps);
    ChunkingInvariant(State("", START), Heard(t.answers));
  }

  lemma FreshLifecycle(setup: Setup)
    ensures Lifecycle(Fresh(setup))
  {
  }

  lemma InvBounds(t: Task)
    requires Inv(t)
    ensures t.emitted <= |t.body|
  {
  }

  lemma {:induction false} DoneStep(t: Task, step: Step)
    requires Lifecycle(t) && t.phase == Done && Enabled(t, step)
    ensures var t' := Do(t, step);
            t'.phase == Done && t'.ending == t.ending && t'.emitted == t.emitted && t'.starts == t.starts
            && Taken(t'.answers) == Taken(t.answers)
  {
    hide FailStart, OnAcquired, OnWritten, OnHeaderRead, OnChunkRead, Taken;
    if step.Next? {
      AnswerSnoc(t.answers, Do(t, step).answers[|t.answers|]);
    }
  }

  lemma {:induction false} LifecycleKept(t: Task, steps: seq<Step>)
    requires Lifecycle(t) && Run(t, steps)
    ensures Lifecycle(After(t, steps))
  {
    hide Do, Enabled, Lifecycle;
    if steps != [] {
      LifecycleKept(t, steps[..|steps| - 1]);
      DoLifecycle(After(t, steps[..|steps| - 1]), steps[|steps| - 1]);
    }
  }

  /** A finished task stays finished and refuses every further `Next`. */
  lemma {:induction false} DoneIsFinal(t: Task, steps: seq<Step>)
    requires Lifecycle(t) && t.phase == Done && Run(t, steps)
    ensures var t' := After(t, steps);
            t'.phase == Done && t'.ending == t.ending && t'.emitted == t.emitted && t'.starts == t.starts
            && Taken(t'.answers) == Taken(t.answers)
  {
    hide Do, Enabled, Lifecycle, Taken;
    if steps != [] {
      var front := steps[..|steps| - 1];
      DoneIsFinal(t, front);
      LifecycleKept(t, front);
      DoneStep(After(t, front), steps[|steps| - 1]);
    }
  }

  // ----- cancellation -----

  predicate Completes(step: Step) {
    step.Acquired? || step.Written? || step.HeaderRead? || step.ChunkRead?
  }

  ghost predicate AnyAborted(steps: seq<Step>) {
    exists k :: 0 <= k < |steps| && Completes(steps[k]) && steps[k].c == Aborted
  }

  /** A failure was not asked for; a cancellation was, or some operation was aborted. */
  ghost predicate Reported(t: Task, aborted: bool) {
    && (t.ending == Failure ==> !t.cancelRequested)
    && (t.ending == Cancelled ==> t.cancelRequested || aborted)
    && (t.phase == Done <==> t.ending != Running)
  }

  lemma FailStartReported(t: Task, c: Completion, aborted: bool)
    requires Reported(t, aborted)
    ensures Reported(FailStart(t, c), aborted || c == Aborted)
  {
  }

  lemma {:induction false} CallReported(t: Task, step: Step, aborted: bool)
    requires Reported(t, aborted) && !Completes(step)
    ensures Reported(Do(t, step), aborted)
  {
    hide FailStart;
    if step.Start? && t.phase == Idle {
      FailStartReported(StoreStart(t, step.callback).(phase := Starting), OtherError, aborted);
    }
  }

  lemma {:induction false} StartupReported(t: Task, step: Step, aborted: bool)
    requires Reported(t, aborted) && Lifecycle(t) && Enabled(t, step) && Completes(step) && !step.ChunkRead?
    ensures Reported(Do(t, step), aborted || step.c == Aborted)
  {
    hide FailStart;
    var s := t.(pending := NoOp, body := if step.HeaderRead? then t.body + step.text else t.body);
    FailStartReported(s, step.c, aborted);
    FailStartReported(s, OtherError, aborted);
  }

  lemma {:induction false} ChunkReported(t: Task, step: Step, aborted: bool)
    requires Reported(t, aborted) && Lifecycle(t) && Enabled(t, step) && step.ChunkRead?
    ensures Reported(Do(t, step), aborted || step.c == Aborted)
  {
  }

  lemma {:induction false} ReportedKept(t: Task, steps: seq<Step>)
    requires Reported(t, false) && Lifecycle(t) && Run(t, steps)
    ensures Reported(After(t, steps), AnyAborted(steps))
  {
    hide Do, Lifecycle, Enabled;
    if steps != [] {
      var front, step := steps[..|steps| - 1], steps[|steps| - 1];
      assert AnyAborted(front) || (Completes(step) && step.c == Aborted) ==> AnyAborted(steps) by {
        if AnyAborted(front) {
          var k :| 0 <= k < |front| && Completes(front[k]) && front[k].c == Aborted;
          assert steps[k] == front[k];
        }
      }
      ReportedKept(t, front);
      LifecycleKept(t, front);
      var s := After(t, front);
      if !Completes(step) {
        CallReported(s, step, AnyAborted(front));
      } else if step.ChunkRead? {
        ChunkReported(s, step, AnyAborted(front));
      } else {
        StartupReported(s, step, AnyAborted(front));
      }
    }
  }

  /** In every run a stream that was asked to cancel never ends as a failure, and one that was not asked and saw
      no aborted operation never ends as cancelled. */
  lemma {:induction false} CancellationReported(setup: Setup, steps: seq<Step>)
    requires Run(Fresh(setup), steps)
    ensures var t := After(Fresh(setup), steps);
            && (t.cancelRequested ==> t.ending != Failure)
            && (!t.cancelRequested && !AnyAborted(steps) ==> t.ending != Cancelled)
  {
    ReportedKept(Fresh(setup), steps);
  }
}
