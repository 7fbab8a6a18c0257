/** The HTTP client task as a step machine: one asynchronous operation in flight, stage callbacks, one
    completion (src/connection/client/http_client_task_flow.cc). */
module ClientRun {

  datatype Phase = Idle | Running | Done

  datatype Outcome = Open | Success | Failure | Cancelled

  datatype Pending = NoOp | Acquiring | Writing | ReadingHeader | ReadingAll | ReadingSome

  /** A stage callback the task wants to run; a failed stage carries no payload. */
  datatype Emission =
    | Connected(ok: bool)
    | Header(ok: bool)
    | Chunk(ok: bool, text: string)
    | Finished(outcome: Outcome, body: string)

  datatype Setup = Broken | Raw(usable: bool) | Assembled

  /** The task. `chunked` tells whether a chunk callback was set when the header was complete and
      `headerLength` is the body length when the header was complete; `returned` records the
      streams given back to a done hook, if there is one, true for a closed stream. */
  datatype Task = Task(
    setup: Setup,
    hook: bool,
    phase: Phase,
    outcome: Outcome,
    pending: Pending,
    cancelRequested: bool,
    body: string,
    chunked: bool,
    headerLength: nat,
    lastEmitted: nat,
    emitted: seq<Emission>,
    returned: seq<bool>)

  function Fresh(setup: Setup, hook: bool): Task {
    Task(setup, hook, Idle, Open, NoOp, false, "", false, 0, 0, [], [])
  }

  /** How an operation completed; a read may also end with the stream or mid-message. */
  datatype Completion = Ok | EndOfStream | PartialMessage | Aborted | OtherError

  datatype ErrorStage = Create | Connect | WriteRequest | ReadHeader | ReadBody

  datatype Step =
    | Start
    | Cancel
    | Acquired(c: Completion, hasStream: bool)
    | Written(c: Completion)
    | HeaderRead(c: Completion, text: string, chunked: bool)
    | AllRead(c: Completion, text: string, keepAlive: bool)
    | SomeRead(c: Completion, text: string, finished: bool, keepAlive: bool)

  /** The stage a failure is reported on. */
  function StageOf(stage: ErrorStage): Emission {
    match stage
    case Create => Connected(false)
    case Connect => Connected(false)
    case WriteRequest => Header(false)
    case ReadHeader => Header(false)
    case ReadBody => Chunk(false, "")
  }

  function GiveBack(t: Task, closed: bool): seq<bool> {
    if t.hook then t.returned + [closed] else t.returned
  }

  function Fail(t: Task, stage: ErrorStage, c: Completion): Task {
    if t.phase == Done then t
    else
      var outcome := if t.cancelRequested || c == Aborted then Cancelled else Failure;
      t.(phase := Done, outcome := outcome,
         emitted := t.emitted + [StageOf(stage), Finished(outcome, "")], returned := GiveBack(t, true))
  }

  function Succeed(t: Task, keepAlive: bool): Task {
    if t.phase == Done then t
    else
      t.(phase := Done, outcome := Success,
         emitted := t.emitted + [Finished(Success, t.body)], returned := GiveBack(t, !keepAlive))
  }

  function OnStart(t: Task): Task {
    if t.phase != Idle then t
    else
      var s := t.(phase := Running);
      match t.setup
      case Broken => Fail(s, Create, OtherError)
      case Assembled => s.(pending := Acquiring)
      case Raw(usable) =>
        if usable then s.(emitted := s.emitted + [Connected(true)], pending := Writing) else Fail(s, Create, OtherError)
  }

  function OnCancel(t: Task): Task {
    if t.phase == Done then t else t.(cancelRequested := true)
  }

  function OnAcquired(t: Task, c: Completion, hasStream: bool): Task {
    var s := t.(pending := NoOp);
    if c != Ok then Fail(s, Connect, c)
    else if !hasStream then Fail(s, Connect, OtherError)
    else s.(emitted := s.emitted + [Connected(true)], pending := Writing)
  }

  function OnWritten(t: Task, c: Completion): Task {
    var s := t.(pending := NoOp);
    if c != Ok then Fail(s, WriteRequest, c) else s.(pending := ReadingHeader)
  }

  function OnHeaderRead(t: Task, c: Completion, text: string, chunked: bool): Task {
    var s := t.(pending := NoOp, body := t.body + text);
    if c != Ok then Fail(s, ReadHeader, c)
    else
      var h := s.(emitted := s.emitted + [Header(true)], headerLength := |s.body|, chunked := chunked);
      if chunked then h.(lastEmitted := |h.body|, pending := ReadingSome) else h.(pending := ReadingAll)
  }

  predicate BodyError(c: Completion) {
    c == Aborted || c == OtherError
  }

  function OnAllRead(t: Task, c: Completion, text: string, keepAlive: bool): Task {
    var s := t.(pending := NoOp, body := t.body + text);
    if BodyError(c) then Fail(s, ReadBody, c) else Succeed(s, keepAlive)
  }

  function OnSomeRead(t: Task, c: Completion, text: string, finished: bool, keepAlive: bool): Task {
    var s := t.(pending := NoOp, body := t.body + text);
    if BodyError(c) then Fail(s, ReadBody, c)
    else
      var e := if |s.body| > s.lastEmitted
               then s.(emitted := s.emitted + [Chunk(true, s.body[s.lastEmitted..])], lastEmitted := |s.body|) else s;
      if finished then Succeed(e, keepAlive) else e.(pending := ReadingSome)
  }

  function Do(t: Task, step: Step): Task {
    match step
    case Start => OnStart(t)
    case Cancel => OnCancel(t)
    case Acquired(c, s) => OnAcquired(t, c, s)
    case Written(c) => OnWritten(t, c)
    case HeaderRead(c, text, chunked) => OnHeaderRead(t, c, text, chunked)
    case AllRead(c, text, k) => OnAllRead(t, c, text, k)
    case SomeRead(c, text, f, k) => OnSomeRead(t, c, text, f, k)
  }

  predicate Enabled(t: Task, step: Step) {
    match step
    case Start => true
    case Cancel => true
    case Acquired(_, _) => t.pending == Acquiring
    case Written(_) => t.pending == Writing
    case HeaderRead(_, _, _) => t.pending == ReadingHeader
    case AllRead(_, _, _) => t.pending == ReadingAll
    case SomeRead(_, _, _, _) => t.pending == ReadingSome
  }

  function After(t: Task, steps: seq<Step>): Task {
    if steps == [] then t else Do(After(t, steps[..|steps| - 1]), steps[|steps| - 1])
  }

  /** Every run of a task: handler steps, each enabled in its turn. */
  ghost predicate Run(t: Task, steps: seq<Step>) {
    steps == [] || (Run(t, steps[..|steps| - 1]) && Enabled(After(t, steps[..|steps| - 1]), steps[|steps| - 1]))
  }

  lemma {:induction false} RunSnoc(t: Task, steps: seq<Step>, step: Step)
    ensures After(t, steps + [step]) == Do(After(t, steps), step)
    ensures Run(t, steps + [step]) <==> Run(t, steps) && Enabled(After(t, steps), step)
  {
    hide Do, Enabled;
    assert (steps + [step])[..|steps|] == steps;
  }

  // ----- the shape of every run -----

  /** A stage that reports a failure. */
  predicate Broke(e: Emission) {
    !e.Finished? && !e.ok
  }

  /** Emission `b` may come right after `a`: a failed stage is followed by an unsuccessful end and nothing else,
      and an unsuccessful end follows nothing else. */
  predicate Follows(a: Emission, b: Emission) {
    if b.Finished? then (if Broke(a) then b.outcome != Success else (a.Header? || a.Chunk?) && b.outcome == Success)
    else !Broke(a) && (if a.Connected? then b.Header? else !a.Finished? && b.Chunk?)
  }

  /** A prefix of: Connected, then optionally Header and any number of Chunks, then Finished. */
  predicate Shaped(es: seq<Emission>) {
    && (es != [] ==> es[0].Connected?)
    && (forall i :: 0 < i < |es| ==> Follows(es[i - 1], es[i]))
  }

  /** The last emission a running task may have made, by what is in flight. */
  ghost predicate Placed(t: Task) {
    match t.phase
    case Idle => t.pending == NoOp && t.emitted == []
    case Running =>
      && t.pending != NoOp
      && (t.pending == Acquiring <==> t.emitted == [])
      && (t.pending in {Writing, ReadingHeader} ==> t.emitted != [] && t.emitted[|t.emitted| - 1] == Connected(true))
      && (t.pending in {ReadingAll, ReadingSome} ==>
            && t.emitted != [] && !Broke(t.emitted[|t.emitted| - 1])
            && (t.emitted[|t.emitted| - 1].Header? || t.emitted[|t.emitted| - 1].Chunk?))
    case Done => t.pending == NoOp && t.emitted != [] && t.emitted[|t.emitted| - 1].Finished?
  }

  ghost predicate Settled(t: Task) {
    && (t.phase == Done <==> t.outcome != Open)
    && (t.phase == Done ==>
          t.emitted != [] && t.emitted[|t.emitted| - 1].Finished? && t.emitted[|t.emitted| - 1].outcome == t.outcome)
    && |t.returned| == (if t.phase == Done && t.hook then 1 else 0)
    && (t.phase == Done && t.hook && t.outcome != Success ==> t.returned == [true])
  }

  ghost predicate Inv(t: Task) {
    Shaped(t.emitted) && Placed(t) && Settled(t)
  }

  lemma {:induction false} ShapedSnoc(es: seq<Emission>, e: Emission)
    requires Shaped(es) && (if es == [] then e.Connected? else Follows(es[|es| - 1], e))
    ensures Shaped(es + [e])
  {
  }

  lemma {:induction false} FailInv(t: Task, stage: ErrorStage, c: Completion)
    requires t.phase == Running && Shaped(t.emitted) && t.pending == NoOp && t.outcome == Open && t.returned == []
    requires if t.emitted == [] then StageOf(stage).Connected? else Follows(t.emitted[|t.emitted| - 1], StageOf(stage))
    ensures Inv(Fail(t, stage, c)) && Fail(t, stage, c).phase == Done
  {
  }

  lemma {:induction false} SucceedInv(t: Task, keepAlive: bool)
    requires t.phase == Running && Shaped(t.emitted) && t.pending == NoOp && t.outcome == Open && t.returned == []
    requires t.emitted != [] && Follows(t.emitted[|t.emitted| - 1], Finished(Success, t.body))
    ensures Inv(Succeed(t, keepAlive))
  {
  }

  lemma {:induction false} StartInv(t: Task)
    requires Inv(t)
    ensures Inv(OnStart(t))
  {
    if t.phase == Idle {
      hide Shaped;
      var s := t.(phase := Running);
      if t.setup == Broken || t.setup == Raw(false) { FailInv(s, Create, OtherError); }
      ShapedSnoc(t.emitted, Connected(true));
    }
  }

  lemma {:induction false} AcquiredInv(t: Task, c: Completion, hasStream: bool)
    requires Inv(t) && t.pending == Acquiring
    ensures Inv(OnAcquired(t, c, hasStream))
  {
    hide Shaped, Fail;
    var s := t.(pending := NoOp);
    FailInv(s, Connect, c);
    FailInv(s, Connect, OtherError);
    ShapedSnoc(t.emitted, Connected(true));
  }

  lemma {:induction false} WrittenInv(t: Task, c: Completion)
    requires Inv(t) && t.pending == Writing
    ensures Inv(OnWritten(t, c))
  {
    hide Shaped, Fail;
    FailInv(t.(pending := NoOp), WriteRequest, c);
  }

  lemma {:induction false} HeaderReadInv(t: Task, c: Completion, text: string, chunked: bool)
    requires Inv(t) && t.pending == ReadingHeader
    ensures Inv(OnHeaderRead(t, c, text, chunked))
  {
    hide Shaped, Fail;
    FailInv(t.(pending := NoOp, body := t.body + text), ReadHeader, c);
    ShapedSnoc(t.emitted, Header(true));
  }

  lemma {:induction false} AllReadInv(t: Task, c: Completion, text: string, keepAlive: bool)
    requires Inv(t) && t.pending == ReadingAll
    ensures Inv(OnAllRead(t, c, text, keepAlive))
  {
    hide Shaped, Fail, Succeed;
    var s := t.(pending := NoOp, body := t.body + text);
    FailInv(s, ReadBody, c);
    SucceedInv(s, keepAlive);
  }

  lemma {:induction false} SomeReadInv(t: Task, c: Completion, text: string, finished: bool, keepAlive: bool)
    requires Inv(t) && t.pending == ReadingSome
    ensures Inv(OnSomeRead(t, c, text, finished, keepAlive))
  {
    hide Shaped, Fail, Succeed;
    var s := t.(pending := NoOp, body := t.body + text);
    FailInv(s, ReadBody, c);
    if !BodyError(c) {
      var e := if |s.body| > s.lastEmitted
               then s.(emitted := s.emitted + [Chunk(true, s.body[s.lastEmitted..])], lastEmitted := |s.body|) else s;
      if e != s { ShapedSnoc(s.emitted, Chunk(true, s.body[s.lastEmitted..])); }
      SucceedInv(e, keepAlive);
    }
  }

  lemma {:induction false} DoInv(t: Task, step: Step)
    requires Inv(t) && Enabled(t, step)
    ensures Inv(Do(t, step))
  {
    hide Shaped, OnStart, OnAcquired, OnWritten, OnHeaderRead, OnAllRead, OnSomeRead;
    match step
    case Start => StartInv(t);
    case Cancel =>
    case Acquired(c, s) => AcquiredInv(t, c, s);
    case Written(c) => WrittenInv(t, c);
    case HeaderRead(c, text, chunked) => HeaderReadInv(t, c, text, chunked);
    case AllRead(c, text, k) => AllReadInv(t, c, text, k);
    case SomeRead(c, text, f, k) => SomeReadInv(t, c, text, f, k);
  }

  lemma {:induction false} InvKept(t: Task, steps: seq<Step>)
    requires Inv(t) && Run(t, steps)
    ensures Inv(After(t, steps))
  {
    hide Inv, Do, Enabled;
    if steps != [] {
      InvKept(t, steps[..|steps| - 1]);
      DoInv(After(t, steps[..|steps| - 1]), steps[|steps| - 1]);
    }
  }

  /** In a finished shape the end is a success exactly when no stage failed. */
  lemma {:induction false} SuccessIff(es: seq<Emission>)
    requires Shaped(es) && es != [] && es[|es| - 1].Finished?
    ensures es[|es| - 1].outcome == Success <==> forall i :: 0 <= i < |es| ==> !Broke(es[i])
  {
    var last := |es| - 1;
    assert Follows(es[last - 1], es[last]);
    forall i | 0 <= i < |es| && Broke(es[i]) ensures i == last - 1 {
      assert Follows(es[i], es[i + 1]);
      assert i + 1 == last || Follows(es[i + 1], es[i + 2]);
    }
  }

  /** The shape of every run: the stage emissions are a prefix of Connected (Header Chunk*)? Finished with at most
      one Finished, a failed stage being followed only by an unsuccessful end; exactly one operation is in
      flight while the task runs and none otherwise; a finished task has reported its outcome last, a
      success exactly when no stage failed; and its stream is given back exactly once if and only if it
      is done and has a done hook, closed after any failure. */
  lemma {:induction false} RunShape(setup: Setup, hook: bool, steps: seq<Step>)
    requires Run(Fresh(setup, hook), steps)
    ensures var t := After(Fresh(setup, hook), steps);
            && t.hook == hook && Shaped(t.emitted)
            && (t.pending != NoOp <==> t.phase == Running)
            && (t.phase == Done <==> t.emitted != [] && t.emitted[|t.emitted| - 1].Finished?)
            && (t.phase == Done ==> t.emitted[|t.emitted| - 1].outcome == t.outcome)
            && (t.phase == Done ==>
                  (t.outcome == Success <==> forall i :: 0 <= i < |t.emitted| ==> !Broke(t.emitted[i])))
            && |t.returned| <= 1 && (|t.returned| == 1 <==> t.phase == Done && hook)
            && (t.phase == Done && hook && t.outcome != Success ==> t.returned == [true])
  {
    hide After, Run, Shaped;
    FreshInv(setup, hook);
    InvKept(Fresh(setup, hook), steps);
    HookKept(Fresh(setup, hook), steps);
    var t := After(Fresh(setup, hook), steps);
    if t.phase == Done { SuccessIff(t.emitted); }
  }

  /** A finished run that gives no stream back: the task has no hook. */
  lemma {:induction false} UnhookedRun()
    ensures var t := After(Fresh(Broken, false), [Start]);
            Run(Fresh(Broken, false), [Start]) && t.phase == Done && t.returned == []
  {
    RunSnoc(Fresh(Broken, false), [], Start);
    assert [] + [Start] == [Start];
  }

  lemma FreshInv(setup: Setup, hook: bool)
    ensures Inv(Fresh(setup, hook)) && Streamed(Fresh(setup, hook)) && Completed(Fresh(setup, hook))
  {
  }

  lemma DoKeepsHook(t: Task, step: Step)
    ensures Do(t, step).hook == t.hook
  {
  }

  lemma {:induction false} HookKept(t: Task, steps: seq<Step>)
    ensures After(t, steps).hook == t.hook
  {
    hide Do;
    if steps != [] {
      HookKept(t, steps[..|steps| - 1]);
      DoKeepsHook(After(t, steps[..|steps| - 1]), steps[|steps| - 1]);
    }
  }

  // ----- chunks and body -----

  /** The text of the successful chunks, in order. */
  function ChunkText(es: seq<Emission>): string {
    if es == [] then ""
    else ChunkText(es[..|es| - 1]) + (if es[|es| - 1].Chunk? && es[|es| - 1].ok then es[|es| - 1].text else "")
  }

  lemma {:induction false} ChunkTextSnoc(es: seq<Emission>, e: Emission)
    ensures ChunkText(es + [e]) == ChunkText(es) + (if e.Chunk? && e.ok then e.text else "")
  {
  }

  lemma {:induction false} ChunkTextQuiet(es: seq<Emission>, a: Emission, b: Emission)
    requires !(a.Chunk? && a.ok) && !(b.Chunk? && b.ok)
    ensures ChunkText(es + [a]) == ChunkText(es) && ChunkText(es + [a, b]) == ChunkText(es)
  {
    ChunkTextSnoc(es, a);
    ChunkTextSnoc(es + [a], b);
    assert es + [a, b] == es + [a] + [b];
  }

  /** Where the reported chunks stand against the body: nothing before the body phase or when the whole
      body is read at once, the body after the header up to the last emitted length in chunk mode. */
  ghost predicate Streamed(t: Task) {
    && t.headerLength <= |t.body|
    && (t.pending != ReadingSome && t.phase != Done ==> ChunkText(t.emitted) == "")
    && (t.pending == ReadingAll ==> !t.chunked)
    && (t.pending == ReadingSome ==>
          && t.chunked && t.headerLength <= t.lastEmitted <= |t.body|
          && ChunkText(t.emitted) == t.body[t.headerLength..t.lastEmitted])
  }

  /** On success the whole body is handed over at the end; in chunk mode the reported chunks are that
      body after its header-time length, and otherwise there are none. */
  ghost predicate Completed(t: Task) {
    t.outcome == Success ==>
      && t.emitted != [] && t.emitted[|t.emitted| - 1] == Finished(Success, t.body)
      && t.headerLength <= |t.body|
      && ChunkText(t.emitted) == if t.chunked then t.body[t.headerLength..] else ""
  }

  lemma {:induction false} FailStreams(t: Task, stage: ErrorStage, c: Completion)
    requires t.phase == Running && t.headerLength <= |t.body| && t.pending == NoOp
    ensures Streamed(Fail(t, stage, c)) && Completed(Fail(t, stage, c))
  {
  }

  lemma {:induction false} SucceedStreams(t: Task, keepAlive: bool)
    requires t.phase == Running && t.pending == NoOp && t.headerLength <= |t.body|
    requires ChunkText(t.emitted) == if t.chunked then t.body[t.headerLength..] else ""
    ensures Streamed(Succeed(t, keepAlive)) && Completed(Succeed(t, keepAlive))
  {
    ChunkTextQuiet(t.emitted, Finished(Success, t.body), Finished(Success, t.body));
  }

  /** The chunks reported after one more read, up to the end of the body. */
  lemma {:induction false} ReportedUpToEnd(t: Task, text: string)
    requires t.pending == ReadingSome && Streamed(t)
    ensures var body := t.body + text;
            var emitted := if |body| > t.lastEmitted then t.emitted + [Chunk(true, body[t.lastEmitted..])] else t.emitted;
            ChunkText(emitted) == body[t.headerLength..] && body[t.headerLength..|body|] == body[t.headerLength..]
  {
    var body := t.body + text;
    assert body[t.headerLength..t.lastEmitted] == t.body[t.headerLength..t.lastEmitted];
    ChunkTextSnoc(t.emitted, Chunk(true, body[t.lastEmitted..]));
    assert body[t.headerLength..t.lastEmitted] + body[t.lastEmitted..] == body[t.headerLength..];
  }

  lemma {:induction false} SomeReadStreams(t: Task, c: Completion, text: string, finished: bool, keepAlive: bool)
    requires t.pending == ReadingSome && t.phase == Running && t.outcome == Open && Streamed(t)
    ensures var t' := OnSomeRead(t, c, text, finished, keepAlive);
            Streamed(t') && Completed(t')
  {
    hide Fail, Succeed, ChunkText;
    var s := t.(pending := NoOp, body := t.body + text);
    if BodyError(c) {
      FailStreams(s, ReadBody, c);
    } else {
      ReportedUpToEnd(t, text);
      var e := if |s.body| > s.lastEmitted
               then s.(emitted := s.emitted + [Chunk(true, s.body[s.lastEmitted..])], lastEmitted := |s.body|) else s;
      SucceedStreams(e, keepAlive);
    }
  }

  lemma {:induction false} StartStreams(t: Task)
    requires Streamed(t) && Completed(t) && t.phase == Idle && t.outcome == Open && t.pending == NoOp
    ensures Streamed(OnStart(t)) && Completed(OnStart(t))
  {
    hide Fail;
    FailStreams(t.(phase := Running), Create, OtherError);
    ChunkTextQuiet(t.emitted, Connected(true), Connected(true));
  }

  lemma {:induction false} AcquiredStreams(t: Task, c: Completion, hasStream: bool)
    requires Streamed(t) && t.pending == Acquiring && t.phase == Running && t.outcome == Open
    ensures Streamed(OnAcquired(t, c, hasStream)) && Completed(OnAcquired(t, c, hasStream))
  {
  }

  lemma {:induction false} HeaderReadStreams(t: Task, c: Completion, text: string, chunked: bool)
    requires Streamed(t) && t.pending == ReadingHeader && t.phase == Running && t.outcome == Open
    ensures Streamed(OnHeaderRead(t, c, text, chunked)) && Completed(OnHeaderRead(t, c, text, chunked))
  {
  }

  lemma {:induction false} AllReadStreams(t: Task, c: Completion, text: string, keepAlive: bool)
    requires Streamed(t) && t.pending == ReadingAll && t.phase == Running && t.outcome == Open
    ensures Streamed(OnAllRead(t, c, text, keepAlive)) && Completed(OnAllRead(t, c, text, keepAlive))
  {
    hide Fail;
    var s := t.(pending := NoOp, body := t.body + text);
    FailStreams(s, ReadBody, c);
    ChunkTextQuiet(t.emitted, Finished(Success, s.body), Finished(Success, s.body));
  }

  lemma {:induction false} OtherStreams(t: Task, step: Step)
    requires Inv(t) && Streamed(t) && Completed(t) && Enabled(t, step) && !step.SomeRead? && t.phase != Done
    ensures Streamed(Do(t, step)) && Completed(Do(t, step))
  {
    hide Shaped, OnStart, OnAcquired, OnHeaderRead, OnAllRead, Fail;
    match step
    case Start =>
      if t.phase == Idle { StartStreams(t); } else { StartAgain(t); }
    case Cancel =>
    case Acquired(c, h) => AcquiredStreams(t, c, h);
    case Written(c) => FailStreams(t.(pending := NoOp), WriteRequest, c);
    case HeaderRead(c, text, chunked) => HeaderReadStreams(t, c, text, chunked);
    case AllRead(c, text, k) => AllReadStreams(t, c, text, k);
  }

  lemma StartAgain(t: Task)
    requires t.phase != Idle
    ensures OnStart(t) == t
  {
  }

  lemma {:induction false} StreamsStep(t: Task, step: Step)
    requires Inv(t) && Streamed(t) && Completed(t) && Enabled(t, step)
    ensures Streamed(Do(t, step)) && Completed(Do(t, step))
  {
    hide Shaped, Streamed, Completed;
    if t.phase == Done {
      assert Do(t, step) == t;
    } else if step.SomeRead? {
      SomeReadStreams(t, step.c, step.text, step.finished, step.keepAlive);
    } else {
      OtherStreams(t, step);
    }
  }

  lemma {:induction false} StreamsKept(t: Task, steps: seq<Step>)
    requires Inv(t) && Streamed(t) && Completed(t) && Run(t, steps)
    ensures Completed(After(t, steps)) && Streamed(After(t, steps))
  {
    hide Inv, Do, Enabled, Streamed, Completed;
    if steps != [] {
      var front := steps[..|steps| - 1];
      StreamsKept(t, front);
      InvKept(t, front);
      StreamsStep(After(t, front), steps[|steps| - 1]);
    }
  }

  /** In every run, a successful task hands over the whole body at the end, and the chunks it reported
      on the way concatenate to that body after its header-time length, or there were none because the
      body was read at once. */
  lemma {:induction false} ChunksMakeTheBody(setup: Setup, hook: bool, steps: seq<Step>)
    requires Run(Fresh(setup, hook), steps)
    ensures Completed(After(Fresh(setup, hook), steps))
  {
    hide Inv, After, Run, Completed, Streamed;
    FreshInv(setup, hook);
    StreamsKept(Fresh(setup, hook), steps);
  }

  /** `n` partial reads that end with the stream and bring nothing. */
  function Dry(n: nat): seq<Step> {
    seq(n, _ => SomeRead(EndOfStream, "", false, false))
  }

  /** No liveness: ends of stream before the parser is done only read again, any number of times. */
  lemma {:induction false} UnfinishedStreamRereads(t: Task, n: nat)
    requires t.pending == ReadingSome && t.phase == Running && t.lastEmitted == |t.body|
    ensures Run(t, Dry(n)) && After(t, Dry(n)) == t
  {
    if n > 0 {
      UnfinishedStreamRereads(t, n - 1);
      assert Dry(n) == Dry(n - 1) + [SomeRead(EndOfStream, "", false, false)];
      RunSnoc(t, Dry(n - 1), SomeRead(EndOfStream, "", false, false));
      assert t.body + "" == t.body;
    }
  }

  // ----- cancellation -----

  predicate Aborts(step: Step) {
    !step.Start? && !step.Cancel? && step.c == Aborted
  }

  ghost predicate AnyAborted(steps: seq<Step>) {
    exists k :: 0 <= k < |steps| && Aborts(steps[k])
  }

  /** A failure was not asked for; a cancellation was, or some operation was aborted. */
  ghost predicate Reported(t: Task, aborted: bool) {
    && (t.outcome == Failure ==> !t.cancelRequested)
    && (t.outcome == Cancelled ==> t.cancelRequested || aborted)
    && (t.phase == Done <==> t.outcome != Open)
  }

  lemma FailReported(t: Task, stage: ErrorStage, c: Completion, aborted: bool)
    requires Reported(t, aborted)
    ensures Reported(Fail(t, stage, c), aborted || c == Aborted)
  {
  }

  lemma SucceedReported(t: Task, keepAlive: bool, aborted: bool)
    requires Reported(t, aborted)
    ensures Reported(Succeed(t, keepAlive), aborted)
  {
  }

  lemma {:induction false} CallReported(t: Task, step: Step, aborted: bool)
    requires Reported(t, aborted) && (step.Start? || step.Cancel?)
    ensures Reported(Do(t, step), aborted)
  {
  }

  lemma {:induction false} StartupReported(t: Task, step: Step, aborted: bool)
    requires Reported(t, aborted) && (step.Acquired? || step.Written? || step.HeaderRead?)
    ensures Reported(Do(t, step), aborted || Aborts(step))
  {
    hide Fail;
    var s := t.(pending := NoOp, body := if step.HeaderRead? then t.body + step.text else t.body);
    FailReported(s, if step.Acquired? then Connect else if step.Written? then WriteRequest else ReadHeader, step.c, aborted);
    FailReported(s, Connect, OtherError, aborted);
  }

  lemma {:induction false} BodyReported(t: Task, step: Step, aborted: bool)
    requires Reported(t, aborted) && (step.AllRead? || step.SomeRead?)
    ensures Reported(Do(t, step), aborted || Aborts(step))
  {
    hide Fail, Succeed;
    var s := t.(pending := NoOp, body := t.body + step.text);
    FailReported(s, ReadBody, step.c, aborted);
    SucceedReported(s, step.keepAlive, aborted);
    if |s.body| > s.lastEmitted {
      var e := s.(emitted := s.emitted + [Chunk(true, s.body[s.lastEmitted..])], lastEmitted := |s.body|);
      SucceedReported(e, step.keepAlive, aborted);
    }
  }

  lemma {:induction false} ReportedKept(t: Task, steps: seq<Step>)
    requires Reported(t, false)
    ensures Reported(After(t, steps), AnyAborted(steps))
  {
    hide Do, Aborts;
    if steps != [] {
      var front, step := steps[..|steps| - 1], steps[|steps| - 1];
      assert AnyAborted(front) || Aborts(step) ==> AnyAborted(steps) by {
        if AnyAborted(front) { var k :| 0 <= k < |front| && Aborts(front[k]); assert steps[k] == front[k]; }
      }
      ReportedKept(t, front);
      var s := After(t, front);
      if step.Start? || step.Cancel? {
        CallReported(s, step, AnyAborted(front));
      } else if step.AllRead? || step.SomeRead? {
        BodyReported(s, step, AnyAborted(front));
      } else {
        StartupReported(s, step, AnyAborted(front));
      }
    }
  }

  /** In every run a task that was asked to cancel never ends as a failure, and one that was not asked and saw
      no aborted operation never ends as cancelled. */
  lemma {:induction false} CancellationReported(setup: Setup, hook: bool, steps: seq<Step>)
    ensures var t := After(Fresh(setup, hook), steps);
            && (t.cancelRequested ==> t.outcome != Failure)
            && (!t.cancelRequested && !AnyAborted(steps) ==> t.outcome != Cancelled)
  {
    ReportedKept(Fresh(setup, hook), steps);
  }
}
