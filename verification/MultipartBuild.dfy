/** Collecting parts and building the body once all files are read, in whatever order the reads
    complete (src/connection/client/multipart_generator.cc:101-196, 319-404). */
module MultipartBuild {
  import opened Text
  import opened Barrier
  import opened Multipart

  /** Number of file parts. */
  function Files(parts: seq<Part>): nat {
    if parts == [] then 0 else Files(parts[..|parts| - 1]) + (if parts[|parts| - 1].isFile then 1 else 0)
  }

  /** Every file part carries the number of file parts before it. */
  ghost predicate Indexed(parts: seq<Part>) {
    forall k :: 0 <= k < |parts| && parts[k].isFile ==> parts[k].fileIndex == Files(parts[..k])
  }

  lemma {:induction false} FilesSnoc(parts: seq<Part>, p: Part)
    ensures Files(parts + [p]) == Files(parts) + (if p.isFile then 1 else 0)
  {
  }

  lemma {:induction false} FilesMonotone(parts: seq<Part>, k: nat)
    requires k <= |parts|
    ensures Files(parts[..k]) <= Files(parts)
    decreases |parts| - k
  {
    if k < |parts| {
      assert parts[..k + 1] == parts[..k] + [parts[k]];
      FilesSnoc(parts[..k], parts[k]);
      FilesMonotone(parts, k + 1);
    } else {
      assert parts[..k] == parts;
    }
  }

  class MultipartGenerator {
    var parts: seq<Part>
    var filePartCount: nat

    ghost predicate Valid()
      reads this
    {
      Indexed(parts) && filePartCount == Files(parts)
    }

    constructor ()
      ensures Valid() && parts == []
    {
      parts, filePartCount := [], 0;
    }

    method AddFilePart(name: string, reader: Option<Reader>, filename: string, contentType: string)
      requires Valid()
      modifies this
      ensures Valid()
      ensures parts == old(parts) + [Part(true, Files(old(parts)), name, "", reader, filename, contentType)]
    {
      var part := Part(true, filePartCount, name, "", reader, filename, contentType);
      filePartCount := filePartCount + 1;
      FilesSnoc(parts, part);
      assert forall k :: 0 <= k <= |parts| ==> (parts + [part])[..k] == parts[..k];
      parts := parts + [part];
    }

    method AddTextPart(name: string, value: string, contentType: string)
      requires Valid()
      modifies this
      ensures Valid() && parts == old(parts) + [Part(false, 0, name, value, None, "", contentType)]
    {
      var part := Part(false, 0, name, value, None, "", contentType);
      FilesSnoc(parts, part);
      assert forall k :: 0 <= k <= |parts| ==> (parts + [part])[..k] == parts[..k];
      parts := parts + [part];
    }

    /** Refuse without a callback; answer at once with a creation error or, without file parts, with the body;
        otherwise a build whose reads are started part by part while earlier ones may already complete. */
    method AsyncCreateTask(hasCallback: bool, createError: Option<nat>, boundary: string,
                           ghost files: seq<Option<FileState>>)
      returns (accepted: bool, answer: Option<Outcome>, build: Build?)
      requires Valid() && |files| == Files(parts)
      ensures accepted == hasCallback
      ensures !hasCallback ==> answer == None && build == null
      ensures hasCallback && createError.Some? ==>
                answer == Some(Failed(CreateError(createError.value))) && build == null
      ensures hasCallback && createError.None? && Files(parts) == 0 ==>
                answer == Some(Assembled(parts, [], boundary)) && build == null
      ensures hasCallback && createError.None? && Files(parts) > 0 ==>
                && answer == None && build != null && fresh(build) && fresh(build.waiter) && build.Valid()
                && build.parts == parts && build.boundary == boundary && build.files == files
                && build.cursor == 0 && build.dispatched == []
    {
      accepted, answer, build := hasCallback, None, null;
      if !hasCallback {
        return;
      }
      if createError.Some? {
        answer := Some(Failed(CreateError(createError.value)));
      } else if filePartCount == 0 {
        var outcome := BuildBody(parts, [], boundary);
        answer := Some(outcome);
      } else {
        build := new Build(parts, boundary, files);
      }
    }
  }

  /** A read of some file part cannot be started: it has no reader, or its reader refuses. */
  predicate Unreadable(p: Part) {
    p.isFile && (p.reader.None? || !p.reader.value.accepts)
  }

  /** Why the read of an unreadable part is refused. */
  function Refusal(p: Part): Error {
    if p.reader.None? then InvalidArgument else NotSupported
  }

  /** Part `k` is the first that cannot be read. */
  ghost predicate FirstUnreadable(parts: seq<Part>, k: nat) {
    k < |parts| && Unreadable(parts[k]) && forall j :: 0 <= j < k ==> !Unreadable(parts[j])
  }

  /** Every value given to the barrier is the result of the reader of its own slot, which was started. */
  ghost predicate OwnResults(history: seq<Step<Option<FileState>>>, files: seq<Option<FileState>>, started: nat) {
    forall i :: 0 <= i < |history| && history[i].Fulfill? ==>
      history[i].index < started <= |files| && history[i].value == files[history[i].index]
  }

  lemma {:induction false} OwnFirst(history: seq<Step<Option<FileState>>>, files: seq<Option<FileState>>,
                                    started: nat, i: nat)
    requires OwnResults(history, files, started) && First(history, i).Some?
    ensures i < started <= |files| && First(history, i) == Some(files[i])
  {
    if history != [] {
      var front := history[..|history| - 1];
      if First(front, i).Some? {
        assert forall k :: 0 <= k < |front| ==> front[k] == history[k];
        OwnFirst(front, files, started, i);
      }
    }
  }

  /** When the barrier fires, it hands over every reader's result in part order. */
  lemma {:induction false} FiredWithOwn(history: seq<Step<Option<FileState>>>, files: seq<Option<FileState>>,
                                        started: nat)
    requires OwnResults(history, files, started) && Expected(|files|, history).Some?
    ensures Expected(|files|, history).value.values == files && (files != [] ==> started == |files|)
  {
    FireValues(|files|, history);
    forall i | 0 <= i < |files| ensures Some(Expected(|files|, history).value.values[i]) == Some(files[i]) && i < started {
      OwnFirst(history, files, started, i);
    }
    if files != [] {
      assert First(history, |files| - 1).Some?;
      OwnFirst(history, files, started, |files| - 1);
    }
  }

  /** One build: the parts, the barrier that waits for the reads, and the ready callback. `files` is
      what the readers will deliver; `cursor` is how far the loop that starts the reads has come, and
      `started` counts the reads it has started. */
  class Build {
    const parts: seq<Part>
    const boundary: string
    ghost const files: seq<Option<FileState>>
    const waiter: AsyncSameTypeWaiter<Option<FileState>>
    var done: bool
    var dispatched: seq<Outcome>
    var cursor: nat
    var started: nat
    var refused: bool

    ghost predicate Valid()
      reads this, waiter
    {
      && Indexed(parts) && |files| == Files(parts) && |files| > 0
      && waiter.Valid() && |waiter.values| == |files| && Latest(waiter.history).Some?
      && cursor <= |parts| && started == Files(parts[..cursor]) <= |files| && OwnResults(waiter.history, files, started)
      && (forall j :: 0 <= j < cursor ==> !Unreadable(parts[j]))
      && (refused ==>
            FirstUnreadable(parts, cursor) && started < |files| && dispatched == [Failed(Refusal(parts[cursor]))])
      && (waiter.fired ==> dispatched == [Assembled(parts, files, boundary)])
      && (done <==> dispatched != []) && (dispatched != [] <==> refused || waiter.fired)
    }

    constructor (parts: seq<Part>, boundary: string, ghost files: seq<Option<FileState>>)
      requires Indexed(parts) && |files| == Files(parts) && |files| > 0
      ensures Valid() && fresh(waiter) && this.parts == parts && this.boundary == boundary && this.files == files
      ensures dispatched == [] && cursor == 0 && !waiter.fired
    {
      this.parts, this.boundary, this.files := parts, boundary, files;
      done, dispatched, cursor, started, refused := false, [], 0, 0, false;
      var w := new AsyncSameTypeWaiter<Option<FileState>>(|Slots(parts)|);
      w.OnReady(Some(0));
      waiter := w;
      new;
      assert First(waiter.history, 0) == None;
    }

    /** Dispatch the ready callback, unless that has been done. */
    method Complete(outcome: Outcome)
      modifies this`done, this`dispatched
      ensures done
      ensures dispatched == if old(done) then old(dispatched) else old(dispatched) + [outcome]
    {
      if done {
        return;
      }
      done := true;
      dispatched := dispatched + [outcome];
    }

    /** End the build at a part that cannot be read. */
    method Refuse(error: Error)
      requires Valid() && !refused && !waiter.fired && started < |files|
      requires FirstUnreadable(parts, cursor) && error == Refusal(parts[cursor])
      modifies this`done, this`dispatched, this`refused
      ensures Valid() && refused && old(dispatched) == []
    {
      hide Assembled, First, Expected, Latest, OwnResults, AsyncSameTypeWaiter.Valid, Indexed, FirstUnreadable, Files;
      Complete(Failed(error));
      refused := true;
    }

    /** One turn of the loop that starts the reads: a part that cannot be read ends the build with its error, unless
        the barrier has fired, which is impossible then; reads started earlier may complete between turns. */
    method StartNext()
      requires Valid() && !refused && cursor < |parts|
      modifies this`done, this`dispatched, this`cursor, this`started, this`refused
      ensures Valid()
      ensures refused == (parts[old(cursor)].isFile &&
                          (parts[old(cursor)].reader.None? || !parts[old(cursor)].reader.value.accepts))
      ensures refused ==>
        dispatched == [Failed(if parts[old(cursor)].reader.None? then InvalidArgument else NotSupported)]
      ensures !refused ==> cursor == old(cursor) + 1 && dispatched == old(dispatched)
      ensures refused ==> cursor == old(cursor) && old(dispatched) == []
    {
      hide Assembled, First, Expected, Latest, OwnResults, AsyncSameTypeWaiter.Valid, Indexed, Files;
      var part := parts[cursor];
      assert parts[..cursor + 1] == parts[..cursor] + [part];
      FilesSnoc(parts[..cursor], part);
      FilesMonotone(parts, cursor + 1);
      if part.isFile {
        NotFired();
        if part.reader.None? {
          Refuse(InvalidArgument);
          return;
        }
        if !part.reader.value.accepts {
          Refuse(NotSupported);
          return;
        }
        MoreStarted(waiter.history, files, started);
        started := started + 1;
      }
      cursor := cursor + 1;
    }

    /** The barrier cannot have fired while a read is still to be started. */
    lemma {:induction false} NotFired()
      requires Valid() && started < |files|
      ensures !waiter.fired
    {
      if waiter.fired { FiredWithOwn(waiter.history, files, started); }
    }

    /** The read of slot `i` completed with its reader's result, possibly the last one missing. */
    method ReadDone(i: nat, result: Option<FileState>)
      requires Valid() && i < started && result == files[i]
      modifies this`done, this`dispatched, waiter
      ensures Valid() && waiter.history == old(waiter.history) + [Fulfill(i, result)]
      ensures AllFirst(|files|, waiter.history) ==> dispatched == [Assembled(parts, files, boundary)]
    {
      hide Assembled, First, Expected, Latest;
      ghost var before := waiter.history;
      var fired := waiter.fired;
      waiter.Fulfill(i, result);
      OwnSnoc(before, files, started, i);
      HistorySnoc(before, Fulfill(i, result), |files|);
      FiresWhenComplete(|files|, waiter.history);
      if !fired && waiter.fired {
        FiredWithOwn(waiter.history, files, started);
        var outcome := BuildBody(parts, waiter.fires[0].values, boundary);
        Complete(outcome);
      }
    }
  }

  lemma {:induction false} MoreStarted(history: seq<Step<Option<FileState>>>, files: seq<Option<FileState>>,
                                       started: nat)
    requires OwnResults(history, files, started) && started < |files|
    ensures OwnResults(history, files, started + 1)
  {
  }

  lemma {:induction false} OwnSnoc(history: seq<Step<Option<FileState>>>, files: seq<Option<FileState>>, started: nat,
                                   i: nat)
    requires OwnResults(history, files, started) && i < started <= |files|
    ensures OwnResults(history + [Fulfill(i, files[i])], files, started)
  {
  }

  /** The file parts, in order. */
  function Slots(parts: seq<Part>): (r: seq<Part>)
    ensures |r| == Files(parts)
  {
    if parts == [] then [] else Slots(parts[..|parts| - 1]) + (if parts[|parts| - 1].isFile then [parts[|parts| - 1]] else [])
  }
}
