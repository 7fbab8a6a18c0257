/** Multipart/form-data bodies (src/connection/client/multipart_generator.cc): what is built, and that
    cutting it at the delimiters of section 5.1.1 of RFC 2046 gives the parts back. */
module Multipart {
  import opened Text

  /** A file read: an error, or the bytes. */
  datatype FileState = FileState(error: Option<nat>, data: Option<string>)

  /** A file on disk to read; `accepts` tells whether a read can be started at all. */
  datatype Reader = Reader(filename: string, accepts: bool)

  datatype Part = Part(
    isFile: bool,
    fileIndex: nat,
    name: string,
    value: string,
    reader: Option<Reader>,
    filenameOverride: string,
    contentType: string)

  datatype Error = CreateError(code: nat) | FileError(code: nat) | IoError | InvalidArgument | NotSupported

  datatype Outcome = Failed(error: Error) | Ready(body: string)

  const CRLF: string := "\r\n"

  // ----- quoting -----

  function Escape(s: string): string {
    if s == "" then "" else (if s[0] == '"' || s[0] == '\\' then ['\\', s[0]] else [s[0]]) + Escape(s[1..])
  }

  /** Read a quoted parameter up to its closing quote: the text and what follows the quote. */
  function Unquote(s: string): Option<(string, string)> {
    if s == "" then None
    else if s[0] == '"' then Some(("", s[1..]))
    else if s[0] == '\\' then
      if |s| < 2 then None
      else
        var r := Unquote(s[2..]);
        if r.None? then None else Some(([s[1]] + r.value.0, r.value.1))
    else
      var r := Unquote(s[1..]);
      if r.None? then None else Some(([s[0]] + r.value.0, r.value.1))
  }

  /** An escaped parameter in quotes reads back as itself and never ends early. */
  lemma {:induction false} QuoteRoundTrip(s: string, rest: string)
    ensures Unquote(Escape(s) + ['"'] + rest) == Some((s, rest))
  {
    var all := Escape(s) + ['"'] + rest;
    if s == "" {
      assert all[1..] == rest;
    } else {
      QuoteRoundTrip(s[1..], rest);
      var tail := Escape(s[1..]) + ['"'] + rest;
      if s[0] == '"' || s[0] == '\\' {
        assert all[0] == '\\' && all[1] == s[0] && all[2..] == tail;
      } else {
        assert all[0] == s[0] && all[1..] == tail;
      }
      assert [s[0]] + s[1..] == s;
    }
  }

  /** The escaping loop. */
  method EscapeQuotedParameter(value: string) returns (out: string)
    ensures out == Escape(value)
  {
    out := "";
    for i := 0 to |value|
      invariant out + Escape(value[i..]) == Escape(value)
    {
      assert value[i..][0] == value[i] && value[i..][1..] == value[i + 1..];
      if value[i] == '"' || value[i] == '\\' {
        out := out + ['\\'];
      }
      out := out + [value[i]];
    }
    assert value[|value|..] == "";
  }

  // ----- one part -----

  function DefaultFilename(reader: Option<Reader>): string {
    if reader.None? || reader.value.filename == "" then "file" else reader.value.filename
  }

  /** The header of a text part; as in the source, two quotes follow the name. */
  function TextHead(p: Part): string {
    "Content-Disposition: form-data; name=\"" + Escape(p.name) + "\"" + "\"\r\n"
    + (if p.contentType == "" then "" else "Content-Type: " + p.contentType + CRLF) + CRLF
  }

  function FileHead(p: Part): string {
    "Content-Disposition: form-data; name=\"" + Escape(p.name) + "\"" + "; filename=\""
    + Escape(SentName(p)) + "\"\r\n"
    + "Content-Type: " + (if p.contentType == "" then "application/octet-stream" else p.contentType) + "\r\n\r\n"
  }

  /** The bytes of a file part, or why there are none. */
  function FileData(p: Part, files: seq<Option<FileState>>): Option<string> {
    if p.fileIndex < |files| && files[p.fileIndex].Some? && files[p.fileIndex].value.error.None?
    then files[p.fileIndex].value.data else None
  }

  function FileFailure(p: Part, files: seq<Option<FileState>>): Error {
    if p.fileIndex < |files| && files[p.fileIndex].Some? && files[p.fileIndex].value.error.Some?
    then FileError(files[p.fileIndex].value.error.value) else IoError
  }

  /** Header, content and line end of a part. */
  function Frame(p: Part, files: seq<Option<FileState>>): Option<string> {
    if p.isFile then
      var data := FileData(p, files);
      if data.None? then None else Some(FileHead(p) + data.value + CRLF)
    else Some(TextHead(p) + p.value + CRLF)
  }

  /** The file name a file part is sent under. */
  function SentName(p: Part): string {
    if p.filenameOverride == "" then DefaultFilename(p.reader) else p.filenameOverride
  }

  // ----- the body -----

  function Dash(boundary: string): string {
    "--" + boundary
  }

  /** Frames in order, each after its delimiter line, and the closing delimiter. */
  function Body(frames: seq<string>, boundary: string): string {
    if frames == [] then Dash(boundary) + "--\r\n"
    else Dash(boundary) + CRLF + frames[0] + Body(frames[1..], boundary)
  }

  /** The frames of all parts, or the failure of the first part without one. */
  datatype Framed = Frames(frames: seq<string>) | NoFrames(error: Error)

  function AllFrames(parts: seq<Part>, files: seq<Option<FileState>>): Framed {
    if parts == [] then Frames([])
    else
      var f := Frame(parts[0], files);
      if f.None? then NoFrames(FileFailure(parts[0], files))
      else
        var rest := AllFrames(parts[1..], files);
        if rest.NoFrames? then rest else Frames([f.value] + rest.frames)
  }

  /** What a build ends with. */
  function Assembled(parts: seq<Part>, files: seq<Option<FileState>>, boundary: string): Outcome {
    var r := AllFrames(parts, files);
    if r.NoFrames? then Failed(r.error) else Ready(Body(r.frames, boundary))
  }

  lemma {:induction false} FramesPointwise(parts: seq<Part>, files: seq<Option<FileState>>)
    requires AllFrames(parts, files).Frames?
    ensures |AllFrames(parts, files).frames| == |parts|
    ensures forall k :: 0 <= k < |parts| ==> Frame(parts[k], files) == Some(AllFrames(parts, files).frames[k])
  {
    if parts != [] {
      FramesPointwise(parts[1..], files);
      assert forall k :: 0 < k < |parts| ==> parts[k] == parts[1..][k - 1];
    }
  }

  /** A file part whose bytes did not arrive. */
  predicate NoBytes(p: Part, files: seq<Option<FileState>>) {
    p.isFile &&
    !(p.fileIndex < |files| && files[p.fileIndex].Some? && files[p.fileIndex].value.error == None
      && files[p.fileIndex].value.data.Some?)
  }

  /** A build fails at the first file part without bytes, with the error of its read or else an input/output error, and
      succeeds if there is none. */
  lemma {:induction false} AssembledExactly(parts: seq<Part>, files: seq<Option<FileState>>, boundary: string, k: nat)
    requires k <= |parts| && forall j :: 0 <= j < k ==> !NoBytes(parts[j], files)
    ensures k == |parts| ==> Assembled(parts, files, boundary).Ready?
    ensures k < |parts| && NoBytes(parts[k], files) ==>
      var read := if parts[k].fileIndex < |files| then files[parts[k].fileIndex] else None;
      Assembled(parts, files, boundary) ==
      Failed(if read.Some? && read.value.error.Some? then FileError(read.value.error.value) else IoError)
    decreases |parts|
  {
    hide TextHead, FileHead;
    if parts != [] && k > 0 {
      assert forall j :: 0 <= j < k - 1 ==> parts[1..][j] == parts[j + 1];
      AssembledExactly(parts[1..], files, boundary, k - 1);
    }
  }

  /** What is left to append after `k` parts, given the text so far. */
  function Continued(text: string, parts: seq<Part>, files: seq<Option<FileState>>, boundary: string): Outcome {
    var r := AllFrames(parts, files);
    if r.NoFrames? then Failed(r.error) else Ready(text + Body(r.frames, boundary))
  }

  lemma {:induction false} ContinueStep(text: string, p: Part, rest: seq<Part>, files: seq<Option<FileState>>,
                                        boundary: string)
    ensures var f := Frame(p, files);
            Continued(text, [p] + rest, files, boundary) ==
              if f.None? then Failed(FileFailure(p, files))
              else Continued(text + (Dash(boundary) + CRLF + f.value), rest, files, boundary)
  {
    hide Frame, FileFailure;
    assert ([p] + rest)[0] == p && ([p] + rest)[1..] == rest;
    var f, r := Frame(p, files), AllFrames(rest, files);
    if f.Some? && r.Frames? {
      assert ([f.value] + r.frames)[1..] == r.frames;
      assert text + (Dash(boundary) + CRLF + f.value + Body(r.frames, boundary))
          == text + (Dash(boundary) + CRLF + f.value) + Body(r.frames, boundary);
    }
  }

  /** The build loop: append part after part, stop at the first file that could not be read. */
  method BuildBody(parts: seq<Part>, files: seq<Option<FileState>>, boundary: string) returns (outcome: Outcome)
    ensures outcome == Assembled(parts, files, boundary)
  {
    hide Frame, AllFrames, Body;
    var body := "";
    assert parts[0..] == parts;
    ContinueStart(parts, files, boundary);
    for i := 0 to |parts|
      invariant Continued(body, parts[i..], files, boundary) == Assembled(parts, files, boundary)
    {
      var part := parts[i];
      assert parts[i..] == [part] + parts[i + 1..];
      ContinueStep(body, part, parts[i + 1..], files, boundary);
      var frame := BuildFrame(part, files);
      if frame.None? {
        return Failed(FileFailure(part, files));
      }
      body := body + (Dash(boundary) + CRLF + frame.value);
    }
    ContinueEnd(body, files, boundary);
    assert parts[|parts|..] == [];
    return Ready(body + (Dash(boundary) + "--\r\n"));
  }

  lemma {:induction false} ContinueStart(parts: seq<Part>, files: seq<Option<FileState>>, boundary: string)
    ensures Continued("", parts, files, boundary) == Assembled(parts, files, boundary)
  {
  }

  lemma ContinueEnd(text: string, files: seq<Option<FileState>>, boundary: string)
    ensures Continued(text, [], files, boundary) == Ready(text + (Dash(boundary) + "--\r\n"))
  {
  }

  method BuildFrame(p: Part, files: seq<Option<FileState>>) returns (frame: Option<string>)
    ensures frame == Frame(p, files)
  {
    var name := EscapeQuotedParameter(p.name);
    var head := "Content-Disposition: form-data; name=\"" + name + "\"";
    if p.isFile {
      var data := FileData(p, files);
      if data.None? {
        return None;
      }
      var filename := EscapeQuotedParameter(SentName(p));
      var contentType := if p.contentType == "" then "application/octet-stream" else p.contentType;
      head := head + "; filename=\"" + filename + "\"\r\n" + "Content-Type: " + contentType + "\r\n\r\n";
      return Some(head + data.value + CRLF);
    }
    head := head + "\"\r\n" + (if p.contentType == "" then "" else "Content-Type: " + p.contentType + CRLF) + CRLF;
    return Some(head + p.value + CRLF);
  }

  // ----- cutting at delimiters -----

  predicate OccursAt(s: string, d: string, i: nat) {
    i + |d| <= |s| && s[i..i + |d|] == d
  }

  ghost predicate Occurs(s: string, d: string) {
    exists i: nat :: OccursAt(s, d, i)
  }

  /** First occurrence of `d` at or after `i`, or the length of `s`. */
  function Find(s: string, d: string, i: nat): (k: nat)
    requires i <= |s|
    ensures i <= k <= |s|
    ensures k < |s| ==> OccursAt(s, d, k)
    ensures forall j: nat :: i <= j < k ==> !OccursAt(s, d, j)
    decreases |s| - i
  {
    if i == |s| || OccursAt(s, d, i) then i else Find(s, d, i + 1)
  }

  /** The pieces between non-overlapping occurrences of `d`, leftmost first. */
  function Cut(s: string, d: string): seq<string>
    requires d != ""
    decreases |s|
  {
    var k := Find(s, d, 0);
    if k == |s| then [s] else [s[..k]] + Cut(s[k + |d|..], d)
  }

  /** Before a delimiter without newline, text that ends a line and has no occurrence gives none. */
  lemma {:induction false} NoneBefore(x: string, d: string, rest: string, j: nat)
    requires '\n' !in d && !Occurs(x, d) && j < |x| && x[|x| - 1] == '\n'
    ensures !OccursAt(x + d + rest, d, j)
  {
    var s := x + d + rest;
    if j + |d| <= |x| {
      assert s[j..j + |d|] == x[j..j + |d|];
      assert !OccursAt(x, d, j);
    } else if j + |d| <= |s| {
      assert s[j..j + |d|][|x| - 1 - j] == '\n';
    }
  }

  /** Text that ends a line is cut off cleanly by a delimiter without newline. */
  lemma {:induction false} FindDelimiter(x: string, d: string, rest: string)
    requires d != "" && '\n' !in d && !Occurs(x, d) && (x == "" || x[|x| - 1] == '\n')
    ensures Cut(x + d + rest, d) == [x] + Cut(rest, d)
  {
    var s := x + d + rest;
    assert OccursAt(s, d, |x|) by { assert s[|x|..|x| + |d|] == d; }
    forall j: nat | j < |x| ensures !OccursAt(s, d, j) { NoneBefore(x, d, rest, j); }
    var k := Find(s, d, 0);
    assert k == |x|;
    assert s[..k] == x && s[k + |d|..] == rest;
  }

  /** The pieces a body is cut into. */
  function Pieces(frames: seq<string>): seq<string> {
    if frames == [] then ["--\r\n"] else [CRLF + frames[0]] + Pieces(frames[1..])
  }

  /** The frame ends a line and holds no dash-boundary. */
  ghost predicate Clean(frame: string, boundary: string) {
    frame != "" && frame[|frame| - 1] == '\n' && !Occurs(frame, Dash(boundary))
  }

  lemma {:induction false} CleanAfterLineEnd(frame: string, boundary: string)
    requires Clean(frame, boundary)
    ensures !Occurs(CRLF + frame, Dash(boundary))
  {
    var d, s := Dash(boundary), CRLF + frame;
    forall i: nat ensures !OccursAt(s, d, i) {
      if i < 2 {
        if i + |d| <= |s| { assert s[i..i + |d|][0] == CRLF[i]; }
      } else {
        assert !OccursAt(frame, d, i - 2);
        if i + |d| <= |s| { assert s[i..i + |d|] == frame[i - 2..i - 2 + |d|]; }
      }
    }
  }

  lemma {:induction false} CutAfterFirst(frames: seq<string>, boundary: string)
    requires '\n' !in boundary && |boundary| >= 3
    requires forall k :: 0 <= k < |frames| ==> Clean(frames[k], boundary)
    ensures |Body(frames, boundary)| >= |Dash(boundary)| && Body(frames, boundary)[..|Dash(boundary)|] == Dash(boundary)
    ensures Cut(Body(frames, boundary)[|Dash(boundary)|..], Dash(boundary)) == Pieces(frames)
  {
    hide Cut, Occurs;
    var d := Dash(boundary);
    var body := Body(frames, boundary);
    if frames == [] {
      assert body[|d|..] == "--\r\n";
      NoCut("--\r\n", d);
    } else {
      CutAfterFirst(frames[1..], boundary);
      var x, rest := CRLF + frames[0], Body(frames[1..], boundary);
      assert Clean(frames[0], boundary);
      CleanAfterLineEnd(frames[0], boundary);
      assert body[|d|..] == x + rest;
      assert rest == d + rest[|d|..];
      assert x + rest == x + d + rest[|d|..];
      FindDelimiter(x, d, rest[|d|..]);
    }
  }

  lemma {:induction false} NoCut(s: string, d: string)
    requires |d| > |s|
    ensures Cut(s, d) == [s]
  {
  }

  /** Cutting a body at its delimiters gives back exactly the frames in order, each behind the line end
      of its delimiter line, and then the closing mark, if no frame contains the dash-boundary. */
  lemma {:induction false} CutRecoversFrames(frames: seq<string>, boundary: string)
    requires '\n' !in boundary && |boundary| >= 3
    requires forall k :: 0 <= k < |frames| ==> Clean(frames[k], boundary)
    ensures Cut(Body(frames, boundary), Dash(boundary)) == [""] + Pieces(frames)
  {
    hide Cut, Find;
    var d := Dash(boundary);
    CutAfterFirst(frames, boundary);
    var rest := Body(frames, boundary)[|d|..];
    assert "" + d + rest == Body(frames, boundary);
    FindDelimiter("", d, rest);
  }

  lemma {:induction false} FrameEndsLine(p: Part, files: seq<Option<FileState>>)
    requires Frame(p, files).Some?
    ensures var f := Frame(p, files).value; f != "" && f[|f| - 1] == '\n'
  {
  }

  /** A built body cut at its delimiters gives back the frame of every part, in the order the parts were
      added, provided no frame contains the dash-boundary. */
  lemma {:induction false} BuiltBodyCuts(parts: seq<Part>, files: seq<Option<FileState>>, boundary: string)
    requires '\n' !in boundary && |boundary| >= 3 && Assembled(parts, files, boundary).Ready?
    requires forall k :: 0 <= k < |parts| ==>
               Frame(parts[k], files).Some? && !Occurs(Frame(parts[k], files).value, Dash(boundary))
    ensures var pieces := Cut(Assembled(parts, files, boundary).body, Dash(boundary));
            && |pieces| == |parts| + 2
            && (forall k :: 0 <= k < |parts| ==> pieces[k + 1] == CRLF + Frame(parts[k], files).value)
  {
    hide Frame, Occurs, Cut;
    FramesPointwise(parts, files);
    var frames := AllFrames(parts, files).frames;
    forall k | 0 <= k < |frames| ensures Clean(frames[k], boundary) {
      assert Frame(parts[k], files) == Some(frames[k]);
      FrameEndsLine(parts[k], files);
    }
    CutRecoversFrames(frames, boundary);
    PiecesPointwise(frames);
  }

  lemma {:induction false} PiecesPointwise(frames: seq<string>)
    ensures |Pieces(frames)| == |frames| + 1
    ensures forall k :: 0 <= k < |frames| ==> Pieces(frames)[k] == CRLF + frames[k]
  {
    if frames != [] { PiecesPointwise(frames[1..]); }
  }

  // ----- how many pieces a body has -----

  /** Text that ends a line can be cut apart from what follows it: no delimiter without newline spans the two. */
  lemma {:induction false} CutAfterLine(x: string, y: string, d: string)
    requires d != "" && '\n' !in d && x != "" && x[|x| - 1] == '\n'
    ensures |Cut(x + y, d)| == |Cut(x, d)| + |Cut(y, d)| - 1
    decreases |x|
  {
    hide Cut, Find, OccursAt;
    var s, k := x + y, Find(x, d, 0);
    forall j: nat | j < |x| ensures OccursAt(s, d, j) <==> OccursAt(x, d, j) { SpansNothing(x, y, d, j); }
    CutAt(x, d, k);
    if k < |x| {
      EndsInText(x, d, k);
      CutAt(s, d, k);
      assert s[k + |d|..] == x[k + |d|..] + y;
      CutAfterLine(x[k + |d|..], y, d);
    } else {
      CutBehind(x, y, d);
    }
  }

  /** Cutting at the first occurrence. */
  lemma {:induction false} CutAt(s: string, d: string, k: nat)
    requires d != "" && k <= |s| && (k < |s| ==> OccursAt(s, d, k)) && forall j: nat :: j < k ==> !OccursAt(s, d, j)
    ensures k == |s| ==> |Cut(s, d)| == 1
    ensures k < |s| ==> k + |d| <= |s| && |Cut(s, d)| == 1 + |Cut(s[k + |d|..], d)|
  {
    hide Find;
    var i := Find(s, d, 0);
  }

  lemma {:induction false} SpansNothing(x: string, y: string, d: string, j: nat)
    requires d != "" && '\n' !in d && x != "" && x[|x| - 1] == '\n' && j < |x|
    ensures OccursAt(x + y, d, j) <==> OccursAt(x, d, j)
  {
    var s := x + y;
    if j + |d| <= |x| {
      assert s[j..j + |d|] == x[j..j + |d|];
    } else if j + |d| <= |s| {
      assert s[j..j + |d|][|x| - 1 - j] == '\n';
    }
  }

  lemma {:induction false} EndsInText(x: string, d: string, k: nat)
    requires '\n' !in d && x != "" && x[|x| - 1] == '\n' && OccursAt(x, d, k) && d != ""
    ensures x[k + |d|..] != "" && x[k + |d|..][|x[k + |d|..]| - 1] == '\n'
  {
    assert x[k..k + |d|][|d| - 1] == x[k + |d| - 1];
  }

  lemma {:induction false} CutBehind(x: string, y: string, d: string)
    requires d != "" && x != "" && forall j: nat :: j < |x| ==> !OccursAt(x + y, d, j)
    ensures |Cut(x + y, d)| == |Cut(y, d)|
  {
    hide Cut, Find, OccursAt;
    var s, k := x + y, Find(y, d, 0);
    CutAt(y, d, k);
    forall j: nat ensures OccursAt(s, d, |x| + j) <==> OccursAt(y, d, j) { OccursBehind(x, y, d, j); }
    assert k < |y| ==> OccursAt(s, d, |x| + k);
    forall j: nat | j < |x| + k ensures !OccursAt(s, d, j) {
      if j >= |x| { assert !OccursAt(y, d, j - |x|) && j == |x| + (j - |x|); }
    }
    CutAt(s, d, |x| + k);
    if k < |y| { assert s[|x| + k + |d|..] == y[k + |d|..]; }
  }

  lemma {:induction false} OccursBehind(x: string, y: string, d: string, j: nat)
    ensures OccursAt(x + y, d, |x| + j) <==> OccursAt(y, d, j)
  {
    if j + |d| <= |y| { assert (x + y)[|x| + j..|x| + j + |d|] == y[j..j + |d|]; }
  }

  /** A delimiter at the front adds one piece. */
  lemma {:induction false} CutFront(d: string, rest: string)
    requires d != ""
    ensures |Cut(d + rest, d)| == 1 + |Cut(rest, d)|
  {
    hide Cut, Find;
    var s := d + rest;
    assert OccursAt(s, d, 0) by { assert s[0..|d|] == d; }
    CutAt(s, d, 0);
    assert s[0 + |d|..] == rest;
  }

  /** Each frame contributes one piece, and one more for every dash-boundary inside it. */
  lemma {:induction false} CutCount(frames: seq<string>, boundary: string)
    requires '\n' !in boundary && |boundary| >= 3
    requires forall k :: 0 <= k < |frames| ==> frames[k] != "" && frames[k][|frames[k]| - 1] == '\n'
    ensures |Cut(Body(frames, boundary), Dash(boundary))| >= |frames| + 2
    ensures |Cut(Body(frames, boundary), Dash(boundary))| == |frames| + 2 <==>
              forall k :: 0 <= k < |frames| ==> !Occurs(frames[k], Dash(boundary))
  {
    hide Cut, Occurs;
    var d := Dash(boundary);
    if frames == [] {
      CutFront(d, "--\r\n");
      NoCut("--\r\n", d);
    } else {
      var x, rest := CRLF + frames[0], Body(frames[1..], boundary);
      assert Body(frames, boundary) == d + (x + rest);
      CutFront(d, x + rest);
      CutAfterLine(x, rest, d);
      CutCount(frames[1..], boundary);
      CutOnce(frames[0], boundary);
      assert forall k :: 0 < k < |frames| ==> frames[k] == frames[1..][k - 1];
    }
  }

  lemma {:induction false} CutOnce(frame: string, boundary: string)
    requires frame != "" && frame[|frame| - 1] == '\n'
    ensures |Cut(CRLF + frame, Dash(boundary))| >= 1
    ensures |Cut(CRLF + frame, Dash(boundary))| == 1 <==> !Occurs(frame, Dash(boundary))
  {
    var d, s := Dash(boundary), CRLF + frame;
    if Occurs(frame, d) {
      var i: nat :| OccursAt(frame, d, i);
      assert OccursAt(s, d, i + 2) by { assert s[i + 2..i + 2 + |d|] == frame[i..i + |d|]; }
    } else {
      CleanAfterLineEnd(frame, boundary);
    }
  }

  /** The body built from any parts is cut into one piece per part, the empty piece before them and the closing mark
      if and only if no frame contains the dash-boundary, and into more pieces otherwise. */
  lemma {:induction false} BuiltBodyCutsIff(parts: seq<Part>, files: seq<Option<FileState>>, boundary: string)
    requires '\n' !in boundary && |boundary| >= 3 && Assembled(parts, files, boundary).Ready?
    ensures forall k :: 0 <= k < |parts| ==> Frame(parts[k], files).Some?
    ensures var n := |Cut(Assembled(parts, files, boundary).body, Dash(boundary))|;
            && n >= |parts| + 2
            && (n == |parts| + 2 <==>
                  forall k :: 0 <= k < |parts| ==> !Occurs(Frame(parts[k], files).value, Dash(boundary)))
  {
    hide Frame, Occurs, Cut;
    FramesPointwise(parts, files);
    var frames := AllFrames(parts, files).frames;
    forall k | 0 <= k < |frames| ensures frames[k] != "" && frames[k][|frames[k]| - 1] == '\n' {
      assert Frame(parts[k], files) == Some(frames[k]);
      FrameEndsLine(parts[k], files);
    }
    CutCount(frames, boundary);
  }

  /** A text part whose value is the dash-boundary itself breaks the cut. */
  lemma {:induction false} BoundaryInValue(boundary: string)
    requires '\n' !in boundary && |boundary| >= 3
    ensures var p := Part(false, 0, "", Dash(boundary), None, "", "");
            Assembled([p], [], boundary).Ready? && |Cut(Assembled([p], [], boundary).body, Dash(boundary))| > 3
  {
    hide Cut, Occurs, TextHead;
    var p, d := Part(false, 0, "", Dash(boundary), None, "", ""), Dash(boundary);
    assert [p][1..] == [] && [p][0] == p;
    assert AllFrames([p][1..], []) == Frames([]);
    BuiltBodyCutsIff([p], [], boundary);
    OccursWithin(TextHead(p), d, CRLF);
  }

  lemma OccursWithin(a: string, d: string, b: string)
    ensures Occurs(a + d + b, d)
  {
    assert OccursAt(a + d + b, d, |a|) by { assert (a + d + b)[|a|..|a| + |d|] == d; }
  }
}
