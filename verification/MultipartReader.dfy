/** Reading a part of a multipart body back: the frames that src/connection/client/multipart_generator.cc:130-179
    writes, under a reader that takes header lines up to an empty one. */
module MultipartReader {
  import opened Text
  import opened Multipart

  // ----- lines -----

  /** Index of the first CRLF, or the length. */
  function EndOf(s: string): (k: nat)
    ensures k <= |s| && (k < |s| ==> k + 2 <= |s| && s[k] == '\r' && s[k + 1] == '\n')
  {
    if |s| < 2 then |s| else if s[0] == '\r' && s[1] == '\n' then 0 else 1 + EndOf(s[1..])
  }

  predicate HasLineEnd(s: string) {
    EndOf(s) < |s|
  }

  /** A line without line end is the first one of what follows it. */
  lemma {:induction false} LineEnds(line: string, rest: string)
    requires !HasLineEnd(line)
    ensures EndOf(line + CRLF + rest) == |line|
    ensures (line + CRLF + rest)[..|line|] == line && (line + CRLF + rest)[|line| + 2..] == rest
  {
    var s := line + CRLF + rest;
    if line != "" {
      assert s[1..] == line[1..] + CRLF + rest;
      LineEnds(line[1..], rest);
    }
  }

  lemma {:induction false} JoinLines(a: string, b: string)
    requires !HasLineEnd(a) && !HasLineEnd(b) && (a == "" || b == "" || a[|a| - 1] != '\r' || b[0] != '\n')
    ensures !HasLineEnd(a + b)
  {
    if a == "" {
      assert a + b == b;
    } else {
      assert (a + b)[1..] == a[1..] + b;
      JoinLines(a[1..], b);
    }
  }

  lemma {:induction false} NoCarriage(s: string)
    requires '\r' !in s
    ensures !HasLineEnd(s)
  {
    if |s| >= 2 { NoCarriage(s[1..]); }
  }

  lemma {:induction false} BeforeLineEnd(s: string)
    ensures !HasLineEnd(s[..EndOf(s)])
  {
    if |s| < 2 {
      assert s[..EndOf(s)] == s;
    } else if !(s[0] == '\r' && s[1] == '\n') {
      BeforeLineEnd(s[1..]);
      var k := EndOf(s);
      assert s[..k][1..] == s[1..][..k - 1];
    }
  }

  lemma {:induction false} LineEndCons(c: char, s: string)
    ensures HasLineEnd([c] + s) <==> (c == '\r' && s != "" && s[0] == '\n') || HasLineEnd(s)
  {
    assert ([c] + s)[1..] == s;
  }

  /** Escaping neither makes nor breaks a line end. */
  lemma {:induction false} EscapeLines(s: string)
    ensures HasLineEnd(Escape(s)) <==> HasLineEnd(s)
    ensures Escape(s) != "" ==> s != "" && (Escape(s)[0] == '\n' <==> s[0] == '\n')
  {
    hide EndOf, HasLineEnd;
    if s != "" {
      EscapeLines(s[1..]);
      var e := Escape(s[1..]);
      assert s == [s[0]] + s[1..];
      LineEndCons(s[0], s[1..]);
      LineEndCons(s[0], e);
      if s[0] == '"' || s[0] == '\\' {
        assert Escape(s) == ['\\'] + ([s[0]] + e);
        LineEndCons('\\', [s[0]] + e);
      }
    }
  }

  /** No part of an escaped parameter looks finished. */
  lemma {:induction false} CutParameter(s: string, k: nat)
    requires k <= |Escape(s)|
    ensures Unquote(Escape(s)[..k]) == None
  {
    if s != "" && k > 0 {
      var e := Escape(s[1..]);
      if s[0] == '"' || s[0] == '\\' {
        if k > 1 {
          assert Escape(s)[..k][2..] == e[..k - 2];
          CutParameter(s[1..], k - 2);
        }
      } else {
        assert Escape(s)[..k][1..] == e[..k - 1];
        CutParameter(s[1..], k - 1);
      }
    }
  }

  // ----- the reader -----

  datatype Read = Read(name: string, filename: Option<string>, contentType: Option<string>, content: string)

  const NAME_HEAD: string := "Content-Disposition: form-data; name=\""
  const FILENAME_HEAD: string := "; filename=\""
  const TYPE_HEAD: string := "Content-Type: "

  /** The header lines up to an empty one, and what follows that. */
  function Head(s: string): Option<(seq<string>, string)>
    decreases |s|
  {
    var k := EndOf(s);
    if k == |s| then None
    else if k == 0 then Some(([], s[2..]))
    else
      match Head(s[k + 2..])
      case None => None
      case Some((lines, rest)) => Some(([s[..k]] + lines, rest))
  }

  /** The name and, if there is one, the file name in a disposition line. */
  function Disposition(line: string): Option<(string, Option<string>)> {
    if !(NAME_HEAD <= line) then None
    else
      match Unquote(line[|NAME_HEAD|..])
      case None => None
      case Some((name, rest)) => WithFilename(name, rest)
  }

  function WithFilename(name: string, rest: string): Option<(string, Option<string>)> {
    if !(FILENAME_HEAD <= rest) then Some((name, None))
    else
      match Unquote(rest[|FILENAME_HEAD|..])
      case None => None
      case Some((filename, _)) => Some((name, Some(filename)))
  }

  /** The content type in a header line. */
  function TypeIn(line: string): Option<string> {
    if TYPE_HEAD <= line then Some(line[|TYPE_HEAD|..]) else None
  }

  /** Read a frame: the disposition, the type in the next line if there is one, the content without its line end. */
  function ReadFrame(frame: string): Option<Read> {
    match Head(frame)
    case None => None
    case Some((lines, rest)) =>
      if lines == [] || Disposition(lines[0]).None? || |rest| < 2 || rest[|rest| - 2..] != CRLF then None
      else
        var (name, filename) := Disposition(lines[0]).value;
        Some(Read(name, filename, if |lines| > 1 then TypeIn(lines[1]) else None, rest[..|rest| - 2]))
  }

  // ----- what is written -----

  function SentType(p: Part): Option<string> {
    if p.contentType != "" then Some(p.contentType) else if p.isFile then Some("application/octet-stream") else None
  }

  function Sent(p: Part, content: string): Read {
    Read(p.name, if p.isFile then Some(SentName(p)) else None, SentType(p), content)
  }

  /** A quoted parameter behind its head, and what follows it. */
  function Quoted(head: string, name: string, rest: string): string {
    head + (Escape(name) + ['"'] + rest)
  }

  /** The disposition line of a part after its name; a text part has a second quote there. */
  function AfterName(p: Part): string {
    if p.isFile then Quoted(FILENAME_HEAD, SentName(p), "") else "\""
  }

  function Line(p: Part): string {
    Quoted(NAME_HEAD, p.name, AfterName(p))
  }

  /** What follows the disposition line. */
  function Tail(p: Part, content: string): string {
    var ending := "" + CRLF + (content + CRLF);
    if SentType(p).Some? then TYPE_HEAD + SentType(p).value + CRLF + ending else ending
  }

  function ContentOf(p: Part, files: seq<Option<FileState>>): string
    requires Frame(p, files).Some?
  {
    if p.isFile then FileData(p, files).value else p.value
  }

  /** Type and content, appended piece by piece after the disposition. */
  lemma {:induction false} AppendTail(text: string, t: string, content: string)
    ensures text + "Content-Type: " + t + "\r\n\r\n" + content + CRLF
         == text + (TYPE_HEAD + t + CRLF + ("" + CRLF + (content + CRLF)))
  {
  }

  lemma {:induction false} FrameLines(p: Part, files: seq<Option<FileState>>)
    requires Frame(p, files).Some?
    ensures Frame(p, files).value == Line(p) + CRLF + Tail(p, ContentOf(p, files))
  {
    hide Escape, FileData, SentName;
    if p.isFile { FileFrameLines(p, files); } else { TextFrameLines(p); }
  }

  lemma {:induction false} TextFrameLines(p: Part)
    requires !p.isFile
    ensures TextHead(p) + p.value + CRLF == Line(p) + CRLF + Tail(p, p.value)
  {
    hide Escape;
  }

  lemma {:induction false} FileFrameLines(p: Part, files: seq<Option<FileState>>)
    requires p.isFile && Frame(p, files).Some?
    ensures Frame(p, files).value == Line(p) + CRLF + Tail(p, ContentOf(p, files))
  {
    hide Escape, FileData, SentName, Tail;
    FileLine(p);
    var t, content := SentType(p).value, ContentOf(p, files);
    AppendTail(FileLineText(p), t, content);
    TailShape(p, content);
  }

  /** The disposition line of a file part as it is appended. */
  function FileLineText(p: Part): string {
    "Content-Disposition: form-data; name=\"" + Escape(p.name) + "\"" + "; filename=\"" + Escape(SentName(p)) + "\"\r\n"
  }

  lemma {:induction false} FileLine(p: Part)
    requires p.isFile
    ensures FileLineText(p) == Line(p) + CRLF
  {
    hide Escape, SentName;
    var e, f := Escape(p.name), Escape(SentName(p));
    Nest(NAME_HEAD, e, FILENAME_HEAD, f);
  }

  lemma {:induction false} Nest(a: string, e: string, b: string, f: string)
    ensures a + e + "\"" + b + f + "\"\r\n" == a + (e + ['"'] + (b + (f + ['"'] + ""))) + CRLF
  {
  }

  lemma {:induction false} TailShape(p: Part, content: string)
    requires SentType(p).Some?
    ensures Tail(p, content) == TYPE_HEAD + SentType(p).value + CRLF + ("" + CRLF + (content + CRLF))
  {
  }

  // ----- reading back -----

  lemma {:induction false} HeadOfLine(line: string, rest: string)
    requires line != "" && !HasLineEnd(line)
    ensures var h := Head(rest);
            Head(line + CRLF + rest) == if h.None? then None else Some(([line] + h.value.0, h.value.1))
  {
    hide EndOf, HasLineEnd;
    LineEnds(line, rest);
  }

  lemma {:induction false} HeadOfEnding(content: string)
    ensures Head("" + CRLF + (content + CRLF)) == Some(([], content + CRLF))
  {
    LineEnds("", content + CRLF);
  }

  lemma {:induction false} NameHead()
    ensures !HasLineEnd(NAME_HEAD)
  {
    hide EndOf, HasLineEnd;
    NoCarriage(NAME_HEAD);
  }

  lemma {:induction false} FilenameHead()
    ensures !HasLineEnd(FILENAME_HEAD) && FILENAME_HEAD[0] == ';' && !(FILENAME_HEAD <= "\"")
  {
    hide EndOf, HasLineEnd;
    NoCarriage(FILENAME_HEAD);
  }

  lemma {:induction false} TypeHead()
    ensures !HasLineEnd(TYPE_HEAD)
  {
    hide EndOf, HasLineEnd;
    NoCarriage(TYPE_HEAD);
  }

  /** Name, file name and type hold no line end. */
  predicate OneLined(p: Part) {
    && !HasLineEnd(p.name) && (p.isFile ==> !HasLineEnd(SentName(p)))
    && (SentType(p).Some? ==> !HasLineEnd(SentType(p).value))
  }

  /** Text, then a quoted parameter cut off after its first `k` characters. */
  lemma {:induction false} QuotedLine(head: string, name: string, k: nat)
    requires !HasLineEnd(head) && head != "" && head[|head| - 1] == '"'
    requires k <= EndOf(Escape(name))
    ensures !HasLineEnd(head + Escape(name)[..k])
  {
    hide Escape;
    var e := Escape(name);
    BeforeLineEnd(e);
    ShorterLine(e[..EndOf(e)], k);
    assert e[..EndOf(e)][..k] == e[..k];
    JoinLines(head, e[..k]);
  }

  lemma {:induction false} ShorterLine(s: string, k: nat)
    requires !HasLineEnd(s) && k <= |s|
    ensures !HasLineEnd(s[..k])
  {
    if |s| >= 2 && k > 0 {
      ShorterLine(s[1..], k - 1);
      assert s[..k][1..] == s[1..][..k - 1];
    }
  }

  /** A quoted parameter keeps its line in one piece if it holds no line end. */
  lemma {:induction false} QuotedKeeps(head: string, name: string, rest: string)
    requires !HasLineEnd(head) && head != "" && head[|head| - 1] == '"'
    requires !HasLineEnd(name) && !HasLineEnd(rest) && (rest != "" ==> rest[0] != '\n')
    ensures !HasLineEnd(Quoted(head, name, rest)) && Quoted(head, name, rest) != ""
  {
    hide EndOf, HasLineEnd, Escape;
    var e := Escape(name);
    EscapeLines(name);
    NoCarriage(['"']);
    JoinLines(e, ['"']);
    JoinLines(e + ['"'], rest);
    JoinLines(head, e + ['"'] + rest);
  }

  lemma {:induction false} WholeLine(p: Part)
    requires !HasLineEnd(p.name) && (p.isFile ==> !HasLineEnd(SentName(p)))
    ensures !HasLineEnd(Line(p)) && Line(p) != ""
  {
    hide EndOf, HasLineEnd, Quoted, SentName;
    NameHead();
    FilenameHead();
    NoCarriage("\"");
    NoCarriage("");
    if p.isFile {
      QuotedKeeps(FILENAME_HEAD, SentName(p), "");
      QuotedFirst(FILENAME_HEAD, SentName(p), "");
    }
    QuotedKeeps(NAME_HEAD, p.name, AfterName(p));
  }

  lemma QuotedFirst(head: string, name: string, rest: string)
    requires head != ""
    ensures Quoted(head, name, rest) != "" && Quoted(head, name, rest)[0] == head[0]
  {
  }

  lemma Behind(head: string, x: string)
    ensures head <= head + x && (head + x)[|head|..] == x
  {
  }

  lemma {:induction false} NameRead(name: string, rest: string)
    ensures Disposition(Quoted(NAME_HEAD, name, rest)) == WithFilename(name, rest)
  {
    hide Escape, Unquote, WithFilename;
    Behind(NAME_HEAD, Escape(name) + ['"'] + rest);
    QuoteRoundTrip(name, rest);
  }

  lemma {:induction false} FilenameRead(name: string, filename: string)
    ensures WithFilename(name, Quoted(FILENAME_HEAD, filename, "")) == Some((name, Some(filename)))
  {
    hide Escape, Unquote;
    Behind(FILENAME_HEAD, Escape(filename) + ['"'] + "");
    QuoteRoundTrip(filename, "");
  }

  lemma {:induction false} DispositionRead(p: Part)
    ensures Disposition(Line(p)) == Some((p.name, if p.isFile then Some(SentName(p)) else None))
  {
    hide Unquote, SentName, Disposition, Quoted;
    NameRead(p.name, AfterName(p));
    FilenameHead();
    FilenameRead(p.name, SentName(p));
  }

  lemma {:induction false} TailRead(p: Part, content: string)
    requires SentType(p).Some? ==> !HasLineEnd(SentType(p).value)
    ensures Head(Tail(p, content)) ==
              Some((if SentType(p).Some? then [TYPE_HEAD + SentType(p).value] else [], content + CRLF))
  {
    hide Head, EndOf, HasLineEnd;
    HeadOfEnding(content);
    if SentType(p).Some? {
      TypeHead();
      JoinLines(TYPE_HEAD, SentType(p).value);
      HeadOfLine(TYPE_HEAD + SentType(p).value, "" + CRLF + (content + CRLF));
      assert [TYPE_HEAD + SentType(p).value] + [] == [TYPE_HEAD + SentType(p).value];
    }
  }

  lemma {:induction false} ReadsBack(p: Part, content: string)
    requires OneLined(p)
    ensures ReadFrame(Line(p) + CRLF + Tail(p, content)) == Some(Sent(p, content))
  {
    hide Head, EndOf, HasLineEnd, Disposition, Line, Tail;
    WholeLine(p);
    HeadOfLine(Line(p), Tail(p, content));
    TailRead(p, content);
    DispositionRead(p);
    assert (content + CRLF)[|content|..] == CRLF && (content + CRLF)[..|content|] == content;
  }

  // ----- line ends inside parameters -----

  /** A line broken inside its quoted parameter. */
  lemma {:induction false} BrokenAt(head: string, e: string, k: nat, rest: string, tail: string)
    requires k + 2 <= |e| && e[k] == '\r' && e[k + 1] == '\n'
    ensures head + (e + ['"'] + rest) + CRLF + tail == (head + e[..k]) + CRLF + (e[k + 2..] + ['"'] + rest + CRLF + tail)
  {
    assert e == e[..k] + CRLF + e[k + 2..];
  }

  /** The frame is cut inside the parameter: the first line ends there. */
  lemma {:induction false} BrokenLine(head: string, name: string, rest: string, tail: string)
    requires HasLineEnd(name) && !HasLineEnd(head) && head != "" && head[|head| - 1] == '"'
    ensures var k := EndOf(Escape(name));
            var h := Head(Quoted(head, name, rest) + CRLF + tail);
            k <= |Escape(name)| && (h.Some? ==> h.value.0 != [] && h.value.0[0] == head + Escape(name)[..k])
  {
    hide Head, Escape;
    EscapeLines(name);
    var e := Escape(name);
    var k := EndOf(e);
    QuotedLine(head, name, k);
    BrokenAt(head, e, k, rest, tail);
    HeadOfLine(head + e[..k], e[k + 2..] + ['"'] + rest + CRLF + tail);
  }

  lemma {:induction false} BrokenName(p: Part, tail: string)
    requires HasLineEnd(p.name)
    ensures ReadFrame(Line(p) + CRLF + tail) == None
  {
    hide Head, EndOf, Escape, Unquote, AfterName, Quoted, HasLineEnd;
    NameHead();
    BrokenLine(NAME_HEAD, p.name, AfterName(p), tail);
    var k := EndOf(Escape(p.name));
    Behind(NAME_HEAD, Escape(p.name)[..k]);
    CutParameter(p.name, k);
    assert Disposition(NAME_HEAD + Escape(p.name)[..k]) == None;
  }

  /** The disposition line as far as the file name. */
  function BeforeFilename(p: Part): string {
    Quoted(NAME_HEAD, p.name, FILENAME_HEAD)
  }

  lemma {:induction false} BrokenFilename(p: Part, tail: string)
    requires !HasLineEnd(p.name) && p.isFile && HasLineEnd(SentName(p))
    ensures ReadFrame(Line(p) + CRLF + tail) == None
  {
    hide Head, EndOf, Escape, SentName, HasLineEnd, Disposition, BeforeFilename, Line;
    FilenameLine(p);
    BrokenLine(BeforeFilename(p), SentName(p), "", tail);
    CutFilename(p, EndOf(Escape(SentName(p))));
  }

  /** The disposition line of a file part, with the file name as its last parameter. */
  lemma {:induction false} FilenameLine(p: Part)
    requires p.isFile && !HasLineEnd(p.name)
    ensures Line(p) == Quoted(BeforeFilename(p), SentName(p), "")
    ensures !HasLineEnd(BeforeFilename(p)) && BeforeFilename(p) != "" && BeforeFilename(p)[|BeforeFilename(p)| - 1] == '"'
  {
    hide Escape, SentName, EndOf, HasLineEnd;
    NameHead();
    FilenameHead();
    QuotedKeeps(NAME_HEAD, p.name, FILENAME_HEAD);
    Reassociate(NAME_HEAD, Escape(p.name) + ['"'], FILENAME_HEAD, Escape(SentName(p)) + ['"'] + "");
  }

  lemma Reassociate(a: string, b: string, c: string, d: string)
    ensures a + (b + (c + d)) == (a + (b + c)) + d
    ensures c != "" ==> a + (b + c) != "" && (a + (b + c))[|a + (b + c)| - 1] == c[|c| - 1]
  {
  }

  lemma {:induction false} CutFilename(p: Part, k: nat)
    requires p.isFile && k <= |Escape(SentName(p))|
    ensures Disposition(BeforeFilename(p) + Escape(SentName(p))[..k]) == None
  {
    hide Escape, Unquote, SentName, Disposition;
    var cut := Escape(SentName(p))[..k];
    Reassociate(NAME_HEAD, Escape(p.name) + ['"'], FILENAME_HEAD, cut);
    NameRead(p.name, FILENAME_HEAD + cut);
    Behind(FILENAME_HEAD, cut);
    CutParameter(SentName(p), k);
  }

  lemma {:induction false} BrokenType(p: Part, content: string)
    requires !HasLineEnd(p.name) && (p.isFile ==> !HasLineEnd(SentName(p)))
    requires SentType(p).Some? && HasLineEnd(SentType(p).value)
    ensures ReadFrame(Line(p) + CRLF + Tail(p, content)) != Some(Sent(p, content))
  {
    hide Head, EndOf, Disposition, Line;
    var t := SentType(p).value;
    var k := EndOf(t);
    var x, y := TYPE_HEAD + t[..k], t[k + 2..] + CRLF + ("" + CRLF + (content + CRLF));
    WholeLine(p);
    BeforeLineEnd(t);
    TypeHead();
    JoinLines(TYPE_HEAD, t[..k]);
    assert t == t[..k] + CRLF + t[k + 2..];
    assert Tail(p, content) == x + CRLF + y;
    HeadOfLine(Line(p), Tail(p, content));
    HeadOfLine(x, y);
    assert TypeIn(x) == Some(t[..k]);
    assert t[..k] != t;
  }

  /** A frame reads back as the name, file name, type and content of its part if and only if name, file name and type
      hold no line end; quotes and backslashes in them do no harm, nor does anything in the content. */
  lemma {:induction false} FrameReadIff(p: Part, files: seq<Option<FileState>>)
    requires Frame(p, files).Some?
    ensures ReadFrame(Frame(p, files).value) == Some(Sent(p, ContentOf(p, files))) <==> OneLined(p)
  {
    hide Frame, ReadFrame, Line, Tail, HasLineEnd, ContentOf, SentName, SentType;
    FrameLines(p, files);
    var content := ContentOf(p, files);
    if OneLined(p) {
      ReadsBack(p, content);
    } else if HasLineEnd(p.name) {
      BrokenName(p, Tail(p, content));
    } else if p.isFile && HasLineEnd(SentName(p)) {
      BrokenFilename(p, Tail(p, content));
    } else {
      BrokenType(p, content);
    }
  }

  /** What is read then, field by field: the given file name, else that of the reader, else `file`; the given type, else
      the binary type for a file and none for a text; the bytes of the file or the text. */
  lemma {:induction false} FrameFields(p: Part, files: seq<Option<FileState>>)
    requires Frame(p, files).Some? && OneLined(p)
    ensures p.isFile ==> p.fileIndex < |files| && files[p.fileIndex].Some? && files[p.fileIndex].value.data.Some?
    ensures var filename := if p.filenameOverride != "" then p.filenameOverride
                            else if p.reader.Some? && p.reader.value.filename != "" then p.reader.value.filename
                            else "file";
            var byDefault := if p.isFile then Some("application/octet-stream") else None;
            ReadFrame(Frame(p, files).value) ==
            Some(Read(p.name, if p.isFile then Some(filename) else None,
                      if p.contentType != "" then Some(p.contentType) else byDefault,
                      if p.isFile then files[p.fileIndex].value.data.value else p.value))
  {
    hide ReadFrame, OneLined, TextHead, FileHead;
    FrameReadIff(p, files);
  }

  /** Such a part: its name holds a line end, so the reader loses it. */
  lemma {:induction false} LineEndInName()
    ensures var p := Part(false, 0, CRLF, "", None, "", "");
            Frame(p, []).Some? && ReadFrame(Frame(p, []).value) != Some(Sent(p, ""))
  {
    hide ReadFrame;
    var p := Part(false, 0, CRLF, "", None, "", "");
    FrameReadIff(p, []);
    assert EndOf(CRLF) == 0;
  }
}
