/** The line format of the event-stream parser (src/connection/client/sse_event_parser.cc), stated on texts: line
    ends, comments, fields and numbers. */
module SseLines {
  import opened Text
  import opened SseParser
  import opened SseRoundTrip

  // ----- line ends -----

  /** A line may end in a carriage return and a newline or in a newline alone. */
  lemma {:induction false} CrlfIsLf(st: Lines, line: string, more: string)
    requires OneLine(line)
    ensures Parse(st, line + [CR] + [LF] + more) == Parse(st, line + [LF] + more)
  {
    hide ConsumeLine, Parse;
    assert (line + [CR])[..|line|] == line;
    ParseLine(st, line + [CR], more);
    ParseLine(st, line, more);
  }

  /** The text with a carriage return in front of every newline. */
  function Crlf(text: string): string
    decreases |text|
  {
    var i := IndexOf(text, LF);
    if i == |text| then text else text[..i] + [CR] + [LF] + Crlf(text[i + 1..])
  }

  /** No newline has a carriage return in front of it. */
  predicate OnlyLf(text: string) {
    forall i :: 0 <= i < |text| - 1 && text[i] == CR ==> text[i + 1] != LF
  }

  lemma {:induction false} FirstLine(text: string)
    requires IndexOf(text, LF) < |text| && OnlyLf(text)
    ensures var i := IndexOf(text, LF);
            text == text[..i] + [LF] + text[i + 1..] && OneLine(text[..i]) && OnlyLf(text[i + 1..])
  {
    var i := IndexOf(text, LF);
    assert text == text[..i] + [LF] + text[i + 1..];
    if i > 0 { assert text[..i][i - 1] == text[i - 1]; }
    var more := text[i + 1..];
    forall k | 0 <= k < |more| - 1 && more[k] == CR ensures more[k + 1] != LF {
      assert text[i + 1 + k] == CR && text[i + 1 + k + 1] == more[k + 1];
    }
  }

  /** A whole stream with CRLF line ends parses like the stream with newlines alone. */
  lemma {:induction false} CrlfStream(st: Lines, text: string)
    requires OnlyLf(text)
    ensures Parse(st, Crlf(text)) == Parse(st, text)
    decreases |text|
  {
    hide Parse, ConsumeLine, StripCr, OnlyLf;
    var i := IndexOf(text, LF);
    if i < |text| {
      FirstLine(text);
      var line, more := text[..i], text[i + 1..];
      CrlfIsLf(st, line, Crlf(more));
      var (next, out) := ConsumeLine(st, StripCr(line));
      CrlfStream(next, more);
      ParseLine(st, line, more);
      ParseLine(st, line, Crlf(more));
    }
  }

  // ----- printed events with CRLF line ends -----

  /** Whole lines. */
  predicate Closed(text: string) {
    OnlyLf(text) && (text != "" ==> text[|text| - 1] == LF)
  }

  lemma {:induction false} ClosedJoin(a: string, b: string)
    requires Closed(a) && Closed(b)
    ensures Closed(a + b)
  {
    var t := a + b;
    forall i | 0 <= i < |t| - 1 && t[i] == CR ensures t[i + 1] != LF {
      if i < |a| - 1 {
        assert a[i] == CR;
      } else if i >= |a| {
        assert b[i - |a|] == CR && t[i + 1] == b[i - |a| + 1];
      }
    }
  }

  lemma {:induction false} FieldClosed(name: string, value: string)
    requires OneLine(name) && OneLine(value)
    ensures Closed(FieldLine(name, value))
  {
    var line := FieldLine(name, value);
    assert |line| == |name| + 2 + |value| + 1;
    forall i | 0 <= i < |line| - 1 && line[i] == CR ensures line[i + 1] != LF {
      if i < |name| {
        assert line[i] == name[i];
      } else if i >= |name| + 2 {
        assert line[i] == value[i - |name| - 2];
        if i < |line| - 2 { assert line[i + 1] == value[i + 1 - |name| - 2]; }
      }
    }
  }

  lemma {:induction false} DataClosed(lines: seq<string>)
    requires forall k :: 0 <= k < |lines| ==> OneLine(lines[k])
    ensures Closed(DataLines(lines))
  {
    hide FieldLine, OneLine, Closed;
    if lines == [] {
      EmptyClosed();
    } else {
      FieldClosed("data", lines[0]) by { Names(); }
      DataClosed(lines[1..]);
      ClosedJoin(FieldLine("data", lines[0]), DataLines(lines[1..]));
    }
  }

  lemma EmptyClosed()
    ensures Closed("") && Closed([LF])
  {
  }

  lemma Names()
    ensures OneLine("data") && OneLine("id") && OneLine("event") && OneLine("retry")
  {
  }

  lemma {:induction false} PrintClosed(e: Event)
    requires Printable(e)
    ensures Closed(Print(e))
  {
    hide FieldLine, OneLine, Closed, Split, Digits, DataLines;
    Names();
    EmptyClosed();
    FieldClosed("id", e.id);
    FieldClosed("event", e.event);
    var retryPart := if e.retry.None? then "" else FieldLine("retry", Digits(e.retry.value));
    if e.retry.Some? {
      RetryParses(e.retry.value);
      FieldClosed("retry", Digits(e.retry.value));
    }
    DataClosed(Split(e.data, LF));
    var dataPart := if e.data == "" then "" else DataLines(Split(e.data, LF));
    ClosedJoin(dataPart, [LF]);
    ClosedJoin(retryPart, dataPart + [LF]);
    ClosedJoin(Optional("event", e.event), retryPart + (dataPart + [LF]));
    ClosedJoin(Optional("id", e.id), Optional("event", e.event) + (retryPart + (dataPart + [LF])));
  }

  lemma {:induction false} PrintAllClosed(events: seq<Event>)
    requires forall k :: 0 <= k < |events| ==> Printable(events[k])
    ensures Closed(PrintAll(events))
  {
    hide Print, Printable, Closed;
    if events == [] {
      EmptyClosed();
    } else {
      PrintClosed(events[0]);
      PrintAllClosed(events[1..]);
      ClosedJoin(Print(events[0]), PrintAll(events[1..]));
    }
  }

  /** Events printed with CRLF line ends come back as well. */
  lemma {:induction false} RoundTripCrlf(events: seq<Event>)
    requires forall k :: 0 <= k < |events| ==> Printable(events[k])
    ensures Parse(START, Crlf(PrintAll(events))) == Parsed(START, "", Stripped(events))
  {
    hide PrintAll, Printable, Parse, Crlf;
    PrintAllClosed(events);
    CrlfStream(START, PrintAll(events));
    RoundTrip(events);
  }

  // ----- lines without effect -----

  lemma {:induction false} LineSkipped(st: Lines, line: string, more: string)
    requires OneLine(line) && ConsumeLine(st, line) == (st, [])
    ensures Parse(st, line + [LF] + more) == Parse(st, more)
  {
    hide ConsumeLine, Parse;
    ParseLine(st, line, more);
    var r := Parse(st, more);
    assert [] + r.events == r.events;
  }

  /** A line that starts with a colon is a comment. */
  lemma {:induction false} CommentSkipped(st: Lines, comment: string, more: string)
    requires OneLine(comment)
    ensures Parse(st, ":" + comment + [LF] + more) == Parse(st, more)
  {
    var line := ":" + comment;
    assert line[|line| - 1] == (if comment == "" then ':' else comment[|comment| - 1]);
    LineSkipped(st, line, more);
  }

  /** A blank line ends an event only if a field of it was seen. */
  lemma {:induction false} BlankSkipped(st: Lines, more: string)
    requires !st.hasField
    ensures Parse(st, [LF] + more) == Parse(st, more)
  {
    LineSkipped(st, "", more);
    assert "" + [LF] + more == [LF] + more;
  }

  /** A field with any other name than the four known ones is ignored. */
  lemma {:induction false} UnknownFieldSkipped(st: Lines, name: string, value: string, more: string)
    requires FieldName(name) && OneLine(value) && name != "data" && name != "id" && name != "event" && name != "retry"
    ensures Parse(st, FieldLine(name, value) + more) == Parse(st, more)
  {
    FieldParsed(st, name, value, more);
  }

  // ----- the four fields -----

  /** Every field line replaces its own part of the event, but data, which is appended on a new line. */
  lemma {:induction false} FieldsTakeEffect(st: Lines, value: string, more: string)
    requires OneLine(value)
    ensures Parse(st, FieldLine("id", value) + more) == Parse(Lines(st.current.(id := value), true), more)
    ensures Parse(st, FieldLine("event", value) + more) == Parse(Lines(st.current.(event := value), true), more)
    ensures var data := if st.current.data == "" then value else st.current.data + "\n" + value;
            Parse(st, FieldLine("data", value) + more) == Parse(Lines(st.current.(data := data), true), more)
  {
    hide Parse, FieldLine;
    FieldParsed(st, "id", value, more);
    FieldParsed(st, "event", value, more);
    FieldParsed(st, "data", value, more);
  }

  /** The space after the colon is optional. */
  lemma {:induction false} SpaceOptional(st: Lines, name: string, value: string, more: string)
    requires FieldName(name) && OneLine(value) && (value != "" ==> value[0] != ' ')
    ensures Parse(st, name + ":" + value + [LF] + more) == Parse(st, FieldLine(name, value) + more)
  {
    hide Parse, FieldLine;
    FieldParsed(st, name, value, more);
    var line := name + ":" + value;
    UnspacedConsumed(st, name, value);
    ParseLine(st, line, more);
    var r := Parse(ApplyField(st, name, value), more);
    assert [] + r.events == r.events;
  }

  lemma {:induction false} UnspacedConsumed(st: Lines, name: string, value: string)
    requires FieldName(name) && OneLine(value) && (value != "" ==> value[0] != ' ')
    ensures var line := name + ":" + value;
            LF !in line && ConsumeLine(st, StripCr(line)) == (ApplyField(st, name, value), [])
  {
    var line := name + ":" + value;
    assert line[|line| - 1] == (if value == "" then ':' else value[|value| - 1]);
    assert line[0] == name[0] && name[0] in name;
    IndexOfAt(line, ':', |name|) by { assert line[..|name|] == name; }
    assert line[..|name|] == name;
    assert line[|name| + 1..] == value;
  }

  /** A line without a colon is a field with an empty value. */
  lemma {:induction false} ColonOptional(st: Lines, name: string, more: string)
    requires FieldName(name) && OneLine(name)
    ensures Parse(st, name + [LF] + more) == Parse(st, FieldLine(name, "") + more)
  {
    hide Parse, FieldLine;
    FieldParsed(st, name, "", more);
    assert name[0] in name;
    assert name[..|name|] == name;
    IndexOfAt(name, ':', |name|);
    assert ConsumeLine(st, StripCr(name)) == (ApplyField(st, name, ""), []);
    ParseLine(st, name, more);
    var r := Parse(ApplyField(st, name, ""), more);
    assert [] + r.events == r.events;
  }

  // ----- retry -----

  /** A decimal number is a retry delay exactly when it is at most the largest int; with a minus sign only zero is. */
  lemma {:induction false} RetryIff(n: nat)
    ensures ParseRetry(Digits(n)) == if n <= 2147483647 then Some(n) else None
    ensures ParseRetry("-" + Digits(n)) == if n == 0 then Some(0) else None
  {
    DigitsParse(n);
    var d := Digits(n);
    assert Digit(d[0]);
    assert ("-" + d)[1..] == d;
  }

  lemma {:induction false} NotANumber(s: string, rest: string)
    requires s == "-" + rest || (s == rest && (s != "" ==> s[0] != '-'))
    requires rest == "" || exists i :: 0 <= i < |rest| && !Digit(rest[i])
    ensures ParseRetry(s) == None
  {
    assert s == "-" + rest ==> s[1..] == rest;
  }

  /** Anything that is not digits, with at most a minus sign in front, is not. */
  lemma {:induction false} RetryRejects(rest: string)
    requires rest == "" || exists i :: 0 <= i < |rest| && !('0' <= rest[i] <= '9')
    ensures ParseRetry("-" + rest) == None
    ensures rest == "" || rest[0] != '-' ==> ParseRetry(rest) == None
  {
    hide ParseRetry;
    if i :| 0 <= i < |rest| && !('0' <= rest[i] <= '9') { assert !Digit(rest[i]); }
    NotANumber("-" + rest, rest);
    if rest == "" || rest[0] != '-' { NotANumber(rest, rest); }
  }

  /** A retry line sets the delay to such a number and is ignored otherwise. */
  lemma {:induction false} RetryTakesEffect(st: Lines, value: string, n: nat, more: string)
    requires OneLine(value)
    ensures n <= 2147483647 ==>
              Parse(st, FieldLine("retry", Digits(n)) + more) == Parse(Lines(st.current.(retry := Some(n)), true), more)
    ensures ParseRetry(value) == None ==> Parse(st, FieldLine("retry", value) + more) == Parse(st, more)
  {
    hide Parse, FieldLine, ParseRetry;
    if n <= 2147483647 {
      RetryParses(n);
      FieldParsed(st, "retry", Digits(n), more);
    }
    FieldParsed(st, "retry", value, more);
  }
}
