/** Printing events in the standard line format and parsing them back. */
module SseRoundTrip {
  import opened Text
  import opened SseParser

  // ----- printing -----

  function DigitChar(k: nat): (c: char)
    requires k < 10
    ensures Digit(c) && DigitValue(c) == k
  {
    "0123456789"[k]
  }

  function Digits(n: nat): string {
    (if n < 10 then "" else Digits(n / 10)) + [DigitChar(n % 10)]
  }

  function FieldLine(name: string, value: string): string {
    name + ": " + value + [LF]
  }

  function DataLines(lines: seq<string>): string {
    if lines == [] then "" else FieldLine("data", lines[0]) + DataLines(lines[1..])
  }

  function Optional(name: string, value: string): string {
    if value == "" then "" else FieldLine(name, value)
  }

  function Print(e: Event): string {
    Optional("id", e.id) + (Optional("event", e.event)
      + ((if e.retry.None? then "" else FieldLine("retry", Digits(e.retry.value)))
         + ((if e.data == "" then "" else DataLines(Split(e.data, LF))) + [LF])))
  }

  function PrintAll(events: seq<Event>): string {
    if events == [] then "" else Print(events[0]) + PrintAll(events[1..])
  }

  /** The value fits on a line: no newline in it, no carriage return at its end. */
  predicate OneLine(value: string) {
    LF !in value && (value != "" ==> value[|value| - 1] != CR)
  }

  predicate Printable(e: Event) {
    && OneLine(e.id) && OneLine(e.event)
    && (forall k :: 0 <= k < |Split(e.data, LF)| ==> OneLine(Split(e.data, LF)[k]))
    && (e.retry.Some? ==> e.retry.value <= INT_MAX)
    && (e.id != "" || e.event != "" || e.data != "" || e.retry.Some?)
  }

  /** Data without its leading empty lines. */
  function WithoutLeadingLines(data: string): string {
    if data != "" && data[0] == LF then WithoutLeadingLines(data[1..]) else data
  }

  // ----- numbers -----

  lemma {:induction false} NumberSnoc(front: string, c: char)
    requires Digit(c) && AllDigits(front)
    ensures AllDigits(front + [c])
    ensures Number(front + [c]) == 10 * Number(front) + DigitValue(c)
  {
  }

  lemma {:induction false} DigitsParse(n: nat)
    ensures Digits(n) != ""
    ensures AllDigits(Digits(n))
    ensures Number(Digits(n)) == n
  {
    hide Number, Digit, DigitValue, DigitChar;
    if n < 10 {
      NumberSnoc("", DigitChar(n));
      NumberEmpty();
    } else {
      DigitsParse(n / 10);
      NumberSnoc(Digits(n / 10), DigitChar(n % 10));
    }
  }

  lemma {:induction false} NumberEmpty()
    ensures Number("") == 0
  {
  }

  lemma {:induction false} RetryParses(n: nat)
    requires n <= INT_MAX
    ensures ParseRetry(Digits(n)) == Some(n) && OneLine(Digits(n))
  {
    DigitsParse(n);
    var d := Digits(n);
    assert Digit(d[0]) && Digit(d[|d| - 1]);
  }

  // ----- one field -----

  predicate FieldName(name: string) {
    name != "" && ':' !in name && LF !in name
  }

  lemma {:induction false} FieldConsumed(st: Lines, name: string, value: string)
    requires FieldName(name) && OneLine(value)
    ensures var line := name + ": " + value;
            LF !in line && ConsumeLine(st, StripCr(line)) == (ApplyField(st, name, value), [])
  {
    var line := name + ": " + value;
    assert line[|line| - 1] == (if value == "" then ' ' else value[|value| - 1]);
    assert line[0] == name[0] && name[0] in name;
    IndexOfAt(line, ':', |name|) by { assert line[..|name|] == name; }
    assert line[..|name|] == name;
    assert line[|name| + 1..] == " " + value;
    assert (" " + value)[1..] == value;
  }

  lemma {:induction false} FieldParsed(st: Lines, name: string, value: string, more: string)
    requires FieldName(name) && OneLine(value)
    ensures Parse(st, FieldLine(name, value) + more) == Parse(ApplyField(st, name, value), more)
  {
    hide ConsumeLine, StripCr, ApplyField;
    FieldConsumed(st, name, value);
    var line := name + ": " + value;
    assert FieldLine(name, value) + more == line + [LF] + more;
    ParseLine(st, line, more);
    var r := Parse(ApplyField(st, name, value), more);
    assert [] + r.events == r.events;
  }

  // ----- data -----

  /** The data after lines were appended one by one. */
  function Appended(data: string, lines: seq<string>): string
    decreases |lines|
  {
    if lines == [] then data
    else Appended(if data == "" then lines[0] else data + [LF] + lines[0], lines[1..])
  }

  function WithData(st: Lines, lines: seq<string>): Lines {
    if lines == [] then st else Lines(st.current.(data := Appended(st.current.data, lines)), true)
  }

  lemma {:induction false} WithDataStep(st: Lines, lines: seq<string>)
    requires lines != []
    ensures WithData(st, lines) == WithData(ApplyField(st, "data", lines[0]), lines[1..])
  {
    var next := ApplyField(st, "data", lines[0]);
    assert Appended(st.current.data, lines) == Appended(next.current.data, lines[1..]);
  }

  lemma {:induction false} DataLinesStep(lines: seq<string>, more: string)
    requires lines != []
    ensures DataLines(lines) + more == FieldLine("data", lines[0]) + (DataLines(lines[1..]) + more)
  {
  }

  lemma {:induction false} DataParsed(st: Lines, lines: seq<string>, more: string)
    requires forall k :: 0 <= k < |lines| ==> OneLine(lines[k])
    ensures Parse(st, DataLines(lines) + more) == Parse(WithData(st, lines), more)
    decreases |lines|
  {
    hide Parse, ApplyField, FieldLine, OneLine, Appended;
    if lines == [] {
      assert DataLines(lines) + more == more;
    } else {
      hide WithData, DataLines;
      DataLinesStep(lines, more);
      FieldParsed(st, "data", lines[0], DataLines(lines[1..]) + more);
      DataParsed(ApplyField(st, "data", lines[0]), lines[1..], more);
      WithDataStep(st, lines);
    }
  }

  /** Pieces joined by newlines, each with a newline in front. */
  function Tails(lines: seq<string>): string {
    if lines == [] then "" else [LF] + lines[0] + Tails(lines[1..])
  }

  lemma {:induction false} AppendedJoins(data: string, lines: seq<string>)
    requires data != ""
    ensures Appended(data, lines) == data + Tails(lines)
    decreases |lines|
  {
    if lines != [] {
      AppendedJoins(data + [LF] + lines[0], lines[1..]);
      assert data + [LF] + lines[0] + Tails(lines[1..]) == data + ([LF] + lines[0] + Tails(lines[1..]));
    }
  }

  lemma Prepend(a: string, b: string, c: string)
    requires a + b == c
    ensures [LF] + a + b == [LF] + c
  {
  }

  lemma Rejoin(s: string, i: nat)
    requires i < |s| && s[i] == LF
    ensures s[..i] + ([LF] + s[i + 1..]) == s
  {
  }

  lemma {:induction false} SplitStep(s: string)
    ensures var i := IndexOf(s, LF);
      Split(s, LF) == if i == |s| then [s] else [s[..i]] + Split(s[i + 1..], LF)
  {
  }

  lemma {:induction false} SplitJoins(s: string)
    ensures Split(s, LF)[0] + Tails(Split(s, LF)[1..]) == s
    decreases |s|
  {
    hide IndexOf, Split;
    SplitStep(s);
    var i := IndexOf(s, LF);
    if i == |s| {
      assert Split(s, LF)[1..] == [];
    } else {
      SplitJoins(s[i + 1..]);
      var rest := Split(s[i + 1..], LF);
      assert Split(s, LF)[1..] == rest && Split(s, LF)[0] == s[..i];
      Prepend(rest[0], Tails(rest[1..]), s[i + 1..]);
      assert Tails(rest) == [LF] + s[i + 1..];
      Rejoin(s, i);
    }
  }

  /** Appending the lines of some data from nothing drops its leading empty lines. */
  lemma {:induction false} AppendedSplit(data: string)
    ensures Appended("", Split(data, LF)) == WithoutLeadingLines(data)
    decreases |data|
  {
    var lines := Split(data, LF);
    if data != "" && data[0] == LF {
      assert IndexOf(data, LF) == 0;
      assert data[..0] == "";
      assert lines == [""] + Split(data[1..], LF);
      AppendedSplit(data[1..]);
    } else {
      SplitJoins(data);
      if lines[0] != "" {
        AppendedJoins(lines[0], lines[1..]);
      } else {
        EmptyFirstLine(data);
      }
    }
  }

  lemma {:induction false} EmptyFirstLine(data: string)
    requires Split(data, LF)[0] == "" && (data == "" || data[0] != LF)
    ensures data == "" && Split(data, LF) == [""]
  {
  }

  // ----- events -----

  lemma {:induction false} OptionalParsed(st: Lines, name: string, value: string, more: string)
    requires name == "id" || name == "event"
    requires OneLine(value)
    ensures Parse(st, Optional(name, value) + more) == Parse(if value == "" then st else ApplyField(st, name, value), more)
  {
    if value == "" {
      assert Optional(name, value) + more == more;
    } else {
      FieldParsed(st, name, value, more);
    }
  }

  lemma {:induction false} RetryParsed(st: Lines, retry: Option<nat>, more: string)
    requires retry.Some? ==> retry.value <= INT_MAX
    ensures Parse(st, (if retry.None? then "" else FieldLine("retry", Digits(retry.value))) + more) ==
              Parse(if retry.None? then st else Lines(st.current.(retry := retry), true), more)
  {
    if retry.None? {
      assert "" + more == more;
    } else {
      RetryParses(retry.value);
      FieldParsed(st, "retry", Digits(retry.value), more);
    }
  }

  lemma {:induction false} OptionalData(st: Lines, data: string, more: string)
    requires forall k :: 0 <= k < |Split(data, LF)| ==> OneLine(Split(data, LF)[k])
    requires st.current.data == ""
    ensures Parse(st, (if data == "" then "" else DataLines(Split(data, LF))) + more) ==
              Parse(if data == "" then st else Lines(st.current.(data := WithoutLeadingLines(data)), true), more)
  {
    if data == "" {
      assert "" + more == more;
    } else {
      DataParsed(st, Split(data, LF), more);
      AppendedSplit(data);
    }
  }

  lemma {:induction false} BlankParsed(st: Lines, more: string)
    requires st.hasField
    ensures var r := Parse(START, more);
            Parse(st, [LF] + more) == Parsed(r.st, r.rest, [st.current] + r.events)
  {
  }

  /** Parsing a printed event yields it, up to leading empty lines of its data, and goes on afresh. */
  lemma {:induction false} PrintedEvent(e: Event, more: string)
    requires Printable(e)
    ensures var r := Parse(START, more);
            Parse(START, Print(e) + more) == Parsed(r.st, r.rest, [e.(data := WithoutLeadingLines(e.data))] + r.events)
  {
    hide Parse, Split, Optional, FieldLine, DataLines, Digits, WithoutLeadingLines;
    var idPart, eventPart := Optional("id", e.id), Optional("event", e.event);
    var retryPart := if e.retry.None? then "" else FieldLine("retry", Digits(e.retry.value));
    var dataPart := if e.data == "" then "" else DataLines(Split(e.data, LF));
    var m3 := [LF] + more;
    var m2 := dataPart + m3;
    var m1 := retryPart + m2;
    assert Print(e) + more == idPart + (eventPart + m1);
    OptionalParsed(START, "id", e.id, eventPart + m1);
    var s1 := if e.id == "" then START else ApplyField(START, "id", e.id);
    OptionalParsed(s1, "event", e.event, m1);
    var s2 := if e.event == "" then s1 else ApplyField(s1, "event", e.event);
    RetryParsed(s2, e.retry, m2);
    var s3 := if e.retry.None? then s2 else Lines(s2.current.(retry := e.retry), true);
    OptionalData(s3, e.data, m3);
    var s4 := if e.data == "" then s3 else Lines(s3.current.(data := WithoutLeadingLines(e.data)), true);
    NothingLeading("");
    BlankParsed(s4, more);
    assert s4.current == e.(data := WithoutLeadingLines(e.data));
  }

  lemma {:induction false} NothingLeading(data: string)
    ensures WithoutLeadingLines(data) == data <==> data == "" || data[0] != LF
  {
    if data != "" && data[0] == LF { Shorter(data[1..]); }
  }

  lemma {:induction false} Shorter(data: string)
    ensures |WithoutLeadingLines(data)| <= |data|
  {
    if data != "" && data[0] == LF { Shorter(data[1..]); }
  }

  function Stripped(events: seq<Event>): seq<Event> {
    if events == [] then [] else [events[0].(data := WithoutLeadingLines(events[0].data))] + Stripped(events[1..])
  }

  /** Print/parse round trip: a printed list of events parses, with nothing left over, to the same list
      up to the leading empty lines of data, which the parser drops. */
  lemma {:induction false} RoundTrip(events: seq<Event>)
    requires forall k :: 0 <= k < |events| ==> Printable(events[k])
    ensures Parse(START, PrintAll(events)) == Parsed(START, "", Stripped(events))
  {
    hide Print, Printable;
    if events != [] {
      PrintedEvent(events[0], PrintAll(events[1..]));
      RoundTrip(events[1..]);
    }
  }

  /** So the very same list comes back exactly when no event's data starts with a newline. */
  lemma {:induction false} RoundTripExact(events: seq<Event>)
    requires forall k :: 0 <= k < |events| ==> Printable(events[k])
    ensures Parse(START, PrintAll(events)).events == events <==>
              forall k :: 0 <= k < |events| ==> events[k].data == "" || events[k].data[0] != LF
  {
    hide Printable;
    RoundTrip(events);
    StrippedSame(events);
  }

  /** A printable event that does not come back: its data starts with a newline. */
  lemma {:induction false} LeadingNewlineDropped()
    ensures var e := NO_EVENT.(data := [LF, 'x']);
            Printable(e) && Parse(START, PrintAll([e])).events != [e]
  {
    var e := NO_EVENT.(data := [LF, 'x']);
    assert e.data == "" + [LF] + "x";
    SplitConcat("", "x", LF);
    SplitWhole("", LF);
    SplitWhole("x", LF);
    assert Split(e.data, LF) == ["", "x"];
    NotFirst(e);
  }

  lemma {:induction false} NotFirst(e: Event)
    requires Printable(e) && e.data != "" && e.data[0] == LF
    ensures Parse(START, PrintAll([e])).events != [e]
  {
    hide Printable, Parse, PrintAll;
    RoundTripExact([e]);
    assert [e][0] == e;
  }

  lemma {:induction false} StrippedSame(events: seq<Event>)
    ensures |Stripped(events)| == |events|
    ensures Stripped(events) == events <==>
              forall k :: 0 <= k < |events| ==> events[k].data == "" || events[k].data[0] != LF
  {
    if events != [] {
      StrippedSame(events[1..]);
      NothingLeading(events[0].data);
      assert events == [events[0]] + events[1..];
      assert Stripped(events)[1..] == Stripped(events[1..]);
    }
  }
}
