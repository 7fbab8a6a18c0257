/** The incremental server-sent-event parser (src/connection/client/sse_event_parser.cc) and its
    meaning on whole streams (sections 9.2.5 and 9.2.6 of the WHATWG HTML Standard). */
module SseParser {
  import opened Text

  datatype Event = Event(id: string, event: string, data: string, retry: Option<nat>)

  const NO_EVENT := Event("", "", "", None)

  /** What the parser knows between two lines: the event under construction and whether any field of
      it was seen. */
  datatype Lines = Lines(current: Event, hasField: bool)

  const START := Lines(NO_EVENT, false)

  const LF: char := '\n'
  const CR: char := '\r'
  const INT_MAX: nat := 0x7fff_ffff

  // ----- one line -----

  function StripCr(line: string): string {
    if line != "" && line[|line| - 1] == CR then line[..|line| - 1] else line
  }

  function TrimLeadingSpace(s: string): string {
    if s != "" && s[0] == ' ' then s[1..] else s
  }

  predicate Digit(c: char) {
    '0' <= c <= '9'
  }

  function DigitValue(c: char): nat
    requires Digit(c)
  {
    c as int - '0' as int
  }

  predicate AllDigits(s: string) {
    forall i :: 0 <= i < |s| ==> Digit(s[i])
  }

  /** The number written by a string of decimal digits. */
  function Number(s: string): nat
    requires AllDigits(s)
  {
    if s == "" then 0 else 10 * Number(s[..|s| - 1]) + DigitValue(s[|s| - 1])
  }

  /** A decimal int that fills the whole value and is not negative; a lone minus zero is accepted. */
  function ParseRetry(s: string): Option<nat> {
    var digits := if s != "" && s[0] == '-' then s[1..] else s;
    if digits == "" || !AllDigits(digits) then None
    else
      var n := Number(digits);
      if s[0] == '-' then (if n == 0 then Some(0) else None)
      else if n <= INT_MAX then Some(n) else None
  }

  function ApplyField(st: Lines, field: string, value: string): Lines {
    var e := st.current;
    if field == "data" then
      Lines(e.(data := if e.data == "" then value else e.data + [LF] + value), true)
    else if field == "id" then Lines(e.(id := value), true)
    else if field == "event" then Lines(e.(event := value), true)
    else if field == "retry" && ParseRetry(value).Some? then Lines(e.(retry := ParseRetry(value)), true)
    else st
  }

  /** The state after a complete line and the events it emits. */
  function ConsumeLine(st: Lines, line: string): (Lines, seq<Event>) {
    if line == "" then (if st.hasField then (START, [st.current]) else (st, []))
    else if line[0] == ':' then (st, [])
    else
      var colon := IndexOf(line, ':');
      var value := if colon == |line| then "" else TrimLeadingSpace(line[colon + 1..]);
      (ApplyField(st, line[..colon], value), [])
  }

  // ----- a stream -----

  /** State, unfinished last line, events. */
  datatype Parsed = Parsed(st: Lines, rest: string, events: seq<Event>)

  /** Consume every complete line of `text`. */
  function Parse(st: Lines, text: string): (r: Parsed)
    ensures LF !in r.rest
    decreases |text|
  {
    var i := IndexOf(text, LF);
    if i == |text| then assert text[..i] == text; Parsed(st, text, [])
    else
      var (next, out) := ConsumeLine(st, StripCr(text[..i]));
      var r := Parse(next, text[i + 1..]);
      Parsed(r.st, r.rest, out + r.events)
  }

  lemma {:induction false} ParseLine(st: Lines, line: string, more: string)
    requires LF !in line
    ensures var (next, out) := ConsumeLine(st, StripCr(line));
            var r := Parse(next, more);
            Parse(st, line + [LF] + more) == Parsed(r.st, r.rest, out + r.events)
  {
    var text := line + [LF] + more;
    IndexOfAt(text, LF, |line|) by { assert text[..|line|] == line; }
    assert text[..|line|] == line && text[|line| + 1..] == more;
  }

  lemma {:induction false} ParseUnfinished(st: Lines, text: string)
    requires LF !in text
    ensures Parse(st, text) == Parsed(st, text, [])
  {
  }

  /** Feeding a stream in two pieces, cut anywhere, is feeding it whole. */
  lemma {:induction false} ParseInTwo(st: Lines, a: string, b: string)
    ensures var first := Parse(st, a);
            var second := Parse(first.st, first.rest + b);
            Parse(st, a + b) == Parsed(second.st, second.rest, first.events + second.events)
    decreases |a|
  {
    hide ConsumeLine, StripCr, IndexOf, Parse;
    var i := IndexOf(a, LF);
    if i == |a| {
      assert a[..i] == a;
      ParseUnfinished(st, a);
      var whole := Parse(st, a + b);
      assert [] + whole.events == whole.events;
    } else {
      var line, more := a[..i], a[i + 1..];
      assert a == line + [LF] + more;
      assert a + b == line + [LF] + (more + b);
      ParseLine(st, line, more);
      ParseLine(st, line, more + b);
      var (next, out) := ConsumeLine(st, StripCr(line));
      ParseInTwo(next, more, b);
      var first := Parse(next, more);
      var second := Parse(first.st, first.rest + b);
      assert out + (first.events + second.events) == (out + first.events) + second.events;
    }
  }

  // ----- the parser object -----

  function Concat(chunks: seq<string>): string {
    if chunks == [] then "" else chunks[0] + Concat(chunks[1..])
  }

  /** The parser's state: the buffered unfinished line and the line state. */
  datatype State = State(pending: string, st: Lines)

  function Fed(s: State, chunk: string): (State, seq<Event>) {
    var r := Parse(s.st, s.pending + chunk);
    (State(r.rest, r.st), r.events)
  }

  function FedAll(s: State, chunks: seq<string>): (State, seq<Event>)
    decreases |chunks|
  {
    if chunks == [] then (s, [])
    else
      var (next, out) := Fed(s, chunks[0]);
      var (last, more) := FedAll(next, chunks[1..]);
      (last, out + more)
  }

  /** Chunking does not matter: for every way of cutting a stream into chunks, the events handed out
      and the final state are those of one feed of the whole stream. */
  lemma {:induction false} ChunkingInvariant(s: State, chunks: seq<string>)
    requires LF !in s.pending
    ensures FedAll(s, chunks) == Fed(s, Concat(chunks))
    decreases |chunks|
  {
    hide ConsumeLine, StripCr;
    if chunks == [] {
      assert s.pending + "" == s.pending;
      assert s.pending[..|s.pending|] == s.pending;
      IndexOfAt(s.pending, LF, |s.pending|);
    } else {
      var (next, out) := Fed(s, chunks[0]);
      ChunkingInvariant(next, chunks[1..]);
      ParseInTwo(s.st, s.pending + chunks[0], Concat(chunks[1..]));
      assert (s.pending + chunks[0]) + Concat(chunks[1..]) == s.pending + Concat(chunks);
    }
  }

  class SseEventParser {
    var pending: string
    var current: Event
    var hasField: bool

    ghost predicate Valid()
      reads this
    {
      LF !in pending
    }

    ghost function Value(): State
      reads this
    {
      State(pending, Lines(current, hasField))
    }

    constructor ()
      ensures Valid() && Value() == State("", START)
    {
      pending, current, hasField := "", NO_EVENT, false;
    }

    method Reset()
      modifies this
      ensures Valid() && Value() == State("", START)
    {
      pending, current, hasField := "", NO_EVENT, false;
    }

    method Consume(line: string, events: seq<Event>) returns (events': seq<Event>)
      modifies this
      ensures pending == old(pending)
      ensures var (next, out) := ConsumeLine(old(Lines(current, hasField)), line);
              Lines(current, hasField) == next && events' == events + out
    {
      events' := events;
      if line == "" {
        if hasField {
          events' := events' + [current];
          current, hasField := NO_EVENT, false;
        }
        return;
      }
      if line[0] == ':' {
        return;
      }
      var colon := IndexOf(line, ':');
      var value := "";
      if colon < |line| {
        value := TrimLeadingSpace(line[colon + 1..]);
      }
      var field := line[..colon];
      if field == "data" {
        current := current.(data := if current.data == "" then value else current.data + [LF] + value);
        hasField := true;
      } else if field == "id" {
        current, hasField := current.(id := value), true;
      } else if field == "event" {
        current, hasField := current.(event := value), true;
      } else if field == "retry" {
        var n := ParseRetry(value);
        if n.Some? {
          current, hasField := current.(retry := n), true;
        }
      }
    }

    /** Append a chunk, consume the complete lines, keep the rest. */
    method Feed(chunk: string) returns (events: seq<Event>)
      requires Valid()
      modifies this
      ensures Valid() && (Value(), events) == Fed(old(Value()), chunk)
    {
      hide ConsumeLine, StripCr, Parse;
      pending := pending + chunk;
      ghost var goal := Parse(Lines(current, hasField), pending);
      var lineStart := 0;
      events := [];
      assert pending[0..] == pending && [] + goal.events == goal.events;
      while lineStart < |pending|
        invariant 0 <= lineStart <= |pending| && pending == old(pending) + chunk
        invariant var r := Parse(Lines(current, hasField), pending[lineStart..]);
                  goal == Parsed(r.st, r.rest, events + r.events)
      {
        var tail := pending[lineStart..];
        var n := IndexOf(tail, LF);
        if n == |tail| {
          break;
        }
        ParseStep(Lines(current, hasField), tail, events);
        events := Consume(StripCr(tail[..n]), events);
        assert tail[n + 1..] == pending[lineStart + n + 1..];
        lineStart := lineStart + n + 1;
      }
      ParseNoLine(Lines(current, hasField), pending[lineStart..]);
      pending := pending[lineStart..];
      assert events + [] == events;
    }
  }

  lemma {:induction false} ParseStep(st: Lines, text: string, events: seq<Event>)
    requires IndexOf(text, LF) < |text|
    ensures var i := IndexOf(text, LF);
            var (next, out) := ConsumeLine(st, StripCr(text[..i]));
            var r, whole := Parse(next, text[i + 1..]), Parse(st, text);
            Parsed(whole.st, whole.rest, events + whole.events) == Parsed(r.st, r.rest, events + out + r.events)
  {
    var i := IndexOf(text, LF);
    var (next, out) := ConsumeLine(st, StripCr(text[..i]));
    var r := Parse(next, text[i + 1..]);
    assert events + (out + r.events) == events + out + r.events;
  }

  lemma {:induction false} ParseNoLine(st: Lines, text: string)
    ensures IndexOf(text, LF) == |text| ==> Parse(st, text) == Parsed(st, text, [])
    ensures text == "" ==> Parse(st, text) == Parsed(st, text, [])
  {
  }
}
