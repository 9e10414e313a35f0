/** The Anthropic adapter's server-sent-event parser, which keeps event names and untrimmed data. */
module AnthropicSse {
  import opened Text
  import opened LineStream

  const EVENT := "event: "
  const DATA := "data: "

  datatype Event = Event(name: string, data: string)

  /** The event being assembled and the events yielded so far. */
  datatype Parser = Parser(name: string, data: string, out: seq<Event>)

  const INITIAL := Parser("message", "", [])

  function Emitted(s: Parser): seq<Event> {
    if s.data == "" then s.out else s.out + [Event(s.name, s.data)]
  }

  function AddData(data: string, l: string): string {
    if data == "" then l else data + "\n" + l
  }

  function Line(s: Parser, line: string): Parser {
    if StartsWith(line, EVENT) then s.(name := Trim(line[|EVENT|..]))
    else if StartsWith(line, DATA) then s.(data := AddData(s.data, line[|DATA|..]))
    else if Trim(line) == "" then Parser("message", "", Emitted(s))
    else s
  }

  function Finish(f: Feed<Parser>): seq<Event> {
    if Trim(f.buffer) == "" && f.state.data == "" then f.state.out
    else Emitted(Fold(Line, f.state, Split(f.buffer, '\n')))
  }

  /** The events of a whole text. */
  function Events(text: string): seq<Event> {
    Finish(OnText(Line, INITIAL, text))
  }

  /** Drains complete lines into the state; a flush also emits an event without its blank line. */
  method DrainSseLines(lines: seq<string>, state: Parser, flush: bool) returns (state': Parser)
    ensures var s := Fold(Line, state, lines);
            state' == if flush && s.data != "" then Parser(s.name, "", Emitted(s)) else s
  {
    state' := state;
    for i := 0 to |lines|
      invariant state' == Fold(Line, state, lines[..i])
    {
      FoldLast(Line, state, lines, i);
      var line := lines[i];
      if StartsWith(line, EVENT) {
        state' := state'.(name := Trim(line[|EVENT|..]));
      } else if StartsWith(line, DATA) {
        state' := state'.(data := if state'.data != "" then state'.data + "\n" + line[|DATA|..] else line[|DATA|..]);
      } else if Trim(line) == "" {
        if state'.data != "" {
          state' := state'.(out := state'.out + [Event(state'.name, state'.data)]);
        }
        state' := state'.(name := "message", data := "");
      }
    }
    assert lines[..|lines|] == lines;
    if flush && state'.data != "" {
      state' := state'.(out := state'.out + [Event(state'.name, state'.data)], data := "");
    }
  }

  /** The events are those of the concatenated text, however it was cut into chunks. */
  method ParseSse(chunks: seq<string>) returns (out: seq<Event>)
    ensures out == Events(Concat(chunks))
  {
    var buffer := "";
    var state := INITIAL;
    for c := 0 to |chunks|
      invariant Feed(state, buffer) == OnChunks(Line, INITIAL, chunks[..c])
    {
      assert chunks[..c + 1][..c] == chunks[..c];
      buffer := buffer + chunks[c];
      var lines := Split(buffer, '\n');
      buffer := lines[|lines| - 1];
      state := DrainSseLines(lines[..|lines| - 1], state, false);
    }
    assert chunks[..|chunks|] == chunks;
    ChunkIndependence(Line, INITIAL, chunks);
    if Trim(buffer) != "" || state.data != "" {
      state := DrainSseLines(Split(buffer, '\n'), state, true);
    }
    out := state.out;
  }

  // ---- Printing events ----

  function PrintLines(lines: seq<string>): string {
    if lines == [] then "\n" else DATA + lines[0] + "\n" + PrintLines(lines[1..])
  }

  function PrintEvents(events: seq<Event>): string {
    if events == [] then ""
    else EVENT + events[0].name + "\n" + PrintLines(Split(events[0].data, '\n')) + PrintEvents(events[1..])
  }

  /** A name that fits on its line. */
  predicate IsName(name: string) {
    Free(name, '\n') && Trim(name) == name
  }

  function DropNewlines(s: string): string {
    if s != "" && s[0] == '\n' then DropNewlines(s[1..]) else s
  }

  function FirstOf(e: Event): seq<Event> {
    if DropNewlines(e.data) == "" then [] else [Event(e.name, DropNewlines(e.data))]
  }

  /** Leading empty data lines are lost, and an event whose data consists of them is lost as a whole. */
  function Received(events: seq<Event>): seq<Event> {
    if events == [] then []
    else
      FirstOf(events[0]) + Received(events[1..])
  }

  function AddAll(data: string, lines: seq<string>): string
    decreases lines
  {
    if lines == [] then data else AddAll(AddData(data, lines[0]), lines[1..])
  }

  lemma {:induction false} AddAllJoins(data: string, lines: seq<string>)
    requires lines != []
    ensures data != "" ==> AddAll(data, lines) == data + "\n" + Join(lines, '\n')
    ensures data == "" && lines[0] != "" ==> AddAll(data, lines) == Join(lines, '\n')
    decreases lines
  {
    if |lines| > 1 {
      AddAllJoins(AddData(data, lines[0]), lines[1..]);
      if data != "" {
        assert data + "\n" + lines[0] + "\n" + Join(lines[1..], '\n')
            == data + "\n" + (lines[0] + "\n" + Join(lines[1..], '\n'));
      }
    } else {
      assert AddAll(AddData(data, lines[0]), lines[1..]) == AddData(data, lines[0]);
    }
  }

  lemma {:induction false} AddAllDrops(lines: seq<string>)
    requires lines != [] && forall i :: 0 <= i < |lines| ==> Free(lines[i], '\n')
    ensures AddAll("", lines) == DropNewlines(Join(lines, '\n'))
  {
    if lines[0] != "" {
      AddAllJoins("", lines);
      assert Join(lines, '\n')[0] == lines[0][0];
    } else if |lines| > 1 {
      AddAllDrops(lines[1..]);
      assert Join(lines, '\n') == "\n" + Join(lines[1..], '\n');
      assert Join(lines, '\n')[1..] == Join(lines[1..], '\n');
    }
  }

  lemma {:induction false} ReadPrintedLines(lines: seq<string>, s: Parser, rest: string)
    requires forall i :: 0 <= i < |lines| ==> Free(lines[i], '\n')
    ensures OnText(Line, s, PrintLines(lines) + rest) ==
            OnText(Line, Parser("message", "", Emitted(s.(data := AddAll(s.data, lines)))), rest)
  {
    if lines == [] {
      assert PrintLines(lines) + rest == "" + "\n" + rest;
      OnTextLine(Line, s, "", rest);
    } else {
      var line := DATA + lines[0];
      assert PrintLines(lines) + rest == line + "\n" + (PrintLines(lines[1..]) + rest);
      OnTextLine(Line, s, line, PrintLines(lines[1..]) + rest);
      assert line[..|DATA|] == DATA && line[|DATA|..] == lines[0];
      assert !StartsWith(line, EVENT) by {
        assert |line| >= |EVENT| ==> line[..|EVENT|][0] == 'd';
      }
      ReadPrintedLines(lines[1..], Line(s, line), rest);
    }
  }

  lemma ReadPrintedEvent(e: Event, out: seq<Event>, rest: string)
    requires IsName(e.name)
    ensures OnText(Line, Parser("message", "", out), EVENT + e.name + "\n" + PrintLines(Split(e.data, '\n')) + rest) ==
            var data := DropNewlines(e.data);
            OnText(Line, Parser("message", "", if data == "" then out else out + [Event(e.name, data)]), rest)
  {
    var s := Parser("message", "", out);
    var lines := Split(e.data, '\n');
    var line := EVENT + e.name;
    assert line + "\n" + PrintLines(lines) + rest == line + "\n" + (PrintLines(lines) + rest);
    OnTextLine(Line, s, line, PrintLines(lines) + rest);
    assert line[..|EVENT|] == EVENT && line[|EVENT|..] == e.name;
    SplitParts(e.data, '\n');
    ReadPrintedLines(lines, s.(name := e.name), rest);
    AddAllDrops(lines);
    JoinSplit(e.data, '\n');
  }

  /** What is yielded for `text` after `out`, starting between two events. */
  function ReadFrom(out: seq<Event>, text: string): seq<Event> {
    Finish(OnText(Line, Parser("message", "", out), text))
  }

  lemma ReadNothing(out: seq<Event>)
    ensures ReadFrom(out, "") == out
  {
    assert Split("", '\n') == [""];
  }

  lemma ReadFirst(events: seq<Event>, out: seq<Event>)
    requires events != [] && IsName(events[0].name)
    ensures ReadFrom(out, PrintEvents(events)) == ReadFrom(out + FirstOf(events[0]), PrintEvents(events[1..]))
  {
    ReadPrintedEvent(events[0], out, PrintEvents(events[1..]));
    assert out + [] == out;
  }

  lemma ReceivedAfter(events: seq<Event>, out: seq<Event>)
    requires events != []
    ensures out + Received(events) == out + FirstOf(events[0]) + Received(events[1..])
  {
  }

  lemma {:induction false} ReadPrinted(events: seq<Event>, out: seq<Event>, text: string)
    requires forall e :: e in events ==> IsName(e.name)
    requires text == PrintEvents(events)
    ensures ReadFrom(out, text) == out + Received(events)
  {
    if events == [] {
      ReadNothing(out);
    } else {
      ReadFirst(events, out);
      ReceivedAfter(events, out);
      ReadPrinted(events[1..], out + FirstOf(events[0]), PrintEvents(events[1..]));
    }
  }

  lemma {:induction false} ReceivedFaithfully(events: seq<Event>)
    ensures |Received(events)| <= |events|
    ensures Received(events) == events <==> forall e :: e in events ==> e.data != "" && e.data[0] != '\n'
  {
    if events != [] {
      ReceivedFaithfully(events[1..]);
      DropShortens(events[0].data);
      assert events == [events[0]] + events[1..];
      if Received(events) == events {
        assert Received(events)[0] == events[0];
        assert Received(events)[1..] == events[1..];
      }
    }
  }

  lemma {:induction false} DropShortens(s: string)
    ensures |DropNewlines(s)| <= |s|
    ensures DropNewlines(s) == s <==> s == "" || s[0] != '\n'
  {
    if s != "" && s[0] == '\n' {
      DropShortens(s[1..]);
    }
  }

  // ---- What any text can yield ----

  ghost predicate NamedAll(events: seq<Event>) {
    forall i :: 0 <= i < |events| ==> IsName(events[i].name)
  }

  ghost predicate Named(s: Parser) {
    IsName(s.name) && NamedAll(s.out)
  }

  lemma LineKeepsNamed(s: Parser, line: string)
    requires Named(s) && Free(line, '\n')
    ensures Named(Line(s, line))
  {
    assert Free("message", '\n') && Trim("message") == "message";
    if StartsWith(line, EVENT) {
      var name := line[|EVENT|..];
      assert Free(name, '\n');
      TrimKeepsFree(name, '\n');
      TrimIsIdempotent(name);
    }
  }

  lemma {:induction false} LinesKeepNamed(s: Parser, lines: seq<string>)
    requires Named(s) && forall i :: 0 <= i < |lines| ==> Free(lines[i], '\n')
    ensures Named(Fold(Line, s, lines))
    decreases |lines|
  {
    if lines != [] {
      LineKeepsNamed(s, lines[0]);
      LinesKeepNamed(Line(s, lines[0]), lines[1..]);
    }
  }

  /** Whatever the text, the names of its events are trimmed and fit on a line. */
  lemma EventsAreNamed(text: string)
    ensures NamedAll(Events(text))
  {
    assert Free("message", '\n') && Trim("message") == "message";
    var lines := Split(text, '\n');
    SplitParts(text, '\n');
    LinesKeepNamed(INITIAL, lines[..|lines| - 1]);
    var f := OnText(Line, INITIAL, text);
    SplitParts(f.buffer, '\n');
    LinesKeepNamed(f.state, Split(f.buffer, '\n'));
  }

  /** The event survives printing: its name fits on its line, and its data is not empty nor starts with a newline. */
  predicate Faithful(e: Event) {
    IsName(e.name) && e.data != "" && e.data[0] != '\n'
  }

  /**
   Printed events come back unchanged exactly when each is faithful; with
   names that fit on their lines, what is lost is known.
   */
  lemma EventsRoundTrip(events: seq<Event>)
    ensures Events(PrintEvents(events)) == events <==> forall e :: e in events ==> Faithful(e)
    ensures (forall e :: e in events ==> IsName(e.name)) ==> Events(PrintEvents(events)) == Received(events)
  {
    if forall e :: e in events ==> IsName(e.name) {
      ReadPrinted(events, [], PrintEvents(events));
      ReceivedFaithfully(events);
    }
    EventsAreNamed(PrintEvents(events));
  }

  /** Two data lines of which the first is empty arrive as the second alone. */
  lemma LeadingEmptyLineIsLost()
    ensures Events(PrintEvents([Event("message", "\nx")])) == [Event("message", "x")]
  {
    assert Trim("message") == "message";
    EventsRoundTrip([Event("message", "\nx")]);
    assert DropNewlines("\nx") == "x";
    assert Received([Event("message", "\nx")]) == [Event("message", "x")];
  }

  // ---- Every line, and the end of the stream ----

  predicate NamesEvent(line: string) {
    |line| >= 7 && line[..7] == "event: "
  }

  predicate CarriesData(line: string) {
    |line| >= 6 && line[..6] == "data: "
  }

  lemma FieldIsNotBlank(line: string)
    requires NamesEvent(line) || CarriesData(line)
    ensures Trim(line) != "" && !(NamesEvent(line) && CarriesData(line))
  {
    var i, j := TrimCuts(line);
    assert NamesEvent(line) ==> line[..7][0] == line[0] == 'e';
    assert CarriesData(line) ==> line[..6][0] == line[0] == 'd';
    assert !IsSpace(line[0]) && i == 0;
  }

  lemma FinishedLine(s: Parser, line: string)
    requires Free(line, '\n')
    ensures Finish(Feed(s, line)) == Emitted(Line(s, line)) == Finish(Feed(Line(s, line), ""))
  {
    SplitFree(line, '\n');
    assert [line][1..] == [];
    assert Fold(Line, s, [line]) == Line(s, line);
    if Trim(line) == "" {
      if NamesEvent(line) || CarriesData(line) {
        FieldIsNotBlank(line);
      }
    }
    assert Trim("") == "";
    FinishedEmpty(Line(s, line));
  }

  lemma FinishedEmpty(s: Parser)
    ensures Finish(Feed(s, "")) == Emitted(s)
  {
    assert Split("", '\n') == [""] && [""][1..] == [] && Trim("") == "";
    assert Fold(Line, s, [""]) == Line(s, "");
  }

  /** A missing newline at the end makes no difference. */
  lemma EndOfStream(text: string)
    ensures Events(text) == Events(text + "\n")
  {
    var f := OnText(Line, INITIAL, text);
    var rest := LastLine(text);
    EndedLine(Line, INITIAL, text);
    FinishedLine(f.state, f.buffer);
  }

  /** A line that is no field and not blank is passed over, wherever it stands. */
  lemma OtherLinesAreIgnored(a: string, l: string, b: string)
    requires Whole(a) && Free(l, '\n') && !NamesEvent(l) && !CarriesData(l) && Trim(l) != ""
    ensures Events(a + (l + "\n" + b)) == Events(a + b)
  {
    WithoutLine(Line, INITIAL, a, l, b);
    AfterWhole(Line, INITIAL, a, b);
  }

  /** White space makes no difference in a blank line. */
  lemma BlankIsEmpty(a: string, w: string, b: string)
    requires Whole(a) && Free(w, '\n') && Trim(w) == ""
    ensures Events(a + (w + "\n" + b)) == Events(a + ("" + "\n" + b))
  {
    WithoutLine(Line, INITIAL, a, w, b);
    WithoutLine(Line, INITIAL, a, "", b);
    if NamesEvent(w) || CarriesData(w) {
      FieldIsNotBlank(w);
    }
    assert Trim("") == "";
  }

  lemma TwoLines(a: string, l: string, m: string, b: string)
    requires Whole(a) && Free(l, '\n') && Free(m, '\n')
    ensures OnText(Line, INITIAL, a + (l + "\n" + (m + "\n" + b))) ==
            OnText(Line, Line(Line(OnText(Line, INITIAL, a).state, l), m), b)
  {
    WithoutLine(Line, INITIAL, a, l, m + "\n" + b);
    OnTextLine(Line, Line(OnText(Line, INITIAL, a).state, l), m, b);
  }

  /** The name may be given before or behind the data, and the last name given counts. */
  lemma LastNameCounts(a: string, name: string, field: string, b: string)
    requires Whole(a) && Free(name, '\n') && Free(field, '\n') && NamesEvent(name)
    ensures CarriesData(field) ==>
              Events(a + (name + "\n" + (field + "\n" + b))) == Events(a + (field + "\n" + (name + "\n" + b)))
    ensures NamesEvent(field) ==> Events(a + (name + "\n" + (field + "\n" + b))) == Events(a + (field + "\n" + b))
  {
    TwoLines(a, name, field, b);
    TwoLines(a, field, name, b);
    WithoutLine(Line, INITIAL, a, field, b);
    if CarriesData(field) {
      FieldIsNotBlank(field);
    }
  }

  ghost predicate Precedes(out: seq<Event>, s: Parser, t: Parser) {
    t == s.(out := out + s.out)
  }

  lemma LineBehind(out: seq<Event>, s: Parser, t: Parser, line: string)
    requires Precedes(out, s, t)
    ensures Precedes(out, Line(s, line), Line(t, line)) && Emitted(t) == out + Emitted(s)
  {
    if s.data != "" {
      assert out + (s.out + [Event(s.name, s.data)]) == out + s.out + [Event(s.name, s.data)];
    }
  }

  lemma {:induction false} FoldBehind(out: seq<Event>, s: Parser, t: Parser, lines: seq<string>)
    requires Precedes(out, s, t)
    ensures Precedes(out, Fold(Line, s, lines), Fold(Line, t, lines))
    decreases lines
  {
    if lines != [] {
      LineBehind(out, s, t, lines[0]);
      FoldBehind(out, Line(s, lines[0]), Line(t, lines[0]), lines[1..]);
    }
  }

  /** What has been yielded before only stands before what is yielded. */
  lemma ReadBehind(out: seq<Event>, text: string)
    ensures ReadFrom(out, text) == out + Events(text)
  {
    var t := Parser("message", "", out);
    var lines := Split(text, '\n');
    assert out + INITIAL.out == out;
    FoldBehind(out, INITIAL, t, lines[..|lines| - 1]);
    var f, g := OnText(Line, INITIAL, text), OnText(Line, t, text);
    var rest := LastLine(text);
    FinishedLine(f.state, f.buffer);
    FinishedLine(g.state, g.buffer);
    LineBehind(out, f.state, g.state, f.buffer);
    LineBehind(out, Line(f.state, f.buffer), Line(g.state, f.buffer), "");
  }

  /** A blank line ends an event, name included: what stands before and behind it is read separately. */
  lemma BlankSeparates(a: string, b: string)
    requires Whole(a)
    ensures Events(a + ("" + "\n" + b)) == Events(a) + Events(b)
  {
    var f := OnText(Line, INITIAL, a);
    WithoutLine(Line, INITIAL, a, "", b);
    WholeIsConsumed(Line, INITIAL, a);
    FinishedEmpty(f.state);
    assert Trim("") == "";
    assert Line(f.state, "") == Parser("message", "", Events(a));
    ReadBehind(Events(a), b);
  }

  /** An event without a name is a message. */
  lemma NamelessIsMessage(data: string)
    requires data != "" && data[0] != '\n'
    ensures Events(PrintLines(Split(data, '\n'))) == [Event("message", data)]
  {
    var lines := Split(data, '\n');
    var text := PrintLines(lines);
    assert text + "" == text;
    SplitParts(data, '\n');
    ReadPrintedLines(lines, INITIAL, "");
    AddAllDrops(lines);
    JoinSplit(data, '\n');
    assert [] + [Event("message", data)] == [Event("message", data)];
    ReadNothing([Event("message", data)]);
  }
}
