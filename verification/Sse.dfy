/** The `data:` line parser shared by the OpenAI-compatible adapters. */
module Sse {
  import opened Text
  import opened LineStream

  const DATA := "data: "
  const DONE := "[DONE]"

  /** Lines of the current event, payloads yielded so far, and whether the sentinel ended the stream. */
  datatype Parser = Parser(dataLines: seq<string>, out: seq<string>, done: bool)

  const INITIAL := Parser([], [], false)

  function Emit(s: Parser): Parser {
    if s.dataLines == [] then s else Parser([], s.out + [Join(s.dataLines, '\n')], s.done)
  }

  function Line(s: Parser, line: string): Parser {
    if s.done then s
    else if StartsWith(line, DATA) then
      var data := Trim(line[|DATA|..]);
      if data == DONE then Emit(s).(done := true) else s.(dataLines := s.dataLines + [data])
    else if Trim(line) == "" then Emit(s)
    else s
  }

  /** At the end of the stream an empty data line is not kept. */
  function FlushLine(s: Parser, line: string): Parser {
    if !s.done && StartsWith(line, DATA) && Trim(line[|DATA|..]) == "" then s else Line(s, line)
  }

  function Finish(f: Feed<Parser>): seq<string> {
    var s := if Trim(f.buffer) == "" then f.state else Fold(FlushLine, f.state, Split(f.buffer, '\n'));
    if s.done then s.out else Emit(s).out
  }

  /** The payloads of a whole text. */
  function Payloads(text: string): seq<string> {
    Finish(OnText(Line, INITIAL, text))
  }

  lemma {:induction false} DoneStays(s: Parser, lines: seq<string>)
    requires s.done
    ensures Fold(Line, s, lines) == s
  {
    if lines != [] {
      DoneStays(s, lines[1..]);
    }
  }

  lemma {:induction false} DoneStaysOnChunks(chunks: seq<string>, n: nat)
    requires n <= |chunks| && OnChunks(Line, INITIAL, chunks[..n]).state.done
    ensures OnChunks(Line, INITIAL, chunks).state == OnChunks(Line, INITIAL, chunks[..n]).state
    decreases |chunks|
  {
    if n < |chunks| {
      var init := chunks[..|chunks| - 1];
      assert init[..n] == chunks[..n];
      DoneStaysOnChunks(init, n);
      var f := OnChunks(Line, INITIAL, init);
      var lines := Split(f.buffer + chunks[|chunks| - 1], '\n');
      DoneStays(f.state, lines[..|lines| - 1]);
    } else {
      assert chunks[..n] == chunks;
    }
  }

  lemma DoneFinish(f: Feed<Parser>)
    requires f.state.done
    ensures Finish(f) == f.state.out
  {
    DoneStaysFlush(f.state, Split(f.buffer, '\n'));
  }

  lemma {:induction false} DoneStaysFlush(s: Parser, lines: seq<string>)
    requires s.done
    ensures Fold(FlushLine, s, lines) == s
  {
    if lines != [] {
      DoneStaysFlush(s, lines[1..]);
    }
  }

  /** One chunk's complete lines; stops at the sentinel. */
  method ReadLines(lines: seq<string>, ghost s: Parser, dataLines: seq<string>, out: seq<string>)
    returns (dataLines': seq<string>, out': seq<string>, done: bool)
    requires s == Parser(dataLines, out, false)
    ensures Parser(dataLines', out', done) == Fold(Line, s, lines)
  {
    dataLines', out' := dataLines, out;
    for i := 0 to |lines|
      invariant Parser(dataLines', out', false) == Fold(Line, s, lines[..i])
    {
      FoldLast(Line, s, lines, i);
      var line := lines[i];
      if StartsWith(line, DATA) {
        var data := Trim(line[|DATA|..]);
        if data == DONE {
          if |dataLines'| > 0 {
            out' := out' + [Join(dataLines', '\n')];
            dataLines' := [];
          }
          DoneStays(Fold(Line, s, lines[..i + 1]), lines[i + 1..]);
          FoldConcat(Line, s, lines[..i + 1], lines[i + 1..]);
          assert lines == lines[..i + 1] + lines[i + 1..];
          return dataLines', out', true;
        }
        dataLines' := dataLines' + [data];
      } else if Trim(line) == "" {
        if |dataLines'| > 0 {
          out' := out' + [Join(dataLines', '\n')];
          dataLines' := [];
        }
      }
    }
    assert lines[..|lines|] == lines;
    return dataLines', out', false;
  }

  /** The lines left in the buffer when the stream ends. */
  method FlushLines(lines: seq<string>, ghost s: Parser, dataLines: seq<string>, out: seq<string>)
    returns (dataLines': seq<string>, out': seq<string>, done: bool)
    requires s == Parser(dataLines, out, false)
    ensures Parser(dataLines', out', done) == Fold(FlushLine, s, lines)
  {
    dataLines', out' := dataLines, out;
    for i := 0 to |lines|
      invariant Parser(dataLines', out', false) == Fold(FlushLine, s, lines[..i])
    {
      FoldLast(FlushLine, s, lines, i);
      var line := lines[i];
      if StartsWith(line, DATA) {
        var data := Trim(line[|DATA|..]);
        if data == DONE {
          if |dataLines'| > 0 {
            out' := out' + [Join(dataLines', '\n')];
            dataLines' := [];
          }
          DoneStaysFlush(Fold(FlushLine, s, lines[..i + 1]), lines[i + 1..]);
          FoldConcat(FlushLine, s, lines[..i + 1], lines[i + 1..]);
          assert lines == lines[..i + 1] + lines[i + 1..];
          return dataLines', out', true;
        }
        if data != "" {
          dataLines' := dataLines' + [data];
        }
      } else if Trim(line) == "" {
        if |dataLines'| > 0 {
          out' := out' + [Join(dataLines', '\n')];
          dataLines' := [];
        }
      }
    }
    assert lines[..|lines|] == lines;
    return dataLines', out', false;
  }

  /** The payloads are those of the concatenated text, however it was cut into chunks. */
  method ParseSseData(chunks: seq<string>) returns (out: seq<string>)
    ensures out == Payloads(Concat(chunks))
  {
    var buffer := "";
    var dataLines: seq<string> := [];
    var done: bool;
    out := [];
    for c := 0 to |chunks|
      invariant Feed(Parser(dataLines, out, false), buffer) == OnChunks(Line, INITIAL, chunks[..c])
    {
      assert chunks[..c + 1][..c] == chunks[..c];
      buffer := buffer + chunks[c];
      var lines := Split(buffer, '\n');
      buffer := lines[|lines| - 1];
      dataLines, out, done := ReadLines(lines[..|lines| - 1], Parser(dataLines, out, false), dataLines, out);
      if done {
        DoneStaysOnChunks(chunks, c + 1);
        ChunkIndependence(Line, INITIAL, chunks);
        DoneFinish(OnChunks(Line, INITIAL, chunks));
        return;
      }
    }
    assert chunks[..|chunks|] == chunks;
    ChunkIndependence(Line, INITIAL, chunks);
    if Trim(buffer) != "" {
      dataLines, out, done := FlushLines(Split(buffer, '\n'), Parser(dataLines, out, false), dataLines, out);
      if done {
        return;
      }
    }
    if |dataLines| > 0 {
      out := out + [Join(dataLines, '\n')];
    }
  }

  // ---- Printing payloads as events ----

  function PrintLines(lines: seq<string>): string {
    if lines == [] then "\n" else DATA + lines[0] + "\n" + PrintLines(lines[1..])
  }

  function PrintPayloads(payloads: seq<string>): string {
    if payloads == [] then "" else PrintLines(Split(payloads[0], '\n')) + PrintPayloads(payloads[1..])
  }

  function Kept(lines: seq<string>): seq<string> {
    if lines == [] || Trim(lines[0]) == DONE then [] else [Trim(lines[0])] + Kept(lines[1..])
  }

  predicate HasSentinel(lines: seq<string>) {
    lines != [] && (Trim(lines[0]) == DONE || HasSentinel(lines[1..]))
  }

  function FirstOf(lines: seq<string>): seq<string> {
    if Kept(lines) == [] then [] else [Join(Kept(lines), '\n')]
  }

  /** What the reader makes of printed payloads: lines are trimmed, and the sentinel ends everything. */
  function Received(payloads: seq<string>): seq<string> {
    if payloads == [] then []
    else
      var lines := Split(payloads[0], '\n');
      FirstOf(lines) + if HasSentinel(lines) then [] else Received(payloads[1..])
  }

  lemma DoneEnds(s: Parser, rest: string)
    requires s.done
    ensures Finish(OnText(Line, s, rest)) == s.out
  {
    var lines := Split(rest, '\n');
    DoneStays(s, lines[..|lines| - 1]);
    DoneFinish(OnText(Line, s, rest));
  }

  lemma DataLine(s: Parser, l: string)
    requires !s.done
    ensures Line(s, DATA + l)
         == if Trim(l) == DONE then Emit(s).(done := true) else s.(dataLines := s.dataLines + [Trim(l)])
  {
    assert (DATA + l)[..|DATA|] == DATA && (DATA + l)[|DATA|..] == l;
  }

  lemma FirstPrintedLine(lines: seq<string>, s: Parser, rest: string)
    requires lines != [] && Free(lines[0], '\n')
    ensures OnText(Line, s, PrintLines(lines) + rest)
         == OnText(Line, Line(s, DATA + lines[0]), PrintLines(lines[1..]) + rest)
  {
    var line, more := DATA + lines[0], PrintLines(lines[1..]);
    assert PrintLines(lines) + rest == line + "\n" + (more + rest);
    OnTextLine(Line, s, line, more + rest);
  }

  lemma LastPrintedLine(s: Parser, rest: string)
    ensures OnText(Line, s, "\n" + rest) == OnText(Line, Line(s, ""), rest)
  {
    assert "\n" + rest == "" + "\n" + rest;
    OnTextLine(Line, s, "", rest);
  }

  /** What comes out in the end when `lines` are printed as one payload before `rest`. */
  function AfterPayload(lines: seq<string>, s: Parser, rest: string): seq<string> {
    var end := Emit(s.(dataLines := s.dataLines + Kept(lines)));
    if HasSentinel(lines) then end.out else Finish(OnText(Line, end, rest))
  }

  lemma OneLineLess(lines: seq<string>, s: Parser, rest: string)
    requires lines != [] && Trim(lines[0]) != DONE
    ensures AfterPayload(lines, s, rest)
         == AfterPayload(lines[1..], s.(dataLines := s.dataLines + [Trim(lines[0])]), rest)
  {
    assert s.dataLines + [Trim(lines[0])] + Kept(lines[1..]) == s.dataLines + ([Trim(lines[0])] + Kept(lines[1..]));
  }

  lemma {:induction false} ReadPrintedLines(lines: seq<string>, s: Parser, rest: string)
    requires !s.done && forall i :: 0 <= i < |lines| ==> Free(lines[i], '\n')
    ensures Finish(OnText(Line, s, PrintLines(lines) + rest)) == AfterPayload(lines, s, rest)
  {
    if lines == [] {
      LastPrintedLine(s, rest);
      assert s.dataLines + [] == s.dataLines;
    } else {
      FirstPrintedLine(lines, s, rest);
      DataLine(s, lines[0]);
      if Trim(lines[0]) == DONE {
        DoneEnds(Line(s, DATA + lines[0]), PrintLines(lines[1..]) + rest);
        assert s.dataLines + [] == s.dataLines;
      } else {
        ReadPrintedLines(lines[1..], Line(s, DATA + lines[0]), rest);
        OneLineLess(lines, s, rest);
      }
    }
  }

  /** What is yielded for `text` after `out`, starting between two events. */
  function ReadFrom(out: seq<string>, text: string): seq<string> {
    Finish(OnText(Line, Parser([], out, false), text))
  }

  lemma ReadNothing(out: seq<string>)
    ensures ReadFrom(out, "") == out
  {
    assert Split("", '\n') == [""];
  }

  lemma ReadPrintedPayload(payload: string, out: seq<string>, rest: string)
    ensures ReadFrom(out, PrintLines(Split(payload, '\n')) + rest) ==
            var lines := Split(payload, '\n');
            if HasSentinel(lines) then out + FirstOf(lines) else ReadFrom(out + FirstOf(lines), rest)
  {
    var lines := Split(payload, '\n');
    SplitParts(payload, '\n');
    ReadPrintedLines(lines, Parser([], out, false), rest);
    assert [] + Kept(lines) == Kept(lines);
    assert out + [] == out;
  }

  lemma ReceivedAfter(payloads: seq<string>, out: seq<string>)
    requires payloads != []
    ensures out + Received(payloads) ==
            var lines := Split(payloads[0], '\n');
            out + FirstOf(lines) + if HasSentinel(lines) then [] else Received(payloads[1..])
  {
  }

  lemma {:induction false} ReadPrinted(payloads: seq<string>, out: seq<string>, text: string)
    requires text == PrintPayloads(payloads)
    ensures ReadFrom(out, text) == out + Received(payloads)
  {
    if payloads == [] {
      ReadNothing(out);
    } else {
      var rest := PrintPayloads(payloads[1..]);
      ReceivedAfter(payloads, out);
      ReadPrintedPayload(payloads[0], out, rest);
      if !HasSentinel(Split(payloads[0], '\n')) {
        ReadPrinted(payloads[1..], out + FirstOf(Split(payloads[0], '\n')), rest);
      }
    }
  }

  /** A payload whose lines are trimmed and none of which is the sentinel. */
  ghost predicate Faithful(payload: string) {
    forall l :: l in Split(payload, '\n') ==> Trim(l) == l && l != DONE
  }

  lemma {:induction false} KeptLines(lines: seq<string>)
    ensures Kept(lines) == lines <==> forall l :: l in lines ==> Trim(l) == l && l != DONE
    ensures |Kept(lines)| <= |lines| && (HasSentinel(lines) ==> |Kept(lines)| < |lines|)
    ensures forall i :: 0 <= i < |Kept(lines)| ==> Kept(lines)[i] == Trim(lines[i])
  {
    if lines != [] {
      var rest := lines[1..];
      KeptLines(rest);
      assert forall l :: l in lines <==> l == lines[0] || l in rest by {
        assert lines == [lines[0]] + rest;
      }
      if Trim(lines[0]) != DONE {
        FirstSame(Trim(lines[0]), Kept(rest), lines);
      }
    }
  }

  lemma FirstSame(x: string, kept: seq<string>, lines: seq<string>)
    requires lines != []
    ensures [x] + kept == lines <==> x == lines[0] && kept == lines[1..]
  {
    assert ([x] + kept)[0] == x && ([x] + kept)[1..] == kept;
    assert lines == [lines[0]] + lines[1..];
  }

  lemma FaithfulPayload(payload: string)
    ensures var kept := Kept(Split(payload, '\n'));
            Faithful(payload) <==> kept != [] && Join(kept, '\n') == payload
    ensures Faithful(payload) ==> !HasSentinel(Split(payload, '\n'))
  {
    var lines := Split(payload, '\n');
    var kept := Kept(lines);
    KeptLines(lines);
    JoinSplit(payload, '\n');
    if kept != [] {
      SplitParts(payload, '\n');
      forall i | 0 <= i < |kept| ensures Free(kept[i], '\n') {
        TrimKeepsFree(lines[i], '\n');
      }
      SplitJoin(kept, '\n');
    }
  }

  lemma {:induction false} ReceivedFaithfully(payloads: seq<string>)
    ensures Received(payloads) == payloads <==> forall p :: p in payloads ==> Faithful(p)
  {
    if payloads != [] {
      FaithfulPayload(payloads[0]);
      ReceivedFaithfully(payloads[1..]);
      ReceivedAtMost(payloads[1..]);
      assert payloads == [payloads[0]] + payloads[1..];
      if Received(payloads) == payloads {
        assert payloads[0] == Received(payloads)[0];
        assert Received(payloads)[1..] == payloads[1..];
      }
    }
  }

  lemma {:induction false} ReceivedAtMost(payloads: seq<string>)
    ensures |Received(payloads)| <= |payloads|
  {
    if payloads != [] {
      ReceivedAtMost(payloads[1..]);
    }
  }

  /**
   Printed payloads come back unchanged exactly when every line of every
   payload is trimmed and is not the sentinel.
   */
  lemma PayloadsRoundTrip(payloads: seq<string>)
    ensures Payloads(PrintPayloads(payloads)) == payloads <==> forall p :: p in payloads ==> Faithful(p)
  {
    ReadPrinted(payloads, [], PrintPayloads(payloads));
    ReceivedFaithfully(payloads);
  }

  // ---- Every line, and the end of the stream ----

  predicate CarriesData(line: string) {
    |line| >= 6 && line[..6] == "data: "
  }

  predicate IsSentinel(line: string) {
    CarriesData(line) && Trim(line[6..]) == "[DONE]"
  }

  predicate IsEmptyData(line: string) {
    CarriesData(line) && Trim(line[6..]) == ""
  }

  ghost predicate SentinelIn(lines: seq<string>) {
    exists i :: 0 <= i < |lines| && IsSentinel(lines[i])
  }

  /** Some complete line of the text is the sentinel. */
  ghost predicate Ended(text: string) {
    var lines := Split(text, '\n');
    SentinelIn(lines[..|lines| - 1])
  }

  lemma {:induction false} DoneMeansSentinel(s: Parser, lines: seq<string>)
    ensures Fold(Line, s, lines).done <==> s.done || SentinelIn(lines)
    decreases lines
  {
    if lines != [] {
      DoneMeansSentinel(Line(s, lines[0]), lines[1..]);
      assert lines == [lines[0]] + lines[1..];
      assert Line(s, lines[0]).done <==> s.done || IsSentinel(lines[0]);
      if SentinelIn(lines) && !IsSentinel(lines[0]) {
        var i :| 0 <= i < |lines| && IsSentinel(lines[i]);
        assert lines[1..][i - 1] == lines[i];
      }
    }
  }

  lemma DataIsNotBlank(line: string)
    requires CarriesData(line)
    ensures Trim(line) != ""
  {
    var i, j := TrimCuts(line);
    assert line[..6][0] == 'd' && !IsSpace(line[0]);
    assert i == 0;
  }

  lemma FlushedLine(s: Parser, line: string)
    requires Free(line, '\n')
    ensures Finish(Feed(s, line)) ==
            if s.done then s.out
            else if Trim(line) == "" || IsEmptyData(line) then Emit(s).out
            else Emit(Line(s, line)).out
  {
    SplitFree(line, '\n');
    assert [line][1..] == [];
    assert Fold(FlushLine, s, [line]) == FlushLine(s, line);
  }

  lemma CompletedLine(s: Parser, line: string)
    ensures Finish(Feed(Line(s, line), "")) == if s.done then s.out else Emit(Line(s, line)).out
  {
    assert Trim("") == "";
  }

  /**
   A missing newline at the end makes no difference, unless the last line has
   empty data and the sentinel has not come; that line is then as if not there.
   */
  lemma EndOfStream(text: string)
    ensures var lines := Split(text, '\n');
            var last := lines[|lines| - 1];
            && (Payloads(text) == Payloads(text + "\n") <==> Ended(text) || !IsEmptyData(last))
            && |last| <= |text|
            && (IsEmptyData(last) ==> Payloads(text) == Payloads(text[..|text| - |last|]))
  {
    var lines := Split(text, '\n');
    var f := OnText(Line, INITIAL, text);
    var rest := LastLine(text);
    DoneMeansSentinel(INITIAL, lines[..|lines| - 1]);
    EndedLine(Line, INITIAL, text);
    EndOfLine(f.state, f.buffer);
    BeforeLastLine(text, rest);
    FlushedLine(f.state, "");
    assert Trim("") == "";
    FlushedLine(f.state, f.buffer);
    assert text[..|text| - |f.buffer|] == rest;
  }

  lemma EndOfLine(s: Parser, last: string)
    requires Free(last, '\n')
    ensures Finish(Feed(s, last)) == Finish(Feed(Line(s, last), "")) <==> s.done || !IsEmptyData(last)
  {
    FlushedLine(s, last);
    CompletedLine(s, last);
    if CarriesData(last) {
      DataIsNotBlank(last);
    }
    if !s.done && IsEmptyData(last) {
      EmptyDataCounts(s, last);
    }
  }

  lemma BeforeLastLine(text: string, rest: string)
    requires Whole(rest)
    requires var f := OnText(Line, INITIAL, text); text == rest + f.buffer && Free(f.buffer, '\n')
    ensures OnText(Line, INITIAL, rest) == Feed(OnText(Line, INITIAL, text).state, "")
  {
    var last := OnText(Line, INITIAL, text).buffer;
    AfterWhole(Line, INITIAL, rest, last);
    SplitFree(last, '\n');
    assert [last][..0] == [];
    WholeIsConsumed(Line, INITIAL, rest);
  }

  /** An empty data line adds a line, or a payload of its own. */
  lemma EmptyDataCounts(s: Parser, line: string)
    requires !s.done && IsEmptyData(line)
    ensures Emit(Line(s, line)).out != Emit(s).out
  {
    var t := Line(s, line);
    assert t.dataLines == s.dataLines + [""];
    if s.dataLines != [] {
      JoinLast(s.dataLines, "");
      assert Emit(t).out[|s.out|] == Join(t.dataLines, '\n') && Emit(s).out[|s.out|] == Join(s.dataLines, '\n');
    }
  }

  /** A line that is neither data nor blank is passed over, wherever it stands. */
  lemma OtherLinesAreIgnored(a: string, l: string, b: string)
    requires Whole(a) && Free(l, '\n') && !CarriesData(l) && Trim(l) != ""
    ensures Payloads(a + (l + "\n" + b)) == Payloads(a + b)
  {
    WithoutLine(Line, INITIAL, a, l, b);
    AfterWhole(Line, INITIAL, a, b);
  }

  /** White space makes no difference in a blank line. */
  lemma BlankIsEmpty(a: string, w: string, b: string)
    requires Whole(a) && Free(w, '\n') && Trim(w) == ""
    ensures Payloads(a + (w + "\n" + b)) == Payloads(a + ("" + "\n" + b))
  {
    WithoutLine(Line, INITIAL, a, w, b);
    WithoutLine(Line, INITIAL, a, "", b);
    if CarriesData(w) {
      DataIsNotBlank(w);
    }
    assert Trim("") == "";
  }

  ghost predicate Precedes(out: seq<string>, s: Parser, t: Parser) {
    t == s.(out := out + s.out)
  }

  lemma LineBehind(out: seq<string>, s: Parser, t: Parser, line: string)
    requires Precedes(out, s, t)
    ensures Precedes(out, Line(s, line), Line(t, line)) && Precedes(out, FlushLine(s, line), FlushLine(t, line))
    ensures Precedes(out, Emit(s), Emit(t))
  {
    if s.dataLines != [] {
      assert out + (s.out + [Join(s.dataLines, '\n')]) == out + s.out + [Join(s.dataLines, '\n')];
    }
  }

  lemma {:induction false} FoldBehind(out: seq<string>, s: Parser, t: Parser, lines: seq<string>)
    requires Precedes(out, s, t)
    ensures Precedes(out, Fold(Line, s, lines), Fold(Line, t, lines))
    ensures Precedes(out, Fold(FlushLine, s, lines), Fold(FlushLine, t, lines))
    decreases lines
  {
    if lines != [] {
      LineBehind(out, s, t, lines[0]);
      FoldBehind(out, Line(s, lines[0]), Line(t, lines[0]), lines[1..]);
      FoldBehind(out, FlushLine(s, lines[0]), FlushLine(t, lines[0]), lines[1..]);
    }
  }

  /** What has been yielded before only stands before what is yielded. */
  lemma ReadBehind(out: seq<string>, text: string)
    ensures ReadFrom(out, text) == out + Payloads(text)
  {
    var t := Parser([], out, false);
    var lines := Split(text, '\n');
    assert out + INITIAL.out == out;
    FoldBehind(out, INITIAL, t, lines[..|lines| - 1]);
    var f, g := OnText(Line, INITIAL, text), OnText(Line, t, text);
    FoldBehind(out, f.state, g.state, Split(f.buffer, '\n'));
    var u := if Trim(f.buffer) == "" then f.state else Fold(FlushLine, f.state, Split(f.buffer, '\n'));
    var v := if Trim(g.buffer) == "" then g.state else Fold(FlushLine, g.state, Split(g.buffer, '\n'));
    LineBehind(out, u, v, "");
  }

  /** A blank line ends an event: what stands before and behind it is read separately, up to a sentinel. */
  lemma BlankSeparates(a: string, b: string)
    requires Whole(a)
    ensures Payloads(a + ("" + "\n" + b)) == if Ended(a) then Payloads(a) else Payloads(a) + Payloads(b)
  {
    var lines := Split(a, '\n');
    var f := OnText(Line, INITIAL, a);
    DoneMeansSentinel(INITIAL, lines[..|lines| - 1]);
    WithoutLine(Line, INITIAL, a, "", b);
    WholeIsConsumed(Line, INITIAL, a);
    assert Trim("") == "";
    if f.state.done {
      DoneEnds(f.state, b);
    } else {
      assert Line(f.state, "") == Parser([], Payloads(a), false);
      ReadBehind(Payloads(a), b);
    }
  }

  // ---- Printed payloads without the newlines at the end ----

  /** Data lines without a blank line behind them. */
  function DataText(lines: seq<string>): string {
    if lines == [] then "" else DATA + lines[0] + "\n" + DataText(lines[1..])
  }

  lemma Joined(a: string, b: string, c: string, d: string)
    ensures a + b + c + (d + c) == a + b + c + d + c
  {
  }

  lemma {:induction false} PrintedWithBlank(lines: seq<string>)
    ensures PrintLines(lines) == DataText(lines) + "\n"
  {
    if lines != [] {
      PrintedWithBlank(lines[1..]);
      Joined(DATA, lines[0], "\n", DataText(lines[1..]));
    }
  }

  lemma {:induction false} LastDataLine(lines: seq<string>, last: string)
    ensures DataText(lines + [last]) == DataText(lines) + (DATA + last + "\n")
  {
    var all := lines + [last];
    if lines == [] {
      assert all == [last] && all[1..] == [];
      assert DATA + last + "\n" + "" == "" + (DATA + last + "\n");
    } else {
      assert all[1..] == lines[1..] + [last];
      LastDataLine(lines[1..], last);
      Reassociate(DATA + lines[0] + "\n", DataText(lines[1..]), DATA + last + "\n");
    }
  }

  lemma Reassociate(a: string, b: string, c: string)
    ensures a + (b + c) == a + b + c
  {
  }

  lemma {:induction false} PrintedConcat(payloads: seq<string>, last: string)
    ensures PrintPayloads(payloads + [last]) == PrintPayloads(payloads) + PrintLines(Split(last, '\n'))
  {
    var all := payloads + [last];
    var printed := PrintLines(Split(last, '\n'));
    if payloads == [] {
      assert all == [last] && all[1..] == [];
      assert printed + "" == "" + printed;
    } else {
      assert all[1..] == payloads[1..] + [last];
      PrintedConcat(payloads[1..], last);
      Reassociate(PrintLines(Split(payloads[0], '\n')), PrintPayloads(payloads[1..]), printed);
    }
  }

  /** What is printed before the last data line: complete lines. */
  function BeforeLast(payloads: seq<string>, lines: seq<string>): string {
    PrintPayloads(payloads) + DataText(lines)
  }

  lemma {:induction false} DataTextWhole(lines: seq<string>)
    ensures Whole(DataText(lines))
  {
    if lines != [] {
      DataTextWhole(lines[1..]);
    }
  }

  lemma {:induction false} PrintedWhole(payloads: seq<string>)
    ensures Whole(PrintPayloads(payloads))
  {
    if payloads != [] {
      PrintedWhole(payloads[1..]);
      PrintedWithBlank(Split(payloads[0], '\n'));
    }
  }

  lemma PrintedParts(payloads: seq<string>, q: string)
    ensures var lines := Split(q, '\n');
            var n := |lines| - 1;
            var body := BeforeLast(payloads, lines[..n]);
            && Whole(body) && Free(lines[n], '\n')
            && PrintPayloads(payloads + [q]) == body + (DATA + lines[n]) + "\n" + "\n"
  {
    var lines := Split(q, '\n');
    var n := |lines| - 1;
    PrintedConcat(payloads, q);
    PrintedWithBlank(lines);
    assert lines == lines[..n] + [lines[n]];
    LastDataLine(lines[..n], lines[n]);
    SplitParts(q, '\n');
    PrintedWhole(payloads);
    DataTextWhole(lines[..n]);
    Regrouped(PrintPayloads(payloads), DataText(lines[..n]), DATA + lines[n], "\n");
    WholeConcat(PrintPayloads(payloads), DataText(lines[..n]));
  }

  lemma WholeConcat(a: string, b: string)
    requires Whole(a) && Whole(b)
    ensures Whole(a + b)
  {
    if b == "" {
      assert a + b == a;
    }
  }

  lemma Regrouped(a: string, b: string, c: string, d: string)
    ensures a + (b + (c + d) + d) == a + b + c + d + d
  {
  }

  lemma CutEnds(text: string)
    ensures (text + "\n" + "\n")[..|text|] == text && (text + "\n" + "\n")[..|text| + 1] == text + "\n"
  {
  }

  lemma DataLineLast(body: string, last: string)
    requires Whole(body) && Free(last, '\n')
    ensures var lines := Split(body + (DATA + last), '\n'); lines[|lines| - 1] == DATA + last
    ensures IsEmptyData(DATA + last) <==> Trim(last) == ""
  {
    AfterWhole(Line, INITIAL, body, DATA + last);
    SplitFree(DATA + last, '\n');
    assert OnText(Line, INITIAL, body + (DATA + last)).buffer == DATA + last;
    assert (DATA + last)[..6] == DATA && (DATA + last)[6..] == last;
  }

  lemma WholeNeedsNoNewline(text: string)
    requires Whole(text)
    ensures Payloads(text) == Payloads(text + "\n")
  {
    WholeIsConsumed(Line, INITIAL, text);
    EndOfStream(text);
  }

  lemma EndedStays(text: string, more: string)
    requires Ended(text)
    ensures Payloads(text + more) == Payloads(text)
  {
    var lines := Split(text, '\n');
    var f := OnText(Line, INITIAL, text);
    DoneMeansSentinel(INITIAL, lines[..|lines| - 1]);
    OnTextMore(Line, INITIAL, text, more);
    var all := Split(f.buffer + more, '\n');
    DoneStays(f.state, all[..|all| - 1]);
    DoneFinish(f);
    DoneFinish(OnText(Line, INITIAL, text + more));
  }

  lemma {:induction false} LastReceived(payloads: seq<string>)
    requires payloads != [] && |Received(payloads)| == |payloads|
    ensures var n := |payloads| - 1;
            var kept := Kept(Split(payloads[n], '\n'));
            kept != [] && Received(payloads)[n] == Join(kept, '\n')
  {
    var rest := payloads[1..];
    ReceivedAtMost(rest);
    if rest != [] {
      LastReceived(rest);
      assert Received(payloads) == FirstOf(Split(payloads[0], '\n')) + Received(rest);
    }
  }

  lemma JoinedKept(lines: seq<string>)
    requires (forall i :: 0 <= i < |lines| ==> Free(lines[i], '\n')) && Kept(lines) != []
    ensures |Split(Join(Kept(lines), '\n'), '\n')| <= |lines|
  {
    var kept := Kept(lines);
    KeptLines(lines);
    forall i | 0 <= i < |kept| ensures Free(kept[i], '\n') {
      TrimKeepsFree(lines[i], '\n');
    }
    SplitJoin(kept, '\n');
  }

  /** Without its last line the last payload cannot be what it was. */
  lemma ShortIsDifferent(payloads: seq<string>, q: string)
    ensures var lines := Split(q, '\n');
            Payloads(BeforeLast(payloads, lines[..|lines| - 1])) != payloads + [q]
  {
    var lines := Split(q, '\n');
    var first := lines[..|lines| - 1];
    var body := BeforeLast(payloads, first);
    SplitParts(q, '\n');
    if first == [] {
      assert body == PrintPayloads(payloads);
      ReadPrinted(payloads, [], body);
      ReceivedAtMost(payloads);
      assert [] + Received(payloads) == Received(payloads);
    } else {
      var short := Join(first, '\n');
      SplitJoin(first, '\n');
      PrintedConcat(payloads, short);
      PrintedWithBlank(first);
      Reassociate(PrintPayloads(payloads), DataText(first), "\n");
      PrintedWhole(payloads);
      DataTextWhole(first);
      WholeNeedsNoNewline(body);
      ReadPrinted(payloads + [short], [], body + "\n");
      assert [] + Received(payloads + [short]) == Received(payloads + [short]);
      if Received(payloads + [short]) == payloads + [q] {
        LastReceived(payloads + [short]);
        JoinedKept(first);
        assert false;
      }
    }
  }

  lemma FaithfulIsNotEnded(payloads: seq<string>, text: string, more: string)
    requires text + more == PrintPayloads(payloads) && forall p :: p in payloads ==> Faithful(p)
    ensures !Ended(text)
  {
    if Ended(text) {
      var again := PrintLines(Split("", '\n'));
      PrintedConcat(payloads, "");
      Reassociate(text, more, again);
      EndedStays(text, more);
      EndedStays(text, more + again);
      assert Split("", '\n') == [""] && Trim("") == "" && Faithful("");
      PayloadsRoundTrip(payloads);
      PayloadsRoundTrip(payloads + [""]);
      assert false;
    }
  }

  /**
   The blank line behind the last payload may be missing. If its newline is
   missing as well, the payloads still come back, except when the last line is empty.
   */
  lemma UnfinishedRoundTrip(payloads: seq<string>, q: string)
    ensures var text := PrintPayloads(payloads + [q]);
            var n := |text|;
            var faithful := forall p :: p in payloads + [q] ==> Faithful(p);
            && n >= 2
            && (Payloads(text[..n - 1]) == payloads + [q] <==> faithful)
            && (Payloads(text[..n - 2]) == payloads + [q] <==> faithful && q != "" && q[|q| - 1] != '\n')
  {
    var lines := Split(q, '\n');
    var cut := BeforeLast(payloads, lines[..|lines| - 1]) + (DATA + lines[|lines| - 1]);
    PrintedParts(payloads, q);
    CutEnds(cut);
    PayloadsRoundTrip(payloads + [q]);
    WholeNeedsNoNewline(cut + "\n");
    UnfinishedLine(payloads, q, cut);
    LastLineEmpty(q);
  }

  lemma UnfinishedLine(payloads: seq<string>, q: string, cut: string)
    requires var lines := Split(q, '\n');
             cut == BeforeLast(payloads, lines[..|lines| - 1]) + (DATA + lines[|lines| - 1])
    ensures var lines := Split(q, '\n');
            Payloads(cut) == payloads + [q] <==>
            (forall p :: p in payloads + [q] ==> Faithful(p)) && lines[|lines| - 1] != ""
  {
    var lines := Split(q, '\n');
    var last := lines[|lines| - 1];
    var body := BeforeLast(payloads, lines[..|lines| - 1]);
    PrintedParts(payloads, q);
    PayloadsRoundTrip(payloads + [q]);
    WholeNeedsNoNewline(cut + "\n");
    LastLineCut(body, last);
    ShortIsDifferent(payloads, q);
    if forall p :: p in payloads + [q] ==> Faithful(p) {
      assert q in payloads + [q] && last in lines && Trim(last) == last;
      Reassociate(cut, "\n", "\n");
      FaithfulIsNotEnded(payloads + [q], cut, "\n" + "\n");
    }
  }

  lemma LastLineCut(body: string, last: string)
    requires Whole(body) && Free(last, '\n')
    ensures var cut := body + (DATA + last);
            && (Payloads(cut) == Payloads(cut + "\n") <==> Ended(cut) || Trim(last) != "")
            && (Trim(last) == "" ==> Payloads(cut) == Payloads(body))
  {
    DataLineLast(body, last);
    EndOfStream(body + (DATA + last));
    CutBack(body, DATA + last);
  }

  lemma CutBack(a: string, b: string)
    ensures (a + b)[..|a + b| - |b|] == a
  {
  }

  lemma LastLineEmpty(q: string)
    ensures var lines := Split(q, '\n'); lines[|lines| - 1] == "" <==> q == "" || q[|q| - 1] == '\n'
  {
    var rest := LastLine(q);
  }

  /** At the end of the stream an empty last line is lost; with its newline it would be kept. */
  lemma EmptyLastLineIsLost(body: string, text: string)
    requires body == "data: a\n" && text == body + "data: "
    ensures Payloads(text) == ["a"] && Payloads(text + "\n") == ["a\n"]
  {
    OneLine(body);
    AndEmptyLine();
    assert DATA + "" == "data: " && text == "data: a\ndata: ";
    LastLineLost(body, text, "a\n");
  }

  lemma LastLineLost(body: string, text: string, q: string)
    requires Whole(body) && text == body + (DATA + "")
    requires PrintPayloads([q]) == text + "\n" + "\n" && Faithful(q)
    ensures Payloads(text) == Payloads(body) && Payloads(text + "\n") == [q]
  {
    assert Trim("") == "";
    LastLineCut(body, "");
    WholeNeedsNoNewline(text + "\n");
    PayloadsRoundTrip([q]);
  }

  lemma AndEmptyLine()
    ensures PrintPayloads(["a\n"]) == "data: a\ndata: " + "\n" + "\n"
    ensures Faithful("a\n")
  {
    var lines := ["a", ""];
    assert lines[1..] == [""] && lines[..1] == ["a"] && [""][1..] == [] && [] + ["a\n"] == ["a\n"];
    assert Join(lines, '\n') == "a\n";
    SplitJoin(lines, '\n');
    PrintedParts([], "a\n");
    assert ["a"][1..] == [];
    assert Trim("a") == "a" && Trim("") == "";
  }

  lemma OneLine(text: string)
    requires text == "data: a\n"
    ensures Payloads(text) == ["a"]
  {
    WholeNeedsNoNewline(text);
    SplitFree("a", '\n');
    PrintedParts([], "a");
    assert ["a"][..0] == [] && [] + ["a"] == ["a"] && BeforeLast([], []) == "";
    assert "" + (DATA + "a") + "\n" + "\n" == text + "\n";
    assert Trim("a") == "a";
    PayloadsRoundTrip(["a"]);
  }
}
