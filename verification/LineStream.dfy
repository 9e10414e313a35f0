/**
 A reader that is fed text in chunks and processes it line by line, keeping the
 unfinished last line for the next chunk. Both server-sent-event parsers are
 instances: they differ in what they do with a line and with the end of the
 stream, which are parameters here.
 */
module LineStream {
  import opened Text

  function Fold<S>(step: (S, string) -> S, s: S, lines: seq<string>): S {
    if lines == [] then s else Fold(step, step(s, lines[0]), lines[1..])
  }

  lemma {:induction false} FoldConcat<S>(step: (S, string) -> S, s: S, a: seq<string>, b: seq<string>)
    ensures Fold(step, s, a + b) == Fold(step, Fold(step, s, a), b)
  {
    if a == [] {
      assert a + b == b;
    } else {
      FoldConcat(step, step(s, a[0]), a[1..], b);
      assert (a + b)[1..] == a[1..] + b;
    }
  }

  lemma FoldLast<S>(step: (S, string) -> S, s: S, lines: seq<string>, n: nat)
    requires n < |lines|
    ensures Fold(step, s, lines[..n + 1]) == step(Fold(step, s, lines[..n]), lines[n])
  {
    assert lines[..n + 1] == lines[..n] + [lines[n]];
    FoldConcat(step, s, lines[..n], [lines[n]]);
  }

  datatype Feed<S> = Feed(state: S, buffer: string)

  function OnChunk<S>(step: (S, string) -> S, f: Feed<S>, chunk: string): Feed<S> {
    var lines := Split(f.buffer + chunk, '\n');
    Feed(Fold(step, f.state, lines[..|lines| - 1]), lines[|lines| - 1])
  }

  function OnChunks<S>(step: (S, string) -> S, s: S, chunks: seq<string>): Feed<S> {
    if chunks == [] then Feed(s, "")
    else OnChunk(step, OnChunks(step, s, chunks[..|chunks| - 1]), chunks[|chunks| - 1])
  }

  /** The complete lines of the text have been consumed and the incomplete one is held. */
  function OnText<S>(step: (S, string) -> S, s: S, text: string): Feed<S> {
    var lines := Split(text, '\n');
    Feed(Fold(step, s, lines[..|lines| - 1]), lines[|lines| - 1])
  }

  lemma OnTextMore<S>(step: (S, string) -> S, s: S, text: string, chunk: string)
    ensures OnText(step, s, text + chunk) == OnChunk(step, OnText(step, s, text), chunk)
  {
    var p := Split(text, '\n');
    var q := Split(p[|p| - 1] + chunk, '\n');
    SplitMore(text, chunk, '\n');
    var all := p[..|p| - 1] + q;
    assert all[..|all| - 1] == p[..|p| - 1] + q[..|q| - 1];
    FoldConcat(step, s, p[..|p| - 1], q[..|q| - 1]);
  }

  /** Where the chunks were cut makes no difference. */
  lemma {:induction false} ChunkIndependence<S>(step: (S, string) -> S, s: S, chunks: seq<string>)
    ensures OnChunks(step, s, chunks) == OnText(step, s, Concat(chunks))
  {
    if chunks == [] {
      assert Split("", '\n') == [""];
    } else {
      ChunkIndependence(step, s, chunks[..|chunks| - 1]);
      OnTextMore(step, s, Concat(chunks[..|chunks| - 1]), chunks[|chunks| - 1]);
    }
  }

  /** A complete first line is consumed on its own. */
  lemma OnTextLine<S>(step: (S, string) -> S, s: S, line: string, rest: string)
    requires Free(line, '\n')
    ensures OnText(step, s, line + "\n" + rest) == OnText(step, step(s, line), rest)
  {
    SplitFree(line, '\n');
    var tail := "\n" + rest;
    assert tail[1..] == rest;
    assert Split(tail, '\n') == [[]] + Split(rest, '\n');
    SplitConcat(line, tail, '\n');
    assert line + "\n" + rest == line + tail;
    var e: string := [];
    assert line + e == line;
    var lines := Split(rest, '\n');
    assert Fuse([line], [e] + lines) == [line] + lines;
    var all := [line] + lines;
    assert all[..|all| - 1] == [line] + lines[..|lines| - 1];
    FoldConcat(step, s, [line], lines[..|lines| - 1]);
  }

  // ---- Complete lines, and the end of the text ----

  /** Nothing, or lines each of which has its newline. */
  predicate Whole(text: string) {
    text == "" || text[|text| - 1] == '\n'
  }

  lemma LastLine(text: string) returns (rest: string)
    ensures var lines := Split(text, '\n');
            var last := lines[|lines| - 1];
            Free(last, '\n') && text == rest + last && Whole(rest)
  {
    var lines := Split(text, '\n');
    var n := |lines| - 1;
    SplitParts(text, '\n');
    JoinSplit(text, '\n');
    if n == 0 {
      rest := "";
    } else {
      JoinLast(lines[..n], lines[n]);
      assert lines[..n] + [lines[n]] == lines;
      rest := Join(lines[..n], '\n') + "\n";
    }
  }

  lemma {:induction false} JoinLast(parts: seq<string>, last: string)
    requires parts != []
    ensures Join(parts + [last], '\n') == Join(parts, '\n') + "\n" + last
  {
    var all := parts + [last];
    assert all[1..] == parts[1..] + [last];
    if |parts| > 1 {
      JoinLast(parts[1..], last);
      var j := Join(parts[1..], '\n');
      assert parts[0] + "\n" + (j + "\n" + last) == parts[0] + "\n" + j + "\n" + last;
    } else {
      assert Join([last], '\n') == last;
    }
  }

  lemma WholeIsConsumed<S>(step: (S, string) -> S, s: S, text: string)
    requires Whole(text)
    ensures OnText(step, s, text).buffer == ""
  {
    var lines := Split(text, '\n');
    var last := lines[|lines| - 1];
    var rest := LastLine(text);
    NoNewlineLeft(rest, last);
  }

  lemma NoNewlineLeft(rest: string, last: string)
    requires Whole(rest + last) && Free(last, '\n')
    ensures last == ""
  {
  }

  /** Behind complete lines, reading goes on with what they left. */
  lemma AfterWhole<S>(step: (S, string) -> S, s: S, a: string, b: string)
    requires Whole(a)
    ensures OnText(step, s, a + b) == OnText(step, OnText(step, s, a).state, b)
  {
    OnTextMore(step, s, a, b);
    WholeIsConsumed(step, s, a);
    assert "" + b == b;
  }

  /** A newline at the end completes the last line. */
  lemma EndedLine<S>(step: (S, string) -> S, s: S, text: string)
    ensures var f := OnText(step, s, text); OnText(step, s, text + "\n") == Feed(step(f.state, f.buffer), "")
  {
    var f := OnText(step, s, text);
    var rest := LastLine(text);
    OnTextMore(step, s, text, "\n");
    OnTextLine(step, f.state, f.buffer, "");
    assert f.buffer + "\n" + "" == f.buffer + "\n";
    assert Split("", '\n') == [""];
  }

  /** A line that makes no difference where it stands may be left out. */
  lemma WithoutLine<S>(step: (S, string) -> S, s: S, a: string, l: string, b: string)
    requires Whole(a) && Free(l, '\n')
    ensures OnText(step, s, a + (l + "\n" + b)) == OnText(step, step(OnText(step, s, a).state, l), b)
  {
    AfterWhole(step, s, a, l + "\n" + b);
    OnTextLine(step, OnText(step, s, a).state, l, b);
  }
}
