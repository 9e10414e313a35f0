/** Stripping comments from JSON with comments, against a lexer for strings, comments and plain characters. */
module Jsonc {

  /** Each token with its source text. */
  datatype Token =
    | Literal(text: string)
    | LineComment(text: string)
    | BlockComment(text: string)
    | Plain(c: char)

  // ---- The lexer ----

  /** Characters of a string literal after its opening quote; an unterminated one runs to the end. */
  function StringRest(s: string): (n: nat)
    ensures n <= |s|
    ensures s != "" ==> n > 0
  {
    if s == "" then 0
    else if s[0] == '\\' then (if |s| == 1 then 1 else 2 + StringRest(s[2..]))
    else if s[0] == '"' then 1
    else 1 + StringRest(s[1..])
  }

  /** Characters up to the end of the line. */
  function LineRest(s: string): (n: nat)
    ensures n <= |s| && (n < |s| ==> s[n] == '\n')
    ensures forall i :: 0 <= i < n ==> s[i] != '\n'
  {
    if s == "" || s[0] == '\n' then 0 else 1 + LineRest(s[1..])
  }

  /** Characters of a block comment after its opening, with its end if it has one. */
  function BlockRest(s: string): (n: nat)
    ensures n <= |s|
  {
    if s == "" then 0
    else if |s| >= 2 && s[0] == '*' && s[1] == '/' then 2
    else 1 + BlockRest(s[1..])
  }

  predicate Opens(t: string, second: char) {
    |t| >= 2 && t[0] == '/' && t[1] == second
  }

  function FirstToken(t: string): (token: Token)
    requires t != ""
    ensures 0 < |Raw(token)| <= |t| && t[..|Raw(token)|] == Raw(token)
  {
    if t[0] == '"' then Literal(t[..1 + StringRest(t[1..])])
    else if Opens(t, '/') then LineComment(t[..2 + LineRest(t[2..])])
    else if Opens(t, '*') then BlockComment(t[..2 + BlockRest(t[2..])])
    else Plain(t[0])
  }

  function Lex(t: string): seq<Token>
    decreases |t|
  {
    if t == "" then [] else [FirstToken(t)] + Lex(t[|Raw(FirstToken(t))|..])
  }

  function Raw(token: Token): string {
    match token
    case Plain(c) => [c]
    case Literal(text) => text
    case LineComment(text) => text
    case BlockComment(text) => text
  }

  function RawAll(tokens: seq<Token>): string {
    if tokens == [] then "" else Raw(tokens[0]) + RawAll(tokens[1..])
  }

  // ---- Stripping, token by token ----

  function NewlineOf(c: char): string {
    if c == '\n' then "\n" else ""
  }

  function NewlinesOf(s: string): string {
    if s == "" then "" else NewlineOf(s[0]) + NewlinesOf(s[1..])
  }

  /** Comments vanish but for the newlines of block comments; everything else is copied. */
  function Out(token: Token): string {
    match token
    case LineComment(_) => ""
    case BlockComment(text) => NewlinesOf(text)
    case _ => Raw(token)
  }

  function OutAll(tokens: seq<Token>): string {
    if tokens == [] then "" else Out(tokens[0]) + OutAll(tokens[1..])
  }

  function Strip(t: string): string {
    OutAll(Lex(t))
  }

  lemma {:induction false} NewlinesConcat(s: string, t: string)
    ensures NewlinesOf(s + t) == NewlinesOf(s) + NewlinesOf(t)
  {
    if s == "" {
      assert s + t == t;
    } else {
      assert (s + t)[1..] == s[1..] + t && (s + t)[0] == s[0];
      NewlinesConcat(s[1..], t);
      var first, rest := NewlineOf(s[0]), NewlinesOf(s[1..]);
      assert first + (rest + NewlinesOf(t)) == first + rest + NewlinesOf(t);
    }
  }

  lemma {:induction false} NoNewlines(s: string)
    requires forall i :: 0 <= i < |s| ==> s[i] != '\n'
    ensures NewlinesOf(s) == ""
  {
    if s != "" {
      NoNewlines(s[1..]);
    }
  }

  lemma StripFirst(t: string)
    requires t != ""
    ensures Strip(t) == Out(FirstToken(t)) + Strip(t[|Raw(FirstToken(t))|..])
  {
    var tail := Lex(t[|Raw(FirstToken(t))|..]);
    assert ([FirstToken(t)] + tail)[1..] == tail;
  }

  // ---- The scanner ----

  /** Where the string literal that is open at `next` ends. */
  function StringEnd(text: string, next: nat): (end: nat)
    requires next <= |text|
    ensures next <= end <= |text|
    decreases |text| - next
  {
    if next == |text| then next
    else if text[next] == '\\' then (if next + 1 == |text| then |text| else StringEnd(text, next + 2))
    else if text[next] == '"' then next + 1
    else StringEnd(text, next + 1)
  }

  lemma {:induction false} StringEndIsRest(text: string, next: nat)
    requires next <= |text|
    ensures StringEnd(text, next) == next + StringRest(text[next..])
    decreases |text| - next
  {
    if next < |text| {
      StringEndIsRest(text, next + 1);
      assert text[next..][1..] == text[next + 1..];
      if next + 1 < |text| {
        StringEndIsRest(text, next + 2);
        assert text[next..][2..] == text[next + 2..];
      }
    }
  }

  /** The literal being copied from `i`; after an escape at the end of the text the index overruns it. */
  ghost predicate Copying(text: string, i: nat, next: nat, copied: string) {
    && i < next && i < |text|
    && if next <= |text| then copied == text[i..next] && StringEnd(text, next) == StringEnd(text, i + 1)
       else copied == text[i..] && |text| == StringEnd(text, i + 1)
  }

  /** `next` may overrun an unterminated literal. */
  ghost predicate Copied(text: string, i: nat, next: nat, copied: string) {
    && i < |text|
    && var end := StringEnd(text, i + 1);
       copied == text[i..end] && next >= end && (next == end || end == |text|)
  }

  lemma NothingCopied(text: string, i: nat)
    requires i < |text|
    ensures Copying(text, i, i + 1, [text[i]])
  {
  }

  lemma CopiedOne(text: string, i: nat, next: nat, copied: string)
    requires Copying(text, i, next, copied) && next < |text| && text[next] != '\\' && text[next] != '"'
    ensures Copying(text, i, next + 1, copied + [text[next]])
  {
  }

  lemma CopiedEscape(text: string, i: nat, next: nat, copied: string)
    requires Copying(text, i, next, copied) && next < |text| && text[next] == '\\'
    ensures next + 1 < |text| ==> Copying(text, i, next + 2, copied + [text[next]] + [text[next + 1]])
    ensures next + 1 == |text| ==> Copying(text, i, next + 2, copied + [text[next]])
  {
  }

  lemma CopiedQuote(text: string, i: nat, next: nat, copied: string)
    requires Copying(text, i, next, copied) && next < |text| && text[next] == '"'
    ensures Copied(text, i, next + 1, copied + [text[next]])
  {
  }

  lemma CopiedAll(text: string, i: nat, next: nat, copied: string)
    requires Copying(text, i, next, copied) && next >= |text|
    ensures Copied(text, i, next + 1, copied)
  {
  }

  /** Copies a string literal from its opening quote at `i`. */
  method CopyString(text: string, i: nat) returns (copied: string, next: nat)
    requires i < |text| && text[i] == '"'
    ensures Copied(text, i, next, copied)
  {
    copied := [text[i]];
    next := i + 1;
    NothingCopied(text, i);
    while next < |text|
      invariant Copying(text, i, next, copied)
      decreases |text| - next
    {
      var sc := text[next];
      if sc == '\\' {
        CopiedEscape(text, i, next, copied);
        copied := copied + [sc];
        next := next + 1;
        if next < |text| {
          copied := copied + [text[next]];
        }
      } else if sc == '"' {
        CopiedQuote(text, i, next, copied);
        copied := copied + [sc];
        next := next + 1;
        return;
      } else {
        CopiedOne(text, i, next, copied);
        copied := copied + [sc];
      }
      next := next + 1;
    }
    CopiedAll(text, i, next, copied);
    next := next + 1;
  }

  /** Skips a line comment from the `//` at `i`. */
  method SkipLine(text: string, i: nat) returns (next: nat)
    requires i + 2 <= |text|
    ensures next == i + 2 + LineRest(text[i + 2..])
  {
    next := i + 2;
    while next < |text| && text[next] != '\n'
      invariant i + 2 <= next <= |text|
      invariant next + LineRest(text[next..]) == i + 2 + LineRest(text[i + 2..])
    {
      assert text[next..][1..] == text[next + 1..];
      next := next + 1;
    }
  }

  /** Where the block comment that is open at `next` ends. */
  function BlockEnd(text: string, next: nat): (end: nat)
    requires next <= |text|
    ensures next <= end <= |text|
    decreases |text| - next
  {
    if next == |text| then next
    else if text[next] == '*' && next + 1 < |text| && text[next + 1] == '/' then next + 2
    else BlockEnd(text, next + 1)
  }

  lemma {:induction false} BlockEndIsRest(text: string, next: nat)
    requires next <= |text|
    ensures BlockEnd(text, next) == next + BlockRest(text[next..])
    decreases |text| - next
  {
    if next < |text| {
      BlockEndIsRest(text, next + 1);
      assert text[next..][1..] == text[next + 1..];
    }
  }

  lemma NewlinesOne(s: string, c: char)
    ensures NewlinesOf(s + [c]) == if c == '\n' then NewlinesOf(s) + "\n" else NewlinesOf(s)
  {
    NewlinesConcat(s, [c]);
    assert [c][1..] == "" && NewlineOf(c) + "" == NewlineOf(c);
    assert NewlinesOf([c]) == NewlineOf(c);
    assert NewlinesOf(s) + "" == NewlinesOf(s);
  }

  lemma NewlinesUpTo(text: string, start: nat, next: nat)
    requires start <= next < |text|
    ensures NewlinesOf(text[start..next + 1]) ==
            if text[next] == '\n' then NewlinesOf(text[start..next]) + "\n" else NewlinesOf(text[start..next])
  {
    assert text[start..next + 1] == text[start..next] + [text[next]];
    NewlinesOne(text[start..next], text[next]);
  }

  /** The block comment being skipped from `start`: `newlines` are those before `next`. */
  ghost predicate Skipping(text: string, start: nat, next: nat, newlines: string) {
    && start <= next <= |text| && BlockEnd(text, next) == BlockEnd(text, start)
    && newlines == NewlinesOf(text[start..next])
  }

  ghost predicate Skipped(text: string, start: nat, next: nat, newlines: string) {
    start <= |text| && next == BlockEnd(text, start) && newlines == NewlinesOf(text[start..next])
  }

  lemma NothingSkipped(text: string, start: nat)
    requires start <= |text|
    ensures Skipping(text, start, start, "")
  {
    assert text[start..start] == "";
  }

  lemma SkippedOne(text: string, start: nat, next: nat, newlines: string)
    requires Skipping(text, start, next, newlines) && next < |text|
    requires text[next] == '*' && next + 1 < |text| ==> text[next + 1] != '/'
    ensures text[next] == '\n' ==> Skipping(text, start, next + 1, newlines + "\n")
    ensures text[next] != '\n' ==> Skipping(text, start, next + 1, newlines)
  {
    NewlinesUpTo(text, start, next);
  }

  lemma SkippedEnd(text: string, start: nat, next: nat, newlines: string)
    requires Skipping(text, start, next, newlines)
    requires next + 1 < |text| && text[next] == '*' && text[next + 1] == '/'
    ensures Skipped(text, start, next + 2, newlines)
  {
    NewlinesUpTo(text, start, next);
    NewlinesUpTo(text, start, next + 1);
  }

  lemma SkippedAll(text: string, start: nat, newlines: string)
    requires Skipping(text, start, |text|, newlines)
    ensures Skipped(text, start, |text|, newlines)
  {
  }

  /** Skips a block comment from its opening at `i`, keeping its newlines. */
  method SkipBlock(text: string, i: nat) returns (newlines: string, next: nat)
    requires i + 2 <= |text|
    ensures Skipped(text, i + 2, next, newlines)
  {
    newlines := "";
    next := i + 2;
    NothingSkipped(text, i + 2);
    while next < |text|
      invariant Skipping(text, i + 2, next, newlines)
    {
      if text[next] == '*' && next + 1 < |text| && text[next + 1] == '/' {
        SkippedEnd(text, i + 2, next, newlines);
        next := next + 2;
        return;
      }
      SkippedOne(text, i + 2, next, newlines);
      if text[next] == '\n' {
        newlines := newlines + "\n";
      }
      next := next + 1;
    }
    SkippedAll(text, i + 2, newlines);
  }

  /** Where the token at `i` ends. */
  function TokenEnd(text: string, i: nat): (end: nat)
    requires i < |text|
    ensures i < end <= |text|
  {
    i + |Raw(FirstToken(text[i..]))|
  }

  lemma LiteralAt(text: string, i: nat)
    requires i < |text| && text[i] == '"'
    ensures TokenEnd(text, i) == StringEnd(text, i + 1)
    ensures Out(FirstToken(text[i..])) == text[i..TokenEnd(text, i)]
  {
    StringEndIsRest(text, i + 1);
    TailOfTail(text, i, 1);
    LiteralToken(text[i..]);
    assert text[i..][..TokenEnd(text, i) - i] == text[i..TokenEnd(text, i)];
  }

  lemma LiteralToken(t: string)
    requires t != "" && t[0] == '"'
    ensures var n := 1 + StringRest(t[1..]);
            |Raw(FirstToken(t))| == n && Out(FirstToken(t)) == t[..n]
  {
  }

  lemma PlainAt(text: string, i: nat)
    requires i < |text| && text[i] != '"'
    requires text[i] == '/' && i + 1 < |text| ==> text[i + 1] != '/' && text[i + 1] != '*'
    ensures TokenEnd(text, i) == i + 1 && Out(FirstToken(text[i..])) == [text[i]]
  {
  }

  lemma LineCommentAt(text: string, i: nat)
    requires i + 1 < |text| && text[i] == '/' && text[i + 1] == '/'
    ensures TokenEnd(text, i) == i + 2 + LineRest(text[i + 2..])
    ensures Out(FirstToken(text[i..])) == ""
  {
    assert text[i..][2..] == text[i + 2..];
  }

  lemma BlockNewlines(s: string)
    requires |s| >= 2 && s[0] != '\n' && s[1] != '\n'
    ensures NewlinesOf(s) == NewlinesOf(s[2..])
  {
    assert s == s[..2] + s[2..];
    NoNewlines(s[..2]);
    NewlinesConcat(s[..2], s[2..]);
    assert "" + NewlinesOf(s[2..]) == NewlinesOf(s[2..]);
  }

  lemma BlockToken(t: string)
    requires Opens(t, '*')
    ensures var n := 2 + BlockRest(t[2..]);
            |Raw(FirstToken(t))| == n && Out(FirstToken(t)) == NewlinesOf(t[2..n])
  {
    var n := 2 + BlockRest(t[2..]);
    BlockNewlines(t[..n]);
    assert t[..n][2..] == t[2..n];
  }

  lemma BlockCommentAt(text: string, i: nat)
    requires i + 1 < |text| && text[i] == '/' && text[i + 1] == '*'
    ensures TokenEnd(text, i) == BlockEnd(text, i + 2)
    ensures Out(FirstToken(text[i..])) == NewlinesOf(text[i + 2..TokenEnd(text, i)])
  {
    var t, end := text[i..], BlockEnd(text, i + 2);
    BlockEndIsRest(text, i + 2);
    BlockToken(t);
    assert t[2..] == text[i + 2..];
    assert t[2..end - i] == text[i + 2..end];
  }

  /** Where an index that may overrun the text stands. */
  function Remaining(text: string, i: nat): string {
    if i <= |text| then text[i..] else ""
  }

  /** `result` is the stripped text so far and `i` the index the scanner goes on from. */
  ghost predicate Scanning(text: string, i: nat, result: string) {
    result + Strip(Remaining(text, i)) == Strip(text)
  }

  lemma TailOfTail(text: string, i: nat, k: nat)
    requires i + k <= |text|
    ensures text[i..][k..] == text[i + k..]
  {
  }

  lemma StripAt(text: string, i: nat)
    requires i < |text|
    ensures Strip(text[i..]) == Out(FirstToken(text[i..])) + Strip(text[TokenEnd(text, i)..])
  {
    TailOfTail(text, i, TokenEnd(text, i) - i);
    StripRest(text[i..], text[TokenEnd(text, i)..]);
  }

  lemma StripRest(t: string, rest: string)
    requires t != "" && rest == t[|Raw(FirstToken(t))|..]
    ensures Strip(t) == Out(FirstToken(t)) + Strip(rest)
  {
    StripFirst(t);
  }

  lemma AddedOn(result: string, added: string, rest: string)
    ensures result + (added + rest) == result + added + rest
  {
  }

  lemma ScannedOn(text: string, i: nat, result: string, next: nat)
    requires Scanning(text, i, result) && i < |text|
    requires next >= TokenEnd(text, i) && (next == TokenEnd(text, i) || TokenEnd(text, i) == |text|)
    ensures Scanning(text, next, result + Out(FirstToken(text[i..])))
  {
    StripAt(text, i);
    assert Remaining(text, next) == text[TokenEnd(text, i)..];
    AddedOn(result, Out(FirstToken(text[i..])), Strip(text[TokenEnd(text, i)..]));
  }

  method StripJsonComments(text: string) returns (result: string)
    ensures result == Strip(text)
  {
    result := "";
    var i := 0;
    assert text[0..] == text && "" + Strip(text) == Strip(text);
    while i < |text|
      invariant 0 <= i && Scanning(text, i, result)
      decreases |text| - i
    {
      var added, next := ScanToken(text, i);
      ScannedOn(text, i, result, next);
      result := result + added;
      i := next;
    }
    assert Remaining(text, i) == "" && Strip("") == "";
  }

  /** One pass of the scanner's main loop. */
  method ScanToken(text: string, i: nat) returns (added: string, next: nat)
    requires i < |text|
    ensures added == Out(FirstToken(text[i..]))
    ensures next >= TokenEnd(text, i) && (next == TokenEnd(text, i) || TokenEnd(text, i) == |text|)
  {
    var ch := text[i];
    if ch == '"' {
      LiteralAt(text, i);
      added, next := CopyString(text, i);
    } else if ch == '/' && i + 1 < |text| && text[i + 1] == '/' {
      LineCommentAt(text, i);
      next := SkipLine(text, i);
      added := "";
    } else if ch == '/' && i + 1 < |text| && text[i + 1] == '*' {
      BlockCommentAt(text, i);
      added, next := SkipBlock(text, i);
    } else {
      PlainAt(text, i);
      added, next := [ch], i + 1;
    }
  }

  // ---- What the lexer keeps ----

  lemma {:induction false} LexIsLossless(t: string)
    ensures RawAll(Lex(t)) == t
    decreases |t|
  {
    if t != "" {
      var token := FirstToken(t);
      var rest := t[|Raw(token)|..];
      LexIsLossless(rest);
      assert ([token] + Lex(rest))[1..] == Lex(rest);
      assert t == Raw(token) + rest;
    }
  }

  predicate IsComment(token: Token) {
    token.LineComment? || token.BlockComment?
  }

  /** Line numbers survive: up to any token, input and output have the same newlines. */
  lemma {:induction false} NewlinesKept(tokens: seq<Token>)
    requires forall i :: 0 <= i < |tokens| && tokens[i].LineComment? ==> NewlinesOf(tokens[i].text) == ""
    ensures NewlinesOf(OutAll(tokens)) == NewlinesOf(RawAll(tokens))
  {
    if tokens != [] {
      NewlinesKept(tokens[1..]);
      NewlinesConcat(Out(tokens[0]), OutAll(tokens[1..]));
      NewlinesConcat(Raw(tokens[0]), RawAll(tokens[1..]));
      if tokens[0].BlockComment? {
        NewlinesOfNewlines(tokens[0].text);
      }
    }
  }

  lemma {:induction false} NewlinesOfNewlines(s: string)
    ensures NewlinesOf(NewlinesOf(s)) == NewlinesOf(s)
  {
    if s != "" {
      NewlinesOfNewlines(s[1..]);
      NewlinesConcat(NewlineOf(s[0]), NewlinesOf(s[1..]));
      assert "\n"[1..] == "";
    }
  }

  lemma {:induction false} LineCommentsHaveNoNewline(t: string)
    ensures forall i :: 0 <= i < |Lex(t)| && Lex(t)[i].LineComment? ==> NewlinesOf(Lex(t)[i].text) == ""
    decreases |t|
  {
    if t != "" {
      var token := FirstToken(t);
      LineCommentsHaveNoNewline(t[|Raw(token)|..]);
      if token.LineComment? {
        var n := LineRest(t[2..]);
        forall i | 0 <= i < |token.text| ensures token.text[i] != '\n' {
          if i >= 2 {
            assert token.text[i] == t[2..][i - 2];
          }
        }
        NoNewlines(token.text);
      }
    }
  }

  lemma StripKeepsLines(t: string, k: nat)
    requires k <= |Lex(t)|
    ensures NewlinesOf(OutAll(Lex(t)[..k])) == NewlinesOf(RawAll(Lex(t)[..k]))
    ensures NewlinesOf(Strip(t)) == NewlinesOf(t)
  {
    LineCommentsHaveNoNewline(t);
    NewlinesKept(Lex(t)[..k]);
    NewlinesKept(Lex(t));
    LexIsLossless(t);
  }

  // ---- Lexing the result again ----

  function PlainAll(s: string): seq<Token> {
    if s == "" then [] else [Plain(s[0])] + PlainAll(s[1..])
  }

  /** The tokens without their comments, newlines of block comments standing for themselves. */
  function Residue(tokens: seq<Token>): seq<Token> {
    if tokens == [] then []
    else
      (if IsComment(tokens[0]) then PlainAll(Out(tokens[0])) else [tokens[0]]) + Residue(tokens[1..])
  }

  lemma {:induction false} StringRestStable(s: string, u: string)
    requires StringRest(s) < |s|
    ensures StringRest(s[..StringRest(s)] + u) == StringRest(s)
  {
    var n := StringRest(s);
    var v := s[..n] + u;
    if s[0] == '\\' {
      StringRestStable(s[2..], u);
      CutBehind(s, 2, n, u);
    } else if s[0] != '"' {
      StringRestStable(s[1..], u);
      CutBehind(s, 1, n, u);
    }
  }

  lemma CutBehind(s: string, k: nat, n: nat, u: string)
    requires k <= n <= |s|
    ensures (s[..n] + u)[k..] == s[k..][..n - k] + u
  {
    var a, b := (s[..n] + u)[k..], s[k..][..n - k] + u;
    assert |a| == |b| && forall i :: 0 <= i < |a| ==> a[i] == b[i];
  }

  lemma LiteralAgain(t: string, u: string)
    requires t != "" && t[0] == '"'
    requires var n := |Raw(FirstToken(t))|; n == |t| ==> u == ""
    ensures var lit := FirstToken(t);
            Lex(Raw(lit) + u) == [lit] + Lex(u)
  {
    var lit := FirstToken(t);
    var n := |Raw(lit)|;
    var v := Raw(lit) + u;
    if n < |t| {
      StringRestStable(t[1..], u);
      CutBehind(t, 1, n, u);
    } else {
      assert v == t;
    }
    assert FirstToken(v) == lit;
    assert v[n..] == u;
  }

  predicate OnlyNewlines(s: string) {
    forall i :: 0 <= i < |s| ==> s[i] == '\n'
  }

  lemma {:induction false} NewlinesOnly(s: string)
    ensures OnlyNewlines(NewlinesOf(s))
  {
    if s != "" {
      NewlinesOnly(s[1..]);
    }
  }

  lemma NewlineThen(t: string, u: string, plain: seq<Token>, rest: seq<Token>)
    requires t == "\n" + u && Lex(u) == plain + rest
    ensures Lex(t) == [Plain('\n')] + plain + rest
  {
    assert t[1..] == u && Lex(t) == [Plain('\n')] + Lex(u);
  }

  lemma NewlineBefore(s: string)
    requires s != "" && s[0] == '\n'
    ensures PlainAll(s) == [Plain('\n')] + PlainAll(s[1..])
  {
  }

  lemma {:induction false} NewlinesAgain(s: string, u: string)
    requires OnlyNewlines(s)
    ensures Lex(s + u) == PlainAll(s) + Lex(u)
  {
    if s == "" {
      assert "" + u == u;
    } else {
      NewlinesAgain(s[1..], u);
      NewlineBefore(s);
      assert s + u == "\n" + (s[1..] + u);
      NewlineThen(s + u, s[1..] + u, PlainAll(s[1..]), Lex(u));
    }
  }

  lemma PlainAgain(t: string)
    requires t != "" && FirstToken(t).Plain?
    ensures Lex([t[0]] + Strip(t[1..])) == [Plain(t[0])] + Lex(Strip(t[1..]))
  {
    var u := Strip(t[1..]);
    var v := [t[0]] + u;
    assert v[1..] == u;
    if t[0] == '/' && t[1..] != "" {
      StripFirst(t[1..]);
      assert t[1] != '/' && t[1] != '*';
      assert Out(FirstToken(t[1..]))[0] == t[1];
      assert u[0] == t[1];
    }
    assert FirstToken(v) == Plain(t[0]);
  }

  /** The stripped text lexes to the tokens of the original without its comments. */
  lemma {:induction false} StrippedLexes(t: string)
    ensures Lex(Strip(t)) == Residue(Lex(t))
    decreases |t|
  {
    if t != "" {
      var token := FirstToken(t);
      var rest := t[|Raw(token)|..];
      StrippedLexes(rest);
      StripFirst(t);
      assert ([token] + Lex(rest))[1..] == Lex(rest);
      match token {
        case Literal(_) =>
          LiteralAgain(t, Strip(rest));
        case LineComment(_) =>
          assert "" + Strip(rest) == Strip(rest);
          assert [] + Residue(Lex(rest)) == Residue(Lex(rest));
        case BlockComment(text) =>
          NewlinesOnly(text);
          NewlinesAgain(NewlinesOf(text), Strip(rest));
        case Plain(c) =>
          PlainAgain(t);
      }
    }
  }

  ghost predicate CommentFree(tokens: seq<Token>) {
    forall i :: 0 <= i < |tokens| ==> !IsComment(tokens[i])
  }

  lemma {:induction false} ResidueIsCommentFree(tokens: seq<Token>)
    ensures CommentFree(Residue(tokens))
  {
    if tokens != [] {
      ResidueIsCommentFree(tokens[1..]);
      PlainAllIsPlain(Out(tokens[0]));
    }
  }

  lemma {:induction false} PlainAllIsPlain(s: string)
    ensures forall i :: 0 <= i < |PlainAll(s)| ==> PlainAll(s)[i].Plain?
  {
    if s != "" {
      PlainAllIsPlain(s[1..]);
    }
  }

  lemma SameHead(head: string, a: string, b: string)
    ensures head + a == head + b <==> a == b
  {
    assert (head + a)[|head|..] == a && (head + b)[|head|..] == b;
  }

  lemma {:induction false} OutShrinks(tokens: seq<Token>)
    requires forall i :: 0 <= i < |tokens| ==> IsComment(tokens[i]) ==> |Out(tokens[i])| < |Raw(tokens[i])|
    ensures |OutAll(tokens)| <= |RawAll(tokens)|
    ensures OutAll(tokens) == RawAll(tokens) <==> CommentFree(tokens)
  {
    if tokens != [] {
      OutShrinks(tokens[1..]);
      if !IsComment(tokens[0]) {
        SameHead(Raw(tokens[0]), OutAll(tokens[1..]), RawAll(tokens[1..]));
        assert CommentFree(tokens) <==> CommentFree(tokens[1..]) by {
          assert tokens == [tokens[0]] + tokens[1..];
        }
      }
    }
  }

  lemma {:induction false} NewlinesShrink(s: string)
    ensures |NewlinesOf(s)| <= |s|
  {
    if s != "" {
      NewlinesShrink(s[1..]);
    }
  }

  lemma {:induction false} CommentsShrink(t: string)
    ensures forall i :: 0 <= i < |Lex(t)| ==> IsComment(Lex(t)[i]) ==> |Out(Lex(t)[i])| < |Raw(Lex(t)[i])|
    decreases |t|
  {
    if t != "" {
      var token := FirstToken(t);
      CommentsShrink(t[|Raw(token)|..]);
      if token.BlockComment? {
        assert token.text == token.text[..2] + token.text[2..];
        NewlinesConcat(token.text[..2], token.text[2..]);
        NoNewlines(token.text[..2]);
        NewlinesShrink(token.text[2..]);
      }
    }
  }

  /** Text is left unchanged exactly when it has no comment. */
  lemma UnchangedIffCommentFree(t: string)
    ensures Strip(t) == t <==> CommentFree(Lex(t))
  {
    LexIsLossless(t);
    CommentsShrink(t);
    OutShrinks(Lex(t));
  }

  /** Stripping twice is stripping once. */
  lemma StripIsIdempotent(t: string)
    ensures Strip(Strip(t)) == Strip(t)
  {
    StrippedLexes(t);
    ResidueIsCommentFree(Lex(t));
    UnchangedIffCommentFree(Strip(t));
  }

  function Literals(tokens: seq<Token>): seq<string> {
    if tokens == [] then []
    else (if tokens[0].Literal? then [tokens[0].text] else []) + Literals(tokens[1..])
  }

  lemma {:induction false} LiteralsConcat(a: seq<Token>, b: seq<Token>)
    ensures Literals(a + b) == Literals(a) + Literals(b)
  {
    if a == [] {
      assert a + b == b;
    } else {
      assert (a + b)[1..] == a[1..] + b;
      LiteralsConcat(a[1..], b);
    }
  }

  lemma {:induction false} NoLiterals(s: string)
    ensures Literals(PlainAll(s)) == []
  {
    if s != "" {
      NoLiterals(s[1..]);
      assert ([Plain(s[0])] + PlainAll(s[1..]))[1..] == PlainAll(s[1..]);
    }
  }

  lemma {:induction false} ResidueKeepsLiterals(tokens: seq<Token>)
    ensures Literals(Residue(tokens)) == Literals(tokens)
  {
    if tokens != [] {
      ResidueKeepsLiterals(tokens[1..]);
      var first := if IsComment(tokens[0]) then PlainAll(Out(tokens[0])) else [tokens[0]];
      LiteralsConcat(first, Residue(tokens[1..]));
      NoLiterals(Out(tokens[0]));
      assert [tokens[0]][1..] == [];
    }
  }

  /** Every string literal is still there, verbatim and in order. */
  lemma LiteralsAreVerbatim(t: string)
    ensures Literals(Lex(Strip(t))) == Literals(Lex(t))
  {
    StrippedLexes(t);
    ResidueKeepsLiterals(Lex(t));
  }

  /** The literals are all literal tokens, each as often as it occurs. */
  lemma {:induction false} LiteralsAreAll(tokens: seq<Token>, text: string)
    ensures multiset(Literals(tokens))[text] == multiset(tokens)[Literal(text)]
  {
    if tokens != [] {
      var rest := tokens[1..];
      LiteralsAreAll(rest, text);
      assert tokens == [tokens[0]] + rest;
      assert multiset(tokens) == multiset{tokens[0]} + multiset(rest);
    }
  }
}
