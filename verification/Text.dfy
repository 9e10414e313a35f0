/**
 Decimal numbers, white space, and splitting and joining of text, as the
 source's language does them: numbers print without leading zeros, splitting at
 a separator keeps empty pieces, and trimming removes the white space of the
 language's definition at both ends. Characters are compared one by one.
 */
module Text {
  import opened Wrappers

  // ---- Decimal numbers ----

  predicate IsDigit(c: char) {
    '0' <= c <= '9'
  }

  predicate AllDigits(s: string) {
    forall i :: 0 <= i < |s| ==> IsDigit(s[i])
  }

  function PrintNat(n: nat): (s: string)
    ensures s != [] && AllDigits(s)
  {
    var digit := ((n % 10) + ('0' as int)) as char;
    if n < 10 then [digit] else PrintNat(n / 10) + [digit]
  }

  function ParseNat(s: string): nat
    requires AllDigits(s)
  {
    if s == [] then 0
    else 10 * ParseNat(s[..|s| - 1]) + (s[|s| - 1] as int - '0' as int)
  }

  lemma {:induction false} ParsePrintNat(n: nat)
    ensures ParseNat(PrintNat(n)) == n
  {
    if n >= 10 {
      ParsePrintNat(n / 10);
      assert PrintNat(n)[..|PrintNat(n)| - 1] == PrintNat(n / 10);
    }
  }

  /** Ten to the power of `k`. */
  function Power10(k: nat): (r: nat)
    ensures r > 0
  {
    if k == 0 then 1 else 10 * Power10(k - 1)
  }

  /** What a row of digits means: each digit times the power of ten of its place. */
  function Positional(s: string): int
    requires AllDigits(s)
  {
    if s == "" then 0 else (s[0] as int - '0' as int) * Power10(|s| - 1) + Positional(s[1..])
  }

  lemma {:induction false} PositionalLast(s: string)
    requires AllDigits(s) && s != ""
    ensures Positional(s) == 10 * Positional(s[..|s| - 1]) + (s[|s| - 1] as int - '0' as int)
  {
    var n := |s| - 1;
    var first := s[0] as int - '0' as int;
    if n == 0 {
      assert s[1..] == "" && Power10(0) == 1;
    } else {
      PositionalLast(s[1..]);
      assert s[1..][..n - 1] == s[..n][1..];
      TenTimes(first, Power10(n - 1));
      assert Positional(s[..n]) == first * Power10(n - 1) + Positional(s[..n][1..]);
    }
  }

  lemma TenTimes(a: int, b: int)
    ensures a * (10 * b) == 10 * (a * b)
  {
  }

  /** Parsing reads the digits by their places. */
  lemma {:induction false} ParseIsPositional(s: string)
    requires AllDigits(s)
    ensures ParseNat(s) == Positional(s)
  {
    if s != "" {
      ParseIsPositional(s[..|s| - 1]);
      PositionalLast(s);
    }
  }

  /** Printing writes the number by places and without a leading zero. */
  lemma {:induction false} PrintIsPositional(n: nat)
    ensures AllDigits(PrintNat(n)) && Positional(PrintNat(n)) == n
    ensures PrintNat(n)[0] == '0' ==> PrintNat(n) == "0"
  {
    ParsePrintNat(n);
    ParseIsPositional(PrintNat(n));
    if n >= 10 {
      PrintIsPositional(n / 10);
      assert PrintNat(n / 10) != "0" by {
        assert Positional("0") == 0 by { assert "0"[1..] == ""; }
      }
    }
  }

  function PrintInt(n: int): string {
    if n < 0 then "-" + PrintNat(-n) else PrintNat(n)
  }

  /** Reads back what `PrintInt` writes. */
  function ParseInt(s: string): Option<int> {
    if s != [] && s[0] == '-' && s[1..] != [] && AllDigits(s[1..]) then Some(0 - ParseNat(s[1..]))
    else if s != [] && AllDigits(s) then Some(ParseNat(s))
    else None
  }

  lemma ParsePrintInt(n: int)
    ensures ParseInt(PrintInt(n)) == Some(n)
  {
    if n < 0 {
      ParsePrintNat(-n);
      assert PrintInt(n)[1..] == PrintNat(-n);
    } else {
      ParsePrintNat(n);
      assert IsDigit(PrintNat(n)[0]);
    }
  }

  // ---- Whitespace ----

  /** The characters removed by `trim` and matched by `\s`. */
  predicate IsSpace(c: char) {
    var u := c as int;
    9 <= u <= 13 || u == 0x20 || u == 0xA0 || u == 0x1680 || 0x2000 <= u <= 0x200A
    || u == 0x2028 || u == 0x2029 || u == 0x202F || u == 0x205F || u == 0x3000 || u == 0xFEFF
  }

  function TrimStart(s: string): string {
    if s != [] && IsSpace(s[0]) then TrimStart(s[1..]) else s
  }

  function TrimEnd(s: string): string {
    if s != [] && IsSpace(s[|s| - 1]) then TrimEnd(s[..|s| - 1]) else s
  }

  function Trim(s: string): string {
    TrimEnd(TrimStart(s))
  }

  ghost predicate AllSpace(s: string) {
    forall i :: 0 <= i < |s| ==> IsSpace(s[i])
  }

  lemma {:induction false} TrimStartCuts(s: string)
    ensures |TrimStart(s)| <= |s|
    ensures var k := |s| - |TrimStart(s)|; TrimStart(s) == s[k..] && AllSpace(s[..k])
  {
    if s != "" && IsSpace(s[0]) {
      TrimStartCuts(s[1..]);
      var k := |s| - |TrimStart(s)|;
      assert s[..k] == [s[0]] + s[1..][..k - 1];
    }
  }

  lemma {:induction false} TrimEndCuts(s: string)
    ensures |TrimEnd(s)| <= |s|
    ensures var n := |TrimEnd(s)|; TrimEnd(s) == s[..n] && AllSpace(s[n..])
  {
    if s != "" && IsSpace(s[|s| - 1]) {
      TrimEndCuts(s[..|s| - 1]);
      var n := |TrimEnd(s)|;
      assert s[n..] == s[..|s| - 1][n..] + [s[|s| - 1]];
    }
  }

  /** Only white space is cut off, at both ends, and none is left there. */
  lemma TrimCuts(s: string) returns (i: nat, j: nat)
    ensures i <= j <= |s| && Trim(s) == s[i..j] && AllSpace(s[..i]) && AllSpace(s[j..])
    ensures i < j ==> !IsSpace(s[i]) && !IsSpace(s[j - 1])
  {
    var t := TrimStart(s);
    TrimStartCuts(s);
    TrimEndCuts(t);
    TrimStartFacts(s);
    TrimEndFacts(t);
    i := |s| - |t|;
    j := i + |TrimEnd(t)|;
    assert t[|TrimEnd(t)|..] == s[j..];
  }

  // ---- Splitting and joining ----

  function PushFront(c: char, parts: seq<string>): (r: seq<string>)
    requires parts != []
    ensures r != []
  {
    [[c] + parts[0]] + parts[1..]
  }

  function Split(s: string, sep: char): (parts: seq<string>)
    ensures parts != []
  {
    if s == [] then [[]]
    else if s[0] == sep then [[]] + Split(s[1..], sep)
    else PushFront(s[0], Split(s[1..], sep))
  }

  function Join(parts: seq<string>, sep: char): string {
    if parts == [] then []
    else if |parts| == 1 then parts[0]
    else parts[0] + [sep] + Join(parts[1..], sep)
  }

  /** The last part of the first text runs on into the first part of the second. */
  function Fuse(p: seq<string>, q: seq<string>): (r: seq<string>)
    requires p != [] && q != []
    ensures r != [] && |r| == |p| + |q| - 1
  {
    p[..|p| - 1] + [p[|p| - 1] + q[0]] + q[1..]
  }

  lemma FuseEmptyFront(p: seq<string>, q: seq<string>)
    requires p != [] && q != []
    ensures Fuse([[]] + p, q) == [[]] + Fuse(p, q)
  {
    var e: string := [];
    assert ([e] + p)[..|[e] + p| - 1] == [e] + p[..|p| - 1];
  }

  lemma FusePushFront(c: char, p: seq<string>, q: seq<string>)
    requires p != [] && q != []
    ensures Fuse(PushFront(c, p), q) == PushFront(c, Fuse(p, q))
  {
    if |p| == 1 {
      assert ([c] + p[0]) + q[0] == [c] + (p[0] + q[0]);
    } else {
      var r := PushFront(c, p);
      assert r[..|r| - 1] == [[c] + p[0]] + p[1..|p| - 1];
      assert Fuse(p, q)[1..] == p[1..|p| - 1] + [p[|p| - 1] + q[0]] + q[1..];
    }
  }

  lemma {:induction false} SplitConcat(s: string, t: string, sep: char)
    ensures Split(s + t, sep) == Fuse(Split(s, sep), Split(t, sep))
  {
    if s == [] {
      assert s + t == t;
      var e: string := [];
      assert Fuse([e], Split(t, sep)) == [e + Split(t, sep)[0]] + Split(t, sep)[1..];
      assert e + Split(t, sep)[0] == Split(t, sep)[0];
    } else {
      SplitConcat(s[1..], t, sep);
      assert (s + t)[1..] == s[1..] + t;
      if s[0] == sep {
        FuseEmptyFront(Split(s[1..], sep), Split(t, sep));
      } else {
        FusePushFront(s[0], Split(s[1..], sep), Split(t, sep));
      }
    }
  }

  predicate Free(s: string, sep: char) {
    forall i :: 0 <= i < |s| ==> s[i] != sep
  }

  lemma {:induction false} EndsKeepFree(s: string, c: char)
    requires Free(s, c)
    ensures Free(TrimEnd(s), c) && Free(TrimStart(s), c)
  {
    if s != "" {
      if IsSpace(s[0]) {
        EndsKeepFree(s[1..], c);
      }
      if IsSpace(s[|s| - 1]) {
        EndsKeepFree(s[..|s| - 1], c);
      }
    }
  }

  lemma TrimKeepsFree(s: string, c: char)
    requires Free(s, c)
    ensures Free(Trim(s), c)
  {
    EndsKeepFree(s, c);
    EndsKeepFree(TrimStart(s), c);
  }

  lemma {:induction false} TrimStartFacts(s: string)
    ensures TrimStart(s) == "" || !IsSpace(TrimStart(s)[0])
  {
    if s != "" && IsSpace(s[0]) {
      TrimStartFacts(s[1..]);
    }
  }

  lemma {:induction false} TrimEndFacts(s: string)
    ensures TrimEnd(s) == "" || !IsSpace(TrimEnd(s)[|TrimEnd(s)| - 1])
    ensures s != "" && !IsSpace(s[0]) ==> TrimEnd(s) != "" && TrimEnd(s)[0] == s[0]
  {
    if s != "" && IsSpace(s[|s| - 1]) {
      TrimEndFacts(s[..|s| - 1]);
    }
  }

  /** Trimming twice is trimming once. */
  lemma TrimIsIdempotent(s: string)
    ensures Trim(Trim(s)) == Trim(s)
  {
    TrimStartFacts(s);
    TrimEndFacts(TrimStart(s));
  }

  lemma {:induction false} SplitFree(s: string, sep: char)
    requires Free(s, sep)
    ensures Split(s, sep) == [s]
  {
    if s != [] {
      SplitFree(s[1..], sep);
      assert s == [s[0]] + s[1..];
    }
  }

  lemma {:induction false} SplitParts(s: string, sep: char)
    ensures forall i :: 0 <= i < |Split(s, sep)| ==> Free(Split(s, sep)[i], sep)
  {
    if s != [] {
      SplitParts(s[1..], sep);
    }
  }

  lemma {:induction false} JoinSplit(s: string, sep: char)
    ensures Join(Split(s, sep), sep) == s
  {
    if s != [] {
      JoinSplit(s[1..], sep);
      var rest := Split(s[1..], sep);
      if s[0] == sep {
        assert ([[]] + rest)[1..] == rest;
        assert s == [] + [sep] + s[1..];
      } else {
        assert PushFront(s[0], rest)[1..] == rest[1..];
        assert s == [s[0]] + s[1..];
      }
    }
  }

  lemma {:induction false} SplitJoin(parts: seq<string>, sep: char)
    requires parts != [] && forall i :: 0 <= i < |parts| ==> Free(parts[i], sep)
    ensures Split(Join(parts, sep), sep) == parts
  {
    SplitFree(parts[0], sep);
    if |parts| > 1 {
      SplitJoin(parts[1..], sep);
      var rest := Join(parts[1..], sep);
      assert Split([sep] + rest, sep) == [[]] + parts[1..] by {
        assert ([sep] + rest)[1..] == rest;
      }
      SplitConcat(parts[0], [sep] + rest, sep);
      var e: string := [];
      assert Fuse([parts[0]], [e] + parts[1..]) == [parts[0] + e] + parts[1..];
      assert parts[0] + e == parts[0];
      assert parts[0] + [sep] + rest == parts[0] + ([sep] + rest);
      assert parts == [parts[0]] + parts[1..];
    }
  }

  /** Only the part after the last separator can grow when more text arrives. */
  lemma SplitMore(s: string, t: string, sep: char)
    ensures var p := Split(s, sep);
            Split(s + t, sep) == p[..|p| - 1] + Split(p[|p| - 1] + t, sep)
  {
    var p := Split(s, sep);
    var last := p[|p| - 1];
    SplitParts(s, sep);
    SplitFree(last, sep);
    SplitConcat(s, t, sep);
    SplitConcat(last, t, sep);
    FuseLast(p, Split(t, sep));
  }

  lemma FuseLast(p: seq<string>, q: seq<string>)
    requires p != [] && q != []
    ensures Fuse(p, q) == p[..|p| - 1] + Fuse([p[|p| - 1]], q)
  {
  }

  // ---- Chunked text ----

  function Concat(chunks: seq<string>): string {
    if chunks == [] then "" else Concat(chunks[..|chunks| - 1]) + chunks[|chunks| - 1]
  }

  predicate StartsWith(s: string, prefix: string) {
    |prefix| <= |s| && s[..|prefix|] == prefix
  }
}
