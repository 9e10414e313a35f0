/** Content-Length framing over bytes. */
module Framing {
  /*
   Content-Length framing over a byte stream that arrives in chunks. The MCP
   transport and the LSP client implement it alike. A byte is a character below
   256, so that ASCII literals can be used; nothing here depends on the bound.
   */

  import opened Wrappers
  import opened Text

  const TERMINATOR := "\r\n\r\n"
  const FIELD := "content-length:"
  const MAX_BUFFER_SIZE := 64 * 1024 * 1024

  // ---- Headers ----

  predicate TerminatorAt(b: string, i: nat) {
    i + 4 <= |b| && b[i] == '\r' && b[i + 1] == '\n' && b[i + 2] == '\r' && b[i + 3] == '\n'
  }

  /** The first occurrence of the header terminator. */
  function HeaderEnd(b: string): (r: Option<nat>)
    ensures r.Some? ==> TerminatorAt(b, r.value) && forall i :: 0 <= i < r.value ==> !TerminatorAt(b, i)
    ensures r.None? ==> forall i :: 0 <= i ==> !TerminatorAt(b, i)
  {
    if |b| < 4 then None
    else if TerminatorAt(b, 0) then Some(0)
    else
      assert forall i :: 0 < i ==> (TerminatorAt(b, i) <==> TerminatorAt(b[1..], i - 1));
      match HeaderEnd(b[1..])
      case None => None
      case Some(k) => Some(k + 1)
  }

  function LowerChar(c: char): char {
    if 'A' <= c <= 'Z' then (c as int + 32) as char else c
  }

  predicate FieldAt(h: string) {
    |h| >= |FIELD| && forall i :: 0 <= i < |FIELD| ==> LowerChar(h[i]) == FIELD[i]
  }

  /** Length of a whitespace character's UTF-8 encoding at the start of `h`, or 0 if there is none. */
  function SpaceLength(h: string): (k: nat)
    ensures k <= |h|
  {
    if h == "" then 0
    else if h[0] as int < 0x80 && IsSpace(h[0]) then 1
    else if |h| >= 2 && h[0] as int == 0xC2 && h[1] as int == 0xA0 then 2
    else if |h| >= 3 && ThreeByteSpace(h[0] as int, h[1] as int, h[2] as int) then 3
    else 0
  }

  predicate ThreeByteSpace(a: int, b: int, c: int) {
    || (a == 0xE1 && b == 0x9A && c == 0x80)
    || (a == 0xE2 && b == 0x80 && (0x80 <= c <= 0x8A || c == 0xA8 || c == 0xA9 || c == 0xAF))
    || (a == 0xE2 && b == 0x81 && c == 0x9F)
    || (a == 0xE3 && b == 0x80 && c == 0x80)
    || (a == 0xEF && b == 0xBB && c == 0xBF)
  }

  function SkipSpace(h: string): string
    decreases |h|
  {
    if SpaceLength(h) == 0 then h else SkipSpace(h[SpaceLength(h)..])
  }

  function DigitRun(h: string): (d: string)
    ensures AllDigits(d)
  {
    if h != "" && IsDigit(h[0]) then [h[0]] + DigitRun(h[1..]) else ""
  }

  /** The leftmost case-insensitive `Content-Length:` followed by optional whitespace and digits. */
  function ContentLength(header: string): Option<nat> {
    if header == "" then None
    else if FieldAt(header) && DigitRun(SkipSpace(header[|FIELD|..])) != "" then
      Some(ParseNat(DigitRun(SkipSpace(header[|FIELD|..]))))
    else ContentLength(header[1..])
  }

  // ---- What a header's length is ----

  const UPPER := "CONTENT-LENGTH:"

  /** The field's name in any mixture of cases. */
  ghost predicate NamesField(s: string) {
    |s| == |UPPER| && forall i :: 0 <= i < |UPPER| ==> s[i] == UPPER[i] || s[i] == FIELD[i]
  }

  /** The UTF-8 encoding of a character below 0x10000. */
  function Utf8(c: char): string {
    var u := c as int;
    if u < 0x80 then [c]
    else if u < 0x800 then [(0xC0 + u / 0x40) as char, (0x80 + u % 0x40) as char]
    else if u < 0x10000 then
      [(0xE0 + u / 0x1000) as char, (0x80 + u / 0x40 % 0x40) as char, (0x80 + u % 0x40) as char]
    else ""
  }

  ghost predicate EncodesSpace(s: string) {
    exists c: char :: IsSpace(c) && s == Utf8(c)
  }

  /** Encoded white space, character after character. */
  ghost predicate White(s: string)
    decreases |s|
  {
    s == "" || exists k :: 0 < k <= |s| && EncodesSpace(s[..k]) && White(s[k..])
  }

  /** At `p` stands the field's name, then white space up to `q`, then all the digits up to `e`. */
  ghost predicate LengthAt(h: string, p: int, q: int, e: int) {
    && 0 <= p && p + |UPPER| <= q < e <= |h|
    && NamesField(h[p..p + |UPPER|]) && White(h[p + |UPPER|..q])
    && AllDigits(h[q..e]) && (e < |h| ==> !IsDigit(h[e]))
  }

  lemma SpaceIsEncoded(h: string)
    requires SpaceLength(h) > 0
    ensures EncodesSpace(h[..SpaceLength(h)])
  {
    var k := SpaceLength(h);
    if k == 1 {
      assert h[..1] == Utf8(h[0]);
    } else if k == 2 {
      assert h[..2] == Utf8(0xA0 as char);
    } else {
      var u := (h[0] as int - 0xE0) * 0x1000 + (h[1] as int - 0x80) * 0x40 + (h[2] as int - 0x80);
      assert u == 0x1680 || 0x2000 <= u <= 0x200A || u == 0x2028 || u == 0x2029 || u == 0x202F || u == 0x205F
             || u == 0x3000 || u == 0xFEFF;
      assert h[..3] == Utf8(u as char);
    }
  }

  lemma EncodedIsSpace(h: string, k: nat)
    requires k <= |h| && EncodesSpace(h[..k])
    ensures k == SpaceLength(h) > 0
  {
    var c: char :| IsSpace(c) && h[..k] == Utf8(c);
    EncodedSpaces(c);
    assert forall i :: 0 <= i < k ==> h[i] == Utf8(c)[i];
  }

  lemma EncodedSpaces(c: char)
    requires IsSpace(c)
    ensures var s := Utf8(c);
            || (c as int < 0x80 && s == [c])
            || (|s| == 2 && s[0] as int == 0xC2 && s[1] as int == 0xA0)
            || (|s| == 3 && ThreeByteSpace(s[0] as int, s[1] as int, s[2] as int))
  {
  }

  /** White space is skipped as far as it goes, up to anything that is none. */
  lemma {:induction false} SkipIsWhite(h: string) returns (k: nat)
    ensures k <= |h| && SkipSpace(h) == h[k..] && White(h[..k]) && SpaceLength(h[k..]) == 0
    decreases |h|
  {
    var n := SpaceLength(h);
    if n == 0 {
      k := 0;
    } else {
      SpaceIsEncoded(h);
      k := SkipIsWhite(h[n..]);
      CutTwice(h, n, k);
      WhiteAfter(h[..n + k], n);
      k := n + k;
    }
  }

  lemma WhiteAfter(s: string, n: nat)
    requires 0 < n <= |s| && EncodesSpace(s[..n]) && White(s[n..])
    ensures White(s)
  {
  }

  lemma CutTwice(h: string, n: nat, k: nat)
    requires n + k <= |h|
    ensures h[..n + k][..n] == h[..n] && h[..n + k][n..] == h[n..][..k] && h[n..][k..] == h[n + k..]
  {
  }

  lemma FirstSpace(s: string) returns (n: nat)
    requires White(s) && s != ""
    ensures 0 < n <= |s| && EncodesSpace(s[..n]) && White(s[n..])
  {
    n :| 0 < n <= |s| && EncodesSpace(s[..n]) && White(s[n..]);
  }

  lemma {:induction false} WhiteIsSkipped(h: string, k: nat)
    requires k <= |h| && White(h[..k]) && SpaceLength(h[k..]) == 0
    ensures SkipSpace(h) == h[k..]
    decreases |h|
  {
    if k > 0 {
      var n := FirstSpace(h[..k]);
      CutTwice(h, n, k - n);
      EncodedIsSpace(h, n);
      WhiteIsSkipped(h[n..], k - n);
    }
  }

  lemma {:induction false} RunIsMaximal(h: string)
    ensures var d := DigitRun(h); d <= h && (|d| < |h| ==> !IsDigit(h[|d|]))
  {
    if h != "" && IsDigit(h[0]) {
      RunIsMaximal(h[1..]);
    }
  }

  lemma {:induction false} MaximalIsRun(h: string, n: nat)
    requires n <= |h| && AllDigits(h[..n]) && (n < |h| ==> !IsDigit(h[n]))
    ensures DigitRun(h) == h[..n]
  {
    if n > 0 {
      assert h[..n][0] == h[0] && h[..n][1..] == h[1..][..n - 1];
      MaximalIsRun(h[1..], n - 1);
      assert h[..n] == [h[0]] + h[1..][..n - 1];
    }
  }

  lemma NamedField(h: string)
    ensures FieldAt(h) <==> |h| >= |UPPER| && NamesField(h[..|UPPER|])
  {
    forall i | 0 <= i < |FIELD| && i < |h|
      ensures LowerChar(h[i]) == FIELD[i] <==> h[i] == UPPER[i] || h[i] == FIELD[i]
    {
      assert UPPER[i] == '-' || UPPER[i] == ':' || 'A' <= UPPER[i] <= 'Z';
      assert LowerChar(UPPER[i]) == FIELD[i] && LowerChar(FIELD[i]) == FIELD[i];
    }
    if |h| >= |UPPER| {
      assert forall i :: 0 <= i < |UPPER| ==> h[..|UPPER|][i] == h[i];
    }
  }

  /** A length begins at the first place of `h`, with these digits. */
  lemma LengthHere(h: string)
    ensures var d := if FieldAt(h) then DigitRun(SkipSpace(h[|FIELD|..])) else "";
            && (d != "" ==> exists q, e :: LengthAt(h, 0, q, e) && h[q..e] == d)
            && forall q, e :: LengthAt(h, 0, q, e) ==> h[q..e] == d && d != ""
  {
    NamedField(h);
    if FieldAt(h) {
      var rest := h[|FIELD|..];
      var k := SkipIsWhite(rest);
      var d := DigitRun(rest[k..]);
      RunIsMaximal(rest[k..]);
      if d != "" {
        DigitsHere(h, k, d);
      }
    }
    forall q, e | LengthAt(h, 0, q, e)
      ensures FieldAt(h) && h[q..e] == DigitRun(SkipSpace(h[|FIELD|..]))
    {
      OnlyDigitsHere(h, q, e);
    }
  }

  lemma DigitsHere(h: string, k: nat, d: string)
    requires FieldAt(h) && k <= |h| - |FIELD| && White(h[|FIELD|..][..k])
    requires AllDigits(d) && d != "" && d <= h[|FIELD|..][k..]
    requires |d| < |h[|FIELD|..][k..]| ==> !IsDigit(h[|FIELD|..][k..][|d|])
    ensures var q := |FIELD| + k; LengthAt(h, 0, q, q + |d|) && h[q..q + |d|] == d
  {
    NamedField(h);
    var q := |FIELD| + k;
    assert h[|FIELD|..][k..] == h[q..];
    assert h[0..|UPPER|] == h[..|UPPER|] && h[|UPPER|..q] == h[|FIELD|..][..k];
    assert h[q..q + |d|] == h[q..][..|d|] == d;
  }

  lemma OnlyDigitsHere(h: string, q: int, e: int)
    requires LengthAt(h, 0, q, e)
    ensures FieldAt(h) && h[q..e] == DigitRun(SkipSpace(h[|FIELD|..]))
  {
    NamedField(h);
    var rest, k := h[|FIELD|..], q - |FIELD|;
    assert h[0..|UPPER|] == h[..|UPPER|] && h[|UPPER|..q] == rest[..k];
    assert rest[k..] == h[q..] && h[q..][..e - q] == h[q..e];
    assert IsDigit(h[q..e][0]) && SpaceLength(h[q..]) == 0;
    WhiteIsSkipped(rest, k);
    MaximalIsRun(h[q..], e - q);
  }

  lemma LengthShifts(h: string, p: int, q: int, e: int)
    requires h != "" && p >= 1
    ensures LengthAt(h, p, q, e) <==> LengthAt(h[1..], p - 1, q - 1, e - 1)
    ensures 1 <= q <= e <= |h| ==> h[q..e] == h[1..][q - 1..e - 1]
  {
    if 1 <= q <= e <= |h| {
      SliceShifts(h, q, e);
      if p + |UPPER| <= q {
        SliceShifts(h, p, p + |UPPER|);
        SliceShifts(h, p + |UPPER|, q);
      }
    }
  }

  lemma SliceShifts(h: string, i: int, j: int)
    requires 1 <= i <= j <= |h|
    ensures h[i..j] == h[1..][i - 1..j - 1]
  {
    var a, b := h[i..j], h[1..][i - 1..j - 1];
    assert |a| == |b| && forall k :: 0 <= k < j - i ==> a[k] == h[i + k] == b[k];
  }

  ghost predicate NoLengthBefore(h: string, p: int) {
    forall p', q, e :: p' < p ==> !LengthAt(h, p', q, e)
  }

  /** The header's length stands at `p` and nowhere before. */
  ghost predicate FirstLengthAt(h: string, p: int, q: int, e: int) {
    LengthAt(h, p, q, e) && NoLengthBefore(h, p)
  }

  lemma FirstShifts(h: string, p: int, q: int, e: int)
    requires h != "" && FirstLengthAt(h[1..], p, q, e) && forall q', e' :: !LengthAt(h, 0, q', e')
    ensures FirstLengthAt(h, p + 1, q + 1, e + 1) && h[q + 1..e + 1] == h[1..][q..e]
  {
    LengthShifts(h, p + 1, q + 1, e + 1);
    forall p', q', e' | p' < p + 1 ensures !LengthAt(h, p', q', e') {
      if p' >= 1 {
        LengthShifts(h, p', q', e');
      }
    }
  }

  /**
   The length is read at the leftmost place where the field's name in any case
   is followed by white space, if any, and digits; all the digits count.
   */
  lemma {:induction false} LengthIsFirst(h: string)
    ensures ContentLength(h).None? ==> forall p, q, e :: !LengthAt(h, p, q, e)
    ensures ContentLength(h).Some? ==>
              exists p, q, e :: FirstLengthAt(h, p, q, e) && ContentLength(h).value == Positional(h[q..e])
  {
    if h != "" {
      var d := if FieldAt(h) then DigitRun(SkipSpace(h[|FIELD|..])) else "";
      LengthHere(h);
      if d != "" {
        var q, e :| LengthAt(h, 0, q, e) && h[q..e] == d;
        ParseIsPositional(d);
        assert FirstLengthAt(h, 0, q, e);
      } else {
        LengthIsFirst(h[1..]);
        assert ContentLength(h) == ContentLength(h[1..]);
        if ContentLength(h).Some? {
          var p, q, e :| FirstLengthAt(h[1..], p, q, e) && ContentLength(h).value == Positional(h[1..][q..e]);
          FirstShifts(h, p, q, e);
        } else {
          forall p, q, e ensures !LengthAt(h, p, q, e) {
            if p >= 1 {
              LengthShifts(h, p, q, e);
            }
          }
        }
      }
    }
  }

  lemma SameDigits(h: string, p: int, q: int, e: int, q': int, e': int)
    requires LengthAt(h, p, q, e) && LengthAt(h, p, q', e')
    ensures h[q..e] == h[q'..e']
  {
    var t := h[p..];
    assert FromStart(h, p, q, e) && FromStart(h, p, q', e') by {
      LengthFromStart(h, p, q, e);
      LengthFromStart(h, p, q', e');
    }
    LengthHere(t);
  }

  ghost predicate FromStart(h: string, p: int, q: int, e: int)
    requires 0 <= p <= q <= e <= |h|
  {
    LengthAt(h[p..], 0, q - p, e - p) && h[p..][q - p..e - p] == h[q..e]
  }

  lemma LengthFromStart(h: string, p: int, q: int, e: int)
    requires LengthAt(h, p, q, e)
    ensures FromStart(h, p, q, e)
  {
    var t := h[p..];
    assert t[0..|UPPER|] == h[p..p + |UPPER|] && t[|UPPER|..q - p] == h[p + |UPPER|..q];
    assert t[q - p..e - p] == h[q..e];
  }

  /** The length is `n` exactly when the leftmost length field reads `n`, and missing exactly when there is none. */
  lemma LengthIsExact(h: string, n: nat)
    ensures ContentLength(h) == Some(n) <==> exists p, q, e :: FirstLengthAt(h, p, q, e) && n == Positional(h[q..e])
    ensures ContentLength(h).None? <==> forall p, q, e :: !LengthAt(h, p, q, e)
  {
    LengthIsFirst(h);
    if ContentLength(h).Some? {
      var p, q, e :| FirstLengthAt(h, p, q, e) && ContentLength(h).value == Positional(h[q..e]);
      forall p', q', e' | FirstLengthAt(h, p', q', e') ensures h[q'..e'] == h[q..e] {
        assert p' == p;
        SameDigits(h, p, q, e, q', e');
      }
    }
  }

  // ---- One pass of the loop ----

  /** Wait for more bytes, drop a header without a length, or cut out a frame's body. */
  datatype Pass = Wait | Drop(next: nat) | Frame(bodyStart: nat, bodyEnd: nat)

  function NextPass(b: string): (p: Pass)
    ensures p.Drop? ==> 0 < p.next <= |b|
    ensures p.Frame? ==> 0 < p.bodyStart <= p.bodyEnd <= |b|
  {
    match HeaderEnd(b)
    case None => Wait
    case Some(k) =>
      match ContentLength(b[..k])
      case None => Drop(k + 4)
      case Some(n) => if |b| < k + 4 + n then Wait else Frame(k + 4, k + 4 + n)
  }

  datatype Drained = Drained(bodies: seq<string>, rest: string)

  function Drain(b: string): Drained
    decreases |b|
  {
    match NextPass(b)
    case Wait => Drained([], b)
    case Drop(next) => Drain(b[next..])
    case Frame(bodyStart, bodyEnd) =>
      var d := Drain(b[bodyEnd..]);
      Drained([b[bodyStart..bodyEnd]] + d.bodies, d.rest)
  }

  // ---- Bytes that arrive later do not change a pass already possible ----

  lemma HeaderEndStable(b: string, c: string)
    requires HeaderEnd(b).Some?
    ensures HeaderEnd(b + c) == HeaderEnd(b)
  {
    var k := HeaderEnd(b).value;
    assert forall i :: 0 <= i <= k ==> (TerminatorAt(b + c, i) <==> TerminatorAt(b, i));
  }

  lemma NextPassStable(b: string, c: string)
    requires !NextPass(b).Wait?
    ensures NextPass(b + c) == NextPass(b)
  {
    HeaderEndStable(b, c);
    assert (b + c)[..HeaderEnd(b).value] == b[..HeaderEnd(b).value];
  }

  /** Draining, then appending and draining again, is draining the whole. */
  lemma {:induction false} DrainAppend(b: string, c: string)
    ensures var d := Drain(b);
            var e := Drain(d.rest + c);
            Drain(b + c) == Drained(d.bodies + e.bodies, e.rest)
    decreases |b|
  {
    match NextPass(b)
    case Wait =>
      assert [] + Drain(b + c).bodies == Drain(b + c).bodies;
    case Drop(next) =>
      NextPassStable(b, c);
      assert (b + c)[next..] == b[next..] + c;
      DrainAppend(b[next..], c);
    case Frame(bodyStart, bodyEnd) =>
      NextPassStable(b, c);
      assert (b + c)[bodyEnd..] == b[bodyEnd..] + c;
      assert (b + c)[bodyStart..bodyEnd] == b[bodyStart..bodyEnd];
      DrainAppend(b[bodyEnd..], c);
      var d := Drain(b[bodyEnd..]);
      assert [b[bodyStart..bodyEnd]] + (d.bodies + Drain(d.rest + c).bodies)
          == [b[bodyStart..bodyEnd]] + d.bodies + Drain(d.rest + c).bodies;
  }

  lemma {:induction false} DrainRestIsDrained(b: string)
    ensures Drain(Drain(b).rest) == Drained([], Drain(b).rest)
    decreases |b|
  {
    match NextPass(b)
    case Wait =>
    case Drop(next) => DrainRestIsDrained(b[next..]);
    case Frame(_, bodyEnd) => DrainRestIsDrained(b[bodyEnd..]);
  }

  // ---- A connection ----

  /** What a connection has delivered and still holds; closed after an overflow. */
  datatype Connection = Connection(delivered: seq<string>, buffer: string, connected: bool)

  const INITIAL := Connection([], "", true)

  /** An overflow empties the buffer and stops the connection; later data events are still processed. */
  function Receive(s: Connection, chunk: string): Connection {
    if |s.buffer + chunk| > MAX_BUFFER_SIZE then Connection(s.delivered, "", false)
    else
      var d := Drain(s.buffer + chunk);
      Connection(s.delivered + d.bodies, d.rest, s.connected)
  }

  function ReceiveAll(s: Connection, chunks: seq<string>): Connection {
    if chunks == [] then s
    else Receive(ReceiveAll(s, chunks[..|chunks| - 1]), chunks[|chunks| - 1])
  }

  /** The chunk fits beside what the bytes before it leave over. */
  ghost predicate FitsAfter(chunks: seq<string>, chunk: string) {
    |Drain(Concat(chunks)).rest + chunk| <= MAX_BUFFER_SIZE
  }

  ghost predicate UnderCap(chunks: seq<string>) {
    forall i :: 0 <= i < |chunks| ==> FitsAfter(chunks[..i], chunks[i])
  }

  lemma UnderCapLast(chunks: seq<string>)
    requires chunks != []
    ensures var n := |chunks| - 1;
            UnderCap(chunks) <==> UnderCap(chunks[..n]) && FitsAfter(chunks[..n], chunks[n])
  {
    var n := |chunks| - 1;
    assert forall i :: 0 <= i < n ==> chunks[..n][..i] == chunks[..i] && chunks[..n][i] == chunks[i];
  }

  /**
   As long as the cap is respected, and only then, what is delivered and what
   is left over depend on the bytes alone and not on how they were cut.
   */
  lemma {:induction false} ChunkIndependence(chunks: seq<string>)
    ensures ReceiveAll(INITIAL, chunks).connected <==> UnderCap(chunks)
    ensures UnderCap(chunks) ==>
              ReceiveAll(INITIAL, chunks) == Connection(Drain(Concat(chunks)).bodies, Drain(Concat(chunks)).rest, true)
  {
    if chunks != [] {
      var n := |chunks| - 1;
      ChunkIndependence(chunks[..n]);
      UnderCapLast(chunks);
      DrainAppend(Concat(chunks[..n]), chunks[n]);
    } else {
      assert Drain("") == Drained([], "");
    }
  }

  // ---- Printing frames ----

  function PrintFrame(payload: string): string {
    "Content-Length: " + PrintNat(|payload|) + TERMINATOR + payload
  }

  function PrintFrames(payloads: seq<string>): string {
    if payloads == [] then "" else PrintFrame(payloads[0]) + PrintFrames(payloads[1..])
  }

  lemma {:induction false} DigitRunOfDigits(s: string)
    requires AllDigits(s)
    ensures DigitRun(s) == s
  {
    if s != "" {
      DigitRunOfDigits(s[1..]);
      assert s == [s[0]] + s[1..];
    }
  }

  lemma PrintedField(digits: string)
    ensures FieldAt("Content-Length: " + digits)
    ensures ("Content-Length: " + digits)[|FIELD|..] == " " + digits
  {
    var h := "Content-Length: " + digits;
    forall i | 0 <= i < |FIELD| ensures LowerChar(h[i]) == FIELD[i] {
      assert h[i] == "Content-Length: "[i];
    }
  }

  lemma PrintedLength(n: nat)
    ensures ContentLength("Content-Length: " + PrintNat(n)) == Some(n)
    ensures Free("Content-Length: " + PrintNat(n), '\r')
  {
    var digits := PrintNat(n);
    PrintedField(digits);
    assert (" " + digits)[1..] == digits;
    assert SpaceLength(digits) == 0 by {
      assert IsDigit(digits[0]);
    }
    assert SkipSpace(" " + digits) == digits;
    DigitRunOfDigits(digits);
    ParsePrintNat(n);
  }

  /** `h` is terminated by the `TERMINATOR` that follows it and not earlier. */
  ghost predicate HeaderBlock(h: string) {
    forall i :: 0 <= i < |h| ==> !TerminatorAt(h + TERMINATOR, i)
  }

  lemma HeaderEndIsFirst(h: string, t: string)
    requires HeaderBlock(h)
    ensures HeaderEnd(h + TERMINATOR + t) == Some(|h|)
  {
    var b := h + TERMINATOR + t;
    assert TerminatorAt(b, |h|);
    assert forall i :: 0 <= i < |h| ==> (TerminatorAt(b, i) <==> TerminatorAt(h + TERMINATOR, i));
  }

  /** Any header block with a length frames that many bytes; one without is dropped as a whole. */
  lemma HeaderBlocks(h: string, body: string, t: string)
    requires HeaderBlock(h)
    ensures ContentLength(h) == Some(|body|) ==>
              var d := Drain(t); Drain(h + TERMINATOR + body + t) == Drained([body] + d.bodies, d.rest)
    ensures ContentLength(h).None? ==> Drain(h + TERMINATOR + t) == Drain(t)
  {
    if ContentLength(h) == Some(|body|) {
      var b := h + TERMINATOR + body + t;
      assert b == h + TERMINATOR + (body + t);
      HeaderEndIsFirst(h, body + t);
      assert b[..|h|] == h;
      var n := |h| + 4;
      assert NextPass(b) == Frame(n, n + |body|);
      assert b[n..n + |body|] == body && b[n + |body|..] == t;
    } else if ContentLength(h).None? {
      var b := h + TERMINATOR + t;
      HeaderEndIsFirst(h, t);
      assert b[..|h|] == h && b[|h| + 4..] == t;
      assert NextPass(b) == Drop(|h| + 4);
    }
  }

  // ---- Any header with a length field ----

  ghost predicate Whole(lines: string) {
    lines == "" || lines[|lines| - 1] == '\n'
  }

  predicate WhiteByte(c: char) {
    c as int >= 0x80 || IsSpace(c)
  }

  ghost predicate WhiteOnly(s: string) {
    forall i :: 0 <= i < |s| ==> WhiteByte(s[i])
  }

  lemma WhiteConcat(s: string, n: nat)
    requires n <= |s| && WhiteOnly(s[..n]) && WhiteOnly(s[n..])
    ensures WhiteOnly(s)
  {
    forall i | 0 <= i < |s| ensures WhiteByte(s[i]) {
      assert s[i] == if i < n then s[..n][i] else s[n..][i - n];
    }
  }

  lemma EncodedBytes(s: string)
    requires EncodesSpace(s)
    ensures WhiteOnly(s)
  {
    var c: char :| IsSpace(c) && s == Utf8(c);
    EncodedSpaces(c);
  }

  lemma {:induction false} WhiteBytes(s: string)
    requires White(s)
    ensures WhiteOnly(s)
    decreases |s|
  {
    if s != "" {
      var n := FirstSpace(s);
      EncodedBytes(s[..n]);
      WhiteBytes(s[n..]);
      WhiteConcat(s, n);
    }
  }

  lemma LengthBytes(h: string, p: int, q: int, e: int)
    requires LengthAt(h, p, q, e)
    ensures forall k {:trigger h[k]} :: p <= k < p + |UPPER| ==> h[k] != '\n'
    ensures forall k {:trigger h[k]} :: p + |UPPER| <= k < q ==> WhiteByte(h[k])
    ensures forall k {:trigger h[k]} :: q <= k < e ==> IsDigit(h[k])
  {
    var name, space, digits := h[p..p + |UPPER|], h[p + |UPPER|..q], h[q..e];
    WhiteBytes(space);
    forall k {:trigger h[k]} | p <= k < p + |UPPER| ensures h[k] != '\n' {
      assert h[k] == name[k - p];
    }
    forall k {:trigger h[k]} | p + |UPPER| <= k < q ensures WhiteByte(h[k]) {
      assert h[k] == space[k - (p + |UPPER|)];
    }
    forall k {:trigger h[k]} | q <= k < e ensures IsDigit(h[k]) {
      assert h[k] == digits[k - q];
    }
  }

  /** A length that begins in earlier lines is a length of these lines. */
  lemma LengthStaysBefore(lines: string, rest: string, p: int, q: int, e: int)
    requires Whole(lines) && rest != "" && (rest[0] == 'C' || rest[0] == 'c')
    requires LengthAt(lines + rest, p, q, e) && p < |lines|
    ensures LengthAt(lines, p, q, e)
  {
    var h, n := lines + rest, |lines|;
    LengthBytes(h, p, q, e);
    assert h[n - 1] == '\n' && h[n] == rest[0] && IsDigit(h[q]);
    assert p + |UPPER| < n;
    assert q < n - 1;
    assert e < n;
    SameSlice(lines, rest, p, p + |UPPER|);
    SameSlice(lines, rest, p + |UPPER|, q);
    SameSlice(lines, rest, q, e);
  }

  lemma NoneBefore(lines: string, rest: string)
    requires Whole(lines) && (forall p, q, e :: !LengthAt(lines, p, q, e))
    requires rest != "" && (rest[0] == 'C' || rest[0] == 'c')
    ensures NoLengthBefore(lines + rest, |lines|)
  {
    forall p, q, e | p < |lines| ensures !LengthAt(lines + rest, p, q, e) {
      if LengthAt(lines + rest, p, q, e) {
        LengthStaysBefore(lines, rest, p, q, e);
      }
    }
  }

  lemma SameSlice(a: string, b: string, i: int, j: int)
    requires 0 <= i <= j <= |a|
    ensures (a + b)[i..j] == a[i..j]
  {
  }

  /** A header block: lines without a length, the field in any case, white space, the length, anything after it. */
  ghost predicate HeaderWith(h: string, lines: string, name: string, space: string, n: nat, after: string) {
    && h == lines + (name + space + PrintNat(n) + after)
    && Whole(lines) && (forall p, q, e :: !LengthAt(lines, p, q, e))
    && NamesField(name) && White(space) && (after != "" ==> !IsDigit(after[0]))
  }

  lemma FieldStands(h: string, lines: string, name: string, space: string, n: nat, after: string)
    requires HeaderWith(h, lines, name, space, n, after)
    ensures var p := |lines|;
            var q := p + |name| + |space|;
            LengthAt(h, p, q, q + |PrintNat(n)|) && h[q..q + |PrintNat(n)|] == PrintNat(n)
  {
    var digits, p := PrintNat(n), |lines|;
    var q := p + |name| + |space|;
    assert h == lines + name + space + digits + after;
    assert h[p..p + |name|] == name && h[p + |name|..q] == space;
    assert h[q..q + |digits|] == digits;
    assert after != "" ==> h[q + |digits|] == after[0];
  }

  lemma HeaderLength(h: string, lines: string, name: string, space: string, n: nat, after: string)
    requires HeaderWith(h, lines, name, space, n, after)
    ensures ContentLength(h) == Some(n)
  {
    FieldStands(h, lines, name, space, n, after);
    NoneBefore(lines, name + space + PrintNat(n) + after);
    FirstIs(h, |lines|, |lines| + |name| + |space|, n);
  }

  lemma FirstIs(h: string, p: int, q: int, n: nat)
    requires var e := q + |PrintNat(n)|; FirstLengthAt(h, p, q, e) && h[q..e] == PrintNat(n)
    ensures ContentLength(h) == Some(n)
  {
    PrintIsPositional(n);
    LengthIsExact(h, n);
  }

  /** Whatever other lines stand before and behind its length field, a header frames exactly its body. */
  lemma HeaderFramesBody(h: string, lines: string, name: string, space: string, after: string, body: string, t: string)
    requires HeaderBlock(h) && HeaderWith(h, lines, name, space, |body|, after)
    ensures var d := Drain(t); Drain(h + TERMINATOR + body + t) == Drained([body] + d.bodies, d.rest)
  {
    HeaderLength(h, lines, name, space, |body|, after);
    HeaderBlocks(h, body, t);
  }

  lemma FirstFrame(payload: string, rest: string)
    ensures var d := Drain(rest); Drain(PrintFrame(payload) + rest) == Drained([payload] + d.bodies, d.rest)
  {
    PrintedLength(|payload|);
    HeaderBlocks("Content-Length: " + PrintNat(|payload|), payload, rest);
  }

  /** Reading back what was written gives the payloads in order and leaves nothing. */
  lemma {:induction false} FramesRoundTrip(payloads: seq<string>)
    ensures Drain(PrintFrames(payloads)) == Drained(payloads, "")
  {
    if payloads != [] {
      FirstFrame(payloads[0], PrintFrames(payloads[1..]));
      FramesRoundTrip(payloads[1..]);
    }
  }

  /** Whatever way the wire cuts written frames, the peer gets exactly the payloads. */
  lemma WrittenFramesArrive(payloads: seq<string>, chunks: seq<string>)
    requires Concat(chunks) == PrintFrames(payloads) && UnderCap(chunks)
    ensures ReceiveAll(INITIAL, chunks) == Connection(payloads, "", true)
  {
    ChunkIndependence(chunks);
    FramesRoundTrip(payloads);
  }

  lemma DrainFrame(b: string, before: seq<string>)
    requires NextPass(b).Frame?
    ensures var p := NextPass(b);
            && before + Drain(b).bodies == before + [b[p.bodyStart..p.bodyEnd]] + Drain(b[p.bodyEnd..]).bodies
            && Drain(b).rest == Drain(b[p.bodyEnd..]).rest
  {
    var p := NextPass(b);
    var body, later := b[p.bodyStart..p.bodyEnd], Drain(b[p.bodyEnd..]).bodies;
    assert Drain(b).bodies == [body] + later;
    assert before + ([body] + later) == before + [body] + later;
  }

  class StdioTransport {
    var buffer: string
    var connected: bool
    /** Bodies handed to the message handler so far. */
    var delivered: seq<string>

    ghost function State(): Connection
      reads this
    {
      Connection(delivered, buffer, connected)
    }

    constructor ()
      ensures State() == INITIAL
    {
      buffer, connected, delivered := "", true, [];
    }

    /** The data handler: append the chunk, then process the buffer. */
    method OnData(chunk: string)
      modifies this
      ensures State() == Receive(old(State()), chunk)
    {
      buffer := buffer + chunk;
      assert buffer + "" == buffer;
      ProcessBuffer();
    }

    method ProcessBuffer()
      modifies this
      ensures State() == Receive(old(State()), "")
    {
      assert buffer + "" == buffer;
      if |buffer| > MAX_BUFFER_SIZE {
        buffer := "";
        connected := false;
        return;
      }
      ghost var all := Drain(buffer);
      while true
        invariant connected == old(connected)
        invariant delivered + Drain(buffer).bodies == old(delivered) + all.bodies
        invariant Drain(buffer).rest == all.rest
        decreases |buffer|
      {
        var pass := NextPass(buffer);
        if pass.Wait? {
          break;
        }
        if pass.Drop? {
          buffer := buffer[pass.next..];
          continue;
        }
        DrainFrame(buffer, delivered);
        delivered := delivered + [buffer[pass.bodyStart..pass.bodyEnd]];
        buffer := buffer[pass.bodyEnd..];
      }
      assert delivered + [] == delivered;
    }
  }
}
