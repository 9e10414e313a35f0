/**
 Topic patterns with single-segment and deep wildcards, and the publisher that
 uses them: a bounded buffer of messages and the handlers subscribed to each
 pattern. Handlers are numbers, and what a publication does to them is the
 sequence of handlers it calls.
 */
module PubSubs {
  import opened Sequences
  import opened Text

  // ---- Matching segments ----

  /** Backtracking from the left: a deep wildcard tries every number of segments. */
  predicate Match(pattern: seq<string>, topic: seq<string>)
    decreases |pattern|
  {
    if pattern == [] then topic == []
    else if pattern[0] == "**" then exists skip :: 0 <= skip <= |topic| && Match(pattern[1..], topic[skip..])
    else topic != [] && (pattern[0] == "*" || pattern[0] == topic[0]) && Match(pattern[1..], topic[1..])
  }

  ghost predicate MatchFrom(pp: seq<string>, pi: nat, tp: seq<string>, ti: nat)
    requires pi <= |pp| && ti <= |tp|
  {
    Match(pp[pi..], tp[ti..])
  }

  lemma DeepFrom(pp: seq<string>, pi: nat, next: nat, tp: seq<string>, ti: nat)
    requires pi < |pp| && next == pi + 1 && ti <= |tp| && pp[pi] == "**"
    ensures MatchFrom(pp, pi, tp, ti) <==> exists k :: ti <= k <= |tp| && MatchFrom(pp, next, tp, k)
  {
    var p, t := pp[pi..], tp[ti..];
    assert p[1..] == pp[next..];
    if k :| ti <= k <= |tp| && MatchFrom(pp, next, tp, k) {
      assert t[k - ti..] == tp[k..];
    }
    if Match(p, t) {
      var skip :| 0 <= skip <= |t| && Match(p[1..], t[skip..]);
      assert t[skip..] == tp[ti + skip..];
      assert MatchFrom(pp, next, tp, ti + skip);
    }
  }

  lemma SegmentFrom(pp: seq<string>, pi: nat, tp: seq<string>, ti: nat)
    requires pi < |pp| && ti <= |tp| && pp[pi] != "**"
    ensures MatchFrom(pp, pi, tp, ti) <==>
            ti < |tp| && (pp[pi] == "*" || pp[pi] == tp[ti]) && MatchFrom(pp, pi + 1, tp, ti + 1)
  {
    assert pp[pi..][1..] == pp[pi + 1..];
    if ti < |tp| {
      assert tp[ti..][1..] == tp[ti + 1..];
    }
  }

  method MatchSegments(pp: seq<string>, pi0: nat, tp: seq<string>, ti0: nat) returns (matches: bool)
    requires pi0 <= |pp| && ti0 <= |tp|
    ensures matches <==> MatchFrom(pp, pi0, tp, ti0)
    decreases |pp| - pi0
  {
    var pi: nat, ti: nat := pi0, ti0;
    while pi < |pp|
      invariant pi0 <= pi <= |pp| && ti <= |tp|
      invariant MatchFrom(pp, pi, tp, ti) <==> MatchFrom(pp, pi0, tp, ti0)
    {
      var seg := pp[pi];
      if seg == "**" {
        var next := pi + 1;
        DeepFrom(pp, pi, next, tp, ti);
        for skip := ti to |tp| + 1
          invariant forall k :: ti <= k < skip ==> !MatchFrom(pp, next, tp, k)
        {
          var rest := MatchSegments(pp, next, tp, skip);
          if rest {
            return true;
          }
        }
        return false;
      }
      SegmentFrom(pp, pi, tp, ti);
      if ti >= |tp| {
        return false;
      }
      if seg != "*" && seg != tp[ti] {
        return false;
      }
      pi := pi + 1;
      ti := ti + 1;
    }
    matches := ti == |tp|;
  }

  // ---- What matching means ----

  /** The segments one pattern segment may stand for. */
  predicate StandsFor(seg: string, part: seq<string>) {
    seg == "**" || (seg == "*" && |part| == 1) || (seg != "*" && part == [seg])
  }

  /** Pattern segment `k` stands for what lies between two neighbouring cuts. */
  predicate Piece(pattern: seq<string>, topic: seq<string>, cuts: seq<int>, k: nat)
    requires k < |pattern| && |cuts| == |pattern| + 1
  {
    0 <= cuts[k] <= cuts[k + 1] <= |topic| && StandsFor(pattern[k], topic[cuts[k]..cuts[k + 1]])
  }

  /** The topic divided at the given places, one piece per pattern segment. */
  ghost predicate DividedAt(pattern: seq<string>, topic: seq<string>, cuts: seq<int>) {
    && |cuts| == |pattern| + 1 && cuts[0] == 0 && cuts[|pattern|] == |topic|
    && forall k :: 0 <= k < |pattern| ==> Piece(pattern, topic, cuts, k)
  }

  ghost predicate Divides(pattern: seq<string>, topic: seq<string>) {
    exists cuts :: DividedAt(pattern, topic, cuts)
  }

  function Shifted(cuts: seq<int>, d: int): (r: seq<int>)
    ensures |r| == |cuts| && forall i :: 0 <= i < |cuts| ==> r[i] == cuts[i] + d
  {
    seq(|cuts|, i requires 0 <= i < |cuts| => cuts[i] + d)
  }

  lemma DividedFirst(pattern: seq<string>, topic: seq<string>, n: nat, cuts: seq<int>)
    requires pattern != [] && n <= |topic| && StandsFor(pattern[0], topic[..n])
    requires DividedAt(pattern[1..], topic[n..], cuts)
    ensures DividedAt(pattern, topic, [0] + Shifted(cuts, n))
  {
    var all := [0] + Shifted(cuts, n);
    assert Piece(pattern, topic, all, 0) by {
      assert topic[0..n] == topic[..n] && all[1] == cuts[0] + n;
    }
    forall k | 1 <= k < |pattern| ensures Piece(pattern, topic, all, k) {
      assert Piece(pattern[1..], topic[n..], cuts, k - 1);
      assert all[k] == cuts[k - 1] + n && all[k + 1] == cuts[k] + n;
      assert topic[all[k]..all[k + 1]] == topic[n..][cuts[k - 1]..cuts[k]];
    }
  }

  lemma DividedRest(pattern: seq<string>, topic: seq<string>, cuts: seq<int>)
    requires pattern != [] && DividedAt(pattern, topic, cuts)
    ensures 0 <= cuts[1] <= |topic| && StandsFor(pattern[0], topic[..cuts[1]])
    ensures DividedAt(pattern[1..], topic[cuts[1]..], Shifted(cuts[1..], -cuts[1]))
  {
    var n := cuts[1];
    assert Piece(pattern, topic, cuts, 0) && topic[0..n] == topic[..n];
    var rest := Shifted(cuts[1..], -n);
    forall k | 0 <= k < |pattern[1..]| ensures Piece(pattern[1..], topic[n..], rest, k) {
      CutsAscend(pattern, topic, cuts, k + 1);
      assert Piece(pattern, topic, cuts, k + 1);
      assert rest[k] == cuts[k + 1] - n && rest[k + 1] == cuts[k + 2] - n;
      assert topic[n..][rest[k]..rest[k + 1]] == topic[cuts[k + 1]..cuts[k + 2]];
    }
  }

  lemma {:induction false} CutsAscend(pattern: seq<string>, topic: seq<string>, cuts: seq<int>, k: nat)
    requires DividedAt(pattern, topic, cuts) && 1 <= k <= |pattern|
    ensures cuts[1] <= cuts[k]
  {
    if k > 1 {
      CutsAscend(pattern, topic, cuts, k - 1);
      assert Piece(pattern, topic, cuts, k - 1);
    }
  }

  /** Matching succeeds exactly when the topic can be divided among the pattern's segments. */
  lemma {:induction false} MatchIffDivides(pattern: seq<string>, topic: seq<string>)
    ensures Match(pattern, topic) <==> Divides(pattern, topic)
    decreases |pattern|
  {
    if pattern == [] {
      if topic == [] {
        assert DividedAt(pattern, topic, [0]);
      }
    } else {
      if Match(pattern, topic) {
        var n := if pattern[0] == "**" then MatchedSkip(pattern, topic) else 1;
        MatchIffDivides(pattern[1..], topic[n..]);
        var cuts :| DividedAt(pattern[1..], topic[n..], cuts);
        DividedFirst(pattern, topic, n, cuts);
      }
      if Divides(pattern, topic) {
        var cuts :| DividedAt(pattern, topic, cuts);
        DividedRest(pattern, topic, cuts);
        MatchIffDivides(pattern[1..], topic[cuts[1]..]);
        if pattern[0] != "**" {
          assert topic[..cuts[1]][0] == topic[0];
        }
      }
    }
  }

  ghost function MatchedSkip(pattern: seq<string>, topic: seq<string>): (skip: nat)
    requires pattern != [] && pattern[0] == "**" && Match(pattern, topic)
    ensures skip <= |topic| && Match(pattern[1..], topic[skip..])
  {
    var skip :| 0 <= skip <= |topic| && Match(pattern[1..], topic[skip..]);
    skip
  }

  // ---- Topics as text ----

  predicate TopicMatches(pattern: string, topic: string) {
    pattern == topic || pattern == "*" || Match(Split(pattern, '.'), Split(topic, '.'))
  }

  method MatchTopic(pattern: string, topic: string) returns (matches: bool)
    ensures matches <==> TopicMatches(pattern, topic)
  {
    if pattern == topic {
      return true;
    }
    if pattern == "*" {
      return true;
    }
    var pp, tp := Split(pattern, '.'), Split(topic, '.');
    assert pp[0..] == pp && tp[0..] == tp;
    matches := MatchSegments(pp, 0, tp, 0);
  }

  lemma {:induction false} MatchesItself(s: seq<string>)
    ensures Match(s, s)
    decreases |s|
  {
    if s != [] {
      MatchesItself(s[1..]);
      if s[0] == "**" {
        assert Match(s[1..], s[1..]);
      }
    }
  }

  /**
   A pattern matches exactly when it is "*" or its segments divide the topic's:
   the test for equal text adds nothing.
   */
  lemma TopicMatchesIffDivides(pattern: string, topic: string)
    ensures TopicMatches(pattern, topic) <==> pattern == "*" || Divides(Split(pattern, '.'), Split(topic, '.'))
  {
    MatchIffDivides(Split(pattern, '.'), Split(topic, '.'));
    if pattern == topic {
      MatchesItself(Split(pattern, '.'));
    }
  }

  lemma DeepWildcardMatchesMore(rest: seq<string>, topic: seq<string>)
    ensures Match(["**", "**"] + rest, topic) <==> Match(["**"] + rest, topic)
  {
    var one, two := ["**"] + rest, ["**", "**"] + rest;
    assert one[1..] == rest && two[1..] == one;
    if Match(one, topic) {
      assert topic[0..] == topic;
      assert Match(two[1..], topic[0..]);
    }
    if Match(two, topic) {
      var j := MatchedSkip(two, topic);
      var k := MatchedSkip(one, topic[j..]);
      assert topic[j..][k..] == topic[j + k..];
      assert Match(one[1..], topic[j + k..]);
    }
  }

  /** Two adjacent deep wildcards are one, anywhere in a pattern. */
  lemma {:induction false} DeepWildcardsCollapse(front: seq<string>, rest: seq<string>, topic: seq<string>)
    ensures Match(front + ["**", "**"] + rest, topic) <==> Match(front + ["**"] + rest, topic)
    decreases |front|
  {
    var two, one := front + ["**", "**"] + rest, front + ["**"] + rest;
    if front == [] {
      assert two == ["**", "**"] + rest && one == ["**"] + rest;
      DeepWildcardMatchesMore(rest, topic);
    } else {
      assert two[1..] == front[1..] + ["**", "**"] + rest && one[1..] == front[1..] + ["**"] + rest;
      forall k | 0 <= k <= |topic| ensures Match(two[1..], topic[k..]) <==> Match(one[1..], topic[k..]) {
        DeepWildcardsCollapse(front[1..], rest, topic[k..]);
      }
    }
  }

  // ---- The publisher ----

  datatype TopicMessage = TopicMessage(from: string, topic: string, data: string)

  /** Handlers registered under one pattern, in registration order. */
  datatype Subscription = Subscription(pattern: string, handlers: seq<nat>)

  function Deliveries(subscriptions: seq<Subscription>, topic: string): seq<nat> {
    if subscriptions == [] then []
    else
      var last := subscriptions[|subscriptions| - 1];
      Deliveries(subscriptions[..|subscriptions| - 1], topic)
      + if TopicMatches(last.pattern, topic) then last.handlers else []
  }

  /** Each pattern has handlers, each of them once, and stands for itself once. */
  ghost predicate WellKept(s: seq<Subscription>) {
    && (forall i :: 0 <= i < |s| ==> s[i].handlers != [] && Distinct(s[i].handlers))
    && forall i, j :: 0 <= i < j < |s| ==> s[i].pattern != s[j].pattern
  }

  /** The number of matching patterns under which a handler is registered. */
  function MatchCount(subscriptions: seq<Subscription>, topic: string, h: nat): nat {
    if subscriptions == [] then 0
    else
      var last := subscriptions[|subscriptions| - 1];
      MatchCount(subscriptions[..|subscriptions| - 1], topic, h)
      + if TopicMatches(last.pattern, topic) && h in last.handlers then 1 else 0
  }

  lemma {:induction false} DistinctCount(handlers: seq<nat>, h: nat)
    requires Distinct(handlers)
    ensures multiset(handlers)[h] == if h in handlers then 1 else 0
  {
    if handlers != [] {
      var n := |handlers| - 1;
      DistinctCount(handlers[..n], h);
      assert handlers == handlers[..n] + [handlers[n]];
      assert forall i :: 0 <= i < n ==> handlers[..n][i] != handlers[n];
    }
  }

  /** A handler is called once for every matching pattern under which it is registered. */
  lemma {:induction false} DeliveriesPerPattern(subscriptions: seq<Subscription>, topic: string, h: nat)
    requires WellKept(subscriptions)
    ensures multiset(Deliveries(subscriptions, topic))[h] == MatchCount(subscriptions, topic, h)
  {
    if subscriptions != [] {
      var n := |subscriptions| - 1;
      DeliveriesPerPattern(subscriptions[..n], topic, h);
      DistinctCount(subscriptions[n].handlers, h);
    }
  }

  /** A handler is called exactly when it is registered under a matching pattern. */
  lemma {:induction false} DeliveriesAreMatches(subscriptions: seq<Subscription>, topic: string, h: nat)
    ensures h in Deliveries(subscriptions, topic) <==>
            exists s :: s in subscriptions && TopicMatches(s.pattern, topic) && h in s.handlers
  {
    if subscriptions != [] {
      var n := |subscriptions| - 1;
      DeliveriesAreMatches(subscriptions[..n], topic, h);
      assert subscriptions == subscriptions[..n] + [subscriptions[n]];
    }
  }

  /** The handlers registered under one pattern. */
  function HandlersOf(s: seq<Subscription>, pattern: string): seq<nat> {
    if s == [] then [] else if s[0].pattern == pattern then s[0].handlers else HandlersOf(s[1..], pattern)
  }

  function AddHandler(s: seq<Subscription>, pattern: string, h: nat): seq<Subscription> {
    if s == [] then [Subscription(pattern, [h])]
    else if s[0].pattern == pattern then
      [Subscription(pattern, s[0].handlers + if h in s[0].handlers then [] else [h])] + s[1..]
    else [s[0]] + AddHandler(s[1..], pattern, h)
  }

  /** The last handler to leave takes its pattern along. */
  function Lessened(s: Subscription, h: nat): seq<Subscription> {
    if Without(s.handlers, h) == [] then [] else [Subscription(s.pattern, Without(s.handlers, h))]
  }

  function RemoveHandler(s: seq<Subscription>, pattern: string, h: nat): seq<Subscription> {
    if s == [] then []
    else if s[0].pattern == pattern then Lessened(s[0], h) + s[1..]
    else [s[0]] + RemoveHandler(s[1..], pattern, h)
  }

  lemma {:induction false} WithoutAbsent(handlers: seq<nat>, h: nat)
    requires h !in handlers
    ensures Without(handlers, h) == handlers
  {
    if handlers != [] {
      WithoutAbsent(handlers[..|handlers| - 1], h);
    }
  }

  lemma {:induction false} HandlersAfterAdd(s: seq<Subscription>, pattern: string, h: nat, p: string)
    ensures var before := HandlersOf(s, p);
            HandlersOf(AddHandler(s, pattern, h), p) ==
            if p == pattern && h !in before then before + [h] else before
  {
    if s == [] {
      assert [Subscription(pattern, [h])][1..] == [];
      assert [] + [h] == [h];
    } else if s[0].pattern == pattern {
      var first := Subscription(pattern, s[0].handlers + if h in s[0].handlers then [] else [h]);
      assert ([first] + s[1..])[1..] == s[1..];
    } else {
      HandlersAfterAdd(s[1..], pattern, h, p);
      assert ([s[0]] + AddHandler(s[1..], pattern, h))[1..] == AddHandler(s[1..], pattern, h);
    }
  }

  /** Unsubscribing undoes subscribing, wherever the pattern stands and whoever else listens. */
  lemma {:induction false} UnsubscribeUndoes(s: seq<Subscription>, pattern: string, h: nat)
    requires h !in HandlersOf(s, pattern) && forall i :: 0 <= i < |s| ==> s[i].handlers != []
    ensures RemoveHandler(AddHandler(s, pattern, h), pattern, h) == s
  {
    if s == [] {
      assert [h][..0] == [] && Without([h], h) == [];
      assert [Subscription(pattern, [h])][1..] == [];
    } else if s[0].pattern == pattern {
      var hs := s[0].handlers;
      assert (hs + [h])[..|hs|] == hs;
      WithoutAbsent(hs, h);
      assert Without(hs + [h], h) == hs + [] == hs && hs != [];
      var added := [Subscription(pattern, hs + [h])] + s[1..];
      assert AddHandler(s, pattern, h) == added;
      assert added[0].handlers == hs + [h] && added[1..] == s[1..];
      assert s[0] == Subscription(pattern, hs) && s == [s[0]] + s[1..];
    } else {
      UnsubscribeUndoes(s[1..], pattern, h);
      assert ([s[0]] + AddHandler(s[1..], pattern, h))[1..] == AddHandler(s[1..], pattern, h);
      assert s == [s[0]] + s[1..];
    }
  }

  function MatchingMessages(buffer: seq<TopicMessage>, pattern: string): seq<TopicMessage> {
    if buffer == [] then []
    else (if TopicMatches(pattern, buffer[0].topic) then [buffer[0]] else []) + MatchingMessages(buffer[1..], pattern)
  }

  function Max0(n: int): nat {
    if n > 0 then n else 0
  }

  class PubSub {
    const maxBufferSize: int
    var subscriptions: seq<Subscription>
    var buffer: seq<TopicMessage>
    /** Everything published since the buffer was last emptied. */
    ghost var published: seq<TopicMessage>

    ghost predicate Valid()
      reads this
    {
      buffer == LastN(published, Max0(maxBufferSize)) && WellKept(subscriptions)
    }

    constructor (maxBufferSize: int)
      ensures Valid() && published == [] && subscriptions == [] && this.maxBufferSize == maxBufferSize
    {
      this.maxBufferSize := maxBufferSize;
      subscriptions, buffer, published := [], [], [];
    }

    /** The buffer keeps the most recent messages; `called` are the handlers called, in order. */
    method Publish(from: string, topic: string, data: string) returns (called: seq<nat>)
      requires Valid()
      modifies this`buffer, this`published
      ensures Valid() && published == old(published) + [TopicMessage(from, topic, data)]
      ensures called == Deliveries(subscriptions, topic)
      ensures forall h :: multiset(called)[h] == MatchCount(subscriptions, topic, h)
    {
      var msg := TopicMessage(from, topic, data);
      LastNAppend(published, msg, Max0(maxBufferSize));
      published := published + [msg];
      buffer := buffer + [msg];
      if |buffer| > maxBufferSize {
        var start := |buffer| - maxBufferSize;
        buffer := if start <= |buffer| then buffer[start..] else [];
      }
      called := Notify(topic);
      forall h ensures multiset(called)[h] == MatchCount(subscriptions, topic, h) {
        DeliveriesPerPattern(subscriptions, topic, h);
      }
    }

    /** Calls every handler registered under a matching pattern; one that throws does not stop the rest. */
    method Notify(topic: string) returns (called: seq<nat>)
      ensures called == Deliveries(subscriptions, topic)
    {
      called := [];
      for i := 0 to |subscriptions|
        invariant called == Deliveries(subscriptions[..i], topic)
      {
        assert subscriptions[..i + 1][..i] == subscriptions[..i];
        var matches := MatchTopic(subscriptions[i].pattern, topic);
        if matches {
          called := called + subscriptions[i].handlers;
        }
      }
      assert subscriptions[..|subscriptions|] == subscriptions;
    }

    method Subscribe(pattern: string, handler: nat)
      requires Valid()
      modifies this`subscriptions
      ensures Valid() && subscriptions == AddHandler(old(subscriptions), pattern, handler)
    {
      AddAt(subscriptions, pattern, handler);
      AddKeepsWellKept(subscriptions, pattern, handler);
      var k := FindPattern(pattern);
      if k == |subscriptions| {
        subscriptions := subscriptions + [Subscription(pattern, [handler])];
      } else if handler !in subscriptions[k].handlers {
        subscriptions := subscriptions[k := Subscription(pattern, subscriptions[k].handlers + [handler])];
      }
    }

    method Unsubscribe(pattern: string, handler: nat)
      requires Valid()
      modifies this`subscriptions
      ensures Valid() && subscriptions == RemoveHandler(old(subscriptions), pattern, handler)
    {
      RemoveAt(subscriptions, pattern, handler);
      RemoveKeepsWellKept(subscriptions, pattern, handler);
      var k := FindPattern(pattern);
      if k < |subscriptions| {
        var handlers := Without(subscriptions[k].handlers, handler);
        if |handlers| == 0 {
          subscriptions := subscriptions[..k] + subscriptions[k + 1..];
        } else {
          subscriptions := subscriptions[k := Subscription(pattern, handlers)];
        }
      }
    }

    method FindPattern(pattern: string) returns (k: nat)
      ensures k == PatternAt(subscriptions, pattern)
    {
      k := 0;
      assert subscriptions[0..] == subscriptions;
      while k < |subscriptions| && subscriptions[k].pattern != pattern
        invariant k <= |subscriptions|
        invariant k + PatternAt(subscriptions[k..], pattern) == PatternAt(subscriptions, pattern)
      {
        assert subscriptions[k..][1..] == subscriptions[k + 1..];
        k := k + 1;
      }
    }

    method GetMessages(pattern: string) returns (msgs: seq<TopicMessage>)
      requires Valid()
      ensures msgs == MatchingMessages(LastN(published, Max0(maxBufferSize)), pattern)
    {
      msgs := MatchingMessages(buffer, pattern);
    }

    method Flush() returns (msgs: seq<TopicMessage>)
      requires Valid()
      modifies this`buffer, this`published
      ensures Valid() && msgs == LastN(old(published), Max0(maxBufferSize)) && published == []
    {
      msgs := buffer;
      buffer, published := [], [];
    }

    method Dispose()
      requires Valid()
      modifies this
      ensures Valid() && published == [] && subscriptions == []
    {
      subscriptions := [];
      buffer, published := [], [];
    }
  }

  function PatternAt(s: seq<Subscription>, pattern: string): (k: nat)
    ensures k <= |s| && (k < |s| ==> s[k].pattern == pattern)
  {
    if s == [] || s[0].pattern == pattern then 0 else 1 + PatternAt(s[1..], pattern)
  }

  lemma {:induction false} AddAt(s: seq<Subscription>, pattern: string, h: nat)
    ensures var k := PatternAt(s, pattern);
            AddHandler(s, pattern, h) ==
            if k == |s| then s + [Subscription(pattern, [h])]
            else if h in s[k].handlers then s
            else s[k := Subscription(pattern, s[k].handlers + [h])]
  {
    if s != [] {
      assert s == [s[0]] + s[1..];
      if s[0].pattern != pattern {
        AddAt(s[1..], pattern, h);
      } else {
        assert s[0].handlers + [] == s[0].handlers;
      }
    }
  }

  lemma Prefixed<T>(x: T, a: seq<T>, b: seq<T>, c: seq<T>)
    ensures [x] + (a + b + c) == [x] + a + b + c
  {
  }

  lemma {:induction false} RemoveAt(s: seq<Subscription>, pattern: string, h: nat)
    ensures var k := PatternAt(s, pattern);
            RemoveHandler(s, pattern, h) == if k == |s| then s else s[..k] + Lessened(s[k], h) + s[k + 1..]
  {
    if s != [] && s[0].pattern != pattern {
      var rest, k := s[1..], PatternAt(s, pattern);
      RemoveAt(rest, pattern, h);
      if k < |s| {
        Prefixed(s[0], rest[..k - 1], Lessened(s[k], h), rest[k..]);
        assert s[..k] == [s[0]] + rest[..k - 1] && s[k + 1..] == rest[k..];
      }
    } else if s != [] {
      assert s[..0] == [] && [] + Lessened(s[0], h) == Lessened(s[0], h);
    }
  }

  lemma {:induction false} FirstPattern(s: seq<Subscription>, pattern: string)
    ensures forall i :: 0 <= i < PatternAt(s, pattern) ==> s[i].pattern != pattern
  {
    if s != [] && s[0].pattern != pattern {
      FirstPattern(s[1..], pattern);
      assert forall i :: 0 < i < |s| ==> s[i] == s[1..][i - 1];
    }
  }

  lemma AddKeepsWellKept(s: seq<Subscription>, pattern: string, h: nat)
    requires WellKept(s)
    ensures WellKept(AddHandler(s, pattern, h))
  {
    AddAt(s, pattern, h);
    FirstPattern(s, pattern);
  }

  lemma LessenedKept(s: Subscription, h: nat)
    requires Distinct(s.handlers)
    ensures forall x :: x in Lessened(s, h) ==> x.handlers != [] && Distinct(x.handlers) && x.pattern == s.pattern
  {
    WithoutKeepsDistinct(s.handlers, h);
  }

  lemma Spliced(s: seq<Subscription>, k: nat, l: seq<Subscription>)
    requires WellKept(s) && k < |s| && |l| <= 1
    requires forall x :: x in l ==> x.handlers != [] && Distinct(x.handlers) && x.pattern == s[k].pattern
    ensures WellKept(s[..k] + l + s[k + 1..])
  {
    var t := s[..k] + l + s[k + 1..];
    if l == [] {
      assert forall i :: 0 <= i < |t| ==> t[i] == if i < k then s[i] else s[i + 1];
    } else {
      assert l[0] in l;
      assert forall i :: 0 <= i < |t| ==> t[i] == if i == k then l[0] else s[i];
    }
  }

  lemma RemoveKeepsWellKept(s: seq<Subscription>, pattern: string, h: nat)
    requires WellKept(s)
    ensures WellKept(RemoveHandler(s, pattern, h))
  {
    RemoveAt(s, pattern, h);
    var k := PatternAt(s, pattern);
    if k < |s| {
      LessenedKept(s[k], h);
      var l := Lessened(s[k], h);
      assert l == [] || (|l| == 1 && l[0] in l);
      Spliced(s, k, l);
    }
  }

  lemma {:induction false} MatchingInOrder(buffer: seq<TopicMessage>, pattern: string)
    ensures Subsequence(MatchingMessages(buffer, pattern), buffer)
  {
    if buffer != [] {
      MatchingInOrder(buffer[1..], pattern);
      SubsequencePrepend(buffer[0], MatchingMessages(buffer[1..], pattern), buffer[1..]);
      assert buffer == [buffer[0]] + buffer[1..];
      assert [] + MatchingMessages(buffer[1..], pattern) == MatchingMessages(buffer[1..], pattern);
    }
  }

  lemma {:induction false} MatchingCount(buffer: seq<TopicMessage>, pattern: string, m: TopicMessage)
    ensures multiset(MatchingMessages(buffer, pattern))[m] ==
            if TopicMatches(pattern, m.topic) then multiset(buffer)[m] else 0
  {
    if buffer != [] {
      MatchingCount(buffer[1..], pattern, m);
      assert buffer == [buffer[0]] + buffer[1..];
      assert multiset(buffer) == multiset{buffer[0]} + multiset(buffer[1..]);
    }
  }

  /** In the order of the buffer, each message whose topic matches, as often as it is there, and no other. */
  lemma MatchingIsExact(buffer: seq<TopicMessage>, pattern: string)
    ensures Subsequence(MatchingMessages(buffer, pattern), buffer)
    ensures forall m :: multiset(MatchingMessages(buffer, pattern))[m] ==
                        if TopicMatches(pattern, m.topic) then multiset(buffer)[m] else 0
  {
    MatchingInOrder(buffer, pattern);
    forall m ensures multiset(MatchingMessages(buffer, pattern))[m] ==
                     if TopicMatches(pattern, m.topic) then multiset(buffer)[m] else 0 {
      MatchingCount(buffer, pattern, m);
    }
  }
}
