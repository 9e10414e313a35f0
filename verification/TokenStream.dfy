/** The token stream writer: a queue, consumers waiting for tokens, and the end of the stream. */
module TokenStreams {
  import opened Wrappers
  import opened Sequences

  /**
   Where a consuming loop is: about to look at the queue, waiting, woken with a
   token or with the end, emptying the queue after the end, or done.
   */
  datatype Consumer = AtHead | Waiting | Woken(token: Option<string>) | Flushing | Returned

  datatype Take = Take(token: string, consumer: nat)

  /** The writer, its consumers, and what has happened: tokens pushed, assigned to a consumer, delivered by it. */
  datatype Stream = Stream(queue: seq<string>, waiters: seq<nat>, done: bool, consumers: seq<Consumer>,
                           pushed: seq<string>, taken: seq<Take>, delivered: seq<seq<string>>)

  function Initial(n: nat): Stream {
    Stream([], [], false, seq(n, _ => AtHead), [], [], seq(n, _ => []))
  }

  predicate AllBelow(waiters: seq<nat>, n: nat) {
    forall i :: 0 <= i < |waiters| ==> waiters[i] < n
  }

  // ---- The operations ----

  /** Hands the token to the longest waiting consumer, or queues it. */
  function Push(s: Stream, token: string): Stream
    requires AllBelow(s.waiters, |s.consumers|)
  {
    var t := s.(pushed := s.pushed + [token]);
    if s.waiters == [] then t.(queue := s.queue + [token])
    else
      var w := s.waiters[0];
      t.(waiters := s.waiters[1..], consumers := s.consumers[w := Woken(Some(token))],
         taken := s.taken + [Take(token, w)])
  }

  function WakeAll(consumers: seq<Consumer>, waiters: seq<nat>): (r: seq<Consumer>)
    requires AllBelow(waiters, |consumers|)
    ensures |r| == |consumers|
    decreases waiters
  {
    if waiters == [] then consumers
    else WakeAll(consumers[waiters[0] := Woken(None)], waiters[1..])
  }

  function End(s: Stream): Stream
    requires AllBelow(s.waiters, |s.consumers|)
  {
    s.(consumers := WakeAll(s.consumers, s.waiters), waiters := [], done := true)
  }

  function Deliver(s: Stream, c: nat, token: string, next: Consumer): Stream
    requires c < |s.consumers| == |s.delivered|
  {
    s.(consumers := s.consumers[c := next], delivered := s.delivered[c := s.delivered[c] + [token]])
  }

  function TakeFromQueue(s: Stream, c: nat, next: Consumer): Stream
    requires c < |s.consumers| == |s.delivered| && s.queue != []
  {
    Deliver(s, c, s.queue[0], next).(queue := s.queue[1..], taken := s.taken + [Take(s.queue[0], c)])
  }

  /** The loop of consumer `c` runs until it yields, waits or returns; a waiting or returned one stays put. */
  function Resume(s: Stream, c: nat): Stream
    requires c < |s.consumers| == |s.delivered|
  {
    match s.consumers[c]
    case AtHead =>
      if s.queue != [] then TakeFromQueue(s, c, AtHead)
      else if s.done then s.(consumers := s.consumers[c := Returned])
      else s.(consumers := s.consumers[c := Waiting], waiters := s.waiters + [c])
    case Woken(Some(token)) => Deliver(s, c, token, AtHead)
    case Woken(None) =>
      if s.queue != [] then TakeFromQueue(s, c, Flushing) else s.(consumers := s.consumers[c := Returned])
    case Flushing =>
      if s.queue != [] then TakeFromQueue(s, c, Flushing) else s.(consumers := s.consumers[c := Returned])
    case Waiting => s
    case Returned => s
  }

  // ---- What every interleaving keeps ----

  function Tokens(taken: seq<Take>): seq<string> {
    if taken == [] then [] else Tokens(taken[..|taken| - 1]) + [taken[|taken| - 1].token]
  }

  function TakenBy(taken: seq<Take>, c: nat): seq<string> {
    if taken == [] then []
    else
      var last := taken[|taken| - 1];
      TakenBy(taken[..|taken| - 1], c) + if last.consumer == c then [last.token] else []
  }

  /** A token a woken consumer has not yielded yet. */
  function InHand(c: Consumer): seq<string> {
    if c.Woken? && c.token.Some? then [c.token.value] else []
  }

  ghost predicate ConsumerValid(s: Stream, c: nat)
    requires c < |s.consumers| == |s.delivered|
  {
    && s.delivered[c] + InHand(s.consumers[c]) == TakenBy(s.taken, c)
    && (s.consumers[c] == Waiting <==> c in s.waiters)
    && (s.consumers[c] == Woken(None) || s.consumers[c] == Flushing || s.consumers[c] == Returned ==> s.done)
  }

  /**
   Tokens are assigned in the order in which they were pushed, each to one
   consumer, which delivers them in that order; somebody waits only while the
   queue is empty and the stream is open.
   */
  ghost predicate Valid(s: Stream) {
    && |s.consumers| == |s.delivered|
    && Tokens(s.taken) + s.queue == s.pushed
    && Distinct(s.waiters) && AllBelow(s.waiters, |s.consumers|)
    && (s.waiters != [] ==> s.queue == [] && !s.done)
    && forall c :: 0 <= c < |s.consumers| ==> ConsumerValid(s, c)
  }

  lemma TakenOneMore(taken: seq<Take>, x: Take)
    ensures Tokens(taken + [x]) == Tokens(taken) + [x.token]
    ensures forall c :: TakenBy(taken + [x], c) == TakenBy(taken, c) + if x.consumer == c then [x.token] else []
  {
    assert (taken + [x])[..|taken|] == taken;
  }

  lemma DistinctRest(waiters: seq<nat>)
    requires Distinct(waiters) && waiters != []
    ensures Distinct(waiters[1..]) && waiters[0] !in waiters[1..]
    ensures forall w :: w in waiters <==> w == waiters[0] || w in waiters[1..]
  {
    var rest := waiters[1..];
    assert waiters == [waiters[0]] + rest;
    forall i | 0 <= i < |rest| ensures rest[i] == waiters[i + 1] && rest[i] != waiters[0] {
    }
  }

  lemma HandOverKeepsValid(s: Stream, token: string)
    requires Valid(s) && s.waiters != []
    ensures Valid(Push(s, token))
  {
    var t, w := Push(s, token), s.waiters[0];
    TakenOneMore(s.taken, Take(token, w));
    DistinctRest(s.waiters);
    forall c | 0 <= c < |t.consumers| ensures ConsumerValid(t, c) {
      assert ConsumerValid(s, c);
      assert TakenBy(s.taken, c) + [] == TakenBy(s.taken, c);
    }
  }

  lemma PushKeepsValid(s: Stream, token: string)
    requires Valid(s)
    ensures Valid(Push(s, token))
  {
    if s.waiters == [] {
      var t := Push(s, token);
      assert Tokens(s.taken) + (s.queue + [token]) == Tokens(s.taken) + s.queue + [token];
      forall c | 0 <= c < |t.consumers| ensures ConsumerValid(t, c) {
        assert ConsumerValid(s, c);
      }
    } else {
      HandOverKeepsValid(s, token);
    }
  }

  lemma {:induction false} WokenAll(consumers: seq<Consumer>, waiters: seq<nat>)
    requires Distinct(waiters) && AllBelow(waiters, |consumers|)
    ensures forall c :: 0 <= c < |consumers| ==>
              WakeAll(consumers, waiters)[c] == if c in waiters then Woken(None) else consumers[c]
    decreases waiters
  {
    if waiters != [] {
      DistinctRest(waiters);
      WokenAll(consumers[waiters[0] := Woken(None)], waiters[1..]);
    }
  }

  lemma EndKeepsValid(s: Stream)
    requires Valid(s)
    ensures Valid(End(s))
  {
    WokenAll(s.consumers, s.waiters);
    var t := End(s);
    forall c | 0 <= c < |t.consumers| ensures ConsumerValid(t, c) {
      assert ConsumerValid(s, c);
    }
  }

  lemma TakeKeepsValid(s: Stream, c: nat, next: Consumer)
    requires Valid(s) && c < |s.consumers| && s.queue != [] && InHand(s.consumers[c]) == []
    requires next == AtHead || (next == Flushing && s.done)
    requires s.consumers[c] != Waiting
    ensures Valid(TakeFromQueue(s, c, next))
  {
    var t := TakeFromQueue(s, c, next);
    TakenOneMore(s.taken, Take(s.queue[0], c));
    assert Tokens(s.taken) + [s.queue[0]] + s.queue[1..] == Tokens(s.taken) + s.queue;
    forall d | 0 <= d < |t.consumers| ensures ConsumerValid(t, d) {
      assert ConsumerValid(s, d);
      if d == c {
        assert s.delivered[c] + [] == s.delivered[c];
      } else {
        assert TakenBy(s.taken, d) + [] == TakenBy(s.taken, d);
      }
    }
  }

  lemma ResumeKeepsValid(s: Stream, c: nat)
    requires Valid(s) && c < |s.consumers|
    ensures Valid(Resume(s, c))
  {
    var t := Resume(s, c);
    assert ConsumerValid(s, c);
    if s.queue != [] && (s.consumers[c] == AtHead || s.consumers[c] == Woken(None) || s.consumers[c] == Flushing) {
      TakeKeepsValid(s, c, if s.consumers[c] == AtHead then AtHead else Flushing);
    } else {
      forall d | 0 <= d < |t.consumers| ensures ConsumerValid(t, d) {
        assert ConsumerValid(s, d);
      }
    }
  }

  // ---- Runs ----

  datatype Event = PushEvent(token: string) | EndEvent | ResumeEvent(consumer: nat)

  function Apply(s: Stream, e: Event): Stream
    requires |s.consumers| == |s.delivered| && AllBelow(s.waiters, |s.consumers|)
  {
    match e
    case PushEvent(token) => Push(s, token)
    case EndEvent => End(s)
    case ResumeEvent(c) => if c < |s.consumers| then Resume(s, c) else s
  }

  ghost predicate Reaches(s: Stream, events: seq<Event>, t: Stream)
    decreases events
  {
    if events == [] then s == t
    else
      && |s.consumers| == |s.delivered| && AllBelow(s.waiters, |s.consumers|)
      && Reaches(Apply(s, events[0]), events[1..], t)
  }

  lemma ApplyKeepsValid(s: Stream, e: Event)
    requires Valid(s)
    ensures Valid(Apply(s, e)) && |Apply(s, e).consumers| == |s.consumers|
  {
    match e {
      case PushEvent(token) => PushKeepsValid(s, token);
      case EndEvent => EndKeepsValid(s);
      case ResumeEvent(c) =>
        if c < |s.consumers| {
          ResumeKeepsValid(s, c);
        }
    }
  }

  lemma {:induction false} RunKeepsValid(s: Stream, events: seq<Event>, t: Stream)
    requires Valid(s) && Reaches(s, events, t)
    ensures Valid(t) && |t.consumers| == |s.consumers|
    decreases events
  {
    if events != [] {
      ApplyKeepsValid(s, events[0]);
      RunKeepsValid(Apply(s, events[0]), events[1..], t);
    }
  }

  /**
   For every interleaving and any number of consumers: assigned tokens, then
   the queue, are the tokens pushed; each consumer has delivered, or holds,
   exactly its own in order; and a waiting consumer means an empty queue.
   */
  lemma NothingLostOrRepeated(n: nat, events: seq<Event>, t: Stream)
    requires Reaches(Initial(n), events, t)
    ensures Tokens(t.taken) + t.queue == t.pushed
    ensures |t.consumers| == |t.delivered| == n
    ensures forall c :: 0 <= c < n ==> t.delivered[c] + InHand(t.consumers[c]) == TakenBy(t.taken, c)
    ensures forall c :: 0 <= c < n && t.consumers[c] == Waiting ==> t.queue == [] && !t.done
  {
    var s := Initial(n);
    forall c | 0 <= c < n ensures ConsumerValid(s, c) {
    }
    RunKeepsValid(s, events, t);
    forall c | 0 <= c < n
      ensures t.delivered[c] + InHand(t.consumers[c]) == TakenBy(t.taken, c)
      ensures t.consumers[c] == Waiting ==> t.queue == [] && !t.done
    {
      assert ConsumerValid(t, c);
    }
  }

  lemma {:induction false} AllTakenByOne(taken: seq<Take>)
    requires forall i :: 0 <= i < |taken| ==> taken[i].consumer == 0
    ensures TakenBy(taken, 0) == Tokens(taken)
  {
    if taken != [] {
      AllTakenByOne(taken[..|taken| - 1]);
    }
  }

  ghost predicate OnlyConsumer(s: Stream) {
    |s.consumers| == 1 && forall i :: 0 <= i < |s.taken| ==> s.taken[i].consumer == 0
  }

  /** With a single consumer: delivered, in hand, queued, in this order, are the tokens pushed. */
  lemma SingleConsumerOrder(s: Stream)
    requires Valid(s) && OnlyConsumer(s)
    ensures s.delivered[0] + InHand(s.consumers[0]) + s.queue == s.pushed
  {
    assert ConsumerValid(s, 0);
    AllTakenByOne(s.taken);
  }

  lemma ApplyKeepsOnlyConsumer(s: Stream, e: Event)
    requires Valid(s) && OnlyConsumer(s)
    ensures OnlyConsumer(Apply(s, e))
  {
    assert s.waiters != [] ==> s.waiters[0] == 0;
  }

  lemma {:induction false} RunKeepsOnlyConsumer(s: Stream, events: seq<Event>, t: Stream)
    requires Valid(s) && OnlyConsumer(s) && Reaches(s, events, t)
    ensures Valid(t) && OnlyConsumer(t)
    decreases events
  {
    if events != [] {
      ApplyKeepsValid(s, events[0]);
      ApplyKeepsOnlyConsumer(s, events[0]);
      RunKeepsOnlyConsumer(Apply(s, events[0]), events[1..], t);
    }
  }

  // ---- After the end ----

  function ResumeTimes(s: Stream, n: nat): Stream
    requires |s.consumers| == |s.delivered| == 1
    decreases n
  {
    if n == 0 then s else ResumeTimes(Resume(s, 0), n - 1)
  }

  function StepsLeft(s: Stream): nat
    requires |s.consumers| == 1
  {
    match s.consumers[0]
    case Returned => 0
    case Woken(Some(_)) => |s.queue| + 2
    case _ => |s.queue| + 1
  }

  /**
   After the end, with nothing pushed any more, a consumer that has not returned
   returns after so many steps, having delivered every token once and in order.
   */
  lemma {:induction false} ConsumerFinishes(s: Stream)
    requires Valid(s) && OnlyConsumer(s) && s.done && s.consumers[0] != Returned
    ensures var t := ResumeTimes(s, StepsLeft(s));
            t.consumers == [Returned] && t.queue == [] && t.pushed == s.pushed && t.delivered == [s.pushed]
    decreases StepsLeft(s)
  {
    var u := Resume(s, 0);
    assert ConsumerValid(s, 0);
    ResumeKeepsValid(s, 0);
    if u.consumers[0] == Returned {
      SingleConsumerOrder(u);
      assert u.queue == [] && u.delivered[0] + [] + [] == u.delivered[0];
      assert ResumeTimes(s, 1) == ResumeTimes(u, 0) == u;
      assert u.consumers == [Returned] && u.delivered == [u.delivered[0]];
    } else {
      ConsumerFinishes(u);
    }
  }

  /** The consumers are resumed in the order of the schedule. */
  function ResumeAll(s: Stream, schedule: seq<nat>): Stream
    requires |s.consumers| == |s.delivered| && AllBelow(schedule, |s.consumers|)
    decreases schedule
  {
    if schedule == [] then s else ResumeAll(Resume(s, schedule[0]), schedule[1..])
  }

  /** So many resumptions a consumer needs at most, whatever the others do. */
  function Needs(s: Stream, c: nat): nat
    requires c < |s.consumers|
  {
    match s.consumers[c]
    case Returned => 0
    case Woken(Some(_)) => |s.queue| + 2
    case _ => |s.queue| + 1
  }

  ghost predicate ResumedEnough(s: Stream, schedule: seq<nat>) {
    forall c: nat :: c < |s.consumers| ==> multiset(schedule)[c] >= Needs(s, c)
  }

  ghost predicate AllReturned(s: Stream) {
    forall c :: 0 <= c < |s.consumers| ==> s.consumers[c] == Returned
  }

  /** Nothing is queued, or somebody will still look at the queue. */
  ghost predicate Attended(s: Stream) {
    s.queue == [] || exists c :: 0 <= c < |s.consumers| && s.consumers[c] != Returned
  }

  lemma ResumeLessens(s: Stream, c: nat, d: nat)
    requires Valid(s) && s.done && c < |s.consumers| && d < |s.consumers|
    ensures Needs(Resume(s, c), d) <= Needs(s, d)
    ensures c == d ==> Needs(Resume(s, c), d) == 0 || Needs(Resume(s, c), d) < Needs(s, d)
  {
    assert ConsumerValid(s, c);
  }

  /** A consumer returns only from an empty queue. */
  lemma ResumeKeepsAttended(s: Stream, c: nat)
    requires Valid(s) && s.done && c < |s.consumers|
    ensures Attended(Resume(s, c)) <==> Attended(s)
  {
    assert ConsumerValid(s, c);
    var t := Resume(s, c);
    if t.queue != [] {
      assert forall d :: 0 <= d < |s.consumers| ==> (t.consumers[d] == Returned <==> s.consumers[d] == Returned);
    }
  }

  lemma EnoughLeft(s: Stream, schedule: seq<nat>)
    requires Valid(s) && s.done && schedule != [] && AllBelow(schedule, |s.consumers|) && ResumedEnough(s, schedule)
    ensures ResumedEnough(Resume(s, schedule[0]), schedule[1..])
  {
    var t := Resume(s, schedule[0]);
    var rest: seq<nat> := schedule[1..];
    assert schedule == [schedule[0]] + rest;
    forall c: nat | c < |t.consumers| ensures multiset(rest)[c] >= Needs(t, c) {
      ResumeLessens(s, schedule[0], c);
    }
  }

  lemma {:induction false} ScheduleFinishes(s: Stream, schedule: seq<nat>)
    requires Valid(s) && s.done && AllBelow(schedule, |s.consumers|) && ResumedEnough(s, schedule)
    ensures var t := ResumeAll(s, schedule);
            Valid(t) && t.pushed == s.pushed && |t.consumers| == |s.consumers| && AllReturned(t)
            && (Attended(t) <==> Attended(s))
    decreases schedule
  {
    if schedule == [] {
      forall c | 0 <= c < |s.consumers| ensures s.consumers[c] == Returned {
        assert Needs(s, c) == 0;
      }
    } else {
      ResumeKeepsValid(s, schedule[0]);
      ResumeKeepsAttended(s, schedule[0]);
      EnoughLeft(s, schedule);
      ScheduleFinishes(Resume(s, schedule[0]), schedule[1..]);
    }
  }

  ghost predicate Owned(s: Stream) {
    forall i :: 0 <= i < |s.taken| ==> s.taken[i].consumer < |s.consumers|
  }

  lemma {:induction false} RunKeepsOwned(s: Stream, events: seq<Event>, t: Stream)
    requires Valid(s) && Owned(s) && Reaches(s, events, t)
    ensures Owned(t)
    decreases events
  {
    if events != [] {
      ApplyKeepsValid(s, events[0]);
      RunKeepsOwned(Apply(s, events[0]), events[1..], t);
    }
  }

  lemma {:induction false} ResumeAllKeepsOwned(s: Stream, schedule: seq<nat>)
    requires Valid(s) && Owned(s) && AllBelow(schedule, |s.consumers|)
    ensures Owned(ResumeAll(s, schedule))
    decreases schedule
  {
    if schedule != [] {
      ResumeKeepsValid(s, schedule[0]);
      ResumeAllKeepsOwned(Resume(s, schedule[0]), schedule[1..]);
    }
  }

  /** All deliveries together. */
  function Together(delivered: seq<seq<string>>): multiset<string> {
    if delivered == [] then multiset{}
    else Together(delivered[..|delivered| - 1]) + multiset(delivered[|delivered| - 1])
  }

  lemma {:induction false} OneMoreDelivered(delivered: seq<seq<string>>, c: nat, token: string)
    requires c < |delivered|
    ensures Together(delivered[c := delivered[c] + [token]]) == Together(delivered) + multiset{token}
  {
    var n := |delivered| - 1;
    var more := delivered[c := delivered[c] + [token]];
    if c < n {
      OneMoreDelivered(delivered[..n], c, token);
      assert more[..n] == delivered[..n][c := delivered[..n][c] + [token]];
    } else {
      assert more[..n] == delivered[..n];
    }
  }

  lemma {:induction false} NoneDelivered(delivered: seq<seq<string>>)
    requires forall c :: 0 <= c < |delivered| ==> delivered[c] == []
    ensures Together(delivered) == multiset{}
  {
    if delivered != [] {
      NoneDelivered(delivered[..|delivered| - 1]);
    }
  }

  /** What the consumers took, taken together, are the tokens taken. */
  lemma {:induction false} TakenTogether(taken: seq<Take>, delivered: seq<seq<string>>)
    requires forall i :: 0 <= i < |taken| ==> taken[i].consumer < |delivered|
    requires forall c :: 0 <= c < |delivered| ==> delivered[c] == TakenBy(taken, c)
    ensures Together(delivered) == multiset(Tokens(taken))
    decreases taken
  {
    if taken == [] {
      NoneDelivered(delivered);
    } else {
      var n := |taken| - 1;
      var before := seq(|delivered|, c requires 0 <= c < |delivered| => TakenBy(taken[..n], c));
      TakenTogether(taken[..n], before);
      assert taken == taken[..n] + [taken[n]];
      OneMoreTaken(taken[..n], taken[n], before, delivered);
      OneMoreDelivered(before, taken[n].consumer, taken[n].token);
    }
  }

  lemma OneMoreTaken(taken: seq<Take>, x: Take, before: seq<seq<string>>, delivered: seq<seq<string>>)
    requires x.consumer < |before| == |delivered|
    requires forall c :: 0 <= c < |before| ==> before[c] == TakenBy(taken, c)
    requires forall c :: 0 <= c < |before| ==> delivered[c] == TakenBy(taken + [x], c)
    ensures delivered == before[x.consumer := before[x.consumer] + [x.token]]
    ensures multiset(Tokens(taken + [x])) == multiset(Tokens(taken)) + multiset{x.token}
  {
    TakenOneMore(taken, x);
    forall c | 0 <= c < |before| && c != x.consumer ensures delivered[c] == before[c] {
      assert TakenBy(taken, c) + [] == TakenBy(taken, c);
    }
  }

  /**
   For every interleaving and any number of consumers: once the stream has
   ended, every schedule that resumes each consumer often enough makes all of
   them return; each has delivered its own tokens in order, and together they
   delivered every token pushed once, unless tokens lie in the queue that nobody
   is left to take.
   */
  lemma EveryConsumerFinishes(n: nat, events: seq<Event>, s: Stream, schedule: seq<nat>)
    requires Reaches(Initial(n), events, s) && s.done && |s.consumers| == |s.delivered| == n
    requires AllBelow(schedule, n) && ResumedEnough(s, schedule)
    ensures var t := ResumeAll(s, schedule);
            && |t.consumers| == |t.delivered| == n && AllReturned(t) && t.pushed == s.pushed
            && (forall c :: 0 <= c < n ==> t.delivered[c] == TakenBy(t.taken, c))
            && Tokens(t.taken) + t.queue == s.pushed
            && (Together(t.delivered) == multiset(s.pushed) <==> Attended(s))
  {
    forall c | 0 <= c < n ensures ConsumerValid(Initial(n), c) {
    }
    RunKeepsValid(Initial(n), events, s);
    RunKeepsOwned(Initial(n), events, s);
    ScheduleFinishes(s, schedule);
    ResumeAllKeepsOwned(s, schedule);
    var t := ResumeAll(s, schedule);
    forall c | 0 <= c < n ensures t.delivered[c] == TakenBy(t.taken, c) {
      assert ConsumerValid(t, c);
      assert t.delivered[c] + [] == t.delivered[c];
    }
    TakenTogether(t.taken, t.delivered);
    assert multiset(s.pushed) == multiset(Tokens(t.taken)) + multiset(t.queue);
    assert t.queue != [] ==> |multiset(t.queue)| > 0;
    assert |multiset(Tokens(t.taken)) + multiset(t.queue)| == |multiset(Tokens(t.taken))| + |multiset(t.queue)|;
  }

  class TokenStreamWriter {
    var queue: seq<string>
    var waiters: seq<nat>
    var done: bool
    /** The consuming loops, by number; a waiter is the number of the loop to wake. */
    var consumers: seq<Consumer>
    ghost var pushed: seq<string>
    ghost var taken: seq<Take>
    ghost var delivered: seq<seq<string>>

    ghost function State(): Stream
      reads this
    {
      Stream(queue, waiters, done, consumers, pushed, taken, delivered)
    }

    constructor (n: nat)
      ensures State() == Initial(n) && Valid(State())
    {
      queue, waiters, done, consumers := [], [], false, seq(n, _ => AtHead);
      pushed, taken, delivered := [], [], seq(n, _ => []);
      new;
      forall c | 0 <= c < n ensures ConsumerValid(State(), c) {
      }
    }

    method PushToken(token: string)
      requires Valid(State())
      modifies this
      ensures State() == Push(old(State()), token) && Valid(State())
    {
      PushKeepsValid(State(), token);
      pushed := pushed + [token];
      if |waiters| > 0 {
        var waiter := waiters[0];
        waiters := waiters[1..];
        consumers := consumers[waiter := Woken(Some(token))];
        taken := taken + [Take(token, waiter)];
      } else {
        queue := queue + [token];
      }
    }

    method EndStream()
      requires Valid(State())
      modifies this
      ensures State() == End(old(State())) && Valid(State())
    {
      EndKeepsValid(State());
      ghost var before := State();
      assert waiters[0..] == waiters;
      for i := 0 to |waiters|
        invariant waiters == before.waiters && State() == before.(consumers := consumers)
        invariant |consumers| == |before.consumers| && AllBelow(waiters, |consumers|)
        invariant WakeAll(consumers, waiters[i..]) == WakeAll(before.consumers, before.waiters)
      {
        assert waiters[i..][1..] == waiters[i + 1..];
        consumers := consumers[waiters[i] := Woken(None)];
      }
      waiters := [];
      done := true;
    }

    /** Runs consumer `c` to its next suspension; `yielded` is the token it yields, if it does. */
    method Next(c: nat) returns (yielded: Option<string>)
      requires Valid(State()) && c < |consumers|
      modifies this
      ensures State() == Resume(old(State()), c) && Valid(State())
      ensures delivered[c] == old(delivered[c]) + if yielded.Some? then [yielded.value] else []
    {
      ResumeKeepsValid(State(), c);
      yielded := None;
      match consumers[c] {
        case AtHead =>
          if |queue| > 0 {
            yielded := Some(queue[0]);
            taken := taken + [Take(queue[0], c)];
            queue := queue[1..];
          } else if done {
            consumers := consumers[c := Returned];
          } else {
            waiters := waiters + [c];
            consumers := consumers[c := Waiting];
          }
        case Woken(token) =>
          if token.None? {
            yielded := FlushOne(c);
          } else {
            yielded := token;
            consumers := consumers[c := AtHead];
          }
        case Flushing =>
          yielded := FlushOne(c);
        case Waiting =>
        case Returned =>
      }
      if yielded.Some? {
        delivered := delivered[c := delivered[c] + [yielded.value]];
      }
    }

    /** The loop that empties the queue once the end has been seen. */
    method FlushOne(c: nat) returns (yielded: Option<string>)
      requires c < |consumers|
      modifies this`queue, this`taken, this`consumers
      ensures if old(queue) != [] then
                && yielded == Some(old(queue)[0]) && queue == old(queue)[1..]
                && taken == old(taken) + [Take(old(queue)[0], c)] && consumers == old(consumers)[c := Flushing]
              else
                && yielded == None && queue == [] && taken == old(taken)
                && consumers == old(consumers)[c := Returned]
    {
      if |queue| > 0 {
        yielded := Some(queue[0]);
        taken := taken + [Take(queue[0], c)];
        queue := queue[1..];
        consumers := consumers[c := Flushing];
      } else {
        yielded := None;
        consumers := consumers[c := Returned];
      }
    }
  }

  /** The class does what the event says. */
  method Perform(w: TokenStreamWriter, e: Event)
    requires Valid(w.State())
    modifies w
    ensures w.State() == Apply(old(w.State()), e) && Valid(w.State())
  {
    match e {
      case PushEvent(token) => w.PushToken(token);
      case EndEvent => w.EndStream();
      case ResumeEvent(c) =>
        if c < |w.consumers| {
          var yielded := w.Next(c);
        }
    }
  }
}
