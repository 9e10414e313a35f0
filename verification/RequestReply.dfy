/** The request/reply broker: four maps, promises, timers and disposal. */
module RequestReply {
  import opened Wrappers
  import opened Sequences

  /** One call of a promise's `resolve` or `reject`. */
  datatype Outcome = Replied(payload: string) | TimedOut | Cancelled

  datatype PendingRequest = PendingRequest(id: string, from: string, to: string, payload: string, timestamp: int,
                                           resolved: bool, response: Option<string>)

  /** A request object, which the maps and its timer callback share, and every settlement of its promise. */
  datatype Record = Record(request: PendingRequest, outcomes: seq<Outcome>)

  datatype BrokerMessage = BrokerMessage(id: string, from: string, to: string, content: string,
                                         requestId: string, isReply: bool, timestamp: int)

  /**
   The keys of the four maps in insertion order, the timers that have neither
   fired nor been cleared, and every request ever made.
   */
  datatype Broker = Broker(pending: seq<string>, resolvers: seq<string>, rejectors: seq<string>,
                           timeouts: seq<string>, armed: set<string>, records: map<string, Record>)

  const FRESH := Broker([], [], [], [], {}, map[])

  /** What can be looked up in `pending` exists. */
  predicate Known(s: Broker) {
    forall id :: id in s.pending ==> id in s.records
  }

  function Settle(s: Broker, id: string, outcome: Outcome): Broker
    requires id in s.records
  {
    var r := s.records[id];
    s.(records := s.records[id := Record(r.request.(resolved := true), r.outcomes + [outcome])])
  }

  // ---- The operations ----

  /** `content` is the payload serialized, if it can be. */
  function Request(s: Broker, id: string, from: string, to: string, payload: string, content: Option<string>,
                   now: int): (Broker, Result<BrokerMessage, string>)
  {
    if content.None? then (s, Err("not JSON-serializable"))
    else
      var request := PendingRequest(id, from, to, payload, now, false, None);
      (Broker(s.pending + [id], s.resolvers + [id], s.rejectors + [id], s.timeouts + [id], s.armed + {id},
              s.records[id := Record(request, [])]),
       Ok(BrokerMessage(id, from, to, content.value, id, false, now)))
  }

  /** The callback of the timer of request `id`. */
  function TimerFires(s: Broker, id: string): Broker
    requires id in s.records
  {
    var t := s.(armed := s.armed - {id});
    if s.records[id].request.resolved then t
    else
      Settle(t, id, TimedOut).(pending := Without(t.pending, id), resolvers := Without(t.resolvers, id),
                               rejectors := Without(t.rejectors, id), timeouts := Without(t.timeouts, id))
  }

  /** `content` is the serialized reply, or a replacement if the payload cannot be serialized. */
  function Reply(s: Broker, id: string, payload: string, content: string, now: int)
    : (Broker, Result<BrokerMessage, string>)
    requires Known(s)
  {
    if id !in s.pending then (s, Err("No pending request"))
    else
      var r := s.records[id];
      var t := if id in s.timeouts then s.(timeouts := Without(s.timeouts, id), armed := s.armed - {id}) else s;
      var u := t.(records := t.records[id := r.(request := r.request.(resolved := true, response := Some(payload)))]);
      var v := if id in u.resolvers then
                 Settle(u, id, Replied(payload)).(resolvers := Without(u.resolvers, id),
                                                  rejectors := Without(u.rejectors, id))
               else u;
      (v.(pending := Without(v.pending, id)),
       Ok(BrokerMessage("reply_" + id, r.request.to, r.request.from, content, id, true, now)))
  }

  function CancelAll(s: Broker, ids: seq<string>): (t: Broker)
    requires Known(s)
    ensures t.pending == s.pending && t.armed == s.armed && t.records.Keys == s.records.Keys
    decreases ids
  {
    if ids == [] then s
    else if ids[0] in s.pending && !s.records[ids[0]].request.resolved then
      CancelAll(Settle(s, ids[0], Cancelled), ids[1..])
    else CancelAll(s, ids[1..])
  }

  ghost function Dispose(s: Broker): Broker
    requires Known(s)
  {
    var t := CancelAll(s.(armed := s.armed - Elements(s.timeouts), timeouts := []), s.rejectors);
    Broker([], [], [], [], t.armed, t.records)
  }

  /** The unresolved requests to an agent, in the order in which they were made. */
  function PendingFor(s: Broker, keys: seq<string>, agent: string): seq<PendingRequest>
    requires forall id :: id in keys ==> id in s.records
  {
    if keys == [] then []
    else
      var init, r := PendingFor(s, keys[..|keys| - 1], agent), s.records[keys[|keys| - 1]].request;
      if r.to == agent && !r.resolved then init + [r] else init
  }

  // ---- What every run keeps ----

  ghost predicate RecordValid(s: Broker, id: string)
    requires id in s.records
  {
    var r := s.records[id];
    && r.request.id == id
    && (r.request.resolved <==> id !in s.pending)
    && |r.outcomes| == (if r.request.resolved then 1 else 0)
    && (r.outcomes != [] && r.outcomes[0].Replied? ==> r.request.response == Some(r.outcomes[0].payload))
  }

  /** The maps have the same keys, each with a live timer; the rest has settled exactly once. */
  ghost predicate Valid(s: Broker) {
    && s.pending == s.resolvers == s.rejectors == s.timeouts
    && Distinct(s.pending) && Known(s)
    && Elements(s.pending) == s.armed
    && forall id :: id in s.records ==> RecordValid(s, id)
  }

  lemma RequestKeepsValid(s: Broker, id: string, from: string, to: string, payload: string,
                          content: Option<string>, now: int)
    requires Valid(s) && id !in s.records
    ensures Valid(Request(s, id, from, to, payload, content, now).0)
  {
    var t := Request(s, id, from, to, payload, content, now).0;
    if content.Some? {
      assert forall i :: 0 <= i < |s.pending| ==> s.pending[i] in s.pending;
      forall x | x in t.records ensures RecordValid(t, x) {
        assert x != id ==> RecordValid(s, x);
      }
    }
  }

  lemma TimerKeepsValid(s: Broker, id: string)
    requires Valid(s) && id in s.records
    ensures Valid(TimerFires(s, id))
  {
    var t := TimerFires(s, id);
    assert RecordValid(s, id);
    WithoutKeepsDistinct(s.pending, id);
    forall x | x in t.records ensures RecordValid(t, x) {
      assert RecordValid(s, x);
    }
  }

  lemma ReplyKeepsValid(s: Broker, id: string, payload: string, content: string, now: int)
    requires Valid(s)
    ensures Valid(Reply(s, id, payload, content, now).0)
  {
    var t := Reply(s, id, payload, content, now).0;
    if id in s.pending {
      assert RecordValid(s, id);
      WithoutKeepsDistinct(s.pending, id);
      forall x | x in t.records ensures RecordValid(t, x) {
        assert RecordValid(s, x);
      }
    }
  }

  lemma {:induction false} CancelAllSettles(s: Broker, ids: seq<string>)
    requires Known(s) && Distinct(ids)
    requires forall id :: id in ids ==> id in s.pending && !s.records[id].request.resolved
    ensures forall id :: id in s.records ==>
              CancelAll(s, ids).records[id] ==
              if id in ids then Record(s.records[id].request.(resolved := true), s.records[id].outcomes + [Cancelled])
              else s.records[id]
    decreases ids
  {
    if ids != [] {
      var rest := ids[1..];
      assert ids == [ids[0]] + rest && ids[0] in ids;
      assert ids[0] !in rest by {
        forall i | 0 <= i < |rest| ensures rest[i] != ids[0] {
          assert rest[i] == ids[i + 1];
        }
      }
      assert forall i, j :: 0 <= i < j < |rest| ==> rest[i] == ids[i + 1] && rest[j] == ids[j + 1];
      CancelAllSettles(Settle(s, ids[0], Cancelled), rest);
    }
  }

  lemma DisposeFacts(s: Broker)
    requires Valid(s)
    ensures forall id :: id in s.records ==>
              id in Dispose(s).records && Dispose(s).records[id] ==
              if id in s.pending then Record(s.records[id].request.(resolved := true), [Cancelled]) else s.records[id]
  {
    var u := s.(armed := s.armed - Elements(s.timeouts), timeouts := []);
    forall id | id in s.pending
      ensures id in s.records && !s.records[id].request.resolved && s.records[id].outcomes == []
    {
      assert RecordValid(s, id);
    }
    CancelAllSettles(u, s.rejectors);
  }

  lemma DisposeKeepsValid(s: Broker)
    requires Valid(s)
    ensures Valid(Dispose(s))
  {
    var t := Dispose(s);
    DisposeFacts(s);
    forall id | id in t.records ensures RecordValid(t, id) {
      assert RecordValid(s, id);
    }
  }

  // ---- Runs ----

  datatype Event =
    | RequestEvent(id: string, from: string, to: string, payload: string, content: Option<string>, now: int)
    | ReplyEvent(id: string, payload: string, text: string, now: int)
    | TimerEvent(id: string)
    | DisposeEvent

  /**
   Request ids are never drawn twice. A timer may fire even when it has been
   cleared, which covers a callback that was already on its way.
   */
  predicate Enabled(s: Broker, e: Event) {
    && (e.RequestEvent? ==> e.id !in s.records)
    && (e.TimerEvent? ==> e.id in s.records)
  }

  ghost function Apply(s: Broker, e: Event): Broker
    requires Enabled(s, e) && Known(s)
  {
    match e
    case RequestEvent(id, from, to, payload, content, now) => Request(s, id, from, to, payload, content, now).0
    case ReplyEvent(id, payload, text, now) => Reply(s, id, payload, text, now).0
    case TimerEvent(id) => TimerFires(s, id)
    case DisposeEvent => Dispose(s)
  }

  ghost predicate Reaches(s: Broker, events: seq<Event>, t: Broker)
    decreases events
  {
    if events == [] then s == t
    else Known(s) && Enabled(s, events[0]) && Reaches(Apply(s, events[0]), events[1..], t)
  }

  lemma ApplyKeepsValid(s: Broker, e: Event)
    requires Valid(s) && Enabled(s, e)
    ensures Valid(Apply(s, e))
  {
    match e {
      case RequestEvent(id, from, to, payload, content, now) =>
        RequestKeepsValid(s, id, from, to, payload, content, now);
      case ReplyEvent(id, payload, text, now) => ReplyKeepsValid(s, id, payload, text, now);
      case TimerEvent(id) => TimerKeepsValid(s, id);
      case DisposeEvent => DisposeKeepsValid(s);
    }
  }

  lemma {:induction false} RunKeepsValid(s: Broker, events: seq<Event>, t: Broker)
    requires Valid(s) && Reaches(s, events, t)
    ensures Valid(t)
    decreases events
  {
    if events != [] {
      ApplyKeepsValid(s, events[0]);
      RunKeepsValid(Apply(s, events[0]), events[1..], t);
    }
  }

  /** In every run: one set of keys, a live timer for each, and no promise settled twice. */
  lemma SettledAtMostOnce(events: seq<Event>, t: Broker)
    requires Reaches(FRESH, events, t)
    ensures t.pending == t.resolvers == t.rejectors == t.timeouts && Elements(t.pending) == t.armed
    ensures forall id :: id in t.records ==> |t.records[id].outcomes| == if id in t.pending then 0 else 1
  {
    RunKeepsValid(FRESH, events, t);
    forall id | id in t.records ensures |t.records[id].outcomes| == if id in t.pending then 0 else 1 {
      assert RecordValid(t, id);
    }
  }

  ghost predicate SameRequest(a: Record, b: Record) {
    && a.request.from == b.request.from && a.request.to == b.request.to
    && a.request.payload == b.request.payload && a.request.timestamp == b.request.timestamp
    && (a.outcomes != [] ==> a.outcomes == b.outcomes && a.request == b.request)
  }

  lemma ApplyKeepsRequests(s: Broker, e: Event, id: string)
    requires Valid(s) && Enabled(s, e) && id in s.records
    ensures id in Apply(s, e).records && SameRequest(s.records[id], Apply(s, e).records[id])
  {
    assert RecordValid(s, id);
    if e.DisposeEvent? {
      DisposeFacts(s);
    }
  }

  /** A request keeps its parties and payload, and once settled nothing about it changes any more. */
  lemma {:induction false} SettledForGood(s: Broker, events: seq<Event>, t: Broker, id: string)
    requires Valid(s) && Reaches(s, events, t) && id in s.records
    ensures id in t.records && SameRequest(s.records[id], t.records[id])
    decreases events
  {
    if events != [] {
      ApplyKeepsValid(s, events[0]);
      ApplyKeepsRequests(s, events[0], id);
      SettledForGood(Apply(s, events[0]), events[1..], t, id);
    }
  }

  /**
   However much happens in between, a reply is accepted exactly while the promise
   is unsettled; it then settles that promise with its payload, for good, and is
   addressed from the request's target back to the requester.
   */
  lemma ReplyReachesRequester(s: Broker, id: string, from: string, to: string, payload: string, text: string,
                              now: int, events: seq<Event>, t: Broker, answer: string, content: string, later: int)
    requires Valid(s) && id !in s.records
    requires Reaches(Request(s, id, from, to, payload, Some(text), now).0, events, t)
    ensures Known(t) && id in t.records
    ensures var (u, r) := Reply(t, id, answer, content, later);
            if t.records[id].outcomes == [] then
              && r == Ok(BrokerMessage("reply_" + id, to, from, content, id, true, later))
              && u.records[id].outcomes == [Replied(answer)]
              && (forall x :: x in u.records && x != id ==> x in t.records && u.records[x] == t.records[x])
            else r.Err? && u == t
  {
    var first := Request(s, id, from, to, payload, Some(text), now).0;
    RequestKeepsValid(s, id, from, to, payload, Some(text), now);
    SettledForGood(first, events, t, id);
    RunKeepsValid(first, events, t);
    assert RecordValid(t, id);
  }

  /** A timer that fires after its request has settled changes nothing but itself. */
  lemma StaleTimerIsHarmless(s: Broker, id: string)
    requires Valid(s) && id in s.records
    ensures if s.records[id].outcomes != [] then TimerFires(s, id) == s
            else TimerFires(s, id).records[id].outcomes == [TimedOut]
  {
    assert RecordValid(s, id);
    if s.records[id].outcomes != [] {
      assert id !in s.armed;
    }
  }

  /** After disposal every promise ever issued has settled once, and no timer is left. */
  lemma DisposeSettlesAll(events: seq<Event>, s: Broker)
    requires Reaches(FRESH, events, s)
    ensures Known(s)
    ensures var t := Dispose(s);
            && t.armed == {} && t.pending == t.resolvers == t.rejectors == t.timeouts == []
            && t.records.Keys == s.records.Keys
            && (forall id :: id in s.records ==>
                  t.records[id].outcomes ==
                  if s.records[id].outcomes == [] then [Cancelled] else s.records[id].outcomes)
  {
    RunKeepsValid(FRESH, events, s);
    DisposeFacts(s);
    DisposeKeepsValid(s);
    forall id | id in s.records
      ensures Dispose(s).records[id].outcomes ==
              if s.records[id].outcomes == [] then [Cancelled] else s.records[id].outcomes
    {
      assert RecordValid(s, id);
    }
  }

  lemma {:induction false} PendingForFinds(s: Broker, keys: seq<string>, agent: string, r: PendingRequest)
    requires forall id :: id in keys ==> id in s.records
    requires forall id :: id in s.records ==> s.records[id].request.id == id
    ensures r in PendingFor(s, keys, agent) <==>
            r.id in keys && s.records[r.id].request == r && r.to == agent && !r.resolved
    decreases keys
  {
    if keys != [] {
      var init := keys[..|keys| - 1];
      assert keys == init + [keys[|keys| - 1]];
      PendingForFinds(s, init, agent, r);
    }
  }

  /** What is reported as pending is exactly what was asked of that agent and has not settled. */
  lemma ReportedIsUnsettled(events: seq<Event>, s: Broker, agent: string, r: PendingRequest)
    requires Reaches(FRESH, events, s)
    ensures Known(s)
    ensures r in PendingFor(s, s.pending, agent) <==>
            r.id in s.records && s.records[r.id] == Record(r, []) && r.to == agent
  {
    RunKeepsValid(FRESH, events, s);
    forall id | id in s.records ensures s.records[id].request.id == id {
      assert RecordValid(s, id);
    }
    PendingForFinds(s, s.pending, agent, r);
    if r.id in s.records {
      assert RecordValid(s, r.id);
    }
  }

  lemma UpdateTwice<K, V>(m: map<K, V>, k: K, a: V, b: V)
    ensures m[k := a][k := b] == m[k := b]
  {
  }

  class RequestReplyBroker {
    var pending: seq<string>
    var resolvers: seq<string>
    var rejectors: seq<string>
    var timeouts: seq<string>
    var armed: set<string>
    var records: map<string, Record>

    ghost function State(): Broker
      reads this
    {
      Broker(pending, resolvers, rejectors, timeouts, armed, records)
    }

    constructor ()
      ensures State() == FRESH && Valid(State())
    {
      pending, resolvers, rejectors, timeouts, armed, records := [], [], [], [], {}, map[];
    }

    method MakeRequest(id: string, from: string, to: string, payload: string, content: Option<string>, now: int)
      returns (r: Result<BrokerMessage, string>)
      requires Valid(State()) && id !in records
      modifies this
      ensures (State(), r) == Request(old(State()), id, from, to, payload, content, now)
      ensures Valid(State())
    {
      RequestKeepsValid(State(), id, from, to, payload, content, now);
      if content.None? {
        return Err("not JSON-serializable");
      }
      var request := PendingRequest(id, from, to, payload, now, false, None);
      records := records[id := Record(request, [])];
      pending := pending + [id];
      resolvers := resolvers + [id];
      rejectors := rejectors + [id];
      armed := armed + {id};
      timeouts := timeouts + [id];
      return Ok(BrokerMessage(id, from, to, content.value, id, false, now));
    }

    method OnTimeout(id: string)
      requires Valid(State()) && id in records
      modifies this
      ensures State() == TimerFires(old(State()), id) && Valid(State())
    {
      TimerKeepsValid(State(), id);
      ghost var before := State();
      armed := armed - {id};
      var record := records[id];
      if !record.request.resolved {
        records := records[id := record.(request := record.request.(resolved := true))];
        Forget(id);
        SettlePromise(id, TimedOut);
        UpdateTwice(before.records, id, record.(request := record.request.(resolved := true)), records[id]);
      }
    }

    method Forget(id: string)
      modifies this`resolvers, this`rejectors, this`pending, this`timeouts
      ensures resolvers == Without(old(resolvers), id) && rejectors == Without(old(rejectors), id)
      ensures pending == Without(old(pending), id) && timeouts == Without(old(timeouts), id)
    {
      resolvers := Without(resolvers, id);
      rejectors := Without(rejectors, id);
      pending := Without(pending, id);
      timeouts := Without(timeouts, id);
    }

    method SettlePromise(id: string, outcome: Outcome)
      requires id in records
      modifies this`records
      ensures records == old(records)[id := old(records)[id].(outcomes := old(records)[id].outcomes + [outcome])]
    {
      records := records[id := records[id].(outcomes := records[id].outcomes + [outcome])];
    }

    method MakeReply(id: string, payload: string, content: string, now: int)
      returns (r: Result<BrokerMessage, string>)
      requires Valid(State())
      modifies this
      ensures (State(), r) == Reply(old(State()), id, payload, content, now)
      ensures Valid(State())
    {
      ReplyKeepsValid(State(), id, payload, content, now);
      if id !in pending {
        return Err("No pending request");
      }
      var request := records[id].request;
      if id in timeouts {
        armed := armed - {id};
        timeouts := Without(timeouts, id);
      }
      records := records[id := records[id].(request := request.(resolved := true, response := Some(payload)))];
      if id in resolvers {
        SettlePromise(id, Replied(payload));
        resolvers := Without(resolvers, id);
        rejectors := Without(rejectors, id);
      }
      pending := Without(pending, id);
      return Ok(BrokerMessage("reply_" + id, request.to, request.from, content, id, true, now));
    }

    method HasPending(agent: string) returns (found: bool)
      requires Valid(State())
      ensures found <==> PendingFor(State(), pending, agent) != []
    {
      for i := 0 to |pending|
        invariant PendingFor(State(), pending[..i], agent) == []
      {
        assert pending[..i + 1][..i] == pending[..i];
        var request := records[pending[i]].request;
        if request.to == agent && !request.resolved {
          SomePending(State(), pending, i, agent);
          return true;
        }
      }
      assert pending[..|pending|] == pending;
      return false;
    }

    method GetPending(agent: string) returns (result: seq<PendingRequest>)
      requires Valid(State())
      ensures result == PendingFor(State(), pending, agent)
    {
      result := [];
      for i := 0 to |pending|
        invariant result == PendingFor(State(), pending[..i], agent)
      {
        assert pending[..i + 1][..i] == pending[..i];
        var request := records[pending[i]].request;
        if request.to == agent && !request.resolved {
          result := result + [request];
        }
      }
      assert pending[..|pending|] == pending;
    }

    method DisposeBroker()
      requires Valid(State())
      modifies this
      ensures State() == Dispose(old(State())) && Valid(State())
    {
      DisposeKeepsValid(State());
      ClearTimers();
      RejectUnresolved();
      rejectors := [];
      resolvers := [];
      pending := [];
    }

    method ClearTimers()
      modifies this`armed, this`timeouts
      ensures armed == old(armed) - Elements(old(timeouts)) && timeouts == []
    {
      for i := 0 to |timeouts|
        invariant timeouts == old(timeouts) && armed == old(armed) - Elements(timeouts[..i])
      {
        assert timeouts[..i + 1] == timeouts[..i] + [timeouts[i]];
        armed := armed - {timeouts[i]};
      }
      assert timeouts[..|timeouts|] == timeouts;
      timeouts := [];
    }

    /** Rejects the promises of all unresolved requests, so that no caller waits for ever. */
    method RejectUnresolved()
      requires Known(State())
      modifies this`records
      ensures records == CancelAll(old(State()), rejectors).records
    {
      ghost var before := State();
      for i := 0 to |rejectors|
        invariant Known(State())
        invariant CancelAll(State(), rejectors[i..]).records == CancelAll(before, rejectors).records
      {
        assert rejectors[i..][1..] == rejectors[i + 1..];
        var id := rejectors[i];
        if id in pending && !records[id].request.resolved {
          ghost var s := State();
          records := records[id := records[id].(request := records[id].request.(resolved := true))];
          SettlePromise(id, Cancelled);
          assert State() == Settle(s, id, Cancelled);
        }
      }
    }
  }

  lemma {:induction false} SomePending(s: Broker, keys: seq<string>, i: nat, agent: string)
    requires forall id :: id in keys ==> id in s.records
    requires i < |keys| && s.records[keys[i]].request.to == agent && !s.records[keys[i]].request.resolved
    ensures PendingFor(s, keys, agent) != []
    decreases keys
  {
    if i < |keys| - 1 {
      SomePending(s, keys[..|keys| - 1], i, agent);
    }
  }

  /**
   A request goes out under its own id from the one who asks to the one who is
   asked, with the payload, and is open; an unserializable payload changes nothing.
   */
  lemma RequestIsAddressed(s: Broker, id: string, from: string, to: string, payload: string, content: Option<string>,
                           now: int)
    requires Valid(s) && id !in s.records
    ensures var (t, r) := Request(s, id, from, to, payload, content, now);
            match content
            case None => r.Err? && t == s
            case Some(text) =>
              && r.Ok? && r.value.id == r.value.requestId == id && !r.value.isReply
              && r.value.from == from && r.value.to == to && r.value.content == text && r.value.timestamp == now
              && t.pending == s.pending + [id] && t.records.Keys == s.records.Keys + {id}
              && (forall x :: x in s.records ==> t.records[x] == s.records[x])
              && t.records[id].outcomes == [] && t.records[id].request.payload == payload
              && t.records[id].request.from == from && t.records[id].request.to == to
              && t.records[id].request.timestamp == now && t.records[id].request.response == None
  {
  }

  // ---- Records follow the events ----

  /** Who asked what of whom, and how it was settled, is what the events say. */
  ghost predicate Follows(events: seq<Event>, id: string, r: Record) {
    && (exists e ::
          && e in events && e.RequestEvent? && e.id == id && e.content.Some?
          && e.from == r.request.from && e.to == r.request.to && e.payload == r.request.payload
          && e.now == r.request.timestamp)
    && forall o :: o in r.outcomes ==>
         match o
         case Replied(payload) => exists e :: e in events && e.ReplyEvent? && e.id == id && e.payload == payload
         case TimedOut => TimerEvent(id) in events
         case Cancelled => DisposeEvent in events
  }

  lemma FollowsMore(events: seq<Event>, e: Event, id: string, r: Record)
    requires Follows(events, id, r)
    ensures Follows(events + [e], id, r)
  {
    forall o | o in r.outcomes && o.Replied?
      ensures exists x :: x in events + [e] && x.ReplyEvent? && x.id == id && x.payload == o.payload
    {
      var x :| x in events && x.ReplyEvent? && x.id == id && x.payload == o.payload;
      assert x in events + [e];
    }
  }

  lemma StepFollows(events: seq<Event>, s: Broker, e: Event)
    requires Valid(s) && Enabled(s, e) && forall id :: id in s.records ==> Follows(events, id, s.records[id])
    ensures forall id :: id in Apply(s, e).records ==> Follows(events + [e], id, Apply(s, e).records[id])
  {
    var t, more := Apply(s, e), events + [e];
    assert e in more;
    if e.DisposeEvent? {
      DisposeFacts(s);
    }
    forall id | id in t.records ensures Follows(more, id, t.records[id]) {
      if id in s.records {
        FollowsMore(events, e, id, s.records[id]);
        assert RecordValid(s, id);
        assert t.records[id].outcomes == s.records[id].outcomes
               || (e.ReplyEvent? && e.id == id && t.records[id].outcomes == [Replied(e.payload)])
               || (e == TimerEvent(id) && t.records[id].outcomes == [TimedOut])
               || (e == DisposeEvent && t.records[id].outcomes == [Cancelled]);
      }
    }
  }

  lemma {:induction false} RunFollows(before: seq<Event>, s: Broker, events: seq<Event>, t: Broker)
    requires Valid(s) && Reaches(s, events, t)
    requires forall id :: id in s.records ==> Follows(before, id, s.records[id])
    ensures forall id :: id in t.records ==> Follows(before + events, id, t.records[id])
    decreases events
  {
    if events == [] {
      assert before + events == before;
    } else {
      StepFollows(before, s, events[0]);
      ApplyKeepsValid(s, events[0]);
      RunFollows(before + [events[0]], Apply(s, events[0]), events[1..], t);
      assert before + [events[0]] + events[1..] == before + events;
    }
  }

  /** In every run, each request on record was made so, and each settlement has its cause among the events. */
  lemma RecordsFollowEvents(events: seq<Event>, t: Broker, id: string)
    requires Reaches(FRESH, events, t) && id in t.records
    ensures Follows(events, id, t.records[id])
  {
    RunFollows([], FRESH, events, t);
    assert [] + events == events;
  }

  function ReportedIds(s: seq<PendingRequest>): (ids: seq<string>)
    ensures |ids| == |s| && forall i :: 0 <= i < |s| ==> ids[i] == s[i].id
  {
    seq(|s|, i requires 0 <= i < |s| => s[i].id)
  }

  /** Pending requests are reported in the order in which they were made. */
  lemma {:induction false} ReportedInOrder(s: Broker, keys: seq<string>, agent: string)
    requires forall id :: id in keys ==> id in s.records && s.records[id].request.id == id
    ensures Subsequence(ReportedIds(PendingFor(s, keys, agent)), keys)
  {
    if keys != [] {
      var n := |keys| - 1;
      var init, r := PendingFor(s, keys[..n], agent), s.records[keys[n]].request;
      ReportedInOrder(s, keys[..n], agent);
      assert ReportedIds(init + [r]) == ReportedIds(init) + [keys[n]];
      assert (ReportedIds(init) + [keys[n]])[..|init|] == ReportedIds(init);
    }
  }

  /** The class does what the event says. */
  method Perform(b: RequestReplyBroker, e: Event)
    requires Valid(b.State()) && Enabled(b.State(), e)
    modifies b
    ensures b.State() == Apply(old(b.State()), e) && Valid(b.State())
  {
    match e {
      case RequestEvent(id, from, to, payload, content, now) =>
        var r := b.MakeRequest(id, from, to, payload, content, now);
      case ReplyEvent(id, payload, text, now) =>
        var r := b.MakeReply(id, payload, text, now);
      case TimerEvent(id) => b.OnTimeout(id);
      case DisposeEvent => b.DisposeBroker();
    }
  }
}
