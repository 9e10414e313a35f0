/** Requests over the stdio transport: ids, pending promises, timers, responses in any order. */
module McpRequests {
  import opened Wrappers
  import opened Sequences
  import Framing

  /** A parsed body: a numeric `id` makes it a response, otherwise a `method` makes it a notification. */
  datatype Message = Response(id: int, text: string) | Notification(text: string) | Other

  /** How a request's promise was settled. */
  datatype Outcome = Resolved(response: Message) | TimedOut | WriteFailed | Stopped

  /**
   The transport's request side: ids still in the pending map, timers that have
   neither fired nor been cleared, the promise of every request ever sent, and
   the notifications handed on.
   */
  datatype Client = Client(connected: bool, nextId: nat, pending: seq<int>, armed: set<int>,
                           outcomes: map<int, Option<Outcome>>, notified: seq<string>)

  const STARTED := Client(true, 1, [], {}, map[], [])

  /** Only the first settlement of a promise counts. */
  function Settle(outcomes: map<int, Option<Outcome>>, id: int, o: Outcome): map<int, Option<Outcome>> {
    if id in outcomes && outcomes[id].None? then outcomes[id := Some(o)] else outcomes
  }

  // ---- The operations ----

  /** `render` is the request with a given id as JSON text; the frame is what goes onto the wire. */
  function Send(s: Client, render: int -> string): (Client, Result<(int, string), string>) {
    if !s.connected then (s, Err("MCP transport not connected"))
    else
      var id := s.nextId;
      (s.(nextId := id + 1, pending := s.pending + [id], armed := s.armed + {id},
          outcomes := s.outcomes[id := None]),
       Ok((id, Framing.PrintFrame(render(id)))))
  }

  function Handle(s: Client, m: Message): Client {
    match m
    case Response(id, _) =>
      if id in s.pending then
        s.(pending := Without(s.pending, id), armed := s.armed - {id}, outcomes := Settle(s.outcomes, id, Resolved(m)))
      else s
    case Notification(text) => s.(notified := s.notified + [text])
    case Other => s
  }

  function Reject(s: Client, id: int, o: Outcome): Client {
    s.(pending := Without(s.pending, id), armed := s.armed - {id}, outcomes := Settle(s.outcomes, id, o))
  }

  /** Stopping the transport, or the exit or failure of the process. */
  ghost function Stop(s: Client): Client {
    s.(connected := false, pending := [], armed := s.armed - Elements(s.pending),
       outcomes := map id | id in s.outcomes ::
                     if id in s.pending && s.outcomes[id].None? then Some(Stopped) else s.outcomes[id])
  }

  // ---- What every run keeps ----

  ghost predicate RequestValid(s: Client, id: int)
    requires id in s.outcomes
  {
    && (id in s.pending <==> s.outcomes[id].None?)
    && forall m :: s.outcomes[id] == Some(Resolved(m)) ==> m.Response? && m.id == id
  }

  /** Ids count up and are never reused; pending are exactly the unsettled requests, each with a live timer. */
  ghost predicate Valid(s: Client) {
    && s.nextId >= 1 && (forall id :: id in s.outcomes <==> 1 <= id < s.nextId)
    && Distinct(s.pending) && Elements(s.pending) <= s.outcomes.Keys && s.armed == Elements(s.pending)
    && forall id :: id in s.outcomes ==> RequestValid(s, id)
  }

  datatype Event =
    | SendEvent(render: int -> string)
    | MessageEvent(message: Message)
    | TimerEvent(id: int)
    | WriteErrorEvent(id: int)
    | StopEvent

  /** Timers and write errors may also come late, after the request has settled. */
  ghost function Apply(s: Client, e: Event): Client {
    match e
    case SendEvent(render) => Send(s, render).0
    case MessageEvent(m) => Handle(s, m)
    case TimerEvent(id) => Reject(s, id, TimedOut)
    case WriteErrorEvent(id) => Reject(s, id, WriteFailed)
    case StopEvent => Stop(s)
  }

  /** Nothing about a settled request changes any more. */
  ghost predicate Later(s: Client, t: Client) {
    && s.nextId <= t.nextId
    && forall id :: id in s.outcomes ==> id in t.outcomes && (s.outcomes[id].Some? ==> t.outcomes[id] == s.outcomes[id])
  }

  lemma SendKeepsValid(s: Client, render: int -> string)
    requires Valid(s)
    ensures Valid(Send(s, render).0) && Later(s, Send(s, render).0)
  {
    var t := Send(s, render).0;
    assert s.nextId !in Elements(s.pending);
    assert forall i :: 0 <= i < |s.pending| ==> s.pending[i] in Elements(s.pending);
    forall id | id in t.outcomes ensures RequestValid(t, id) {
      assert id in s.outcomes ==> RequestValid(s, id);
    }
  }

  lemma SettleKeepsValid(s: Client, id: int, o: Outcome)
    requires Valid(s) && (o.Resolved? ==> o.response.Response? && o.response.id == id)
    ensures Valid(Reject(s, id, o)) && Later(s, Reject(s, id, o))
  {
    var t := Reject(s, id, o);
    WithoutKeepsDistinct(s.pending, id);
    forall x | x in t.outcomes ensures RequestValid(t, x) {
      assert RequestValid(s, x);
    }
  }

  lemma StopKeepsValid(s: Client)
    requires Valid(s)
    ensures Valid(Stop(s)) && Later(s, Stop(s))
  {
    var t := Stop(s);
    forall x | x in t.outcomes ensures RequestValid(t, x) {
      assert RequestValid(s, x);
    }
  }

  lemma ApplyKeepsValid(s: Client, e: Event)
    requires Valid(s)
    ensures Valid(Apply(s, e)) && Later(s, Apply(s, e))
  {
    match e {
      case SendEvent(render) => SendKeepsValid(s, render);
      case MessageEvent(m) =>
        if m.Response? && m.id in s.pending {
          SettleKeepsValid(s, m.id, Resolved(m));
        } else {
          assert forall id :: id in s.outcomes ==> RequestValid(s, id) == RequestValid(Handle(s, m), id);
        }
      case TimerEvent(id) => SettleKeepsValid(s, id, TimedOut);
      case WriteErrorEvent(id) => SettleKeepsValid(s, id, WriteFailed);
      case StopEvent => StopKeepsValid(s);
    }
  }

  ghost function Run(s: Client, events: seq<Event>): Client
    decreases events
  {
    if events == [] then s else Run(Apply(s, events[0]), events[1..])
  }

  /**
   In every run, whatever arrives late or twice: a request settles once and for
   good, a response settles only the request that carries its id, and exactly
   the unsettled requests are pending.
   */
  lemma {:induction false} RunKeepsValid(s: Client, events: seq<Event>)
    requires Valid(s)
    ensures Valid(Run(s, events)) && Later(s, Run(s, events))
    decreases events
  {
    if events != [] {
      ApplyKeepsValid(s, events[0]);
      RunKeepsValid(Apply(s, events[0]), events[1..]);
    }
  }

  /** A response to a request that has already settled, or was never sent, changes nothing. */
  lemma LateResponseIsIgnored(events: seq<Event>, m: Message)
    requires m.Response?
    ensures var s := Run(STARTED, events);
            Handle(s, m) == s <==> m.id !in s.outcomes || s.outcomes[m.id].Some?
  {
    RunKeepsValid(STARTED, events);
    var s := Run(STARTED, events);
    if m.id in s.outcomes {
      assert RequestValid(s, m.id);
    }
  }

  /** Stopping settles every request ever sent, clears all timers and refuses new requests. */
  lemma StopSettlesAll(events: seq<Event>, render: int -> string)
    ensures var s := Run(STARTED, events);
            var t := Stop(s);
            && t.pending == [] && t.armed == {} && t.outcomes.Keys == s.outcomes.Keys
            && (forall id :: id in s.outcomes ==>
                  t.outcomes[id] == if s.outcomes[id].None? then Some(Stopped) else s.outcomes[id])
            && Send(t, render).1.Err? && Send(t, render).0 == t
  {
    RunKeepsValid(STARTED, events);
    var s := Run(STARTED, events);
    forall id | id in s.outcomes
      ensures Stop(s).outcomes[id] == if s.outcomes[id].None? then Some(Stopped) else s.outcomes[id]
    {
      assert RequestValid(s, id);
    }
  }

  // ---- Batches of bodies ----

  type Parse = string -> Option<Message>

  /** Malformed bodies are skipped. */
  function HandleAll(parse: Parse, s: Client, bodies: seq<string>): Client
    decreases bodies
  {
    if bodies == [] then s
    else
      HandleAll(parse, match parse(bodies[0]) { case Some(m) => Handle(s, m) case None => s }, bodies[1..])
  }

  /** The first response to `id` among the bodies. */
  function FirstResponse(parse: Parse, bodies: seq<string>, id: int): Option<Message> {
    if bodies == [] then None
    else
      match parse(bodies[0])
      case Some(Response(id', text)) =>
        if id' == id then Some(Response(id', text)) else FirstResponse(parse, bodies[1..], id)
      case _ => FirstResponse(parse, bodies[1..], id)
  }

  /** In whatever order responses come, each unsettled request gets the first one with its id. */
  lemma {:induction false} BatchAnswers(parse: Parse, s: Client, bodies: seq<string>, id: int)
    requires Valid(s) && id in s.outcomes
    ensures var t := HandleAll(parse, s, bodies);
            && Valid(t) && id in t.outcomes
            && t.outcomes[id] ==
                 if s.outcomes[id].Some? then s.outcomes[id]
                 else match FirstResponse(parse, bodies, id) { case Some(m) => Some(Resolved(m)) case None => None }
    decreases bodies
  {
    assert RequestValid(s, id);
    if bodies != [] {
      var u := match parse(bodies[0]) { case Some(m) => Handle(s, m) case None => s };
      if parse(bodies[0]).Some? {
        ApplyKeepsValid(s, MessageEvent(parse(bodies[0]).value));
      }
      BatchAnswers(parse, u, bodies[1..], id);
    }
  }

  // ---- The first settlement wins ----

  /** What settles request `id` first. */
  function Fate(events: seq<Event>, id: int): Option<Outcome> {
    if events == [] then None
    else
      match events[0]
      case MessageEvent(m) => if m.Response? && m.id == id then Some(Resolved(m)) else Fate(events[1..], id)
      case TimerEvent(i) => if i == id then Some(TimedOut) else Fate(events[1..], id)
      case WriteErrorEvent(i) => if i == id then Some(WriteFailed) else Fate(events[1..], id)
      case StopEvent => Some(Stopped)
      case SendEvent(_) => Fate(events[1..], id)
  }

  /** Whatever else happens, an unsettled request gets the outcome of the first event that settles it. */
  lemma {:induction false} FirstSettlementWins(s: Client, events: seq<Event>, id: int)
    requires Valid(s) && id in s.outcomes
    ensures id in Run(s, events).outcomes
    ensures Run(s, events).outcomes[id] == if s.outcomes[id].Some? then s.outcomes[id] else Fate(events, id)
    decreases events
  {
    assert RequestValid(s, id);
    if events != [] {
      ApplyKeepsValid(s, events[0]);
      FirstSettlementWins(Apply(s, events[0]), events[1..], id);
    }
  }

  // ---- What goes out, and what is handed on ----

  /**
   A request goes out, while connected, as one frame around its JSON text with a
   number that no request had before; the response with that number settles it.
   */
  lemma SentUnderFreshId(events: seq<Event>, render: int -> string, text: string)
    ensures var s := Run(STARTED, events);
            var (t, r) := Send(s, render);
            if !s.connected then r.Err? && t == s
            else
              && r.Ok?
              && var (id, frame) := r.value;
                 && id !in s.outcomes && t.outcomes == s.outcomes[id := None]
                 && Framing.Drain(frame) == Framing.Drained([render(id)], "")
                 && Handle(t, Response(id, text)).outcomes == s.outcomes[id := Some(Resolved(Response(id, text)))]
  {
    var s := Run(STARTED, events);
    RunKeepsValid(STARTED, events);
    if s.connected {
      OneFrame(render(s.nextId));
      AnsweredAtOnce(Send(s, render).0, s.outcomes, s.nextId, text);
    }
  }

  lemma OneFrame(payload: string)
    ensures Framing.Drain(Framing.PrintFrame(payload)) == Framing.Drained([payload], "")
  {
    Framing.FirstFrame(payload, "");
    assert Framing.PrintFrame(payload) + "" == Framing.PrintFrame(payload);
    assert Framing.Drain("") == Framing.Drained([], "");
  }

  lemma AnsweredAtOnce(t: Client, outcomes: map<int, Option<Outcome>>, id: int, text: string)
    requires t.outcomes == outcomes[id := None] && id in t.pending
    ensures Handle(t, Response(id, text)).outcomes == outcomes[id := Some(Resolved(Response(id, text)))]
  {
  }

  /** The texts of the notifications among the events. */
  function Notices(events: seq<Event>): seq<string> {
    if events == [] then []
    else
      match events[0]
      case MessageEvent(Notification(text)) => [text] + Notices(events[1..])
      case _ => Notices(events[1..])
  }

  /** Exactly the notifications are handed on, in the order in which they come. */
  lemma {:induction false} NotificationsInOrder(s: Client, events: seq<Event>)
    ensures Run(s, events).notified == s.notified + Notices(events)
    decreases events
  {
    if events != [] {
      NotificationsInOrder(Apply(s, events[0]), events[1..]);
      match events[0] {
        case MessageEvent(Notification(text)) =>
          assert s.notified + [text] + Notices(events[1..]) == s.notified + ([text] + Notices(events[1..]));
        case _ =>
      }
    }
  }

  class RequestTable {
    var connected: bool
    var nextId: nat
    var pending: seq<int>
    var armed: set<int>
    var outcomes: map<int, Option<Outcome>>
    var notified: seq<string>

    ghost function State(): Client
      reads this
    {
      Client(connected, nextId, pending, armed, outcomes, notified)
    }

    constructor ()
      ensures State() == STARTED && Valid(State())
    {
      connected, nextId, pending, armed, outcomes, notified := true, 1, [], {}, map[], [];
    }

    method SendRequest(render: int -> string) returns (r: Result<(int, string), string>)
      requires Valid(State())
      modifies this
      ensures (State(), r) == Send(old(State()), render) && Valid(State())
    {
      ApplyKeepsValid(State(), SendEvent(render));
      if !connected {
        return Err("MCP transport not connected");
      }
      var id := nextId;
      nextId := nextId + 1;
      armed := armed + {id};
      pending := pending + [id];
      outcomes := outcomes[id := None];
      return Ok((id, Framing.PrintFrame(render(id))));
    }

    method HandleMessage(m: Message)
      requires Valid(State())
      modifies this
      ensures State() == Handle(old(State()), m) && Valid(State())
    {
      ApplyKeepsValid(State(), MessageEvent(m));
      match m {
        case Response(id, _) =>
          if id in pending {
            armed := armed - {id};
            pending := Without(pending, id);
            outcomes := Settle(outcomes, id, Resolved(m));
          }
        case Notification(text) =>
          notified := notified + [text];
        case Other =>
      }
    }

    method OnTimeout(id: int)
      requires Valid(State())
      modifies this
      ensures State() == Reject(old(State()), id, TimedOut) && Valid(State())
    {
      ApplyKeepsValid(State(), TimerEvent(id));
      armed := armed - {id};
      pending := Without(pending, id);
      outcomes := Settle(outcomes, id, TimedOut);
    }

    method OnWriteError(id: int)
      requires Valid(State())
      modifies this
      ensures State() == Reject(old(State()), id, WriteFailed) && Valid(State())
    {
      ApplyKeepsValid(State(), WriteErrorEvent(id));
      pending := Without(pending, id);
      armed := armed - {id};
      outcomes := Settle(outcomes, id, WriteFailed);
    }

    method StopTransport()
      requires Valid(State())
      modifies this
      ensures State() == Stop(old(State())) && Valid(State())
    {
      ApplyKeepsValid(State(), StopEvent);
      connected := false;
      RejectPending();
      pending := [];
    }

    method RejectPending()
      modifies this`armed, this`outcomes
      ensures armed == old(armed) - Elements(pending)
      ensures outcomes == Stop(old(State())).outcomes
    {
      for i := 0 to |pending|
        invariant armed == old(armed) - Elements(pending[..i])
        invariant outcomes == map id | id in old(outcomes) ::
                    if id in pending[..i] && old(outcomes)[id].None? then Some(Stopped) else old(outcomes)[id]
      {
        assert pending[..i + 1] == pending[..i] + [pending[i]];
        outcomes := Settle(outcomes, pending[i], Stopped);
        armed := armed - {pending[i]};
      }
      assert pending[..|pending|] == pending;
    }
  }

  /** The class does what the event says. */
  method Perform(t: RequestTable, e: Event)
    requires Valid(t.State())
    modifies t
    ensures t.State() == Apply(old(t.State()), e) && Valid(t.State())
  {
    match e {
      case SendEvent(render) =>
        var r := t.SendRequest(render);
      case MessageEvent(m) => t.HandleMessage(m);
      case TimerEvent(id) => t.OnTimeout(id);
      case WriteErrorEvent(id) => t.OnWriteError(id);
      case StopEvent => t.StopTransport();
    }
  }
}
