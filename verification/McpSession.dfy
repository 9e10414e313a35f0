/** A whole session of the MCP transport: chunks of bytes between sends, timers and stops. */
module McpSessions {
  import opened Wrappers
  import opened McpRequests
  import Text
  import Framing

  /** A data event, a send, or something that happens to a request or to the transport. */
  datatype Step =
    | Data(chunk: string)
    | SendStep(render: int -> string)
    | TimerStep(id: int)
    | WriteErrorStep(id: int)
    | StopStep

  datatype Session = Session(client: Client, wire: Framing.Connection)

  const INITIAL := Session(STARTED, Framing.INITIAL)

  // ---- What a step does ----

  ghost predicate Overflows(wire: Framing.Connection, chunk: string) {
    |wire.buffer + chunk| > Framing.MAX_BUFFER_SIZE
  }

  /** Stopping, also after an overflow, empties the buffer. */
  function WireStep(wire: Framing.Connection, step: Step): Framing.Connection {
    match step
    case Data(chunk) => Framing.Receive(wire, chunk)
    case StopStep => Framing.Connection(wire.delivered, "", false)
    case SendStep(_) => wire
    case TimerStep(_) => wire
    case WriteErrorStep(_) => wire
  }

  /** The bodies a chunk completes are handled one after another; an overflow stops the transport instead. */
  ghost function ClientStep(parse: Parse, s: Session, step: Step): Client {
    match step
    case Data(chunk) =>
      if Overflows(s.wire, chunk) then Stop(s.client)
      else HandleAll(parse, s.client, Framing.Drain(s.wire.buffer + chunk).bodies)
    case SendStep(render) => Send(s.client, render).0
    case TimerStep(id) => Reject(s.client, id, TimedOut)
    case WriteErrorStep(id) => Reject(s.client, id, WriteFailed)
    case StopStep => Stop(s.client)
  }

  ghost function RunSteps(parse: Parse, s: Session, steps: seq<Step>): Session
    decreases steps
  {
    if steps == [] then s
    else RunSteps(parse, Session(ClientStep(parse, s, steps[0]), WireStep(s.wire, steps[0])), steps[1..])
  }

  // ---- A session is a run of the request side ----

  /** The messages among the bodies. */
  function MessagesOf(parse: Parse, bodies: seq<string>): seq<Event> {
    if bodies == [] then []
    else
      (match parse(bodies[0]) { case Some(m) => [MessageEvent(m)] case None => [] }) + MessagesOf(parse, bodies[1..])
  }

  ghost function EventsOf(parse: Parse, wire: Framing.Connection, step: Step): seq<Event> {
    match step
    case Data(chunk) =>
      if Overflows(wire, chunk) then [StopEvent]
      else MessagesOf(parse, Framing.Drain(wire.buffer + chunk).bodies)
    case SendStep(render) => [SendEvent(render)]
    case TimerStep(id) => [TimerEvent(id)]
    case WriteErrorStep(id) => [WriteErrorEvent(id)]
    case StopStep => [StopEvent]
  }

  /** What the request side sees of a session. */
  ghost function Seen(parse: Parse, wire: Framing.Connection, steps: seq<Step>): seq<Event>
    decreases steps
  {
    if steps == [] then []
    else EventsOf(parse, wire, steps[0]) + Seen(parse, WireStep(wire, steps[0]), steps[1..])
  }

  lemma {:induction false} RunConcat(s: Client, a: seq<Event>, b: seq<Event>)
    ensures Run(s, a + b) == Run(Run(s, a), b)
    decreases a
  {
    if a == [] {
      assert a + b == b;
    } else {
      assert (a + b)[1..] == a[1..] + b;
      RunConcat(Apply(s, a[0]), a[1..], b);
    }
  }

  lemma {:induction false} HandleAllIsRun(parse: Parse, s: Client, bodies: seq<string>)
    ensures HandleAll(parse, s, bodies) == Run(s, MessagesOf(parse, bodies))
    decreases bodies
  {
    if bodies != [] {
      var rest := MessagesOf(parse, bodies[1..]);
      match parse(bodies[0]) {
        case Some(m) =>
          HandleAllIsRun(parse, Handle(s, m), bodies[1..]);
          assert ([MessageEvent(m)] + rest)[1..] == rest;
        case None =>
          HandleAllIsRun(parse, s, bodies[1..]);
          assert [] + rest == rest;
      }
    }
  }

  lemma OneEvent(s: Client, e: Event)
    ensures Run(s, [e]) == Apply(s, e)
  {
    assert [e][1..] == [];
  }

  lemma StepIsRun(parse: Parse, s: Session, step: Step)
    ensures ClientStep(parse, s, step) == Run(s.client, EventsOf(parse, s.wire, step))
  {
    match step {
      case Data(chunk) =>
        if Overflows(s.wire, chunk) {
          OneEvent(s.client, StopEvent);
        } else {
          HandleAllIsRun(parse, s.client, Framing.Drain(s.wire.buffer + chunk).bodies);
        }
      case SendStep(render) => OneEvent(s.client, SendEvent(render));
      case TimerStep(id) => OneEvent(s.client, TimerEvent(id));
      case WriteErrorStep(id) => OneEvent(s.client, WriteErrorEvent(id));
      case StopStep => OneEvent(s.client, StopEvent);
    }
  }

  lemma {:induction false} SessionIsRun(parse: Parse, s: Session, steps: seq<Step>)
    ensures RunSteps(parse, s, steps).client == Run(s.client, Seen(parse, s.wire, steps))
    decreases steps
  {
    if steps != [] {
      StepIsRun(parse, s, steps[0]);
      var u := Session(ClientStep(parse, s, steps[0]), WireStep(s.wire, steps[0]));
      SessionIsRun(parse, u, steps[1..]);
      RunConcat(s.client, EventsOf(parse, s.wire, steps[0]), Seen(parse, u.wire, steps[1..]));
    }
  }

  lemma {:induction false} StepsConcat(parse: Parse, s: Session, a: seq<Step>, b: seq<Step>)
    ensures RunSteps(parse, s, a + b) == RunSteps(parse, RunSteps(parse, s, a), b)
    decreases a
  {
    if a == [] {
      assert a + b == b;
    } else {
      assert (a + b)[1..] == a[1..] + b;
      StepsConcat(parse, Session(ClientStep(parse, s, a[0]), WireStep(s.wire, a[0])), a[1..], b);
    }
  }

  // ---- The bytes of a session ----

  function Chunks(steps: seq<Step>): seq<string> {
    if steps == [] then []
    else
      var last := steps[|steps| - 1];
      Chunks(steps[..|steps| - 1]) + if last.Data? then [last.chunk] else []
  }

  lemma {:induction false} LastStep(parse: Parse, steps: seq<Step>)
    requires steps != []
    ensures var n := |steps| - 1;
            var s := RunSteps(parse, INITIAL, steps[..n]);
            RunSteps(parse, INITIAL, steps) == Session(ClientStep(parse, s, steps[n]), WireStep(s.wire, steps[n]))
  {
    var n := |steps| - 1;
    StepsConcat(parse, INITIAL, steps[..n], [steps[n]]);
    assert steps == steps[..n] + [steps[n]] && [steps[n]][1..] == [];
  }

  lemma ReceiveMore(chunks: seq<string>, chunk: string)
    ensures Framing.ReceiveAll(Framing.INITIAL, chunks + [chunk]) ==
            Framing.Receive(Framing.ReceiveAll(Framing.INITIAL, chunks), chunk)
    ensures Framing.UnderCap(chunks + [chunk]) ==> Framing.UnderCap(chunks)
  {
    var more := chunks + [chunk];
    assert more[..|more| - 1] == chunks;
    Framing.UnderCapLast(more);
  }

  /** `unstopped` says whether nothing stopped the session that received these chunks. */
  ghost predicate Tracks(wire: Framing.Connection, unstopped: bool, chunks: seq<string>) {
    && (wire.connected <==> unstopped && Framing.UnderCap(chunks))
    && (wire.connected ==> wire == Framing.ReceiveAll(Framing.INITIAL, chunks))
  }

  lemma DataKeepsTrack(wire: Framing.Connection, unstopped: bool, chunks: seq<string>, chunk: string)
    requires Tracks(wire, unstopped, chunks)
    ensures Tracks(Framing.Receive(wire, chunk), unstopped, chunks + [chunk])
  {
    ReceiveMore(chunks, chunk);
    Framing.ChunkIndependence(chunks + [chunk]);
  }

  /**
   A session is still connected exactly when nothing stopped it and every chunk
   fitted; then the wire depends on the bytes alone.
   */
  lemma {:induction false} ConnectedSession(parse: Parse, steps: seq<Step>)
    ensures Tracks(RunSteps(parse, INITIAL, steps).wire, StopStep !in steps, Chunks(steps))
  {
    if steps == [] {
      Framing.ChunkIndependence([]);
    } else {
      var n := |steps| - 1;
      var wire := RunSteps(parse, INITIAL, steps[..n]).wire;
      LastStep(parse, steps);
      ConnectedSession(parse, steps[..n]);
      assert StopStep in steps <==> StopStep in steps[..n] || steps[n] == StopStep by {
        assert steps == steps[..n] + [steps[n]];
      }
      if steps[n].Data? {
        DataKeepsTrack(wire, StopStep !in steps[..n], Chunks(steps[..n]), steps[n].chunk);
      } else {
        assert Chunks(steps[..n]) + [] == Chunks(steps[..n]);
      }
    }
  }

  // ---- From the peer's frames to the callers ----

  /** Nothing but messages can settle the request. */
  ghost predicate LeavesAlone(steps: seq<Step>, id: int) {
    forall i :: 0 <= i < |steps| ==> steps[i] != TimerStep(id) && steps[i] != WriteErrorStep(id)
  }

  function AsOutcome(m: Option<Message>): Option<Outcome> {
    match m
    case Some(response) => Some(Resolved(response))
    case None => None
  }

  lemma {:induction false} FateConcat(a: seq<Event>, b: seq<Event>, id: int)
    ensures Fate(a + b, id) == if Fate(a, id).Some? then Fate(a, id) else Fate(b, id)
  {
    if a == [] {
      assert a + b == b;
    } else {
      assert (a + b)[1..] == a[1..] + b;
      FateConcat(a[1..], b, id);
    }
  }

  lemma {:induction false} FateOfMessages(parse: Parse, bodies: seq<string>, id: int)
    ensures Fate(MessagesOf(parse, bodies), id) == AsOutcome(FirstResponse(parse, bodies, id))
  {
    if bodies != [] {
      FateOfMessages(parse, bodies[1..], id);
      var rest := MessagesOf(parse, bodies[1..]);
      match parse(bodies[0]) {
        case Some(m) => assert ([MessageEvent(m)] + rest)[1..] == rest;
        case None => assert [] + rest == rest;
      }
    }
  }

  lemma {:induction false} FirstResponseConcat(parse: Parse, a: seq<string>, b: seq<string>, id: int)
    ensures FirstResponse(parse, a + b, id) ==
            if FirstResponse(parse, a, id).Some? then FirstResponse(parse, a, id) else FirstResponse(parse, b, id)
  {
    if a == [] {
      assert a + b == b;
    } else {
      assert (a + b)[1..] == a[1..] + b;
      FirstResponseConcat(parse, a[1..], b, id);
    }
  }

  function WireSteps(wire: Framing.Connection, steps: seq<Step>): Framing.Connection
    decreases steps
  {
    if steps == [] then wire else WireSteps(WireStep(wire, steps[0]), steps[1..])
  }

  lemma {:induction false} WireOfSession(parse: Parse, s: Session, steps: seq<Step>)
    ensures RunSteps(parse, s, steps).wire == WireSteps(s.wire, steps)
    decreases steps
  {
    if steps != [] {
      WireOfSession(parse, Session(ClientStep(parse, s, steps[0]), WireStep(s.wire, steps[0])), steps[1..]);
    }
  }

  lemma {:induction false} WireGrows(wire: Framing.Connection, steps: seq<Step>)
    ensures wire.delivered <= WireSteps(wire, steps).delivered
    ensures WireSteps(wire, steps).connected ==> wire.connected
    decreases steps
  {
    if steps != [] {
      WireGrows(WireStep(wire, steps[0]), steps[1..]);
    }
  }

  /** While the session stays connected, only the bodies delivered can settle a request that is left alone. */
  lemma {:induction false} FateIsFirstResponse(parse: Parse, wire: Framing.Connection, steps: seq<Step>, id: int)
    requires WireSteps(wire, steps).connected && LeavesAlone(steps, id)
    ensures wire.delivered <= WireSteps(wire, steps).delivered
    ensures Fate(Seen(parse, wire, steps), id)
         == AsOutcome(FirstResponse(parse, WireSteps(wire, steps).delivered[|wire.delivered|..], id))
    decreases steps
  {
    WireGrows(wire, steps);
    if steps != [] {
      var next, rest := WireStep(wire, steps[0]), steps[1..];
      assert forall i :: 0 <= i < |rest| ==> rest[i] == steps[i + 1];
      WireGrows(next, rest);
      FateIsFirstResponse(parse, next, rest, id);
      FateConcat(EventsOf(parse, wire, steps[0]), Seen(parse, next, rest), id);
      var all := WireSteps(wire, steps).delivered;
      var added := next.delivered[|wire.delivered|..];
      assert all[|wire.delivered|..] == added + all[|next.delivered|..];
      FirstResponseConcat(parse, added, all[|next.delivered|..], id);
      FateOfStep(parse, wire, steps[0], id);
    }
  }

  lemma FateOfStep(parse: Parse, wire: Framing.Connection, step: Step, id: int)
    requires WireStep(wire, step).connected && step != TimerStep(id) && step != WriteErrorStep(id)
    ensures wire.delivered <= WireStep(wire, step).delivered
    ensures Fate(EventsOf(parse, wire, step), id)
         == AsOutcome(FirstResponse(parse, WireStep(wire, step).delivered[|wire.delivered|..], id))
  {
    match step {
      case Data(chunk) =>
        var bodies := Framing.Drain(wire.buffer + chunk).bodies;
        assert (wire.delivered + bodies)[|wire.delivered|..] == bodies;
        FateOfMessages(parse, bodies, id);
      case StopStep =>
      case SendStep(render) => assert [SendEvent(render)][1..] == [];
      case TimerStep(i) => assert [TimerEvent(i)][1..] == [];
      case WriteErrorStep(i) => assert [WriteErrorEvent(i)][1..] == [];
    }
  }

  /**
   However the bytes of the peer's frames are cut, and whatever is sent, times
   out or fails in between: as long as nothing stops the session, exactly the
   payloads are delivered, and a request that is waiting at some point gets the
   first outcome from then on. If it is left alone, that is the first response
   to it among the payloads delivered later.
   */
  lemma ResponsesArrive(parse: Parse, before: seq<Step>, after: seq<Step>, payloads: seq<string>, id: int)
    requires StopStep !in before + after && Framing.UnderCap(Chunks(before + after))
    requires Text.Concat(Chunks(before + after)) == Framing.PrintFrames(payloads)
    requires id in RunSteps(parse, INITIAL, before).client.pending
    ensures var s := RunSteps(parse, INITIAL, before);
            var t := RunSteps(parse, INITIAL, before + after);
            && t.wire == Framing.Connection(payloads, "", true) && s.wire.delivered <= payloads
            && id in t.client.outcomes
            && t.client.outcomes[id] == Fate(Seen(parse, s.wire, after), id)
            && (LeavesAlone(after, id) ==>
                  t.client.outcomes[id] == AsOutcome(FirstResponse(parse, payloads[|s.wire.delivered|..], id)))
  {
    var s := RunSteps(parse, INITIAL, before);
    StepsConcat(parse, INITIAL, before, after);
    ConnectedSession(parse, before + after);
    Framing.WrittenFramesArrive(payloads, Chunks(before + after));
    WireOfSession(parse, s, after);
    WireGrows(s.wire, after);
    SessionIsRun(parse, INITIAL, before);
    RunKeepsValid(STARTED, Seen(parse, Framing.INITIAL, before));
    assert RequestValid(s.client, id);
    SessionIsRun(parse, s, after);
    FirstSettlementWins(s.client, Seen(parse, s.wire, after), id);
    if LeavesAlone(after, id) {
      FateIsFirstResponse(parse, s.wire, after, id);
    }
  }

  /** In every session, stopped or not, a response that settles a request was delivered on the wire. */
  lemma {:induction false} ResolvedWasDelivered(parse: Parse, steps: seq<Step>, id: int, m: Message)
    requires id in RunSteps(parse, INITIAL, steps).client.outcomes
    requires RunSteps(parse, INITIAL, steps).client.outcomes[id] == Some(Resolved(m))
    ensures exists body :: body in RunSteps(parse, INITIAL, steps).wire.delivered && parse(body) == Some(m)
  {
    if steps != [] {
      var n := |steps| - 1;
      var s := RunSteps(parse, INITIAL, steps[..n]);
      LastStep(parse, steps);
      SessionIsRun(parse, INITIAL, steps[..n]);
      RunKeepsValid(STARTED, Seen(parse, Framing.INITIAL, steps[..n]));
      if id in s.client.outcomes && s.client.outcomes[id] == Some(Resolved(m)) {
        ResolvedWasDelivered(parse, steps[..n], id, m);
        WireGrows(s.wire, [steps[n]]);
      } else if steps[n].Data? && !Overflows(s.wire, steps[n].chunk) {
        var bodies := Framing.Drain(s.wire.buffer + steps[n].chunk).bodies;
        NewlyResolved(parse, s.client, bodies, id, m);
        var body :| body in bodies && parse(body) == Some(m);
        assert body in s.wire.delivered + bodies;
      }
    }
  }

  lemma {:induction false} NewlyResolved(parse: Parse, c: Client, bodies: seq<string>, id: int, m: Message)
    requires Valid(c) && id in HandleAll(parse, c, bodies).outcomes
    requires HandleAll(parse, c, bodies).outcomes[id] == Some(Resolved(m))
    requires id in c.outcomes ==> c.outcomes[id] != Some(Resolved(m))
    ensures exists body :: body in bodies && parse(body) == Some(m)
    decreases bodies
  {
    if bodies != [] {
      var d := match parse(bodies[0]) { case Some(x) => Handle(c, x) case None => c };
      if parse(bodies[0]).Some? {
        ApplyKeepsValid(c, MessageEvent(parse(bodies[0]).value));
      }
      if id in d.outcomes && d.outcomes[id] == Some(Resolved(m)) {
        assert bodies[0] in bodies && parse(bodies[0]) == Some(m);
      } else {
        NewlyResolved(parse, d, bodies[1..], id, m);
      }
    }
  }
}
