/** The circuit breaker, with any number of overlapping calls in flight. */
module CircuitBreakers {
  datatype CircuitState = Closed | Open | HalfOpen

  datatype Config = Config(threshold: int, resetAfter: int, hasFallback: bool)

  datatype Breaker = Breaker(state: CircuitState, failures: nat, lastFailure: int, probeInFlight: bool)

  /** What `execute` does with a call before anything is awaited. */
  datatype Admission = Admitted | FellBack | Refused

  const FRESH := Breaker(Closed, 0, 0, false)

  // ---- The operations ----

  /** The `state` getter, which also moves an open breaker on. */
  function Read(config: Config, b: Breaker, now: int): Breaker {
    if b.state == Open && now - b.lastFailure >= config.resetAfter then b.(state := HalfOpen) else b
  }

  function Attempt(config: Config, b: Breaker, now: int): (Breaker, Admission) {
    var r := Read(config, b, now);
    var rejection := if config.hasFallback then FellBack else Refused;
    if r.state == Open || (r.state == HalfOpen && r.probeInFlight) then (r, rejection)
    else (if r.state == HalfOpen then r.(probeInFlight := true) else r, Admitted)
  }

  function Success(b: Breaker): Breaker {
    b.(failures := 0, state := Closed, probeInFlight := false)
  }

  function Failure(config: Config, b: Breaker, now: int): Breaker {
    Breaker(if b.state == HalfOpen || b.failures + 1 >= config.threshold then Open else b.state,
            b.failures + 1, now, false)
  }

  // ---- What the history alone says ----

  /** What happened, and to which call; a probe is a call that entered a half-open breaker. */
  datatype Entry =
    | Entered(call: nat, probe: bool, now: int)
    | Rejected(now: int)
    | Failed(call: nat, now: int)
    | Succeeded(call: nat)
    | WasReset

  function Failures(log: seq<Entry>): nat {
    if log == [] then 0
    else
      match log[|log| - 1]
      case Failed(_, _) => Failures(log[..|log| - 1]) + 1
      case Succeeded(_) => 0
      case WasReset => 0
      case Entered(_, _, _) => Failures(log[..|log| - 1])
      case Rejected(_) => Failures(log[..|log| - 1])
  }

  function LastFailure(log: seq<Entry>): int {
    if log == [] then 0
    else if log[|log| - 1].Failed? then log[|log| - 1].now
    else LastFailure(log[..|log| - 1])
  }

  predicate EnteredSinceFailure(log: seq<Entry>) {
    log != [] && !log[|log| - 1].Failed? && (log[|log| - 1].Entered? || EnteredSinceFailure(log[..|log| - 1]))
  }

  /**
   The rule a caller sees: a call enters if fewer than `threshold` calls failed
   in a row, or if the last failure is long enough ago and no call entered since.
   */
  predicate MayEnter(config: Config, log: seq<Entry>, now: int) {
    || Failures(log) < config.threshold
    || (now - LastFailure(log) >= config.resetAfter && !EnteredSinceFailure(log))
  }

  // ---- Runs ----

  datatype Event =
    | AttemptEvent(now: int)
    | SuccessEvent(call: nat)
    | FailureEvent(call: nat, now: int)
    | ReadEvent(now: int)
    | ResetEvent

  /** Calls are numbered as they enter; `inFlight` says of each that has not settled whether it is a probe. */
  datatype System = System(breaker: Breaker, nextCall: nat, inFlight: map<nat, bool>, clock: int, log: seq<Entry>)

  /** The clock does not run backwards, and only a call in flight settles. */
  predicate Enabled(s: System, e: Event) {
    match e
    case AttemptEvent(now) => now >= s.clock
    case SuccessEvent(call) => call in s.inFlight
    case FailureEvent(call, now) => now >= s.clock && call in s.inFlight
    case ReadEvent(now) => now >= s.clock
    case ResetEvent => true
  }

  function Apply(config: Config, s: System, e: Event): System
    requires Enabled(s, e)
  {
    match e
    case AttemptEvent(now) =>
      var (b, admission) := Attempt(config, s.breaker, now);
      var probe := b.state == HalfOpen;
      if admission == Admitted then
        System(b, s.nextCall + 1, s.inFlight[s.nextCall := probe], now, s.log + [Entered(s.nextCall, probe, now)])
      else s.(breaker := b, clock := now, log := s.log + [Rejected(now)])
    case SuccessEvent(call) =>
      s.(breaker := Success(s.breaker), inFlight := s.inFlight - {call}, log := s.log + [Succeeded(call)])
    case FailureEvent(call, now) =>
      s.(breaker := Failure(config, s.breaker, now), inFlight := s.inFlight - {call}, clock := now,
         log := s.log + [Failed(call, now)])
    case ReadEvent(now) => s.(breaker := Read(config, s.breaker, now), clock := now)
    case ResetEvent => s.(breaker := FRESH, log := s.log + [WasReset])
  }

  function Initial(clock: int): System {
    System(FRESH, 0, map[], clock, [])
  }

  ghost predicate Reaches(config: Config, s: System, events: seq<Event>, t: System)
    decreases events
  {
    if events == [] then s == t
    else Enabled(s, events[0]) && Reaches(config, Apply(config, s, events[0]), events[1..], t)
  }

  ghost predicate Reachable(config: Config, clock: int, t: System) {
    exists events :: Reaches(config, Initial(clock), events, t)
  }

  // ---- The stored state and the history agree ----

  ghost predicate Agrees(config: Config, s: System) {
    var b := s.breaker;
    && b.failures == Failures(s.log)
    && (b.state == Closed <==> b.failures < config.threshold)
    && (b.state != Closed ==> b.lastFailure == LastFailure(s.log))
    && (b.state == HalfOpen ==> s.clock - b.lastFailure >= config.resetAfter)
    && (b.probeInFlight <==> b.state == HalfOpen && EnteredSinceFailure(s.log))
    && (b.state == Open ==> !EnteredSinceFailure(s.log))
  }

  lemma ApplyKeepsAgreement(config: Config, s: System, e: Event)
    requires config.threshold >= 1 && Agrees(config, s) && Enabled(s, e)
    ensures Agrees(config, Apply(config, s, e))
  {
    var t := Apply(config, s, e);
    if !e.ReadEvent? {
      assert t.log[..|t.log| - 1] == s.log;
    }
  }

  /** Every admission decision of the breaker is the one the history alone calls for. */
  lemma AdmissionFollowsHistory(config: Config, s: System, now: int)
    requires Agrees(config, s) && now >= s.clock
    ensures Attempt(config, s.breaker, now).1 ==
            if MayEnter(config, s.log, now) then Admitted else if config.hasFallback then FellBack else Refused
  {
  }

  /** All decisions in a log were the ones its earlier part calls for, at times that never decrease. */
  ghost predicate Lawful(config: Config, log: seq<Entry>, clock: int) {
    && (forall i :: 0 <= i < |log| && log[i].Entered? ==> MayEnter(config, log[..i], log[i].now))
    && (forall i :: 0 <= i < |log| && log[i].Rejected? ==> !MayEnter(config, log[..i], log[i].now))
    && (forall i :: 0 <= i < |log| && !log[i].Succeeded? && !log[i].WasReset? ==> log[i].now <= clock)
    && (forall i, j :: 0 <= i < j < |log| && log[i].Failed? && (log[j].Failed? || log[j].Entered?) ==>
          log[i].now <= log[j].now)
  }

  lemma ApplyKeepsLawful(config: Config, s: System, e: Event)
    requires Agrees(config, s) && Lawful(config, s.log, s.clock) && Enabled(s, e)
    ensures var t := Apply(config, s, e); Lawful(config, t.log, t.clock)
  {
    var t := Apply(config, s, e);
    forall i | 0 <= i <= |s.log| ensures t.log[..i] == s.log[..i] {
    }
    assert s.log[..|s.log|] == s.log;
    if e.AttemptEvent? {
      AdmissionFollowsHistory(config, s, e.now);
    }
  }

  /**
   In every run: closed exactly while fewer than `threshold` calls failed in a
   row, and every call entered or was rejected as the history called for.
   */
  lemma {:induction false} RunFollowsHistory(config: Config, s: System, events: seq<Event>, t: System)
    requires config.threshold >= 1
    requires Agrees(config, s) && Lawful(config, s.log, s.clock)
    requires Reaches(config, s, events, t)
    ensures t.breaker.state == Closed <==> Failures(t.log) < config.threshold
    ensures Agrees(config, t) && Lawful(config, t.log, t.clock)
    decreases events
  {
    if events != [] {
      ApplyKeepsAgreement(config, s, events[0]);
      ApplyKeepsLawful(config, s, events[0]);
      RunFollowsHistory(config, Apply(config, s, events[0]), events[1..], t);
    }
  }

  /** "Closed exactly below the threshold" needs a threshold of at least one, and nothing else. */
  lemma ClosedIsBelowThreshold(config: Config, clock: int)
    ensures config.threshold >= 1 <==>
            forall t :: Reachable(config, clock, t) ==>
              (t.breaker.state == Closed <==> t.breaker.failures < config.threshold)
  {
    var s := Initial(clock);
    if config.threshold >= 1 {
      forall t | Reachable(config, clock, t)
        ensures t.breaker.state == Closed <==> t.breaker.failures < config.threshold
      {
        var events :| Reaches(config, s, events, t);
        RunFollowsHistory(config, s, events, t);
      }
    } else {
      assert Reaches(config, s, [], s);
      assert Reachable(config, clock, s);
    }
  }

  // ---- What callers are promised ----

  lemma {:induction false} UnbrokenStreak(log: seq<Entry>, i: nat, j: nat)
    requires i < j <= |log| && log[i].Failed?
    requires forall k :: i < k < j ==> !log[k].Succeeded? && !log[k].WasReset?
    ensures Failures(log[..j]) >= Failures(log[..i + 1])
    ensures exists m :: i <= m < j && log[m].Failed? && LastFailure(log[..j]) == log[m].now
    decreases j
  {
    assert log[..j][..j - 1] == log[..j - 1];
    if j > i + 1 {
      UnbrokenStreak(log, i, j - 1);
    }
  }

  /**
   After a failure that left the breaker open, no call enters before `resetAfter`
   has passed, unless a call succeeded or the breaker was reset in between.
   */
  lemma QuietAfterFailure(config: Config, clock: int, t: System, i: nat, j: nat)
    requires config.threshold >= 1 && Reachable(config, clock, t)
    requires i < j < |t.log| && t.log[i].Failed? && t.log[j].Entered?
    requires Failures(t.log[..i + 1]) >= config.threshold
    requires forall k :: i < k < j ==> !t.log[k].Succeeded? && !t.log[k].WasReset?
    ensures t.log[j].now - t.log[i].now >= config.resetAfter
  {
    var events :| Reaches(config, Initial(clock), events, t);
    RunFollowsHistory(config, Initial(clock), events, t);
    UnbrokenStreak(t.log, i, j);
  }

  lemma {:induction false} StillEntered(log: seq<Entry>, i: nat, j: nat)
    requires i < j <= |log| && log[i].Entered?
    requires forall k :: i < k < j ==> log[k].Entered? || log[k].Rejected?
    ensures EnteredSinceFailure(log[..j]) && Failures(log[..j]) == Failures(log[..i])
    decreases j
  {
    assert log[..j][..j - 1] == log[..j - 1];
    if j > i + 1 {
      StillEntered(log, i, j - 1);
    }
  }

  /** Between two calls that enter a breaker that is not closed, some call settles or the breaker is reset. */
  lemma OneProbePerEpisode(config: Config, clock: int, t: System, i: nat, j: nat)
    requires config.threshold >= 1 && Reachable(config, clock, t)
    requires i < j < |t.log| && t.log[i].Entered? && t.log[j].Entered?
    requires Failures(t.log[..i]) >= config.threshold
    ensures exists k :: i < k < j && (t.log[k].Succeeded? || t.log[k].Failed? || t.log[k].WasReset?)
  {
    var events :| Reaches(config, Initial(clock), events, t);
    RunFollowsHistory(config, Initial(clock), events, t);
    if forall k :: i < k < j ==> t.log[k].Entered? || t.log[k].Rejected? {
      StillEntered(t.log, i, j);
      assert false;
    }
  }

  // ---- Two probes at once ----

  lemma {:induction false} OneMoreStep(config: Config, s: System, events: seq<Event>, t: System, e: Event)
    requires Reaches(config, s, events, t) && Enabled(t, e)
    ensures Reaches(config, s, events + [e], Apply(config, t, e))
    decreases events
  {
    if events == [] {
      assert Reaches(config, Apply(config, t, e), [], Apply(config, t, e));
    } else {
      OneMoreStep(config, Apply(config, s, events[0]), events[1..], t, e);
      assert (events + [e])[1..] == events[1..] + [e];
    }
  }

  /** Call numbers in flight have been given out. */
  ghost predicate Numbered(s: System) {
    forall c :: c in s.inFlight ==> c < s.nextCall
  }

  lemma {:induction false} RunKeepsNumbered(config: Config, s: System, events: seq<Event>, t: System)
    requires Numbered(s) && Reaches(config, s, events, t)
    ensures Numbered(t)
    decreases events
  {
    if events != [] {
      RunKeepsNumbered(config, Apply(config, s, events[0]), events[1..], t);
    }
  }

  /** Neither a reset nor the end of call `p`. */
  predicate Spares(e: Event, p: nat) {
    !e.ResetEvent? && e != SuccessEvent(p) && (e.FailureEvent? ==> e.call != p)
  }

  ghost predicate SparesAll(events: seq<Event>, p: nat) {
    forall i :: 0 <= i < |events| ==> Spares(events[i], p)
  }

  ghost predicate TwoProbes(t: System, p: nat, q: nat) {
    p != q && p in t.inFlight && q in t.inFlight && t.inFlight[p] && t.inFlight[q]
  }

  /** From `s` on, without a reset, another probe may enter while probe `p` is still in flight. */
  ghost predicate SecondProbe(config: Config, s: System, p: nat) {
    exists events, t, q ::
      Reaches(config, s, events, t) && SparesAll(events, p) && q >= s.nextCall && TwoProbes(t, p, q)
  }

  /** While a probe is the only call in flight, nothing but its own end or a reset lets a call in. */
  lemma {:induction false} LonelyProbeBlocks(config: Config, s: System, p: nat, events: seq<Event>, t: System)
    requires s.breaker.state == HalfOpen && s.breaker.probeInFlight && s.inFlight.Keys == {p}
    requires Reaches(config, s, events, t) && SparesAll(events, p)
    ensures t.inFlight == s.inFlight
    decreases events
  {
    if events != [] {
      assert Spares(events[0], p);
      var u := Apply(config, s, events[0]);
      assert u.breaker == s.breaker && u.inFlight == s.inFlight;
      assert forall i :: 0 <= i < |events[1..]| ==> events[1..][i] == events[i + 1];
      LonelyProbeBlocks(config, u, p, events[1..], t);
    }
  }

  /** A call in flight beside the probe opens the breaker by failing, and the next probe enters. */
  lemma CompanyLetsIn(config: Config, s: System, p: nat, c: nat)
    requires Numbered(s) && s.breaker.state == HalfOpen
    requires p in s.inFlight && s.inFlight[p] && c in s.inFlight && c != p
    ensures SecondProbe(config, s, p)
  {
    var wait := if config.resetAfter > 0 then config.resetAfter else 0;
    var fails, enters := FailureEvent(c, s.clock), AttemptEvent(s.clock + wait);
    var u := Apply(config, s, fails);
    var t := Apply(config, u, enters);
    var events := [fails, enters];
    assert events[1..] == [enters] && [enters][1..] == [];
    assert Reaches(config, t, [], t);
    assert Reaches(config, u, [enters], t);
    assert Reaches(config, s, events, t);
    assert TwoProbes(t, p, s.nextCall);
  }

  /**
   When a probe enters, a second one can join it before it ends, without any
   reset, exactly when some other call was in flight at that time.
   */
  lemma SecondProbeNeedsCompany(config: Config, clock: int, s: System, now: int)
    requires Reachable(config, clock, s) && now >= s.clock
    requires Attempt(config, s.breaker, now).1 == Admitted && Attempt(config, s.breaker, now).0.state == HalfOpen
    ensures SecondProbe(config, Apply(config, s, AttemptEvent(now)), s.nextCall) <==> s.inFlight != map[]
  {
    var before :| Reaches(config, Initial(clock), before, s);
    RunKeepsNumbered(config, Initial(clock), before, s);
    var p, u := s.nextCall, Apply(config, s, AttemptEvent(now));
    if s.inFlight != map[] {
      var c :| c in s.inFlight;
      CompanyLetsIn(config, u, p, c);
    } else if SecondProbe(config, u, p) {
      var events, t, q :|
        Reaches(config, u, events, t) && SparesAll(events, p) && q >= u.nextCall && TwoProbes(t, p, q);
      LonelyProbeBlocks(config, u, p, events, t);
    }
  }

  lemma StaysReachable(config: Config, clock: int, s: System, e: Event) returns (t: System)
    requires Reachable(config, clock, s) && Enabled(s, e)
    ensures t == Apply(config, s, e) && Reachable(config, clock, t)
  {
    t := Apply(config, s, e);
    var events :| Reaches(config, Initial(clock), events, s);
    OneMoreStep(config, Initial(clock), events, s, e);
  }

  /** One call keeps running while `n` others enter and fail one after another. */
  lemma {:induction false} FailBeside(config: Config, n: nat) returns (s: System)
    requires n <= config.threshold
    ensures Reachable(config, 0, s) && s.clock == 0 && s.inFlight == map[0 := false] && WasReset !in s.log
    ensures s.breaker == Breaker(if 0 < n == config.threshold then Open else Closed, n, 0, false) && s.nextCall == n + 1
  {
    if n == 0 {
      assert Reaches(config, Initial(0), [], Initial(0));
      s := StaysReachable(config, 0, Initial(0), AttemptEvent(0));
    } else {
      var u := FailBeside(config, n - 1);
      var v := StaysReachable(config, 0, u, AttemptEvent(0));
      s := StaysReachable(config, 0, v, FailureEvent(n, 0));
      assert s.inFlight == map[0 := false];
    }
  }

  /** For every configuration there is a run, without any reset, that has two probes in flight at once. */
  lemma ProbesCanOverlap(config: Config)
    requires config.threshold >= 1
    ensures exists t, p, q :: Reachable(config, 0, t) && TwoProbes(t, p, q) && WasReset !in t.log
  {
    var wait := if config.resetAfter > 0 then config.resetAfter else 0;
    var n: nat := config.threshold;
    var s := FailBeside(config, n);
    var u := StaysReachable(config, 0, s, AttemptEvent(wait));
    var v := StaysReachable(config, 0, u, FailureEvent(0, wait));
    var t := StaysReachable(config, 0, v, AttemptEvent(2 * wait));
    assert TwoProbes(t, n + 1, n + 2);
  }

  // ---- Calls in flight ----

  predicate Settles(x: Entry, call: nat) {
    (x.Failed? && x.call == call) || x == Succeeded(call)
  }

  /** The call entered, as a probe or not, and has neither failed nor succeeded since. */
  ghost predicate StillRuns(log: seq<Entry>, call: nat, probe: bool) {
    exists i ::
      && 0 <= i < |log| && log[i].Entered? && log[i].call == call && log[i].probe == probe
      && forall j :: i < j < |log| ==> !Settles(log[j], call)
  }

  /** No entry is about a call that is yet to come. */
  ghost predicate Past(s: System) {
    forall i :: 0 <= i < |s.log| && s.log[i].Entered? ==> s.log[i].call < s.nextCall
  }

  ghost predicate Tracked(s: System) {
    Past(s) && forall c, probe :: c in s.inFlight && s.inFlight[c] == probe <==> StillRuns(s.log, c, probe)
  }

  lemma OneMoreEntry(log: seq<Entry>, x: Entry, call: nat, probe: bool)
    ensures StillRuns(log + [x], call, probe) <==>
            x == Entered(call, probe, if x.Entered? then x.now else 0)
            || (StillRuns(log, call, probe) && !Settles(x, call))
  {
    var more := log + [x];
    if i :| 0 <= i < |more| && more[i].Entered? && more[i].call == call && more[i].probe == probe
            && forall j :: i < j < |more| ==> !Settles(more[j], call) {
      if i < |log| {
        assert more[|log|] == x;
        assert forall j :: i < j < |log| ==> more[j] == log[j];
      }
    }
    if StillRuns(log, call, probe) && !Settles(x, call) {
      var i :| 0 <= i < |log| && log[i].Entered? && log[i].call == call && log[i].probe == probe
               && forall j :: i < j < |log| ==> !Settles(log[j], call);
      assert forall j :: i < j < |more| ==> more[j] == if j < |log| then log[j] else x;
      assert more[i] == log[i];
    }
    if x == Entered(call, probe, if x.Entered? then x.now else 0) {
      assert more[|log|] == x;
    }
  }

  lemma ApplyKeepsTracked(config: Config, s: System, e: Event)
    requires Tracked(s) && Enabled(s, e)
    ensures Tracked(Apply(config, s, e))
  {
    var t := Apply(config, s, e);
    if !e.ReadEvent? {
      var x := t.log[|s.log|];
      assert t.log == s.log + [x];
      forall c, probe ensures c in t.inFlight && t.inFlight[c] == probe <==> StillRuns(t.log, c, probe) {
        OneMoreEntry(s.log, x, c, probe);
        assert StillRuns(s.log, c, probe) <==> c in s.inFlight && s.inFlight[c] == probe;
        if StillRuns(s.log, s.nextCall, probe) {
          assert false;
        }
      }
    }
  }

  lemma {:induction false} RunKeepsTracked(config: Config, s: System, events: seq<Event>, t: System)
    requires Tracked(s) && Reaches(config, s, events, t)
    ensures Tracked(t)
    decreases events
  {
    if events != [] {
      ApplyKeepsTracked(config, s, events[0]);
      RunKeepsTracked(config, Apply(config, s, events[0]), events[1..], t);
    }
  }

  /** In every run, exactly the calls that entered and have not settled are in flight, probes as probes. */
  lemma InFlightIsUnsettled(config: Config, clock: int, t: System, call: nat, probe: bool)
    requires Reachable(config, clock, t)
    ensures call in t.inFlight && t.inFlight[call] == probe <==> StillRuns(t.log, call, probe)
  {
    var events :| Reaches(config, Initial(clock), events, t);
    RunKeepsTracked(config, Initial(clock), events, t);
  }

  class CircuitBreaker {
    const config: Config
    var state: CircuitState
    var consecutiveFailures: nat
    var lastFailureTime: int
    var probeInFlight: bool

    function Value(): Breaker
      reads this
    {
      Breaker(state, consecutiveFailures, lastFailureTime, probeInFlight)
    }

    constructor (config: Config)
      ensures this.config == config && Value() == FRESH
    {
      this.config := config;
      state, consecutiveFailures, lastFailureTime, probeInFlight := Closed, 0, 0, false;
    }

    method GetState(now: int) returns (r: CircuitState)
      modifies this`state
      ensures Value() == Read(config, old(Value()), now) && r == state
    {
      if state == Open && now - lastFailureTime >= config.resetAfter {
        state := HalfOpen;
      }
      return state;
    }

    /** The part of `execute` before the call itself. */
    method Admit(now: int) returns (admission: Admission)
      modifies this
      ensures (Value(), admission) == Attempt(config, old(Value()), now)
    {
      var currentState := GetState(now);
      if currentState == Open {
        return if config.hasFallback then FellBack else Refused;
      }
      if currentState == HalfOpen {
        if probeInFlight {
          return if config.hasFallback then FellBack else Refused;
        }
        probeInFlight := true;
      }
      return Admitted;
    }

    method OnSuccess()
      modifies this
      ensures Value() == Success(old(Value()))
    {
      consecutiveFailures := 0;
      state := Closed;
      probeInFlight := false;
    }

    method OnFailure(now: int)
      modifies this
      ensures Value() == Failure(config, old(Value()), now)
    {
      probeInFlight := false;
      consecutiveFailures := consecutiveFailures + 1;
      lastFailureTime := now;
      if state == HalfOpen {
        state := Open;
      } else if consecutiveFailures >= config.threshold {
        state := Open;
      }
    }

    method Reset()
      modifies this
      ensures Value() == FRESH
    {
      state := Closed;
      consecutiveFailures := 0;
      lastFailureTime := 0;
      probeInFlight := false;
    }
  }

  /** The class does with its fields what the event does with the breaker of the system, and decides alike. */
  method Perform(b: CircuitBreaker, ghost s: System, e: Event)
    requires b.Value() == s.breaker && Enabled(s, e)
    modifies b
    ensures b.Value() == Apply(b.config, s, e).breaker
  {
    match e {
      case AttemptEvent(now) =>
        var admission := b.Admit(now);
      case SuccessEvent(_) => b.OnSuccess();
      case FailureEvent(_, now) => b.OnFailure(now);
      case ReadEvent(now) =>
        var state := b.GetState(now);
      case ResetEvent => b.Reset();
    }
  }
}
