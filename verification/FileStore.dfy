/** File stores under a promise lock. */
module FileStore {
  /*
   A store that keeps its data in one file, each update being load, change and
   atomic replace under a lock made of chained promises. Calls overlap freely;
   every step below is one turn of the event loop.
   */

  import opened Wrappers

  /** How a completed update ended: changed the data, was refused, or met an I/O error. */
  datatype Outcome<+E> = Done | Refused(error: E) | IoFailed

  /** An update waits for its turn, has it, has loaded, is writing, or has completed. */
  datatype Phase<D, E> = Waiting | Entered | Loaded(data: D) | Writing(data: D) | Finished(outcome: Outcome<E>)

  /** `previous` is the promise it waits for and `own` the one it resolves at the end. */
  datatype Task<O, D, E> = Task(op: O, previous: nat, own: nat, phase: Phase<D, E>)

  /** Promise 0 is resolved from the start; `pending` is the last link of the chain. */
  datatype Store<O, D, E> = Store(file: D, pending: nat, nextPromise: nat, resolved: set<nat>,
                                  tasks: seq<Task<O, D, E>>)

  /** What an update does to the loaded data, or why it refuses to. */
  type Change<!O, !D, E> = (D, O) -> Result<D, E>

  datatype Event<O> =
    | Call(op: O)
    | Enter(k: nat)
    | Load(k: nat)
    | LoadFails(k: nat)
    | Compute(k: nat)
    | Replace(k: nat)
    | ReplaceFails(k: nat)

  function Initial<O, D, E>(file: D): Store<O, D, E> {
    Store(file, 0, 1, {0}, [])
  }

  function SetPhase<O, D, E>(s: Store<O, D, E>, k: nat, phase: Phase<D, E>): Store<O, D, E>
    requires k < |s.tasks|
  {
    s.(tasks := s.tasks[k := s.tasks[k].(phase := phase)])
  }

  /** The `finally` block: completing resolves the task's own promise, however it ends. */
  function Complete<O, D, E>(s: Store<O, D, E>, k: nat, outcome: Outcome<E>): Store<O, D, E>
    requires k < |s.tasks|
  {
    SetPhase(s, k, Finished(outcome)).(resolved := s.resolved + {s.tasks[k].own})
  }

  /** One event, if it is possible now. */
  function Next<O, D, E>(change: Change<O, D, E>, s: Store<O, D, E>, e: Event<O>): Option<Store<O, D, E>> {
    match e
    case Call(op) =>
      Some(s.(pending := s.nextPromise, nextPromise := s.nextPromise + 1,
              tasks := s.tasks + [Task(op, s.pending, s.nextPromise, Waiting)]))
    case Enter(k) =>
      if k < |s.tasks| && s.tasks[k].phase.Waiting? && s.tasks[k].previous in s.resolved
      then Some(SetPhase(s, k, Entered)) else None
    case Load(k) =>
      if k < |s.tasks| && s.tasks[k].phase.Entered? then Some(SetPhase(s, k, Loaded(s.file))) else None
    case LoadFails(k) =>
      if k < |s.tasks| && s.tasks[k].phase.Entered? then Some(Complete(s, k, IoFailed)) else None
    case Compute(k) =>
      if k < |s.tasks| && s.tasks[k].phase.Loaded? then
        match change(s.tasks[k].phase.data, s.tasks[k].op)
        case Ok(data) => Some(SetPhase(s, k, Writing(data)))
        case Err(error) => Some(Complete(s, k, Refused(error)))
      else None
    case Replace(k) =>
      if k < |s.tasks| && s.tasks[k].phase.Writing?
      then Some(Complete(s, k, Done).(file := s.tasks[k].phase.data)) else None
    case ReplaceFails(k) =>
      if k < |s.tasks| && s.tasks[k].phase.Writing? then Some(Complete(s, k, IoFailed)) else None
  }

  /** The states some run can reach. */
  ghost predicate Runs<O, D, E>(change: Change<O, D, E>, s: Store<O, D, E>, events: seq<Event<O>>, t: Store<O, D, E>)
    decreases events
  {
    if events == [] then s == t
    else
      var u := Next(change, s, events[0]);
      u.Some? && Runs(change, u.value, events[1..], t)
  }

  // ---- The sequential history ----

  /** The data after running the first tasks one after another; I/O failures change nothing. */
  function Replay<O, D, E>(change: Change<O, D, E>, file: D, tasks: seq<Task<O, D, E>>): D {
    if tasks == [] then file
    else
      var n := |tasks| - 1;
      var before := Replay(change, file, tasks[..n]);
      if tasks[n].phase == Finished(Done) then
        match change(before, tasks[n].op) { case Ok(data) => data case Err(_) => before }
      else before
  }

  /** The outcome is the one the sequential history gives, unless there was an I/O error. */
  ghost predicate Explained<O, D, E>(change: Change<O, D, E>, before: D, task: Task<O, D, E>) {
    task.phase.Finished? &&
    match task.phase.outcome
    case Done => change(before, task.op).Ok?
    case Refused(error) => change(before, task.op) == Err(error)
    case IoFailed => true
  }

  /** The task whose turn it is has seen the current file. */
  ghost predicate Current<O, D, E>(change: Change<O, D, E>, file: D, task: Task<O, D, E>) {
    match task.phase
    case Loaded(data) => data == file
    case Writing(data) => change(file, task.op) == Ok(data)
    case _ => true
  }

  /**
   The first `n` tasks have completed, in call order and as a sequential run
   would; the next one may be at work; all later ones wait. The file is the
   result of the sequential run.
   */
  ghost predicate Serial<O, D, E>(change: Change<O, D, E>, file: D, s: Store<O, D, E>, n: nat) {
    && n <= |s.tasks|
    && s.pending == |s.tasks| && s.nextPromise == |s.tasks| + 1
    && (forall p: nat :: p in s.resolved <==> p <= n)
    && (forall k :: 0 <= k < |s.tasks| ==> s.tasks[k].previous == k && s.tasks[k].own == k + 1)
    && (forall k :: 0 <= k < n ==> Explained(change, Replay(change, file, s.tasks[..k]), s.tasks[k]))
    && (forall k :: n < k < |s.tasks| ==> s.tasks[k].phase.Waiting?)
    && (n < |s.tasks| ==> !s.tasks[n].phase.Finished? && Current(change, s.file, s.tasks[n]))
    && s.file == Replay(change, file, s.tasks[..n])
  }

  lemma SamePrefix<O, D, E>(s: seq<Task<O, D, E>>, k: nat, t: Task<O, D, E>)
    requires k < |s|
    ensures forall i :: 0 <= i <= k ==> s[k := t][..i] == s[..i]
    ensures s[k := t][..k + 1] == s[..k] + [t]
  {
  }

  lemma ReplayMore<O, D, E>(change: Change<O, D, E>, file: D, done: seq<Task<O, D, E>>, task: Task<O, D, E>)
    ensures Replay(change, file, done + [task]) ==
            var before := Replay(change, file, done);
            if task.phase == Finished(Done) && change(before, task.op).Ok? then change(before, task.op).value
            else before
  {
    assert (done + [task])[..|done|] == done;
  }

  /** Completing a task moves the boundary by one. */
  lemma CompletedIsSerial<O, D, E>(change: Change<O, D, E>, file: D, s: Store<O, D, E>, n: nat,
                                   outcome: Outcome<E>, data: D)
    requires Serial(change, file, s, n) && n < |s.tasks|
    requires Explained(change, s.file, s.tasks[n].(phase := Finished(outcome)))
    requires data == if outcome == Done then change(s.file, s.tasks[n].op).value else s.file
    ensures Serial(change, file, Complete(s, n, outcome).(file := data), n + 1)
  {
    var task := s.tasks[n].(phase := Finished(outcome));
    SamePrefix(s.tasks, n, task);
    ReplayMore(change, file, s.tasks[..n], task);
  }

  /** The task whose turn it is may advance within its critical section. */
  lemma AdvancedIsSerial<O, D, E>(change: Change<O, D, E>, file: D, s: Store<O, D, E>, n: nat, phase: Phase<D, E>)
    requires Serial(change, file, s, n) && n < |s.tasks|
    requires !phase.Finished? && Current(change, s.file, s.tasks[n].(phase := phase))
    ensures Serial(change, file, SetPhase(s, n, phase), n)
  {
    SamePrefix(s.tasks, n, s.tasks[n].(phase := phase));
  }

  lemma CalledIsSerial<O, D, E>(change: Change<O, D, E>, file: D, s: Store<O, D, E>, n: nat, op: O)
    requires Serial(change, file, s, n)
    ensures Serial(change, file, Next(change, s, Call(op)).value, n)
  {
    var t := Next(change, s, Call(op)).value;
    assert forall i :: 0 <= i <= |s.tasks| ==> t.tasks[..i] == s.tasks[..i];
  }

  /** Only the first task that has not completed can do anything but wait. */
  lemma WhoseTurn<O, D, E>(change: Change<O, D, E>, file: D, s: Store<O, D, E>, n: nat, e: Event<O>)
    requires Serial(change, file, s, n) && Next(change, s, e).Some? && !e.Call?
    ensures e.k == n < |s.tasks|
  {
    assert e.k < n ==> Explained(change, Replay(change, file, s.tasks[..e.k]), s.tasks[e.k]);
    assert e.k < |s.tasks| && s.tasks[e.k].previous == e.k;
  }

  lemma ComputedIsSerial<O, D, E>(change: Change<O, D, E>, file: D, s: Store<O, D, E>, n: nat) returns (m: nat)
    requires Serial(change, file, s, n) && Next(change, s, Compute(n)).Some?
    ensures n <= m <= n + 1 && Serial(change, file, Next(change, s, Compute(n)).value, m)
  {
    match change(s.file, s.tasks[n].op) {
      case Ok(data) =>
        AdvancedIsSerial(change, file, s, n, Writing(data));
        m := n;
      case Err(error) =>
        CompletedIsSerial(change, file, s, n, Refused(error), s.file);
        m := n + 1;
    }
  }

  lemma ReplacedIsSerial<O, D, E>(change: Change<O, D, E>, file: D, s: Store<O, D, E>, n: nat)
    requires Serial(change, file, s, n) && Next(change, s, Replace(n)).Some?
    ensures Serial(change, file, Next(change, s, Replace(n)).value, n + 1)
  {
    CompletedIsSerial(change, file, s, n, Done, s.tasks[n].phase.data);
  }

  lemma BegunIsSerial<O, D, E>(change: Change<O, D, E>, file: D, s: Store<O, D, E>, n: nat, e: Event<O>)
    requires Serial(change, file, s, n) && n < |s.tasks| && (e == Enter(n) || e == Load(n)) && Next(change, s, e).Some?
    ensures Serial(change, file, Next(change, s, e).value, n)
  {
    AdvancedIsSerial(change, file, s, n, if e == Load(n) then Loaded(s.file) else Entered);
  }

  lemma FailedIsSerial<O, D, E>(change: Change<O, D, E>, file: D, s: Store<O, D, E>, n: nat, e: Event<O>)
    requires Serial(change, file, s, n) && n < |s.tasks|
    requires (e == LoadFails(n) || e == ReplaceFails(n)) && Next(change, s, e).Some?
    ensures Serial(change, file, Next(change, s, e).value, n + 1)
  {
    CompletedIsSerial(change, file, s, n, IoFailed, s.file);
    var t := Complete(s, n, IoFailed);
    assert t.(file := s.file) == t;
  }

  /** Every event keeps the history serial and completes at most one task. */
  lemma EventIsSerial<O, D, E>(change: Change<O, D, E>, file: D, s: Store<O, D, E>, n: nat, e: Event<O>)
    returns (m: nat)
    requires Serial(change, file, s, n) && Next(change, s, e).Some?
    ensures n <= m <= n + 1 && Serial(change, file, Next(change, s, e).value, m)
  {
    m := n;
    if e.Call? {
      CalledIsSerial(change, file, s, n, e.op);
    } else {
      WhoseTurn(change, file, s, n, e);
      match e {
        case Enter(k) => BegunIsSerial(change, file, s, n, e);
        case Load(k) => BegunIsSerial(change, file, s, n, e);
        case Compute(k) => m := ComputedIsSerial(change, file, s, n);
        case Replace(k) =>
          ReplacedIsSerial(change, file, s, n);
          m := n + 1;
        case LoadFails(k) =>
          FailedIsSerial(change, file, s, n, e);
          m := n + 1;
        case ReplaceFails(k) =>
          FailedIsSerial(change, file, s, n, e);
          m := n + 1;
      }
    }
  }

  /** Completed tasks are final. */
  lemma StepIsSerial<O, D, E>(change: Change<O, D, E>, file: D, s: Store<O, D, E>, n: nat, e: Event<O>) returns (m: nat)
    requires Serial(change, file, s, n) && Next(change, s, e).Some?
    ensures n <= m <= n + 1 && Serial(change, file, Next(change, s, e).value, m)
    ensures n <= |Next(change, s, e).value.tasks| && Next(change, s, e).value.tasks[..n] == s.tasks[..n]
  {
    m := EventIsSerial(change, file, s, n, e);
    if !e.Call? {
      WhoseTurn(change, file, s, n, e);
    }
  }

  // ---- Whole runs ----

  lemma {:induction false} RunIsSerial<O, D, E>(change: Change<O, D, E>, file: D, s: Store<O, D, E>, n: nat,
                                                events: seq<Event<O>>, t: Store<O, D, E>) returns (m: nat)
    requires Serial(change, file, s, n) && Runs(change, s, events, t)
    ensures n <= m && Serial(change, file, t, m)
    ensures n <= |t.tasks| && t.tasks[..n] == s.tasks[..n]
    decreases events
  {
    if events == [] {
      m := n;
    } else {
      var u := Next(change, s, events[0]).value;
      var k := StepIsSerial(change, file, s, n, events[0]);
      m := RunIsSerial(change, file, u, k, events[1..], t);
      assert t.tasks[..n] == t.tasks[..k][..n] && u.tasks[..k][..n] == u.tasks[..n];
    }
  }

  lemma InitialIsSerial<O, D, E>(change: Change<O, D, E>, file: D)
    ensures Serial(change, file, Initial<O, D, E>(file), 0)
  {
  }

  /**
   In every run, a task that has entered its critical section finds all earlier
   calls completed: at most one is inside, and they enter in call order.
   */
  lemma MutualExclusionInCallOrder<O, D, E>(change: Change<O, D, E>, file: D, events: seq<Event<O>>, t: Store<O, D, E>)
    requires Runs(change, Initial(file), events, t)
    ensures forall j, k :: 0 <= j < k < |t.tasks| && !t.tasks[k].phase.Waiting? ==> t.tasks[j].phase.Finished?
  {
    InitialIsSerial(change, file);
    var m := RunIsSerial(change, file, Initial(file), 0, events, t);
    forall j | 0 <= j < m ensures t.tasks[j].phase.Finished? {
      assert Explained(change, Replay(change, file, t.tasks[..j]), t.tasks[j]);
    }
  }

  /**
   In every run, the file is what the completed calls leave when run one after
   another in call order, and each reports what it would have reported then.
   */
  lemma FileIsSequential<O, D, E>(change: Change<O, D, E>, file: D, events: seq<Event<O>>, t: Store<O, D, E>)
    returns (m: nat)
    requires Runs(change, Initial(file), events, t)
    ensures m <= |t.tasks| && forall k :: 0 <= k < |t.tasks| ==> (t.tasks[k].phase.Finished? <==> k < m)
    ensures t.file == Replay(change, file, t.tasks[..m])
    ensures forall k :: 0 <= k < m ==> Explained(change, Replay(change, file, t.tasks[..k]), t.tasks[k])
  {
    InitialIsSerial(change, file);
    m := RunIsSerial(change, file, Initial(file), 0, events, t);
  }

  lemma EachIsExplained<O, D, E>(change: Change<O, D, E>, file: D, events: seq<Event<O>>, t: Store<O, D, E>, k: nat)
    requires Runs(change, Initial(file), events, t) && k < |t.tasks| && t.tasks[k].phase.Finished?
    ensures Explained(change, Replay(change, file, t.tasks[..k]), t.tasks[k])
    ensures forall j :: 0 <= j < k ==> Explained(change, Replay(change, file, t.tasks[..k][..j]), t.tasks[..k][j])
  {
    var m := FileIsSequential(change, file, events, t);
    forall j | 0 <= j < k ensures Explained(change, Replay(change, file, t.tasks[..k][..j]), t.tasks[..k][j]) {
      assert t.tasks[..k][..j] == t.tasks[..j];
    }
  }

  /**
   An unlocked read between two points of a run sees the sequential history
   after some number of calls, no fewer than had completed at the first point
   and no more than have at the second.
   */
  lemma ReadsAreLinearizable<O, D, E>(change: Change<O, D, E>, file: D, asked: Store<O, D, E>, read: Store<O, D, E>,
                                      answered: Store<O, D, E>, before: seq<Event<O>>,
                                      toRead: seq<Event<O>>, toAnswer: seq<Event<O>>) returns (a: nat, n: nat, b: nat)
    requires Runs(change, Initial(file), before, asked)
    requires Runs(change, asked, toRead, read) && Runs(change, read, toAnswer, answered)
    ensures a <= n <= b && Serial(change, file, asked, a) && Serial(change, file, answered, b)
    ensures read.file == Replay(change, file, answered.tasks[..n])
  {
    InitialIsSerial(change, file);
    a := RunIsSerial(change, file, Initial(file), 0, before, asked);
    n := RunIsSerial(change, file, asked, a, toRead, read);
    b := RunIsSerial(change, file, read, n, toAnswer, answered);
  }

  /** Nobody is blocked for good: while some call has not completed, one of them can take a step. */
  lemma SomebodyCanStep<O, D, E>(change: Change<O, D, E>, file: D, events: seq<Event<O>>, t: Store<O, D, E>, k: nat)
    returns (e: Event<O>)
    requires Runs(change, Initial(file), events, t) && k < |t.tasks| && !t.tasks[k].phase.Finished?
    ensures Next(change, t, e).Some? && !e.Call? && !e.LoadFails? && !e.ReplaceFails?
  {
    InitialIsSerial(change, file);
    var m := RunIsSerial(change, file, Initial(file), 0, events, t);
    assert k < m ==> Explained(change, Replay(change, file, t.tasks[..k]), t.tasks[k]);
    assert t.tasks[m].previous == m && m in t.resolved;
    match t.tasks[m].phase {
      case Waiting => e := Enter(m);
      case Entered => e := Load(m);
      case Loaded(_) => e := Compute(m);
      case Writing(_) => e := Replace(m);
    }
  }

  /** Loading and replacing may fail; the file is then as before and the next call may enter. */
  lemma FailureReleases<O, D, E>(change: Change<O, D, E>, s: Store<O, D, E>, k: nat)
    requires k < |s.tasks|
    ensures var load, replace := Next(change, s, LoadFails(k)), Next(change, s, ReplaceFails(k));
            && (load.Some? <==> s.tasks[k].phase == Entered) && (replace.Some? <==> s.tasks[k].phase.Writing?)
            && forall t :: t == load || t == replace ==> t.Some? ==>
                 && t.value.file == s.file && t.value.resolved == s.resolved + {s.tasks[k].own}
                 && t.value.tasks == s.tasks[k := s.tasks[k].(phase := Finished(IoFailed))]
  {
  }

  // ---- The agent-session store ----

  datatype Session = Session(id: string, data: string)

  datatype SessionOp = Create(session: Session) | Save(session: Session)

  datatype SessionError = AlreadyExists(id: string) | NotFound(id: string)

  type Sessions = map<string, Session>

  function ChangeSessions(data: Sessions, op: SessionOp): Result<Sessions, SessionError> {
    var session := op.session;
    match op
    case Create(_) =>
      if session.id in data then Err(AlreadyExists(session.id)) else Ok(data[session.id := session])
    case Save(_) =>
      if session.id in data then Ok(data[session.id := session]) else Err(NotFound(session.id))
  }

  /** The session given to the last call about `id` that changed the file. */
  function LastWritten(tasks: seq<Task<SessionOp, Sessions, SessionError>>, id: string): Option<Session> {
    if tasks == [] then None
    else
      var n := |tasks| - 1;
      if tasks[n].phase == Finished(Done) && tasks[n].op.session.id == id then Some(tasks[n].op.session)
      else LastWritten(tasks[..n], id)
  }

  lemma {:induction false} ReplayKeepsLastWritten(tasks: seq<Task<SessionOp, Sessions, SessionError>>, id: string)
    requires forall k :: 0 <= k < |tasks| ==>
               Explained(ChangeSessions, Replay(ChangeSessions, map[], tasks[..k]), tasks[k])
    ensures var data := Replay(ChangeSessions, map[], tasks);
            LastWritten(tasks, id) == if id in data then Some(data[id]) else None
  {
    if tasks != [] {
      var n := |tasks| - 1;
      forall k | 0 <= k < n
        ensures Explained(ChangeSessions, Replay(ChangeSessions, map[], tasks[..n][..k]), tasks[..n][k])
      {
        assert tasks[..n][..k] == tasks[..k];
      }
      ReplayKeepsLastWritten(tasks[..n], id);
      ReplayMore(ChangeSessions, map[], tasks[..n], tasks[n]);
      assert tasks[..n] + [tasks[n]] == tasks;
      FoundAfter(Replay(ChangeSessions, map[], tasks[..n]), tasks[n], id);
    }
  }

  lemma FoundAfter(data: Sessions, task: Task<SessionOp, Sessions, SessionError>, id: string)
    requires Explained(ChangeSessions, data, task)
    ensures var changed := ChangeSessions(data, task.op);
            var data' := if task.phase == Finished(Done) && changed.Ok? then changed.value else data;
            (if id in data' then Some(data'[id]) else None) ==
            if task.phase == Finished(Done) && task.op.session.id == id then Some(task.op.session)
            else if id in data then Some(data[id]) else None
  {
  }

  /** No update is lost: at any time the file maps each id to the last session successfully written for it. */
  lemma NoLostUpdates(events: seq<Event<SessionOp>>, t: Store<SessionOp, Sessions, SessionError>, id: string)
    requires Runs(ChangeSessions, Initial(map[]), events, t)
    ensures LastWritten(t.tasks, id) == if id in t.file then Some(t.file[id]) else None
  {
    var m := FileIsSequential(ChangeSessions, map[], events, t);
    forall k | 0 <= k < m
      ensures Explained(ChangeSessions, Replay(ChangeSessions, map[], t.tasks[..m][..k]), t.tasks[..m][k])
    {
      assert t.tasks[..m][..k] == t.tasks[..k];
    }
    ReplayKeepsLastWritten(t.tasks[..m], id);
    UnfinishedWriteNothing(t.tasks, m, id);
  }

  lemma AnsweredAsFound(data: Sessions, task: Task<SessionOp, Sessions, SessionError>)
    requires Explained(ChangeSessions, data, task) && task.phase != Finished(IoFailed)
    ensures var id := task.op.session.id;
            && (task.op.Create? ==> task.phase == Finished(if id in data then Refused(AlreadyExists(id)) else Done))
            && (task.op.Save? ==> task.phase == Finished(if id in data then Done else Refused(NotFound(id))))
  {
  }

  /**
   In every run, a call that has completed without an I/O error succeeded or was
   refused as the calls before it demand: a session is created exactly if none
   was written under its id before, and saved exactly if one was.
   */
  lemma RefusedAsDue(events: seq<Event<SessionOp>>, t: Store<SessionOp, Sessions, SessionError>, k: nat)
    requires Runs(ChangeSessions, Initial(map[]), events, t)
    requires k < |t.tasks| && t.tasks[k].phase.Finished? && t.tasks[k].phase != Finished(IoFailed)
    ensures var task := t.tasks[k];
            var id := task.op.session.id;
            var known := LastWritten(t.tasks[..k], id).Some?;
            && (task.op.Create? ==> task.phase == Finished(if known then Refused(AlreadyExists(id)) else Done))
            && (task.op.Save? ==> task.phase == Finished(if known then Done else Refused(NotFound(id))))
  {
    EachIsExplained(ChangeSessions, map[], events, t, k);
    ReplayKeepsLastWritten(t.tasks[..k], t.tasks[k].op.session.id);
    AnsweredAsFound(Replay(ChangeSessions, map[], t.tasks[..k]), t.tasks[k]);
  }

  lemma {:induction false} UnfinishedWriteNothing(tasks: seq<Task<SessionOp, Sessions, SessionError>>, m: nat,
                                                  id: string)
    requires m <= |tasks| && forall k :: m <= k < |tasks| ==> !tasks[k].phase.Finished?
    ensures LastWritten(tasks, id) == LastWritten(tasks[..m], id)
    decreases |tasks|
  {
    if m < |tasks| {
      var n := |tasks| - 1;
      UnfinishedWriteNothing(tasks[..n], m, id);
      assert tasks[..n][..m] == tasks[..m];
    } else {
      assert tasks[..m] == tasks;
    }
  }

  // ---- The artifact store ----

  datatype Artifact = Artifact(sessionId: string, id: string, data: string)

  type Artifacts = map<string, seq<Artifact>>

  /** Replaces the artifact with the same id in place, or appends. */
  function Put(list: seq<Artifact>, a: Artifact): seq<Artifact> {
    if list == [] then [a]
    else if list[0].id == a.id then [a] + list[1..]
    else [list[0]] + Put(list[1..], a)
  }

  function ListFor(data: Artifacts, sessionId: string): seq<Artifact> {
    if sessionId in data then data[sessionId] else []
  }

  /** Storing an artifact is never refused. */
  function ChangeArtifacts(data: Artifacts, a: Artifact): Result<Artifacts, string> {
    Ok(data[a.sessionId := Put(ListFor(data, a.sessionId), a)])
  }

  function Find(list: seq<Artifact>, id: string): Option<Artifact> {
    if list == [] then None else if list[0].id == id then Some(list[0]) else Find(list[1..], id)
  }

  lemma {:induction false} FindAfterPut(list: seq<Artifact>, a: Artifact, id: string)
    ensures Find(Put(list, a), id) == if id == a.id then Some(a) else Find(list, id)
  {
    if list != [] {
      FindAfterPut(list[1..], a, id);
      assert ([list[0]] + Put(list[1..], a))[1..] == Put(list[1..], a);
      assert ([a] + list[1..])[1..] == list[1..];
    } else {
      assert [a][1..] == [];
    }
  }

  function LastStored(tasks: seq<Task<Artifact, Artifacts, string>>, sessionId: string, id: string): Option<Artifact> {
    if tasks == [] then None
    else
      var n := |tasks| - 1;
      var a := tasks[n].op;
      if tasks[n].phase == Finished(Done) && a.sessionId == sessionId && a.id == id then Some(a)
      else LastStored(tasks[..n], sessionId, id)
  }

  /** Each artifact read back from the sequential history is the one stored last. */
  lemma {:induction false} ReplayKeepsLastStored(tasks: seq<Task<Artifact, Artifacts, string>>, sessionId: string,
                                                 id: string)
    ensures Find(ListFor(Replay(ChangeArtifacts, map[], tasks), sessionId), id) == LastStored(tasks, sessionId, id)
  {
    if tasks != [] {
      var n := |tasks| - 1;
      ReplayKeepsLastStored(tasks[..n], sessionId, id);
      FindAfterPut(ListFor(Replay(ChangeArtifacts, map[], tasks[..n]), tasks[n].op.sessionId), tasks[n].op, id);
    }
  }

  lemma {:induction false} UnfinishedStoreNothing(tasks: seq<Task<Artifact, Artifacts, string>>, m: nat,
                                                  sessionId: string, id: string)
    requires m <= |tasks| && forall k :: m <= k < |tasks| ==> !tasks[k].phase.Finished?
    ensures LastStored(tasks, sessionId, id) == LastStored(tasks[..m], sessionId, id)
    decreases |tasks|
  {
    if m < |tasks| {
      var n := |tasks| - 1;
      UnfinishedStoreNothing(tasks[..n], m, sessionId, id);
      assert tasks[..n][..m] == tasks[..m];
    } else {
      assert tasks[..m] == tasks;
    }
  }

  /** At any time the file lists, for each session and id, the artifact last successfully stored under them. */
  lemma NoLostArtifacts(events: seq<Event<Artifact>>, t: Store<Artifact, Artifacts, string>, sessionId: string,
                        id: string)
    requires Runs(ChangeArtifacts, Initial(map[]), events, t)
    ensures Find(ListFor(t.file, sessionId), id) == LastStored(t.tasks, sessionId, id)
  {
    var m := FileIsSequential(ChangeArtifacts, map[], events, t);
    ReplayKeepsLastStored(t.tasks[..m], sessionId, id);
    UnfinishedStoreNothing(t.tasks, m, sessionId, id);
  }

  /** Storing an artifact succeeds unless there is an I/O error. */
  lemma ArtifactsAreNotRefused(events: seq<Event<Artifact>>, t: Store<Artifact, Artifacts, string>, k: nat)
    requires Runs(ChangeArtifacts, Initial(map[]), events, t) && k < |t.tasks| && t.tasks[k].phase.Finished?
    ensures t.tasks[k].phase == Finished(Done) || t.tasks[k].phase == Finished(IoFailed)
  {
    EachIsExplained(ChangeArtifacts, map[], events, t, k);
    StoredIsDone(Replay(ChangeArtifacts, map[], t.tasks[..k]), t.tasks[k]);
  }

  lemma StoredIsDone(data: Artifacts, task: Task<Artifact, Artifacts, string>)
    requires Explained(ChangeArtifacts, data, task)
    ensures task.phase == Finished(Done) || task.phase == Finished(IoFailed)
  {
  }

  function ArtifactIds(list: seq<Artifact>): (ids: seq<string>)
    ensures |ids| == |list| && forall i :: 0 <= i < |list| ==> ids[i] == list[i].id
  {
    seq(|list|, i requires 0 <= i < |list| => list[i].id)
  }

  /** The ids stored for a session, in the order in which they were first stored. */
  function FirstStored(tasks: seq<Task<Artifact, Artifacts, string>>, sessionId: string): seq<string> {
    if tasks == [] then []
    else
      var n := |tasks| - 1;
      var before, a := FirstStored(tasks[..n], sessionId), tasks[n].op;
      if tasks[n].phase == Finished(Done) && a.sessionId == sessionId && a.id !in before then before + [a.id]
      else before
  }

  lemma {:induction false} IdsAfterPut(list: seq<Artifact>, a: Artifact)
    ensures ArtifactIds(Put(list, a)) ==
            if a.id in ArtifactIds(list) then ArtifactIds(list) else ArtifactIds(list) + [a.id]
  {
    if list != [] {
      var rest := list[1..];
      assert list == [list[0]] + rest;
      FirstId(list[0], rest);
      FirstId(a, rest);
      FirstId(list[0], Put(rest, a));
      IdsAfterPut(rest, a);
      InRest(list[0].id, ArtifactIds(rest), a.id);
    }
  }

  lemma FirstId(first: Artifact, rest: seq<Artifact>)
    ensures ArtifactIds([first] + rest) == [first.id] + ArtifactIds(rest)
  {
  }

  lemma InRest(first: string, rest: seq<string>, id: string)
    ensures id in [first] + rest <==> id == first || id in rest
    ensures [first] + (rest + [id]) == [first] + rest + [id]
  {
  }

  lemma {:induction false} ReplayKeepsOrder(tasks: seq<Task<Artifact, Artifacts, string>>, sessionId: string)
    ensures ArtifactIds(ListFor(Replay(ChangeArtifacts, map[], tasks), sessionId)) == FirstStored(tasks, sessionId)
  {
    if tasks != [] {
      var n := |tasks| - 1;
      ReplayKeepsOrder(tasks[..n], sessionId);
      IdsAfterPut(ListFor(Replay(ChangeArtifacts, map[], tasks[..n]), tasks[n].op.sessionId), tasks[n].op);
    }
  }

  lemma {:induction false} UnfinishedAddNothing(tasks: seq<Task<Artifact, Artifacts, string>>, m: nat,
                                                sessionId: string)
    requires m <= |tasks| && forall k :: m <= k < |tasks| ==> !tasks[k].phase.Finished?
    ensures FirstStored(tasks, sessionId) == FirstStored(tasks[..m], sessionId)
    decreases |tasks|
  {
    if m < |tasks| {
      var n := |tasks| - 1;
      UnfinishedAddNothing(tasks[..n], m, sessionId);
      assert tasks[..n][..m] == tasks[..m];
    } else {
      assert tasks[..m] == tasks;
    }
  }

  /** A session's artifacts are listed once each, in the order in which their ids were first stored. */
  lemma ArtifactsInOrder(events: seq<Event<Artifact>>, t: Store<Artifact, Artifacts, string>, sessionId: string)
    requires Runs(ChangeArtifacts, Initial(map[]), events, t)
    ensures ArtifactIds(ListFor(t.file, sessionId)) == FirstStored(t.tasks, sessionId)
  {
    var m := FileIsSequential(ChangeArtifacts, map[], events, t);
    ReplayKeepsOrder(t.tasks[..m], sessionId);
    UnfinishedAddNothing(t.tasks, m, sessionId);
  }
}
