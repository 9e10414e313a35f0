/**
 Checkpoints of a workspace under version control: the checkpoint history in a
 database, commits recorded under printed checkpoint ids, and a rollback that
 parses such an id, restores the files and truncates the history. What the
 version control system answers is a parameter.
 */
module WorkspaceCheckpoints {
  import opened Wrappers
  import opened Text
  import opened Checkpoints

  const MARK := "-step"

  function CheckpointId(threadId: string, step: int): string {
    threadId + MARK + PrintInt(step)
  }

  /** `-step` and then digits up to the end of the id. */
  predicate MarkAt(id: string, p: nat) {
    && p + |MARK| < |id|
    && id[p..p + |MARK|] == MARK
    && AllDigits(id[p + |MARK|..])
  }

  /** The leftmost such place, searched from `p` on. */
  function FindMark(id: string, p: nat): (r: Option<nat>)
    requires p <= |id|
    ensures r.Some? ==> p <= r.value && MarkAt(id, r.value) && forall q :: p <= q < r.value ==> !MarkAt(id, q)
    ensures r.None? ==> forall q :: p <= q ==> !MarkAt(id, q)
    decreases |id| - p
  {
    if p == |id| then None
    else if MarkAt(id, p) then Some(p)
    else FindMark(id, p + 1)
  }

  /** The thread and step an id stands for. */
  function ParseId(id: string): Option<(string, nat)> {
    match FindMark(id, 0)
    case None => None
    case Some(p) => Some((id[..p], ParseNat(id[p + |MARK|..])))
  }

  lemma NoEarlierMark(threadId: string, digits: string, q: nat)
    requires q < |threadId|
    ensures !MarkAt(threadId + MARK + digits, q)
  {
    var id := threadId + MARK + digits;
    var n := |threadId|;
    assert id[n] == '-';
    if q + |MARK| <= n && q + |MARK| < |id| {
      assert id[q + |MARK|..][n - (q + |MARK|)] == '-';
    } else if q + |MARK| < |id| {
      assert id[q..q + |MARK|][n - q] == '-';
      assert MARK == ['-', 's', 't', 'e', 'p'];
    }
  }

  lemma NonNegativeParses(threadId: string, step: nat)
    ensures ParseId(CheckpointId(threadId, step)) == Some((threadId, step))
  {
    var digits := PrintNat(step);
    var id := threadId + MARK + digits;
    var n := |threadId|;
    assert id[n..n + |MARK|] == MARK && id[n + |MARK|..] == digits && id[..n] == threadId;
    assert MarkAt(id, n);
    forall q | 0 <= q < n ensures !MarkAt(id, q) {
      NoEarlierMark(threadId, digits, q);
    }
    assert FindMark(id, 0) == Some(n);
    ParsePrintNat(step);
  }

  lemma NegativeDoesNotParse(threadId: string, step: int, q: nat)
    requires step < 0
    ensures !MarkAt(CheckpointId(threadId, step), q)
  {
    var digits := PrintNat(-step);
    var id := CheckpointId(threadId, step);
    var n := |threadId| + |MARK|;
    assert id == threadId + MARK + "-" + digits;
    assert id[n] == '-';
    if q + |MARK| <= n && q + |MARK| < |id| {
      assert id[q + |MARK|..][n - (q + |MARK|)] == '-';
    } else if q + |MARK| < |id| {
      assert id[q..q + |MARK|][|MARK| - 1] == id[q + |MARK| - 1];
      assert id[q + |MARK| - 1] == '-' || IsDigit(id[q + |MARK| - 1]) by {
        if q + |MARK| - 1 > n {
          assert id[q + |MARK| - 1] == digits[q + |MARK| - 1 - (n + 1)];
        }
      }
    }
  }

  /** A printed id leads back to its thread and step, whatever the thread is called, exactly for non-negative steps. */
  lemma IdRoundTrip(threadId: string, step: int)
    ensures ParseId(CheckpointId(threadId, step)).Some? <==> step >= 0
    ensures step >= 0 ==> ParseId(CheckpointId(threadId, step)) == Some((threadId, step))
  {
    if step >= 0 {
      NonNegativeParses(threadId, step);
    } else {
      forall q: nat {
        NegativeDoesNotParse(threadId, step, q);
      }
    }
  }

  /** The id is the thread, the mark and these digits, and no shorter thread would do. */
  ghost predicate ReadsAs(id: string, threadId: string, digits: string) {
    && id == threadId + "-step" + digits && digits != "" && AllDigits(digits)
    && forall t, d :: id == t + "-step" + d && d != "" && AllDigits(d) ==> |threadId| <= |t|
  }

  lemma MarkedAt(id: string, threadId: string, digits: string)
    ensures id == threadId + "-step" + digits && digits != "" && AllDigits(digits) <==>
            MarkAt(id, |threadId|) && threadId == id[..|threadId|] && digits == id[|threadId| + |MARK|..]
  {
    var p := |threadId|;
    if id == threadId + "-step" + digits {
      assert id[..p] == threadId && id[p..p + |MARK|] == MARK && id[p + |MARK|..] == digits;
    }
    if MarkAt(id, p) {
      assert id == id[..p] + id[p..p + |MARK|] + id[p + |MARK|..];
    }
  }

  /** Any id, printed here or not, parses to its thread and to the number its digits mean, or not at all. */
  lemma ParseIsExact(id: string)
    ensures ParseId(id).None? ==> forall threadId, digits :: !ReadsAs(id, threadId, digits)
    ensures ParseId(id).Some? ==>
              exists digits :: ReadsAs(id, ParseId(id).value.0, digits) && ParseId(id).value.1 == Positional(digits)
  {
    if ParseId(id).Some? {
      var p := FindMark(id, 0).value;
      var threadId, digits := id[..p], id[p + |MARK|..];
      MarkedAt(id, threadId, digits);
      forall t, d | id == t + "-step" + d && d != "" && AllDigits(d) ensures |threadId| <= |t| {
        MarkedAt(id, t, d);
      }
      assert ReadsAs(id, threadId, digits);
      ParseIsPositional(digits);
    } else {
      forall threadId, digits ensures !ReadsAs(id, threadId, digits) {
        MarkedAt(id, threadId, digits);
      }
    }
  }

  // ---- Rolling back ----

  datatype Commit = Commit(checkpointId: string, commitHash: string)

  datatype RollbackError = NoMapping | GitUnavailable | InvalidHash | Unparsable | CheckoutFailed

  predicate IsHex(c: char) {
    IsDigit(c) || 'a' <= c <= 'f' || 'A' <= c <= 'F'
  }

  predicate IsCommitHash(s: string) {
    4 <= |s| <= 40 && forall i :: 0 <= i < |s| ==> IsHex(s[i])
  }

  /** Four to forty hexadecimal digits in either case. */
  lemma HashesAreHex(s: string)
    ensures IsCommitHash(s) <==> 4 <= |s| <= 40 && forall c :: c in s ==> c in "0123456789abcdefABCDEF"
  {
    var digits := "0123456789abcdefABCDEF";
    assert forall k :: 0 <= k < 22 ==>
             digits[k] as int == if k < 10 then 48 + k else if k < 16 then 87 + k else 49 + k;
    forall c: char ensures IsHex(c) <==> c in digits {
      if IsHex(c) {
        var u := c as int;
        assert digits[if u < 58 then u - 48 else if u > 96 then u - 87 else u - 49] == c;
      }
    }
    assert forall i :: 0 <= i < |s| ==> s[i] in s;
  }

  function FindCommit(mappings: seq<Commit>, id: string): Option<Commit> {
    if mappings == [] then None
    else if mappings[0].checkpointId == id then Some(mappings[0])
    else FindCommit(mappings[1..], id)
  }

  function FindStep(h: History, step: int): Option<Checkpoint> {
    if h == [] then None else if h[0].step == step then Some(h[0]) else FindStep(h[1..], step)
  }

  /** The thread keeps exactly its checkpoints up to the step. */
  function RolledBack(m: Memory, threadId: string, step: int): Memory {
    var kept := UpTo(HistoryOf(m, threadId), step);
    if kept == [] then Delete(m, threadId) else m[threadId := kept]
  }

  lemma {:induction false} FindStepFacts(h: History, step: int)
    requires Ascending(h)
    ensures FindStep(h, step).Some? <==> HasStep(h, step)
    ensures forall i :: 0 <= i < |h| && h[i].step == step ==> FindStep(h, step) == Some(h[i])
  {
    if h != [] && h[0].step != step {
      var rest := h[1..];
      FindStepFacts(rest, step);
      assert forall i :: 0 < i < |h| ==> h[i] == rest[i - 1];
      if i :| 0 <= i < |h| && h[i].step == step {
        assert rest[i - 1].step == step;
      }
    }
  }

  /** After a rollback the thread holds exactly its checkpoints up to the target; other threads are untouched. */
  lemma RollbackIsExact(m: Memory, threadId: string, step: int)
    requires ValidMemory(m)
    ensures var r := RolledBack(m, threadId, step);
            && ValidMemory(r)
            && (forall c :: c in HistoryOf(r, threadId) <==> c in HistoryOf(m, threadId) && c.step <= step)
            && (forall t :: t != threadId ==> HistoryOf(r, t) == HistoryOf(m, t))
  {
    UpToFacts(HistoryOf(m, threadId), step);
  }

  /** If the target exists, it is what the next `get` returns. */
  lemma RollbackTargetIsLatest(m: Memory, threadId: string, step: int, c: Checkpoint)
    requires ValidMemory(m) && c in HistoryOf(m, threadId) && c.step == step
    ensures GetLatest(RolledBack(m, threadId, step), threadId) == Some(c)
  {
    var kept := UpTo(HistoryOf(m, threadId), step);
    UpToFacts(HistoryOf(m, threadId), step);
    LastIsHighest(kept, c);
    RestoredIsRolledBack(m, threadId, step);
  }

  lemma LastIsHighest(h: History, c: Checkpoint)
    requires Ascending(h) && c in h && forall x :: x in h ==> x.step <= c.step
    ensures h[|h| - 1] == c
  {
    var i :| 0 <= i < |h| && h[i] == c;
    assert h[|h| - 1] in h;
  }

  lemma RestoredIsRolledBack(m: Memory, threadId: string, step: int)
    requires ValidMemory(m)
    ensures var kept := UpTo(HistoryOf(m, threadId), step);
            var deleted := Delete(m, threadId);
            && (forall c :: c in kept ==> c.threadId == threadId)
            && Rebuilt(deleted, threadId, kept) == RolledBack(m, threadId, step)
            && HistoryOf(RolledBack(m, threadId, step), threadId) == kept
  {
    var kept := UpTo(HistoryOf(m, threadId), step);
    UpToFacts(HistoryOf(m, threadId), step);
    PutAllRebuilds(kept);
    DeleteThenStore(m, threadId, kept);
  }

  class WorkspaceCheckpointer {
    const autoCommit: bool
    const gitAvailable: bool
    /** The checkpoint table of the SQLite database. */
    var sqlite: Memory
    var mappings: seq<Commit>
    var pendingMetadata: Option<string>
    /** The commit whose files the work tree was last put back to. */
    ghost var restored: Option<string>

    constructor (autoCommit: bool, gitAvailable: bool)
      ensures sqlite == map[] && mappings == [] && pendingMetadata == None && restored == None
      ensures this.autoCommit == autoCommit && this.gitAvailable == gitAvailable
    {
      this.autoCommit, this.gitAvailable := autoCommit, gitAvailable;
      sqlite, mappings, pendingMetadata, restored := map[], [], None, None;
    }

    method Get(threadId: string) returns (r: Option<Checkpoint>)
      ensures r == GetLatest(sqlite, threadId)
    {
      r := GetLatest(sqlite, threadId);
    }

    /** `commit` is the hash of the commit git made, if it made one. */
    method PutCheckpoint(cp: Checkpoint, commit: Option<string>)
      requires ValidMemory(sqlite)
      modifies this
      ensures ValidMemory(sqlite) && sqlite == Put(old(sqlite), cp) && pendingMetadata == None
      ensures restored == old(restored)
      ensures mappings ==
                if autoCommit && gitAvailable && commit.Some? && commit.value != ""
                then old(mappings) + [Commit(CheckpointId(cp.threadId, cp.step), commit.value)]
                else old(mappings)
    {
      StoreCheckpoint(cp);
      RecordCommit(CheckpointId(cp.threadId, cp.step), commit);
      pendingMetadata := None;
    }

    method RecordCommit(id: string, commit: Option<string>)
      modifies this`mappings
      ensures mappings ==
                if autoCommit && gitAvailable && commit.Some? && commit.value != ""
                then old(mappings) + [Commit(id, commit.value)] else old(mappings)
    {
      if autoCommit && gitAvailable && commit.Some? && commit.value != "" {
        mappings := mappings + [Commit(id, commit.value)];
      }
    }

    method StoreCheckpoint(cp: Checkpoint)
      requires ValidMemory(sqlite)
      modifies this`sqlite
      ensures ValidMemory(sqlite) && sqlite == Put(old(sqlite), cp)
    {
      PutKeepsValid(sqlite, cp);
      sqlite := Put(sqlite, cp);
    }

    method RollbackTo(checkpointId: string, checkedOut: bool) returns (r: Result<Option<Checkpoint>, RollbackError>)
      requires ValidMemory(sqlite)
      modifies this
      ensures ValidMemory(sqlite) && mappings == old(mappings)
      ensures r.Ok? <==>
                && FindCommit(mappings, checkpointId).Some? && gitAvailable
                && IsCommitHash(FindCommit(mappings, checkpointId).value.commitHash)
                && ParseId(checkpointId).Some? && checkedOut
      ensures r.Err? ==> sqlite == old(sqlite) && restored == old(restored)
      ensures r.Ok? ==>
                var (threadId, step) := ParseId(checkpointId).value;
                && sqlite == RolledBack(old(sqlite), threadId, step)
                && r.value == FindStep(HistoryOf(sqlite, threadId), step)
                && restored == Some(FindCommit(mappings, checkpointId).value.commitHash)
    {
      var mapping := FindCommit(mappings, checkpointId);
      if mapping.None? {
        return Err(NoMapping);
      }
      if !gitAvailable {
        return Err(GitUnavailable);
      }
      if !IsCommitHash(mapping.value.commitHash) {
        return Err(InvalidHash);
      }
      var parsed := ParseId(checkpointId);
      if parsed.None? {
        return Err(Unparsable);
      }
      if !checkedOut {
        return Err(CheckoutFailed);
      }
      restored := Some(mapping.value.commitHash);
      var (threadId, targetStep) := parsed.value;
      var kept := Truncate(threadId, targetStep);
      r := Ok(FindStep(kept, targetStep));
    }

    /** Deletes the thread and stores again what is kept. */
    method Truncate(threadId: string, step: int) returns (kept: History)
      requires ValidMemory(sqlite)
      modifies this`sqlite
      ensures ValidMemory(sqlite) && sqlite == RolledBack(old(sqlite), threadId, step)
      ensures kept == HistoryOf(sqlite, threadId)
    {
      RollbackIsExact(sqlite, threadId, step);
      RestoredIsRolledBack(sqlite, threadId, step);
      kept := UpTo(HistoryOf(sqlite, threadId), step);
      sqlite := Delete(sqlite, threadId);
      StoreAll(kept, threadId);
    }

    method StoreAll(kept: History, threadId: string)
      requires threadId !in sqlite && forall c :: c in kept ==> c.threadId == threadId
      modifies this`sqlite
      ensures sqlite == Rebuilt(old(sqlite), threadId, kept)
    {
      for i := 0 to |kept|
        invariant sqlite == Rebuilt(old(sqlite), threadId, kept[..i])
      {
        assert kept[i] in kept;
        RebuiltMore(old(sqlite), threadId, kept, i);
        sqlite := Put(sqlite, kept[i]);
      }
      assert kept[..|kept|] == kept;
    }
  }

  // ---- Which commit a rollback uses ----

  /** The places at which an id was recorded, oldest first. */
  function Places(mappings: seq<Commit>, id: string): (places: seq<nat>)
    ensures forall i :: 0 <= i < |places| ==> places[i] < |mappings| && mappings[places[i]].checkpointId == id
    ensures forall i, j :: 0 <= i < j < |places| ==> places[i] < places[j]
  {
    if mappings == [] then []
    else
      var n := |mappings| - 1;
      Places(mappings[..n], id) + if mappings[n].checkpointId == id then [n] else []
  }

  lemma {:induction false} FindAppended(mappings: seq<Commit>, m: Commit, id: string)
    ensures FindCommit(mappings + [m], id) ==
            if FindCommit(mappings, id).Some? then FindCommit(mappings, id)
            else if m.checkpointId == id then Some(m) else None
  {
    if mappings != [] {
      assert (mappings + [m])[1..] == mappings[1..] + [m];
      FindAppended(mappings[1..], m, id);
    }
  }

  lemma {:induction false} OldestIsFound(mappings: seq<Commit>, id: string)
    ensures FindCommit(mappings, id) ==
            if Places(mappings, id) == [] then None else Some(mappings[Places(mappings, id)[0]])
  {
    if mappings != [] {
      var n := |mappings| - 1;
      OldestIsFound(mappings[..n], id);
      FindAppended(mappings[..n], mappings[n], id);
      assert mappings == mappings[..n] + [mappings[n]];
    }
  }

  /**
   A rollback uses the first commit recorded for the id, and that is the last
   one recorded for it exactly when the id was committed once.
   */
  lemma OldestCommitIsUsed(mappings: seq<Commit>, id: string)
    requires FindCommit(mappings, id).Some?
    ensures var places := Places(mappings, id);
            && places != [] && FindCommit(mappings, id) == Some(mappings[places[0]])
            && (places[0] == places[|places| - 1] <==> |places| == 1)
  {
    OldestIsFound(mappings, id);
  }

  /** After two commits of one step, the files go back to the first although the checkpoint is the second. */
  lemma SecondCommitIsIgnored(id: string, first: string, second: string)
    ensures FindCommit([Commit(id, first), Commit(id, second)], id) == Some(Commit(id, first))
  {
  }

  // ---- Committing, going on, rolling back ----

  ghost predicate AllHashes(mappings: seq<Commit>) {
    forall i :: 0 <= i < |mappings| ==> IsCommitHash(mappings[i].commitHash)
  }

  /** A put, and the hash of the commit git made for it, if it made one. */
  datatype Later = Later(cp: Checkpoint, commit: Option<string>)

  ghost predicate HashesOnly(later: seq<Later>) {
    forall i :: 0 <= i < |later| && later[i].commit.Some? ==> IsCommitHash(later[i].commit.value)
  }

  /** The last put of the same step of the same thread. */
  function Newest(cp: Checkpoint, later: seq<Later>): Checkpoint {
    if later == [] then cp
    else
      var last := later[|later| - 1].cp;
      if last.threadId == cp.threadId && last.step == cp.step then last else Newest(cp, later[..|later| - 1])
  }

  lemma {:induction false} NewestIsSameStep(cp: Checkpoint, later: seq<Later>)
    ensures Newest(cp, later).threadId == cp.threadId && Newest(cp, later).step == cp.step
  {
    if later != [] {
      NewestIsSameStep(cp, later[..|later| - 1]);
    }
  }

  lemma StoredStays(m: Memory, x: Checkpoint, cp: Checkpoint)
    requires ValidMemory(m) && x in HistoryOf(m, x.threadId)
    ensures var same := cp.threadId == x.threadId && cp.step == x.step;
            (if same then cp else x) in HistoryOf(Put(m, cp), x.threadId)
  {
    PutStepFacts(HistoryOf(m, cp.threadId), cp);
  }

  /**
   A committed checkpoint, whatever is put and committed afterwards, is the
   latest again after a rollback to its id, in the form in which it was last
   stored; the files are those of the first commit ever recorded for the id.
   */
  method CommitThenRollback(c: WorkspaceCheckpointer, cp: Checkpoint, hash: string, later: seq<Later>)
    returns (latest: Option<Checkpoint>)
    requires ValidMemory(c.sqlite) && AllHashes(c.mappings) && c.autoCommit && c.gitAvailable
    requires IsCommitHash(hash) && cp.step >= 0 && HashesOnly(later)
    modifies c
    ensures latest == Some(Newest(cp, later)) && AllHashes(c.mappings)
    ensures var id := CheckpointId(cp.threadId, cp.step);
            var known := FindCommit(old(c.mappings), id);
            c.restored == Some(if known.Some? then known.value.commitHash else hash)
  {
    var id := CheckpointId(cp.threadId, cp.step);
    PutCommitted(c, cp, hash, id);
    PutAllLater(c, cp, later, id);
    NewestIsSameStep(cp, later);
    latest := ReturnTo(c, Newest(cp, later), id);
  }

  method PutCommitted(c: WorkspaceCheckpointer, cp: Checkpoint, hash: string, id: string)
    requires ValidMemory(c.sqlite) && AllHashes(c.mappings) && c.autoCommit && c.gitAvailable
    requires IsCommitHash(hash) && id == CheckpointId(cp.threadId, cp.step)
    modifies c
    ensures ValidMemory(c.sqlite) && AllHashes(c.mappings) && cp in HistoryOf(c.sqlite, cp.threadId)
    ensures var known := FindCommit(old(c.mappings), id);
            FindCommit(c.mappings, id) == if known.Some? then known else Some(Commit(id, hash))
  {
    c.PutCheckpoint(cp, Some(hash));
    FindAppended(old(c.mappings), Commit(id, hash), id);
    PutStepFacts(HistoryOf(old(c.sqlite), cp.threadId), cp);
  }

  method ReturnTo(c: WorkspaceCheckpointer, cp: Checkpoint, id: string) returns (latest: Option<Checkpoint>)
    requires ValidMemory(c.sqlite) && AllHashes(c.mappings) && c.gitAvailable
    requires cp in HistoryOf(c.sqlite, cp.threadId) && cp.step >= 0 && id == CheckpointId(cp.threadId, cp.step)
    requires FindCommit(c.mappings, id).Some?
    modifies c
    ensures latest == Some(cp) && c.mappings == old(c.mappings)
    ensures c.restored == Some(FindCommit(c.mappings, id).value.commitHash)
  {
    IdRoundTrip(cp.threadId, cp.step);
    RollbackTargetIsLatest(c.sqlite, cp.threadId, cp.step, cp);
    FoundIsHash(c.mappings, id);
    var r := c.RollbackTo(id, true);
    latest := c.Get(cp.threadId);
  }

  method PutAllLater(c: WorkspaceCheckpointer, ghost cp: Checkpoint, later: seq<Later>, ghost id: string)
    requires ValidMemory(c.sqlite) && AllHashes(c.mappings) && HashesOnly(later)
    requires cp in HistoryOf(c.sqlite, cp.threadId) && FindCommit(c.mappings, id).Some?
    modifies c
    ensures ValidMemory(c.sqlite) && AllHashes(c.mappings)
    ensures Newest(cp, later) in HistoryOf(c.sqlite, cp.threadId)
    ensures FindCommit(c.mappings, id) == FindCommit(old(c.mappings), id)
  {
    for i := 0 to |later|
      invariant ValidMemory(c.sqlite) && AllHashes(c.mappings)
      invariant Newest(cp, later[..i]) in HistoryOf(c.sqlite, cp.threadId)
      invariant FindCommit(c.mappings, id) == FindCommit(old(c.mappings), id)
    {
      assert later[..i + 1][..i] == later[..i];
      NewestIsSameStep(cp, later[..i]);
      PutLater(c, Newest(cp, later[..i]), later[i], id);
    }
    assert later[..|later|] == later;
  }

  method PutLater(c: WorkspaceCheckpointer, ghost x: Checkpoint, l: Later, ghost id: string)
    requires ValidMemory(c.sqlite) && AllHashes(c.mappings) && x in HistoryOf(c.sqlite, x.threadId)
    requires (l.commit.Some? ==> IsCommitHash(l.commit.value)) && FindCommit(c.mappings, id).Some?
    modifies c
    ensures ValidMemory(c.sqlite) && AllHashes(c.mappings)
    ensures var same := l.cp.threadId == x.threadId && l.cp.step == x.step;
            (if same then l.cp else x) in HistoryOf(c.sqlite, x.threadId)
    ensures FindCommit(c.mappings, id) == FindCommit(old(c.mappings), id)
  {
    StoredStays(c.sqlite, x, l.cp);
    if l.commit.Some? {
      FindAppended(c.mappings, Commit(CheckpointId(l.cp.threadId, l.cp.step), l.commit.value), id);
    }
    c.PutCheckpoint(l.cp, l.commit);
  }

  lemma {:induction false} FoundIsHash(mappings: seq<Commit>, id: string)
    requires AllHashes(mappings) && FindCommit(mappings, id).Some?
    ensures IsCommitHash(FindCommit(mappings, id).value.commitHash)
  {
    if mappings[0].checkpointId != id {
      FoundIsHash(mappings[1..], id);
    }
  }
}
