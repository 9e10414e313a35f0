/** The Redis checkpointer over one flat key space, refined against the in-memory histories. */
module RedisCheckpoints {
  import opened Wrappers
  import opened Text
  import opened Checkpoints

  // ---- Keys ----

  function DataKey(prefix: string, threadId: string, step: int): string {
    "oni:cp:" + prefix + ":" + threadId + ":" + PrintInt(step)
  }

  function IndexKey(prefix: string, threadId: string): string {
    "oni:cp:idx:" + prefix + ":" + threadId
  }

  /** The prefix is not one that can be mistaken for the start of an index key. */
  predicate Separate(prefix: string) {
    !(prefix + ":" <= "idx:" + prefix + ":")
  }

  lemma PrintIntHasNoColon(n: int)
    ensures Free(PrintInt(n), ':')
  {
  }

  lemma NoColonAfter(a: string, x: string)
    requires Free(x, ':')
    ensures forall i :: |a| < i < |a + ":" + x| ==> (a + ":" + x)[i] != ':'
  {
    var s := a + ":" + x;
    forall i | |a| < i < |s| ensures s[i] != ':' {
      assert s[i] == x[i - |a| - 1];
    }
  }

  lemma LastColon(a: string, x: string, b: string, y: string)
    requires a + ":" + x == b + ":" + y && Free(x, ':') && Free(y, ':')
    ensures a == b && x == y
  {
    var s, s' := a + ":" + x, b + ":" + y;
    NoColonAfter(a, x);
    NoColonAfter(b, y);
    assert s[|a|] == ':' && s'[|b|] == ':';
    assert s[..|a|] == a && s'[..|b|] == b;
    assert s[|a| + 1..] == x && s'[|b| + 1..] == y;
  }

  /** A data key determines its thread and step, whatever the thread is called. */
  lemma DataKeyInjective(prefix: string, t: string, s: int, t': string, s': int)
    requires DataKey(prefix, t, s) == DataKey(prefix, t', s')
    ensures t == t' && s == s'
  {
    PrintIntHasNoColon(s);
    PrintIntHasNoColon(s');
    var start := "oni:cp:" + prefix + ":";
    LastColon(start + t, PrintInt(s), start + t', PrintInt(s'));
    assert (start + t)[|start|..] == t && (start + t')[|start|..] == t';
    ParsePrintInt(s);
    ParsePrintInt(s');
  }

  lemma IndexKeyInjective(prefix: string, t: string, t': string)
    requires IndexKey(prefix, t) == IndexKey(prefix, t')
    ensures t == t'
  {
    var start := "oni:cp:idx:" + prefix + ":";
    assert (start + t)[|start|..] == t && (start + t')[|start|..] == t';
  }

  lemma ShorterIsPrefix(p: string, a: string, q: string, b: string)
    requires p + a == q + b && |p| <= |q|
    ensures p <= q
  {
    assert (p + a)[..|p|] == p && (q + b)[..|p|] == q[..|p|];
  }

  lemma DataKeyParts(head: string, prefix: string, colon: string, t: string, n: string)
    ensures head + prefix + colon + t + colon + n == head + (prefix + colon + (t + colon + n))
  {
  }

  lemma IndexKeyParts(head: string, idx: string, prefix: string, colon: string, t: string)
    ensures head + idx + prefix + colon + t == head + (idx + prefix + colon + t)
  {
  }

  lemma Cancel(head: string, a: string, b: string)
    requires head + a == head + b
    ensures a == b
  {
    assert (head + a)[|head|..] == a && (head + b)[|head|..] == b;
  }

  lemma CollisionMeansPrefix(prefix: string, t: string, s: int, t': string)
    requires DataKey(prefix, t, s) == IndexKey(prefix, t')
    ensures !Separate(prefix)
  {
    var head := "oni:cp:";
    DataKeyParts(head, prefix, ":", t, PrintInt(s));
    IndexKeyParts(head, "idx:", prefix, ":", t');
    var a := t + ":" + PrintInt(s);
    Cancel(head, prefix + ":" + a, "idx:" + prefix + ":" + t');
    ShorterIsPrefix(prefix + ":", a, "idx:" + prefix + ":", t');
  }

  lemma KeysSeparate(prefix: string, t: string, s: int, t': string)
    requires Separate(prefix)
    ensures DataKey(prefix, t, s) != IndexKey(prefix, t')
  {
    if DataKey(prefix, t, s) == IndexKey(prefix, t') {
      CollisionMeansPrefix(prefix, t, s, t');
    }
  }

  /** Data and index keys never collide, for any threads and steps, exactly for such prefixes. */
  lemma SeparateIsExact(prefix: string)
    ensures Separate(prefix) <==> forall t, s, t' :: DataKey(prefix, t, s) != IndexKey(prefix, t')
  {
    if Separate(prefix) {
      forall t, s, t' {
        KeysSeparate(prefix, t, s, t');
      }
    } else {
      var p, q := prefix + ":", "idx:" + prefix + ":";
      var t := q[|p|..];
      assert DataKey(prefix, t, 0) == "oni:cp:" + (p + t) + ":" + PrintInt(0);
      assert p + t == q;
      assert DataKey(prefix, t, 0) == IndexKey(prefix, ":" + PrintInt(0));
    }
  }

  lemma DefaultPrefixIsSeparate()
    ensures Separate("default") && !Separate("idx")
  {
    assert ("default" + ":")[0] != ("idx:" + "default" + ":")[0];
    assert "idx:" + "idx" + ":" == "idx" + ":" + "idx:";
  }

  // ---- The server ----

  /** A member of a sorted set with its score. */
  datatype Entry = Entry(score: int, member: string)

  datatype Value = Text(checkpoint: Checkpoint) | SortedSet(entries: seq<Entry>)

  type Database = map<string, Value>

  datatype RedisError = WrongType(key: string)

  function RemoveMember(entries: seq<Entry>, member: string): seq<Entry> {
    if entries == [] then []
    else (if entries[0].member == member then [] else [entries[0]]) + RemoveMember(entries[1..], member)
  }

  /** By score; no two members of an index have the same score. */
  function InsertEntry(entries: seq<Entry>, e: Entry): seq<Entry> {
    if entries == [] || e.score < entries[0].score then [e] + entries
    else [entries[0]] + InsertEntry(entries[1..], e)
  }

  /** ZADD: a member that is already there moves to its new score. */
  function Zadd(entries: seq<Entry>, e: Entry): seq<Entry> {
    InsertEntry(RemoveMember(entries, e.member), e)
  }

  /** ZRANGE of the whole set: the members by ascending score. */
  function Zrange(db: Database, key: string): Result<seq<string>, RedisError> {
    if key !in db then Ok([])
    else
      match db[key]
      case SortedSet(entries) => Ok(seq(|entries|, i requires 0 <= i < |entries| => entries[i].member))
      case Text(_) => Err(WrongType(key))
  }

  function GetText(db: Database, key: string): Result<Option<Checkpoint>, RedisError> {
    if key !in db then Ok(None)
    else
      match db[key]
      case Text(cp) => Ok(Some(cp))
      case SortedSet(_) => Err(WrongType(key))
  }

  /** The atomic script: SET the data key, then ZADD the step to the index key. */
  function PutScript(db: Database, data: string, index: string, cp: Checkpoint): Result<Database, RedisError> {
    var written := db[data := Text(cp)];
    var e := Entry(cp.step, PrintInt(cp.step));
    if index !in written then Ok(written[index := SortedSet([e])])
    else
      match written[index]
      case SortedSet(entries) => Ok(written[index := SortedSet(Zadd(entries, e))])
      case Text(_) => Err(WrongType(index))
  }

  // ---- The database stands for the histories ----

  function Entries(h: History): (entries: seq<Entry>)
    ensures |entries| == |h|
    ensures forall i :: 0 <= i < |h| ==> entries[i] == Entry(h[i].step, PrintInt(h[i].step))
  {
    seq(|h|, i requires 0 <= i < |h| => Entry(h[i].step, PrintInt(h[i].step)))
  }

  ghost predicate HasIndex(prefix: string, db: Database, m: Memory, t: string) {
    if t in m then IndexKey(prefix, t) in db && db[IndexKey(prefix, t)] == SortedSet(Entries(m[t]))
    else IndexKey(prefix, t) !in db
  }

  /** The data key of a step holds the checkpoint of that step, if there is one. */
  ghost predicate HasData(prefix: string, db: Database, m: Memory, t: string, s: int) {
    var key := DataKey(prefix, t, s);
    && (forall c :: c in HistoryOf(m, t) && c.step == s ==> key in db && db[key] == Text(c))
    && (key in db ==> HasStep(HistoryOf(m, t), s))
  }

  ghost predicate Represents(prefix: string, db: Database, m: Memory) {
    && (forall t :: HasIndex(prefix, db, m, t))
    && (forall t, s :: HasData(prefix, db, m, t, s))
  }

  ghost predicate ByScore(s: seq<Entry>) {
    forall i, j :: 0 <= i < j < |s| ==> s[i].score < s[j].score
  }

  lemma ByScoreFirst(e: Entry, s: seq<Entry>)
    requires ByScore(s) && forall x :: x in s ==> e.score < x.score
    ensures ByScore([e] + s)
  {
    forall i | 0 <= i < |s| ensures e.score < s[i].score {
      assert s[i] in s;
    }
  }

  lemma {:induction false} RemoveMemberFacts(s: seq<Entry>, member: string)
    requires ByScore(s)
    ensures ByScore(RemoveMember(s, member))
    ensures forall x :: x in RemoveMember(s, member) <==> x in s && x.member != member
  {
    if s != [] {
      assert s == [s[0]] + s[1..];
      RemoveMemberFacts(s[1..], member);
      forall x | x in s[1..] ensures s[0].score < x.score {
        var i :| 0 <= i < |s[1..]| && s[1..][i] == x;
        assert s[i + 1] == x;
      }
      ByScoreFirst(s[0], RemoveMember(s[1..], member));
    }
  }

  lemma {:induction false} InsertEntryFacts(s: seq<Entry>, e: Entry)
    requires ByScore(s) && forall x :: x in s ==> x.score != e.score
    ensures ByScore(InsertEntry(s, e))
    ensures forall x :: x in InsertEntry(s, e) <==> x in s || x == e
  {
    if s != [] {
      assert s == [s[0]] + s[1..] && s[0] in s;
      forall x | x in s[1..] ensures s[0].score < x.score {
        var i :| 0 <= i < |s[1..]| && s[1..][i] == x;
        assert s[i + 1] == x;
      }
      if e.score < s[0].score {
        ByScoreFirst(e, s);
      } else {
        InsertEntryFacts(s[1..], e);
        ByScoreFirst(s[0], InsertEntry(s[1..], e));
      }
    } else {
      ByScoreFirst(e, s);
    }
  }

  lemma EmptyTogether(a: seq<Entry>, b: seq<Entry>)
    requires forall x :: x in a <==> x in b
    ensures a == [] <==> b == []
  {
    if a != [] {
      assert a[0] in b;
    }
    if b != [] {
      assert b[0] in a;
    }
  }

  /** Sorted by distinct scores, the same entries are the same sequence. */
  lemma {:induction false} SameEntries(a: seq<Entry>, b: seq<Entry>)
    requires ByScore(a) && ByScore(b) && forall x :: x in a <==> x in b
    ensures a == b
  {
    EmptyTogether(a, b);
    if a != [] {
      assert a[0] in b && b[0] in a;
      assert a[0] == b[0];
      forall x ensures x in a[1..] <==> x in b[1..] {
        RestMembers(a, x);
        RestMembers(b, x);
      }
      SameEntries(a[1..], b[1..]);
      assert a == [a[0]] + a[1..] && b == [b[0]] + b[1..];
    }
  }

  lemma RestMembers(a: seq<Entry>, x: Entry)
    requires ByScore(a) && a != []
    ensures x in a[1..] <==> x in a && x != a[0]
  {
    if x in a && x != a[0] {
      var i :| 0 <= i < |a| && a[i] == x;
      assert a[1..][i - 1] == x;
    }
    if x in a[1..] {
      var i :| 0 <= i < |a[1..]| && a[1..][i] == x;
      assert a[i + 1] == x && a[0].score < a[i + 1].score;
    }
  }

  lemma EntriesMembers(h: History, x: Entry)
    ensures x in Entries(h) <==> exists c :: c in h && x == Entry(c.step, PrintInt(c.step))
  {
    if x in Entries(h) {
      var i :| 0 <= i < |h| && Entries(h)[i] == x;
      assert h[i] in h;
    }
    if c :| c in h && x == Entry(c.step, PrintInt(c.step)) {
      var i :| 0 <= i < |h| && h[i] == c;
      assert Entries(h)[i] == x;
    }
  }

  /** Adding a step to the index is adding it to the history. */
  lemma ZaddIsPut(h: History, cp: Checkpoint)
    requires Ascending(h)
    ensures Zadd(Entries(h), Entry(cp.step, PrintInt(cp.step))) == Entries(PutStep(h, cp))
  {
    var e := Entry(cp.step, PrintInt(cp.step));
    var removed := RemoveMember(Entries(h), e.member);
    PutStepFacts(h, cp);
    RemoveMemberFacts(Entries(h), e.member);
    forall x | x in removed ensures x.score != e.score {
      EntriesMembers(h, x);
    }
    InsertEntryFacts(removed, e);
    forall x ensures x in Zadd(Entries(h), e) <==> x in Entries(PutStep(h, cp)) {
      EntriesMembers(h, x);
      EntriesMembers(PutStep(h, cp), x);
      if c :| c in h && x == Entry(c.step, PrintInt(c.step)) {
        ParsePrintInt(c.step);
        ParsePrintInt(cp.step);
      }
    }
    SameEntries(Zadd(Entries(h), e), Entries(PutStep(h, cp)));
  }

  // ---- Each operation on the database is the operation on the histories ----

  /** The database after storing a checkpoint. */
  function Written(prefix: string, db: Database, m: Memory, cp: Checkpoint): Database {
    db[DataKey(prefix, cp.threadId, cp.step) := Text(cp)]
      [IndexKey(prefix, cp.threadId) := SortedSet(Entries(PutStep(HistoryOf(m, cp.threadId), cp)))]
  }

  lemma PutKeepsIndex(prefix: string, db: Database, m: Memory, cp: Checkpoint, t: string)
    requires Represents(prefix, db, m) && Separate(prefix)
    ensures HasIndex(prefix, Written(prefix, db, m, cp), Put(m, cp), t)
  {
    assert HasIndex(prefix, db, m, t);
    KeysSeparate(prefix, cp.threadId, cp.step, t);
    if IndexKey(prefix, t) == IndexKey(prefix, cp.threadId) {
      IndexKeyInjective(prefix, t, cp.threadId);
    }
  }

  lemma OtherKey(prefix: string, t: string, s: int, t': string, s': int)
    requires Separate(prefix) && (t != t' || s != s')
    ensures DataKey(prefix, t, s) != DataKey(prefix, t', s') && DataKey(prefix, t, s) != IndexKey(prefix, t')
  {
    KeysSeparate(prefix, t, s, t');
    if DataKey(prefix, t, s) == DataKey(prefix, t', s') {
      DataKeyInjective(prefix, t, s, t', s');
    }
  }

  lemma OtherStepsKept(m: Memory, cp: Checkpoint, t: string, s: int)
    requires ValidMemory(m) && (t != cp.threadId || s != cp.step)
    ensures var h, h' := HistoryOf(m, t), HistoryOf(Put(m, cp), t);
            && (forall c: Checkpoint :: c in h' && c.step == s ==> c in h)
            && (HasStep(h, s) ==> HasStep(h', s))
  {
    var h, h' := HistoryOf(m, t), HistoryOf(Put(m, cp), t);
    if t == cp.threadId {
      PutStepFacts(h, cp);
      if HasStep(h, s) {
        var i :| 0 <= i < |h| && h[i].step == s;
        assert h[i] in h';
      }
    }
  }

  lemma PutKeepsOtherData(prefix: string, db: Database, m: Memory, cp: Checkpoint, t: string, s: int)
    requires HasData(prefix, db, m, t, s) && Separate(prefix) && ValidMemory(m)
    requires t != cp.threadId || s != cp.step
    ensures HasData(prefix, Written(prefix, db, m, cp), Put(m, cp), t, s)
  {
    OtherKey(prefix, t, s, cp.threadId, cp.step);
    OtherStepsKept(m, cp, t, s);
  }

  lemma PutKeepsThisData(prefix: string, db: Database, m: Memory, cp: Checkpoint)
    requires Separate(prefix) && ValidMemory(m)
    ensures HasData(prefix, Written(prefix, db, m, cp), Put(m, cp), cp.threadId, cp.step)
  {
    KeysSeparate(prefix, cp.threadId, cp.step, cp.threadId);
    PutStepFacts(HistoryOf(m, cp.threadId), cp);
    assert cp in HistoryOf(Put(m, cp), cp.threadId);
  }

  lemma PutScriptWrites(prefix: string, db: Database, m: Memory, cp: Checkpoint)
    requires HasIndex(prefix, db, m, cp.threadId) && ValidMemory(m) && Separate(prefix)
    ensures PutScript(db, DataKey(prefix, cp.threadId, cp.step), IndexKey(prefix, cp.threadId), cp)
         == Ok(Written(prefix, db, m, cp))
  {
    KeysSeparate(prefix, cp.threadId, cp.step, cp.threadId);
    ZaddIsPut(HistoryOf(m, cp.threadId), cp);
    if cp.threadId !in m {
      var e := Entry(cp.step, PrintInt(cp.step));
      assert Entries([]) == [] && [e] + [] == [e];
      assert Zadd([], e) == [e];
    }
  }

  lemma PutRepresents(prefix: string, db: Database, m: Memory, cp: Checkpoint)
    requires Represents(prefix, db, m) && ValidMemory(m) && Separate(prefix)
    ensures Represents(prefix, Written(prefix, db, m, cp), Put(m, cp))
  {
    var db', m' := Written(prefix, db, m, cp), Put(m, cp);
    forall t ensures HasIndex(prefix, db', m', t) {
      PutKeepsIndex(prefix, db, m, cp, t);
    }
    forall t, s ensures HasData(prefix, db', m', t, s) {
      assert HasData(prefix, db, m, t, s);
      if t != cp.threadId || s != cp.step {
        PutKeepsOtherData(prefix, db, m, cp, t, s);
      } else {
        PutKeepsThisData(prefix, db, m, cp);
      }
    }
  }

  /** The index key and the data keys of all indexed steps. */
  ghost function ThreadKeys(prefix: string, threadId: string, h: History): set<string> {
    {IndexKey(prefix, threadId)} + set c | c in h :: DataKey(prefix, threadId, c.step)
  }

  lemma OtherIndexKept(prefix: string, threadId: string, h: History, t: string)
    requires Separate(prefix)
    ensures IndexKey(prefix, t) in ThreadKeys(prefix, threadId, h) <==> t == threadId
  {
    forall c | c in h ensures DataKey(prefix, threadId, c.step) != IndexKey(prefix, t) {
      KeysSeparate(prefix, threadId, c.step, t);
    }
    if IndexKey(prefix, t) == IndexKey(prefix, threadId) {
      IndexKeyInjective(prefix, t, threadId);
    }
  }

  lemma OtherDataKept(prefix: string, threadId: string, h: History, t: string, s: int)
    requires Separate(prefix)
    ensures DataKey(prefix, t, s) in ThreadKeys(prefix, threadId, h) <==> t == threadId && HasStep(h, s)
  {
    KeysSeparate(prefix, t, s, threadId);
    forall c | c in h && DataKey(prefix, threadId, c.step) == DataKey(prefix, t, s)
      ensures t == threadId && HasStep(h, s)
    {
      DataKeyInjective(prefix, threadId, c.step, t, s);
      var i :| 0 <= i < |h| && h[i] == c;
    }
    if t == threadId && HasStep(h, s) {
      var i :| 0 <= i < |h| && h[i].step == s;
      assert h[i] in h;
    }
  }

  lemma DeleteRepresents(prefix: string, db: Database, m: Memory, threadId: string)
    requires Represents(prefix, db, m) && Separate(prefix)
    ensures Represents(prefix, db - ThreadKeys(prefix, threadId, HistoryOf(m, threadId)), Delete(m, threadId))
  {
    var h := HistoryOf(m, threadId);
    var db', m' := db - ThreadKeys(prefix, threadId, h), Delete(m, threadId);
    forall t ensures HasIndex(prefix, db', m', t) {
      assert HasIndex(prefix, db, m, t);
      OtherIndexKept(prefix, threadId, h, t);
    }
    forall t, s ensures HasData(prefix, db', m', t, s) {
      assert HasData(prefix, db, m, t, s);
      OtherDataKept(prefix, threadId, h, t, s);
    }
  }

  ghost predicate IndexesStep(prefix: string, db: Database, threadId: string, step: string, cp: Checkpoint) {
    ParseInt(step) == Some(cp.step) && GetText(db, DataKey(prefix, threadId, cp.step)) == Ok(Some(cp))
  }

  /** The members of an index are the steps of the history, and each has its data. */
  ghost predicate Indexes(prefix: string, db: Database, threadId: string, steps: seq<string>, h: History) {
    |steps| == |h| && forall i :: 0 <= i < |h| ==> IndexesStep(prefix, db, threadId, steps[i], h[i])
  }

  /** The index lists the steps in order and each has its data, so no command meets a missing or mistyped key. */
  lemma IndexedSteps(prefix: string, db: Database, m: Memory, threadId: string)
    requires Represents(prefix, db, m)
    ensures var r := Zrange(db, IndexKey(prefix, threadId));
            r.Ok? && Indexes(prefix, db, threadId, r.value, HistoryOf(m, threadId))
  {
    assert HasIndex(prefix, db, m, threadId);
    var r := Zrange(db, IndexKey(prefix, threadId)).value;
    var h := HistoryOf(m, threadId);
    forall i | 0 <= i < |h| ensures IndexesStep(prefix, db, threadId, r[i], h[i]) {
      ParsePrintInt(h[i].step);
      assert h[i] in h && HasData(prefix, db, m, threadId, h[i].step);
    }
  }

  lemma BeforeMore(h: History, i: nat, before: Option<int>)
    requires i < |h|
    ensures BeforeStep(h[..i + 1], before) ==
            if before.Some? && h[i].step >= before.value then BeforeStep(h[..i], before)
            else BeforeStep(h[..i], before) + [h[i]]
  {
    assert h[..i + 1][..i] == h[..i];
  }

  /** Fetches the steps before `before`, oldest first. */
  method FetchBefore(prefix: string, db: Database, threadId: string, steps: seq<string>, before: Option<int>,
                     ghost h: History) returns (checkpoints: History)
    requires Indexes(prefix, db, threadId, steps, h)
    ensures checkpoints == BeforeStep(h, before)
  {
    checkpoints := [];
    for i := 0 to |steps|
      invariant checkpoints == BeforeStep(h[..i], before)
    {
      assert IndexesStep(prefix, db, threadId, steps[i], h[i]);
      BeforeMore(h, i, before);
      var step := ParseInt(steps[i]).value;
      if before.Some? && step >= before.value {
        continue;
      }
      var raw := GetText(db, DataKey(prefix, threadId, step)).value;
      checkpoints := checkpoints + [raw.value];
    }
    assert h[..|h|] == h;
  }

  predicate AllParse(steps: seq<string>) {
    forall i :: 0 <= i < |steps| ==> ParseInt(steps[i]).Some?
  }

  /** The keys one `delete` removes: the index key and the data key of each listed step. */
  function KeysOf(prefix: string, threadId: string, steps: seq<string>): set<string>
    requires AllParse(steps)
  {
    {IndexKey(prefix, threadId)} +
    set i | 0 <= i < |steps| :: DataKey(prefix, threadId, ParseInt(steps[i]).value)
  }

  ghost predicate ListsSteps(steps: seq<string>, h: History) {
    |steps| == |h| && forall i :: 0 <= i < |h| ==> ParseInt(steps[i]) == Some(h[i].step)
  }

  lemma KeysOfThread(prefix: string, threadId: string, steps: seq<string>, h: History)
    requires ListsSteps(steps, h)
    ensures KeysOf(prefix, threadId, steps) == ThreadKeys(prefix, threadId, h)
  {
    forall c | c in h ensures DataKey(prefix, threadId, c.step) in KeysOf(prefix, threadId, steps) {
      var i :| 0 <= i < |h| && h[i] == c;
      assert ParseInt(steps[i]).value == c.step;
    }
    forall i | 0 <= i < |steps|
      ensures DataKey(prefix, threadId, ParseInt(steps[i]).value) in ThreadKeys(prefix, threadId, h)
    {
      assert h[i] in h && ParseInt(steps[i]).value == h[i].step;
    }
  }

  lemma IndexListsSteps(prefix: string, db: Database, threadId: string, steps: seq<string>, h: History)
    requires Indexes(prefix, db, threadId, steps, h)
    ensures ListsSteps(steps, h)
  {
    forall i | 0 <= i < |h| ensures ParseInt(steps[i]) == Some(h[i].step) {
      assert IndexesStep(prefix, db, threadId, steps[i], h[i]);
    }
  }

  /** The last member of the index leads to the latest checkpoint. */
  lemma LastIndexedIsLatest(prefix: string, db: Database, m: Memory, threadId: string)
    requires Represents(prefix, db, m)
    ensures var r := Zrange(db, IndexKey(prefix, threadId));
            && r.Ok? && (r.value == [] <==> GetLatest(m, threadId) == None)
            && (r.value != [] ==>
                  var step := ParseInt(r.value[|r.value| - 1]);
                  step.Some? && GetText(db, DataKey(prefix, threadId, step.value)) == Ok(GetLatest(m, threadId)))
  {
    IndexedSteps(prefix, db, m, threadId);
    var steps, h := Zrange(db, IndexKey(prefix, threadId)).value, HistoryOf(m, threadId);
    if steps != [] {
      assert IndexesStep(prefix, db, threadId, steps[|h| - 1], h[|h| - 1]);
    }
  }

  class RedisCheckpointer {
    const prefix: string
    var db: Database
    /** The histories the database stands for. */
    ghost var histories: Memory

    ghost predicate Valid()
      reads this
    {
      Separate(prefix) && ValidMemory(histories) && Represents(prefix, db, histories)
    }

    constructor (prefix: string)
      requires Separate(prefix)
      ensures Valid() && histories == map[] && this.prefix == prefix
    {
      this.prefix := prefix;
      db, histories := map[], map[];
    }

    method Get(threadId: string) returns (r: Option<Checkpoint>)
      requires Valid()
      ensures r == GetLatest(histories, threadId)
    {
      LastIndexedIsLatest(prefix, db, histories, threadId);
      var steps := Zrange(db, IndexKey(prefix, threadId)).value;
      if |steps| == 0 {
        return None;
      }
      var step := ParseInt(steps[|steps| - 1]).value;
      r := GetText(db, DataKey(prefix, threadId, step)).value;
    }

    method PutCheckpoint(cp: Checkpoint)
      requires Valid()
      modifies this
      ensures Valid() && histories == Put(old(histories), cp)
    {
      assert HasIndex(prefix, db, histories, cp.threadId);
      PutScriptWrites(prefix, db, histories, cp);
      PutRepresents(prefix, db, histories, cp);
      PutKeepsValid(histories, cp);
      db := PutScript(db, DataKey(prefix, cp.threadId, cp.step), IndexKey(prefix, cp.threadId), cp).value;
      histories := Put(histories, cp);
    }

    /** `before` is applied while fetching, filter and limit afterwards. */
    method List(threadId: string, opts: ListOptions) returns (items: History)
      requires Valid()
      ensures items == ListAll(histories, threadId, opts)
    {
      IndexedSteps(prefix, db, histories, threadId);
      var steps := Zrange(db, IndexKey(prefix, threadId)).value;
      items := FetchBefore(prefix, db, threadId, steps, opts.before, HistoryOf(histories, threadId));
      items := Filtered(items, opts.filter);
      items := Limited(items, opts.limit);
    }

    method DeleteThread(threadId: string)
      requires Valid()
      modifies this
      ensures Valid() && histories == Delete(old(histories), threadId)
    {
      IndexedSteps(prefix, db, histories, threadId);
      var steps := Zrange(db, IndexKey(prefix, threadId)).value;
      IndexListsSteps(prefix, db, threadId, steps, HistoryOf(histories, threadId));
      KeysOfThread(prefix, threadId, steps, HistoryOf(histories, threadId));
      var keys := KeysOf(prefix, threadId, steps);
      DeleteRepresents(prefix, db, histories, threadId);
      db := db - keys;
      histories := Delete(histories, threadId);
    }
  }

  // ---- Any sequence of calls is answered alike ----

  datatype Request =
    | GetRequest(threadId: string)
    | PutRequest(cp: Checkpoint)
    | ListRequest(threadId: string, opts: ListOptions)
    | DeleteRequest(threadId: string)

  datatype Answer = Latest(cp: Option<Checkpoint>) | Listed(items: History) | Stored

  function AnswerOf(m: Memory, q: Request): Answer {
    match q
    case GetRequest(t) => Latest(GetLatest(m, t))
    case ListRequest(t, opts) => Listed(ListAll(m, t, opts))
    case PutRequest(_) => Stored
    case DeleteRequest(_) => Stored
  }

  function AfterRequest(m: Memory, q: Request): Memory {
    match q
    case PutRequest(cp) => Put(m, cp)
    case DeleteRequest(t) => Delete(m, t)
    case GetRequest(_) => m
    case ListRequest(_, _) => m
  }

  function Answers(m: Memory, requests: seq<Request>): (answers: seq<Answer>)
    ensures |answers| == |requests|
    decreases requests
  {
    if requests == [] then []
    else [AnswerOf(m, requests[0])] + Answers(AfterRequest(m, requests[0]), requests[1..])
  }

  lemma AnswersFirst(m: Memory, requests: seq<Request>, i: nat)
    requires i < |requests|
    ensures Answers(m, requests[i..]) ==
            [AnswerOf(m, requests[i])] + Answers(AfterRequest(m, requests[i]), requests[i + 1..])
  {
    assert requests[i..][0] == requests[i] && requests[i..][1..] == requests[i + 1..];
  }

  lemma OneMoreAnswer(before: seq<Answer>, a: Answer, later: seq<Answer>)
    ensures before + ([a] + later) == before + [a] + later
  {
  }

  method AskMemory(c: MemoryCheckpointer, q: Request) returns (a: Answer)
    requires c.Valid()
    modifies c
    ensures c.Valid()
    ensures a == AnswerOf(old(c.store), q) && c.store == AfterRequest(old(c.store), q)
  {
    match q {
      case GetRequest(t) =>
        var latest := c.Get(t);
        a := Latest(latest);
      case PutRequest(cp) =>
        c.PutCheckpoint(cp);
        a := Stored;
      case ListRequest(t, opts) =>
        var items := c.List(t, opts);
        a := Listed(items);
      case DeleteRequest(t) =>
        c.DeleteThread(t);
        a := Stored;
    }
  }

  method AskRedis(c: RedisCheckpointer, q: Request) returns (a: Answer)
    requires c.Valid()
    modifies c
    ensures c.Valid()
    ensures a == AnswerOf(old(c.histories), q) && c.histories == AfterRequest(old(c.histories), q)
  {
    match q {
      case GetRequest(t) =>
        var latest := c.Get(t);
        a := Latest(latest);
      case PutRequest(cp) =>
        c.PutCheckpoint(cp);
        a := Stored;
      case ListRequest(t, opts) =>
        var items := c.List(t, opts);
        a := Listed(items);
      case DeleteRequest(t) =>
        c.DeleteThread(t);
        a := Stored;
    }
  }

  /** Both checkpointers, started empty and asked the same things, give the same answers throughout. */
  method SameAnswers(prefix: string, requests: seq<Request>) returns (redis: seq<Answer>, memory: seq<Answer>)
    requires Separate(prefix)
    ensures redis == Answers(map[], requests) && memory == Answers(map[], requests)
  {
    var r := new RedisCheckpointer(prefix);
    var m := new MemoryCheckpointer();
    redis, memory := [], [];
    assert requests[0..] == requests;
    for i := 0 to |requests|
      invariant r.Valid() && m.Valid() && r.histories == m.store && fresh(r) && fresh(m)
      invariant redis == memory && redis + Answers(m.store, requests[i..]) == Answers(map[], requests)
    {
      AnswersFirst(m.store, requests, i);
      var a := AskRedis(r, requests[i]);
      var b := AskMemory(m, requests[i]);
      OneMoreAnswer(redis, a, Answers(m.store, requests[i + 1..]));
      redis := redis + [a];
      memory := memory + [b];
    }
    assert redis + [] == redis;
  }
}
