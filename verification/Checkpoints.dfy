/** Checkpoint histories per thread, and the in-memory checkpointer. */
module Checkpoints {
  import opened Wrappers

  datatype Checkpoint = Checkpoint(threadId: string, step: int, state: string, metadata: Option<map<string, string>>)

  datatype ListOptions = ListOptions(before: Option<int>, filter: Option<map<string, string>>, limit: Option<int>)

  type History = seq<Checkpoint>
  type Memory = map<string, History>

  // ---- Histories ----

  ghost predicate Ascending(h: History) {
    forall i, j :: 0 <= i < j < |h| ==> h[i].step < h[j].step
  }

  predicate HasStep(h: History, step: int) {
    exists i :: 0 <= i < |h| && h[i].step == step
  }

  function InsertSorted(h: History, cp: Checkpoint): History {
    if h == [] || h[|h| - 1].step <= cp.step then h + [cp]
    else InsertSorted(h[..|h| - 1], cp) + [h[|h| - 1]]
  }

  /** A stable sort by step. */
  function SortByStep(h: History): History {
    if h == [] then [] else InsertSorted(SortByStep(h[..|h| - 1]), h[|h| - 1])
  }

  function ReplaceStep(h: History, cp: Checkpoint): History {
    if h == [] then []
    else (if h[0].step == cp.step then [cp] + h[1..] else [h[0]] + ReplaceStep(h[1..], cp))
  }

  /** Overwrites the checkpoint of the same step, or adds it and sorts. */
  function PutStep(h: History, cp: Checkpoint): History {
    if HasStep(h, cp.step) then ReplaceStep(h, cp) else SortByStep(h + [cp])
  }

  lemma {:induction false} SortedStays(h: History)
    requires Ascending(h)
    ensures SortByStep(h) == h
  {
    if h != [] {
      var n := |h| - 1;
      var init := h[..n];
      SortedStays(init);
      assert n > 0 ==> init[n - 1].step < h[n].step;
      assert h == init + [h[n]];
    }
  }

  lemma AppendHigher(h: History, last: Checkpoint)
    requires Ascending(h) && forall c :: c in h ==> c.step < last.step
    ensures Ascending(h + [last])
  {
    forall i | 0 <= i < |h| ensures h[i].step < last.step {
      assert h[i] in h;
    }
  }

  lemma {:induction false} InsertFacts(h: History, cp: Checkpoint)
    requires Ascending(h) && !HasStep(h, cp.step)
    ensures Ascending(InsertSorted(h, cp))
    ensures forall c :: c in InsertSorted(h, cp) <==> c in h || c == cp
  {
    if h != [] && h[|h| - 1].step > cp.step {
      var n := |h| - 1;
      var init := h[..n];
      assert forall i :: 0 <= i < n ==> init[i] == h[i];
      InsertFacts(init, cp);
      assert h == init + [h[n]];
      AppendHigher(InsertSorted(init, cp), h[n]);
    } else {
      AppendHigher(h, cp);
    }
  }

  lemma {:induction false} ReplaceFacts(h: History, cp: Checkpoint)
    requires Ascending(h) && HasStep(h, cp.step)
    ensures |ReplaceStep(h, cp)| == |h|
    ensures forall i :: 0 <= i < |h| ==> ReplaceStep(h, cp)[i] == if h[i].step == cp.step then cp else h[i]
  {
    if h[0].step == cp.step {
      assert forall i :: 0 < i < |h| ==> h[i].step != cp.step;
    } else {
      var rest := h[1..];
      assert HasStep(rest, cp.step) by {
        var i :| 0 <= i < |h| && h[i].step == cp.step;
        assert rest[i - 1].step == cp.step;
      }
      ReplaceFacts(rest, cp);
      forall i | 0 < i < |h| ensures ReplaceStep(h, cp)[i] == if h[i].step == cp.step then cp else h[i] {
        assert h[i] == rest[i - 1];
      }
    }
  }

  lemma ReplaceMembers(h: History, cp: Checkpoint, c: Checkpoint)
    requires Ascending(h) && HasStep(h, cp.step)
    ensures c in ReplaceStep(h, cp) <==> c == cp || (c in h && c.step != cp.step)
  {
    ReplaceFacts(h, cp);
    var p := ReplaceStep(h, cp);
    var k :| 0 <= k < |h| && h[k].step == cp.step;
    assert p[k] == cp;
    if c in h && c.step != cp.step {
      var i :| 0 <= i < |h| && h[i] == c;
      assert p[i] == c;
    }
    if c in p {
      var i :| 0 <= i < |p| && p[i] == c;
      assert c == if h[i].step == cp.step then cp else h[i];
    }
  }

  lemma ReplaceKeepsAscending(h: History, cp: Checkpoint)
    requires Ascending(h) && HasStep(h, cp.step)
    ensures Ascending(ReplaceStep(h, cp)) && ReplaceStep(h, cp) != []
  {
    ReplaceFacts(h, cp);
    var p := ReplaceStep(h, cp);
    assert forall i :: 0 <= i < |h| ==> p[i].step == h[i].step;
  }

  /** Storing keeps the history ascending and changes exactly the checkpoint of that step. */
  lemma PutStepFacts(h: History, cp: Checkpoint)
    requires Ascending(h)
    ensures Ascending(PutStep(h, cp)) && PutStep(h, cp) != []
    ensures forall c :: c in PutStep(h, cp) <==> c == cp || (c in h && c.step != cp.step)
  {
    if HasStep(h, cp.step) {
      ReplaceKeepsAscending(h, cp);
      forall c ensures c in PutStep(h, cp) <==> c == cp || (c in h && c.step != cp.step) {
        ReplaceMembers(h, cp, c);
      }
    } else {
      SortedStays(h);
      assert (h + [cp])[..|h|] == h;
      InsertFacts(h, cp);
      forall c | c in h ensures c.step != cp.step {
        var i :| 0 <= i < |h| && h[i] == c;
      }
    }
  }

  // ---- Answering ----

  function BeforeStep(h: History, before: Option<int>): History {
    if h == [] then []
    else
      var last := h[|h| - 1];
      BeforeStep(h[..|h| - 1], before) + if before.None? || last.step < before.value then [last] else []
  }

  predicate Matches(cp: Checkpoint, filter: map<string, string>) {
    cp.metadata.Some? && forall k :: k in filter ==> k in cp.metadata.value && cp.metadata.value[k] == filter[k]
  }

  function Filtered(h: History, filter: Option<map<string, string>>): History {
    if h == [] then []
    else (if filter.None? || Matches(h[0], filter.value) then [h[0]] else []) + Filtered(h[1..], filter)
  }

  /** The array method `slice(0, n)`: a negative end counts from the back. */
  function Limited(h: History, limit: Option<int>): History {
    match limit
    case None => h
    case Some(n) =>
      if n >= 0 then (if n <= |h| then h[..n] else h)
      else if -n <= |h| then h[..|h| + n]
      else []
  }

  function HistoryOf(m: Memory, threadId: string): History {
    if threadId in m then m[threadId] else []
  }

  function GetLatest(m: Memory, threadId: string): Option<Checkpoint> {
    var h := HistoryOf(m, threadId);
    if h == [] then None else Some(h[|h| - 1])
  }

  function ListAll(m: Memory, threadId: string, opts: ListOptions): History {
    Limited(Filtered(BeforeStep(HistoryOf(m, threadId), opts.before), opts.filter), opts.limit)
  }

  function Put(m: Memory, cp: Checkpoint): Memory {
    m[cp.threadId := PutStep(HistoryOf(m, cp.threadId), cp)]
  }

  function Delete(m: Memory, threadId: string): Memory {
    m - {threadId}
  }

  ghost predicate ValidHistory(threadId: string, h: History) {
    h != [] && Ascending(h) && forall c :: c in h ==> c.threadId == threadId
  }

  ghost predicate ValidMemory(m: Memory) {
    forall t :: t in m ==> ValidHistory(t, m[t])
  }

  lemma PutKeepsValid(m: Memory, cp: Checkpoint)
    requires ValidMemory(m)
    ensures ValidMemory(Put(m, cp))
  {
    PutStepFacts(HistoryOf(m, cp.threadId), cp);
  }

  // ---- Forking ----

  function UpTo(h: History, step: int): History {
    if h == [] then [] else UpTo(h[..|h| - 1], step) + if h[|h| - 1].step <= step then [h[|h| - 1]] else []
  }

  function Moved(h: History, threadId: string): History {
    if h == [] then [] else Moved(h[..|h| - 1], threadId) + [h[|h| - 1].(threadId := threadId)]
  }

  /** The destination becomes exactly the truncated source, unless there is nothing to copy. */
  function Fork(m: Memory, source: string, step: int, dest: string): Memory {
    var upTo := UpTo(HistoryOf(m, source), step);
    if upTo == [] then m else m[dest := Moved(upTo, dest)]
  }

  lemma {:induction false} UpToFacts(h: History, step: int)
    requires Ascending(h)
    ensures Ascending(UpTo(h, step)) && UpTo(h, step) <= h
    ensures forall c :: c in UpTo(h, step) <==> c in h && c.step <= step
  {
    if h != [] {
      var n := |h| - 1;
      var init := h[..n];
      assert h == init + [h[n]];
      UpToFacts(init, step);
      if h[n].step <= step {
        AllUpTo(init, step);
      } else {
        assert UpTo(init, step) + [] == UpTo(init, step);
      }
    }
  }

  lemma {:induction false} AllUpTo(h: History, step: int)
    requires forall i :: 0 <= i < |h| ==> h[i].step <= step
    ensures UpTo(h, step) == h
  {
    if h != [] {
      AllUpTo(h[..|h| - 1], step);
      assert h == h[..|h| - 1] + [h[|h| - 1]];
    }
  }

  lemma {:induction false} MovedFacts(h: History, threadId: string)
    ensures |Moved(h, threadId)| == |h|
    ensures forall i :: 0 <= i < |h| ==> Moved(h, threadId)[i] == h[i].(threadId := threadId)
  {
    if h != [] {
      MovedFacts(h[..|h| - 1], threadId);
    }
  }

  lemma ForkKeepsValid(m: Memory, source: string, step: int, dest: string)
    requires ValidMemory(m)
    ensures ValidMemory(Fork(m, source, step, dest))
  {
    UpToFacts(HistoryOf(m, source), step);
    MovedFacts(UpTo(HistoryOf(m, source), step), dest);
  }

  /** Storing an ascending history checkpoint by checkpoint into an empty thread rebuilds it. */
  function PutAll(h: History, add: History): History {
    if add == [] then h else PutStep(PutAll(h, add[..|add| - 1]), add[|add| - 1])
  }

  lemma {:induction false} PutAllRebuilds(h: History)
    requires Ascending(h)
    ensures PutAll([], h) == h
  {
    if h != [] {
      var n := |h| - 1;
      PutAllRebuilds(h[..n]);
      forall i | 0 <= i < n ensures h[..n][i].step != h[n].step {
        assert h[i].step < h[n].step;
      }
      assert h[..n] + [h[n]] == h;
      SortedStays(h);
    }
  }

  lemma MovedMembers(h: History, threadId: string, c: Checkpoint)
    ensures c in Moved(h, threadId) <==> exists o :: o in h && c == o.(threadId := threadId)
  {
    MovedFacts(h, threadId);
    if c in Moved(h, threadId) {
      var i :| 0 <= i < |h| && Moved(h, threadId)[i] == c;
      assert h[i] in h;
    }
    if o :| o in h && c == o.(threadId := threadId) {
      var i :| 0 <= i < |h| && h[i] == o;
      assert Moved(h, threadId)[i] == c;
    }
  }

  /** After a fork the destination holds exactly the moved checkpoints up to the step; other threads are untouched. */
  lemma ForkIsExact(m: Memory, source: string, step: int, dest: string)
    requires ValidMemory(m) && UpTo(HistoryOf(m, source), step) != []
    ensures var f := Fork(m, source, step, dest);
            && (forall c :: c in HistoryOf(f, dest) <==>
                  exists o :: o in HistoryOf(m, source) && o.step <= step && c == o.(threadId := dest))
            && (forall t :: t != dest ==> HistoryOf(f, t) == HistoryOf(m, t))
  {
    var h, upTo := HistoryOf(m, source), UpTo(HistoryOf(m, source), step);
    UpToFacts(h, step);
    forall c ensures c in Moved(upTo, dest) <==>
                     exists o :: o in h && o.step <= step && c == o.(threadId := dest) {
      MovedMembers(upTo, dest, c);
    }
  }

  lemma DeleteThenStore<K, V>(m: map<K, V>, k: K, v: V)
    ensures (m - {k})[k := v] == m[k := v]
  {
  }

  lemma ForkRebuilt(m: Memory, source: string, step: int, dest: string)
    requires ValidMemory(m) && UpTo(HistoryOf(m, source), step) != []
    ensures Delete(m, dest)[dest := PutAll([], Moved(UpTo(HistoryOf(m, source), step), dest))]
         == Fork(m, source, step, dest)
  {
    var moved := Moved(UpTo(HistoryOf(m, source), step), dest);
    UpToFacts(HistoryOf(m, source), step);
    MovedKeepsAscending(UpTo(HistoryOf(m, source), step), dest);
    PutAllRebuilds(moved);
    DeleteThenStore(m, dest, moved);
  }

  lemma MovedKeepsAscending(h: History, threadId: string)
    requires Ascending(h)
    ensures Ascending(Moved(h, threadId))
  {
    MovedFacts(h, threadId);
    assert forall i :: 0 <= i < |h| ==> Moved(h, threadId)[i].step == h[i].step;
  }

  /** The latest checkpoint is the thread's own and no stored step is higher. */
  lemma LatestIsHighest(m: Memory, threadId: string)
    requires ValidMemory(m)
    ensures GetLatest(m, threadId) == None <==> HistoryOf(m, threadId) == []
    ensures GetLatest(m, threadId).Some? ==>
              var latest := GetLatest(m, threadId).value;
              && latest in HistoryOf(m, threadId) && latest.threadId == threadId
              && forall c :: c in HistoryOf(m, threadId) ==> c.step <= latest.step
  {
    var h := HistoryOf(m, threadId);
    forall c | c in h ensures c.step <= h[|h| - 1].step {
      var i :| 0 <= i < |h| && h[i] == c;
    }
  }

  // ---- The checkpointers ----

  class MemoryCheckpointer {
    var store: Memory

    /** Each thread has a history, ascending by step and its own. */
    ghost predicate Valid()
      reads this
    {
      ValidMemory(store)
    }

    constructor ()
      ensures Valid() && store == map[]
    {
      store := map[];
    }

    method Get(threadId: string) returns (r: Option<Checkpoint>)
      requires Valid()
      ensures r == GetLatest(store, threadId)
      ensures r == None <==> HistoryOf(store, threadId) == []
      ensures r.Some? ==>
                && r.value in HistoryOf(store, threadId) && r.value.threadId == threadId
                && forall c :: c in HistoryOf(store, threadId) ==> c.step <= r.value.step
    {
      LatestIsHighest(store, threadId);
      var history := if threadId in store then store[threadId] else [];
      if |history| == 0 {
        return None;
      }
      return Some(history[|history| - 1]);
    }

    method PutCheckpoint(cp: Checkpoint)
      requires Valid()
      modifies this
      ensures Valid() && store == Put(old(store), cp)
    {
      PutKeepsValid(store, cp);
      var existing := if cp.threadId in store then store[cp.threadId] else [];
      if HasStep(existing, cp.step) {
        existing := ReplaceStep(existing, cp);
      } else {
        existing := SortByStep(existing + [cp]);
      }
      store := store[cp.threadId := existing];
    }

    method List(threadId: string, opts: ListOptions) returns (items: History)
      ensures items == ListAll(store, threadId, opts)
    {
      items := if threadId in store then store[threadId] else [];
      items := BeforeStep(items, opts.before);
      items := Filtered(items, opts.filter);
      items := Limited(items, opts.limit);
    }

    method DeleteThread(threadId: string)
      requires Valid()
      modifies this
      ensures Valid() && store == Delete(old(store), threadId)
    {
      store := store - {threadId};
    }

    method ForkThread(source: string, step: int, dest: string) returns (ok: bool)
      requires Valid()
      modifies this
      ensures Valid() && store == Fork(old(store), source, step, dest)
      ensures ok <==> UpTo(HistoryOf(old(store), source), step) != []
    {
      ForkKeepsValid(store, source, step, dest);
      var history := if source in store then store[source] else [];
      var upTo := UpTo(history, step);
      if |upTo| == 0 {
        return false;
      }
      store := store[dest := Moved(upTo, dest)];
      return true;
    }

    /** The fork of the persistent base class, through the public operations alone, has the same effect. */
    method ForkByCopy(source: string, step: int, dest: string) returns (ok: bool)
      requires Valid()
      modifies this
      ensures Valid() && store == Fork(old(store), source, step, dest)
      ensures ok <==> UpTo(HistoryOf(old(store), source), step) != []
    {
      var all := List(source, ListOptions(None, None, None));
      ListEverything(store, source);
      var upTo := UpTo(all, step);
      if |upTo| == 0 {
        return false;
      }
      ForkRebuilt(store, source, step, dest);
      DeleteThread(dest);
      CopyAll(upTo, dest);
      return true;
    }

    method CopyAll(upTo: History, dest: string)
      requires Valid() && upTo != [] && dest !in store
      modifies this
      ensures Valid() && store == old(store)[dest := PutAll([], Moved(upTo, dest))]
    {
      ghost var before, moved := store, Moved(upTo, dest);
      MovedFacts(upTo, dest);
      for i := 0 to |upTo|
        invariant Valid() && store == Rebuilt(before, dest, moved[..i])
      {
        RebuiltMore(before, dest, moved, i);
        PutCheckpoint(upTo[i].(threadId := dest));
      }
      assert moved[..|upTo|] == moved;
    }
  }

  /** The thread holds what has been stored one by one, or is still missing. */
  function Rebuilt(m: Memory, threadId: string, add: History): Memory {
    if add == [] then m else m[threadId := PutAll([], add)]
  }

  lemma RebuiltMore(m: Memory, threadId: string, add: History, i: nat)
    requires threadId !in m && i < |add| && add[i].threadId == threadId
    ensures Put(Rebuilt(m, threadId, add[..i]), add[i]) == Rebuilt(m, threadId, add[..i + 1])
  {
    assert add[..i + 1][..i] == add[..i];
  }

  lemma {:induction false} NothingFilteredOut(h: History)
    ensures BeforeStep(h, None) == h && Filtered(h, None) == h
  {
    if h != [] {
      NothingFilteredOut(h[1..]);
      NothingFilteredOut(h[..|h| - 1]);
      assert h == [h[0]] + h[1..] && h == h[..|h| - 1] + [h[|h| - 1]];
    }
  }

  lemma ListEverything(m: Memory, threadId: string)
    ensures ListAll(m, threadId, ListOptions(None, None, None)) == HistoryOf(m, threadId)
  {
    NothingFilteredOut(HistoryOf(m, threadId));
  }

  // ---- What a list contains ----

  lemma {:induction false} BeforeStepFacts(h: History, before: Option<int>)
    requires Ascending(h)
    ensures Ascending(BeforeStep(h, before))
    ensures forall c :: c in BeforeStep(h, before) <==> c in h && (before.Some? ==> c.step < before.value)
  {
    if h != [] {
      var n := |h| - 1;
      var init := h[..n];
      assert h == init + [h[n]];
      BeforeStepFacts(init, before);
      forall c | c in BeforeStep(init, before) ensures c.step < h[n].step {
        var i :| 0 <= i < n && init[i] == c;
        assert h[i].step < h[n].step;
      }
      if before.None? || h[n].step < before.value {
        AppendHigher(BeforeStep(init, before), h[n]);
      }
    }
  }

  ghost predicate HasMetadata(c: Checkpoint, filter: map<string, string>) {
    match c.metadata
    case Some(metadata) => forall k :: k in filter ==> k in metadata && metadata[k] == filter[k]
    case None => false
  }

  lemma {:induction false} FilteredFacts(h: History, filter: Option<map<string, string>>)
    requires Ascending(h)
    ensures Ascending(Filtered(h, filter))
    ensures forall c :: c in Filtered(h, filter) <==> c in h && (filter.Some? ==> HasMetadata(c, filter.value))
  {
    if h != [] {
      var rest := h[1..];
      assert h == [h[0]] + rest;
      FilteredFacts(rest, filter);
      forall c | c in Filtered(rest, filter) ensures h[0].step < c.step {
        var i :| 0 <= i < |rest| && rest[i] == c;
        assert h[i + 1] == c;
      }
      PrependLower(h[0], Filtered(rest, filter));
    }
  }

  lemma PrependLower(first: Checkpoint, h: History)
    requires Ascending(h) && forall c :: c in h ==> first.step < c.step
    ensures Ascending([first] + h)
  {
    forall i | 0 <= i < |h| ensures first.step < h[i].step {
      assert h[i] in h;
    }
  }

  /** Without a limit: by ascending step, exactly the thread's checkpoints before the bound with all the metadata. */
  lemma ListIsExact(m: Memory, threadId: string, before: Option<int>, filter: Option<map<string, string>>)
    requires ValidMemory(m)
    ensures var items := ListAll(m, threadId, ListOptions(before, filter, None));
            && Ascending(items)
            && forall c :: c in items <==>
                 && c in HistoryOf(m, threadId) && (before.Some? ==> c.step < before.value)
                 && (filter.Some? ==> HasMetadata(c, filter.value))
  {
    BeforeStepFacts(HistoryOf(m, threadId), before);
    FilteredFacts(BeforeStep(HistoryOf(m, threadId), before), filter);
  }

  /** A limit keeps the oldest so many; a negative one leaves out the newest so many. */
  lemma LimitIsPrefix(m: Memory, threadId: string, opts: ListOptions, limit: int)
    requires opts.limit == Some(limit)
    ensures var items, all := ListAll(m, threadId, opts), ListAll(m, threadId, opts.(limit := None));
            && items <= all
            && (0 <= limit <= |all| ==> |items| == limit) && (limit > |all| ==> items == all)
            && (-|all| <= limit < 0 ==> |items| == |all| + limit) && (limit < -|all| ==> items == [])
  {
  }
}
