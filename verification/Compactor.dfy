/** Pruning old tool results without separating calls from their results. */
module Compactor {
  import opened Wrappers
  import opened Sequences
  import opened Pairing
  import opened ModelMessages

  ghost predicate NamedCalls(s: seq<Item>) {
    forall c :: c in s && c.CallsItem? ==> "" !in c.ids
  }

  /** Call ids are distinct and not empty. */
  ghost predicate ProperIds(s: seq<Item>) {
    Distinct(CallIds(s)) && NamedCalls(s)
  }

  // ---- The pruning rule on pairing items ----

  function ResultIds(s: seq<Item>): set<string> {
    set r | r in s && r.ResultItem? && r.id != "" :: r.id
  }

  predicate AllIn(ids: seq<string>, removed: set<string>) {
    forall i :: 0 <= i < |ids| ==> ids[i] in removed
  }

  /** Results whose calling message also calls something unanswered, so that it stays. */
  function KeptIds(s: seq<Item>, removed: set<string>): set<string> {
    set c, id | c in s && c.CallsItem? && !AllIn(c.ids, removed) && id in c.ids && id in removed :: id
  }

  predicate Stays(i: Item, removed: set<string>, kept: set<string>) {
    match i
    case ResultItem(id) => id != "" && id in kept
    case CallsItem(ids) => !AllIn(ids, removed)
    case _ => true
  }

  function Pruned(s: seq<Item>, removed: set<string>, kept: set<string>): seq<Item> {
    if s == [] then []
    else
      var x := s[|s| - 1];
      Pruned(s[..|s| - 1], removed, kept) + if Stays(x, removed, kept) then [x] else []
  }

  lemma {:induction false} PrunedMembers(s: seq<Item>, removed: set<string>, kept: set<string>, x: Item)
    ensures x in Pruned(s, removed, kept) <==> x in s && Stays(x, removed, kept)
  {
    if s != [] {
      PrunedMembers(s[..|s| - 1], removed, kept, x);
      assert s == s[..|s| - 1] + [s[|s| - 1]];
    }
  }

  function Prune(older: seq<Item>): seq<Item> {
    var removed := ResultIds(older);
    Pruned(older, removed, KeptIds(older, removed))
  }

  // ---- No result is left without its call ----

  /** `all` is the whole older portion and `s` the part of it pruned so far. */
  lemma {:induction false} PrunedPaired(all: seq<Item>, n: nat)
    requires n <= |all| && Paired(all[..n]) && Distinct(CallIds(all))
    ensures var removed := ResultIds(all);
            Paired(Pruned(all[..n], removed, KeptIds(all, removed)))
  {
    var removed := ResultIds(all);
    var kept := KeptIds(all, removed);
    if n > 0 {
      var s, x := all[..n - 1], all[n - 1];
      assert all[..n][..n - 1] == s;
      PrunedPaired(all, n - 1);
      var p := Pruned(s, removed, kept);
      assert (p + [x])[..|p + [x]| - 1] == p;
      assert Pruned(all[..n], removed, kept) == p + (if Stays(x, removed, kept) then [x] else []);
      if x.ResultItem? && Stays(x, removed, kept) {
        CallStays(all, s, x.id);
      } else {
        assert p + [] == p;
      }
    }
  }

  /** A kept result's call is kept too. */
  lemma CallStays(all: seq<Item>, s: seq<Item>, id: string)
    requires Distinct(CallIds(all)) && HasCall(s, id) && forall c :: c in s ==> c in all
    requires id in KeptIds(all, ResultIds(all))
    ensures HasCall(Pruned(s, ResultIds(all), KeptIds(all, ResultIds(all))), id)
  {
    var removed := ResultIds(all);
    var a :| a in all && a.CallsItem? && !AllIn(a.ids, removed) && id in a.ids;
    var b :| b in s && b.CallsItem? && id in b.ids;
    CallIsUnique(all, a, b, id);
    PrunedMembers(s, removed, KeptIds(all, removed), b);
  }

  /** `r` answers a call of an older message all of whose calls are answered among the older messages. */
  ghost predicate AnswersAgain(older: seq<Item>, r: Item) {
    r.ResultItem? && exists c :: c in older && c.CallsItem? && AllIn(c.ids, ResultIds(older)) && r.id in c.ids
  }

  lemma LastRecentPaired(older: seq<Item>, init: seq<Item>, r: Item)
    requires Distinct(CallIds(older + init)) && r.ResultItem? && HasCall(older + init, r.id)
    ensures HasCall(Prune(older) + init, r.id) <==> !AnswersAgain(older, r)
  {
    var removed := ResultIds(older);
    var c :| c in older + init && c.CallsItem? && r.id in c.ids;
    if c in older {
      PrunedMembers(older, removed, KeptIds(older, removed), c);
    }
    forall d | d in older + init && d.CallsItem? && r.id in d.ids ensures d == c {
      CallIsUnique(older + init, c, d, r.id);
    }
    forall d | d in Prune(older) ensures d in older && Stays(d, removed, KeptIds(older, removed)) {
      PrunedMembers(older, removed, KeptIds(older, removed), d);
    }
    CallIdsConcat(older, init);
    DistinctParts(CallIds(older), CallIds(init));
    CallIdsMembers(older, r.id);
    CallIdsMembers(init, r.id);
  }

  lemma OneMoreRecent(older: seq<Item>, init: seq<Item>, r: Item)
    requires Paired(older + init + [r]) && Distinct(CallIds(older + init + [r]))
    ensures Paired(older + init) && Distinct(CallIds(older + init))
    ensures Paired(Prune(older) + init + [r]) <==> Paired(Prune(older) + init) && !AnswersAgain(older, r)
  {
    PairedLast(older + init, r);
    PairedLast(Prune(older) + init, r);
    DistinctCallsPrefix(older + init, [r]);
    if r.ResultItem? {
      LastRecentPaired(older, init, r);
    }
  }

  lemma NoneRecent(older: seq<Item>)
    requires Paired(older + []) && Distinct(CallIds(older + []))
    ensures Paired(Prune(older) + [])
  {
    assert older + [] == older && Prune(older) + [] == Prune(older);
    assert older[..|older|] == older;
    PrunedPaired(older, |older|);
  }

  /** The recent part finds its calls after pruning exactly when none of them was pruned away. */
  lemma {:induction false} RecentPaired(older: seq<Item>, recent: seq<Item>)
    requires Paired(older + recent) && Distinct(CallIds(older + recent))
    ensures Paired(Prune(older) + recent) <==> forall r :: r in recent ==> !AnswersAgain(older, r)
  {
    if recent == [] {
      NoneRecent(older);
    } else {
      var init, r := recent[..|recent| - 1], recent[|recent| - 1];
      var pruned := Prune(older);
      assert older + recent == older + init + [r];
      assert pruned + recent == pruned + init + [r];
      OneMoreRecent(older, init, r);
      RecentPaired(older, init);
      assert forall x :: x in recent <==> x in init || x == r;
    }
  }

  // ---- Answered turns stay answered ----

  lemma {:induction false} PrunedConcat(s: seq<Item>, t: seq<Item>, removed: set<string>, kept: set<string>)
    ensures Pruned(s + t, removed, kept) == Pruned(s, removed, kept) + Pruned(t, removed, kept)
  {
    if t == [] {
      assert s + t == s;
    } else {
      var x := t[|t| - 1];
      assert (s + t)[..|s + t| - 1] == s + t[..|t| - 1];
      PrunedConcat(s, t[..|t| - 1], removed, kept);
    }
  }

  /** The calls whose results are being scanned, in an older portion pruned as a whole. */
  ghost predicate Scanning(older: seq<Item>, n: nat, current: seq<string>, pending: multiset<string>) {
    && n <= |older|
    && (pending != multiset{} ==> CallsItem(current) in older)
    && Distinct(current) && pending <= multiset(current)
    && forall id :: id in pending ==> id != "" && id in current && ResultItem(id) !in older[..n]
  }

  lemma ScanResult(older: seq<Item>, n: nat, current: seq<string>, pending: multiset<string>)
    requires Scanning(older, n, current, pending)
    requires n < |older| && older[n].ResultItem? && older[n].id in pending
    ensures Scanning(older, n + 1, current, pending - multiset{older[n].id})
  {
    DistinctMultiset(current);
    assert older[..n + 1] == older[..n] + [older[n]];
  }

  /** While a message with calls stays or goes, so do the results of its calls. */
  lemma ResultStaysWithCalls(older: seq<Item>, current: seq<string>, id: string)
    requires Distinct(CallIds(older)) && CallsItem(current) in older && id in current
    requires ResultItem(id) in older && id != ""
    ensures var removed := ResultIds(older);
            Stays(ResultItem(id), removed, KeptIds(older, removed)) <==> !AllIn(current, removed)
  {
    var removed := ResultIds(older);
    assert ResultItem(id).id in removed;
    if id in KeptIds(older, removed) {
      var c :| c in older && c.CallsItem? && !AllIn(c.ids, removed) && id in c.ids;
      CallIsUnique(older, c, CallsItem(current), id);
    }
  }

  /** With distinct call ids, what a message calls is called by no earlier one, and only once. */
  lemma CallsAreNew(s: seq<Item>, n: nat)
    requires n < |s| && s[n].CallsItem? && Distinct(CallIds(s))
    ensures Distinct(s[n].ids) && forall id :: id in s[n].ids ==> !HasCall(s[..n], id)
  {
    var x, rest := s[n], s[n + 1..];
    assert s == s[..n] + ([x] + rest);
    DistinctCallsPrefix(s[..n], [x] + rest);
    assert ([x] + rest)[1..] == rest;
    DistinctParts(x.ids, CallIds(rest));
    forall id | id in x.ids ensures !HasCall(s[..n], id) {
      assert id in CallIds([x] + rest);
      CallIdsMembers(s[..n], id);
    }
  }

  lemma PairedUpTo(s: seq<Item>, n: nat)
    requires n <= |s| && Paired(s)
    ensures Paired(s[..n])
  {
    assert s == s[..n] + s[n..];
    PairedPrefix(s[..n], s[n..]);
  }

  lemma NotAnsweredBefore(before: seq<Item>, calls: Item, id: string)
    requires Paired(before) && !HasCall(before, id) && calls.CallsItem?
    ensures ResultItem(id) !in before + [calls]
  {
    if ResultItem(id) in before {
      PairedResultHasCall(before, id);
    }
  }

  lemma ScanCalls(older: seq<Item>, n: nat)
    requires n < |older| && older[n].CallsItem? && Paired(older) && Distinct(CallIds(older))
    requires forall id :: id in older[n].ids ==> id != ""
    ensures Scanning(older, n + 1, older[n].ids, multiset(older[n].ids))
  {
    var ids := older[n].ids;
    CallsAreNew(older, n);
    PairedUpTo(older, n);
    assert CallsItem(ids) in older;
    assert older[..n + 1] == older[..n] + [older[n]];
    forall id | id in multiset(ids) ensures id in ids && ResultItem(id) !in older[..n + 1] {
      assert id in ids;
      NotAnsweredBefore(older[..n], older[n], id);
    }
  }

  lemma NothingPending(older: seq<Item>, current: seq<string>, pending: multiset<string>)
    requires Scanning(older, |older|, current, pending) && AllIn(current, ResultIds(older))
    ensures pending == multiset{}
  {
    assert older[..|older|] == older;
    forall id ensures id !in pending {
      if id in current {
        assert id in ResultIds(older);
      }
    }
  }

  lemma PrunedFirst(s: seq<Item>, n: nat, removed: set<string>, kept: set<string>, recent: seq<Item>)
    requires n < |s|
    ensures Pruned(s[n..], removed, kept) + recent ==
            (if Stays(s[n], removed, kept) then [s[n]] else []) + (Pruned(s[n + 1..], removed, kept) + recent)
  {
    assert s[n..] == [s[n]] + s[n + 1..];
    PrunedConcat([s[n]], s[n + 1..], removed, kept);
    assert [s[n]][..0] == [];
    assert Pruned([s[n]], removed, kept) == if Stays(s[n], removed, kept) then [s[n]] else [];
  }

  /** The open calls that are left once the calls that go are gone. */
  ghost function Open(older: seq<Item>, current: seq<string>, pending: multiset<string>): multiset<string> {
    if AllIn(current, ResultIds(older)) then multiset{} else pending
  }

  lemma ScanStep(older: seq<Item>, n: nat, current: seq<string>, pending: multiset<string>)
    returns (current': seq<string>)
    requires Scanning(older, n, current, pending) && n < |older| && Fits(older[n], pending)
    requires Paired(older) && ProperIds(older)
    ensures Scanning(older, n + 1, current', After(older[n], pending))
    ensures var removed := ResultIds(older);
            var open, open' := Open(older, current, pending), Open(older, current', After(older[n], pending));
            if Stays(older[n], removed, KeptIds(older, removed))
            then Fits(older[n], open) && After(older[n], open) == open'
            else open == open'
  {
    var x := older[n];
    assert older[..n + 1] == older[..n] + [x];
    match x {
      case SystemItem =>
        current' := current;
      case ResultItem(id) =>
        ScanResult(older, n, current, pending);
        ResultStaysWithCalls(older, current, id);
        current' := current;
      case CallsItem(ids) =>
        ScanCalls(older, n);
        current' := ids;
      case PlainItem =>
        current' := [];
    }
  }

  /** Scanning the rest of the older portion and then the recent messages. */
  lemma {:induction false} PrunedAnswered(older: seq<Item>, recent: seq<Item>, n: nat,
                                          current: seq<string>, pending: multiset<string>)
    requires Scanning(older, n, current, pending) && Answered(older[n..] + recent, pending)
    requires Paired(older) && ProperIds(older)
    ensures var removed := ResultIds(older);
            Answered(Pruned(older[n..], removed, KeptIds(older, removed)) + recent, Open(older, current, pending))
    decreases |older| - n
  {
    var removed := ResultIds(older);
    var kept := KeptIds(older, removed);
    if n == |older| {
      assert older[n..] == [] && [] + recent == recent;
      if AllIn(current, removed) {
        NothingPending(older, current, pending);
      }
    } else {
      AnsweredOn(older, recent, n, pending);
      var current' := ScanStep(older, n, current, pending);
      PrunedAnswered(older, recent, n + 1, current', After(older[n], pending));
      PrunedOn(older, recent, n, removed, kept, Open(older, current, pending),
               Open(older, current', After(older[n], pending)));
    }
  }

  lemma AnsweredOn(s: seq<Item>, recent: seq<Item>, n: nat, pending: multiset<string>)
    requires n < |s| && Answered(s[n..] + recent, pending)
    ensures Fits(s[n], pending) && Answered(s[n + 1..] + recent, After(s[n], pending))
  {
    assert s[n..] + recent == [s[n]] + (s[n + 1..] + recent);
    AnsweredFirst(s[n], s[n + 1..] + recent, pending);
  }

  lemma PrunedOn(s: seq<Item>, recent: seq<Item>, n: nat, removed: set<string>, kept: set<string>,
                 open: multiset<string>, rest: multiset<string>)
    requires n < |s| && Answered(Pruned(s[n + 1..], removed, kept) + recent, rest)
    requires if Stays(s[n], removed, kept) then Fits(s[n], open) && After(s[n], open) == rest else open == rest
    ensures Answered(Pruned(s[n..], removed, kept) + recent, open)
  {
    var out := Pruned(s[n + 1..], removed, kept) + recent;
    PrunedFirst(s, n, removed, kept, recent);
    AnsweredFirst(s[n], out, open);
    assert [] + out == out;
  }

  lemma PruneStaysAnswered(older: seq<Item>, recent: seq<Item>)
    requires FullyAnswered(older + recent) && ProperIds(older + recent)
    ensures FullyAnswered(Prune(older) + recent)
  {
    assert [] + (older + recent) == older + recent;
    AnsweredIsPaired([], older + recent, multiset{});
    PairedPrefix(older, recent);
    DistinctCallsPrefix(older, recent);
    assert older[0..] == older;
    PrunedAnswered(older, recent, 0, [], multiset{});
  }

  // ---- The method on messages ----

  function PrunedMessages(s: seq<Message>, removed: set<string>, kept: set<string>): seq<Message> {
    if s == [] then []
    else
      var m := s[|s| - 1];
      PrunedMessages(s[..|s| - 1], removed, kept) + if Stays(ItemOf(m), removed, kept) then [m] else []
  }

  /** The older portion pruned, the most recent `keepRecent` messages as they were. */
  function Cleared(messages: seq<Message>, keepRecent: nat): seq<Message> {
    if |messages| <= keepRecent then messages
    else
      var cutoff := |messages| - keepRecent;
      var older := Items(messages[..cutoff]);
      PrunedMessages(messages[..cutoff], ResultIds(older), KeptIds(older, ResultIds(older))) + messages[cutoff..]
  }

  method CollectResultIds(older: seq<Message>) returns (ids: set<string>)
    ensures ids == ResultIds(Items(older))
  {
    ids := {};
    for i := 0 to |older|
      invariant ids == ResultIds(Items(older[..i]))
    {
      assert Items(older[..i + 1]) == Items(older[..i]) + [ItemOf(older[i])];
      if older[i].role == Tool && older[i].toolCallId != "" {
        ids := ids + {older[i].toolCallId};
      }
    }
    assert older[..|older|] == older;
  }

  method CollectKeptIds(older: seq<Message>, removed: set<string>) returns (ids: set<string>)
    ensures ids == KeptIds(Items(older), removed)
  {
    ids := {};
    for i := 0 to |older|
      invariant ids == KeptIds(Items(older[..i]), removed)
    {
      assert Items(older[..i + 1]) == Items(older[..i]) + [ItemOf(older[i])];
      var called := Ids(older[i].toolCalls);
      if HasCalls(older[i]) && !AllIn(called, removed) {
        ids := ids + set id | id in called && id in removed;
      }
    }
    assert older[..|older|] == older;
  }

  method ClearOldToolResults(messages: seq<Message>, keepRecent: nat) returns (out: seq<Message>)
    ensures out == Cleared(messages, keepRecent)
  {
    if |messages| <= keepRecent {
      return messages;
    }
    var cutoff := |messages| - keepRecent;
    var olderPortion := messages[..cutoff];
    var removedToolCallIds := CollectResultIds(olderPortion);
    var keptToolCallIds := CollectKeptIds(olderPortion, removedToolCallIds);
    out := [];
    for i := 0 to |olderPortion|
      invariant out == PrunedMessages(olderPortion[..i], removedToolCallIds, keptToolCallIds)
    {
      assert olderPortion[..i + 1][..i] == olderPortion[..i];
      var m := olderPortion[i];
      var keep := true;
      if m.role == Tool {
        keep := m.toolCallId != "" && m.toolCallId in keptToolCallIds;
      } else if HasCalls(m) {
        keep := !AllIn(Ids(m.toolCalls), removedToolCallIds);
      }
      if keep {
        out := out + [m];
      }
    }
    assert olderPortion[..|olderPortion|] == olderPortion;
    out := out + messages[cutoff..];
  }

  // ---- What survives ----

  lemma {:induction false} PrunedItems(s: seq<Message>, removed: set<string>, kept: set<string>)
    ensures Items(PrunedMessages(s, removed, kept)) == Pruned(Items(s), removed, kept)
  {
    if s != [] {
      PrunedItems(s[..|s| - 1], removed, kept);
      assert Items(s)[..|s| - 1] == Items(s[..|s| - 1]);
    }
  }

  /** The results for one id, in order. */
  function ResultsFor(s: seq<Message>, id: string): seq<Message> {
    if s == [] then []
    else
      var m := s[|s| - 1];
      ResultsFor(s[..|s| - 1], id) + if m.role == Tool && m.toolCallId == id then [m] else []
  }

  /** The messages that neither call nor answer. */
  function Others(s: seq<Message>): seq<Message> {
    if s == [] then []
    else
      var m := s[|s| - 1];
      Others(s[..|s| - 1]) + if ItemOf(m).ResultItem? || ItemOf(m).CallsItem? then [] else [m]
  }

  lemma {:induction false} ConcatResults(s: seq<Message>, t: seq<Message>, id: string)
    ensures ResultsFor(s + t, id) == ResultsFor(s, id) + ResultsFor(t, id)
    ensures Others(s + t) == Others(s) + Others(t)
    decreases |t|
  {
    if t == [] {
      assert s + t == s;
    } else {
      assert (s + t)[..|s + t| - 1] == s + t[..|t| - 1];
      ConcatResults(s, t[..|t| - 1], id);
    }
  }

  lemma {:induction false} PrunedSurvivors(s: seq<Message>, removed: set<string>, kept: set<string>, id: string)
    requires ResultItem(id) in Items(s) ==> Stays(ResultItem(id), removed, kept)
    ensures var p := PrunedMessages(s, removed, kept);
            ResultsFor(p, id) == ResultsFor(s, id)
  {
    if s != [] {
      var n := |s| - 1;
      assert Items(s) == Items(s[..n]) + [ItemOf(s[n])];
      PrunedSurvivors(s[..n], removed, kept, id);
      var p := PrunedMessages(s[..n], removed, kept);
      assert (p + [s[n]])[..|p + [s[n]]| - 1] == p && p + [] == p;
    }
  }

  /** The older results of every call that is still made afterwards stay. */
  lemma RemainingCallKeepsResults(older: seq<Item>, recent: seq<Item>, id: string)
    requires Paired(older + recent) && ProperIds(older + recent)
    requires HasCall(Prune(older) + recent, id) && ResultItem(id) in older
    ensures Stays(ResultItem(id), ResultIds(older), KeptIds(older, ResultIds(older)))
  {
    var removed := ResultIds(older);
    var c :| c in Prune(older) + recent && c.CallsItem? && id in c.ids;
    assert c in older + recent by {
      PrunedMembers(older, removed, KeptIds(older, removed), c);
    }
    PairedPrefix(older, recent);
    PairedResultHasCall(older, id);
    DistinctCallsPrefix(older, recent);
    CallIdsMembers(older, id);
    CallIdsMembers(recent, id);
    assert c in Prune(older);
    PrunedMembers(older, removed, KeptIds(older, removed), c);
    assert ResultItem(id).id in removed;
  }

  /** The recent messages are intact, nothing is reordered, and only calls and results are dropped. */
  lemma ClearedKeepsOrder(messages: seq<Message>, keepRecent: nat)
    ensures var out := Cleared(messages, keepRecent);
            && Subsequence(out, messages) && Others(out) == Others(messages)
            && (|messages| > keepRecent ==>
                  |out| >= keepRecent && out[|out| - keepRecent..] == messages[|messages| - keepRecent..])
  {
    if |messages| <= keepRecent {
      SubsequenceAppend<Message>([], [], messages);
      assert [] + messages == messages;
    } else {
      var cutoff := |messages| - keepRecent;
      var o, r := messages[..cutoff], messages[cutoff..];
      var removed, kept := ResultIds(Items(o)), KeptIds(Items(o), ResultIds(Items(o)));
      assert messages == o + r;
      OthersSurvive(o, removed, kept);
      ConcatResults(PrunedMessages(o, removed, kept), r, "");
      ConcatResults(o, r, "");
      SubsequenceAppend(PrunedMessages(o, removed, kept), o, r);
    }
  }

  lemma OlderKeepsResults(o: seq<Message>, r: seq<Message>, removed: set<string>, kept: set<string>, id: string)
    requires ResultItem(id) in Items(o) ==> Stays(ResultItem(id), removed, kept)
    ensures ResultsFor(PrunedMessages(o, removed, kept) + r, id) == ResultsFor(o + r, id)
  {
    PrunedSurvivors(o, removed, kept, id);
    ConcatResults(PrunedMessages(o, removed, kept), r, id);
    ConcatResults(o, r, id);
  }

  lemma SplitKeepsResults(messages: seq<Message>, out: seq<Message>, o: seq<Message>, r: seq<Message>, id: string)
    requires messages == o + r && Items(messages) == Items(o) + Items(r)
    requires out == PrunedMessages(o, ResultIds(Items(o)), KeptIds(Items(o), ResultIds(Items(o)))) + r
    requires Items(out) == Prune(Items(o)) + Items(r)
    requires Paired(Items(messages)) && ProperIds(Items(messages)) && HasCall(Items(out), id)
    ensures ResultsFor(out, id) == ResultsFor(messages, id)
  {
    var older := Items(o);
    if ResultItem(id) in older {
      RemainingCallKeepsResults(older, Items(r), id);
    }
    OlderKeepsResults(o, r, ResultIds(older), KeptIds(older, ResultIds(older)), id);
  }

  /**
   With distinct, non-empty call ids and every result behind its call, a call
   that is still made afterwards has all the results it had before.
   */
  lemma ClearedKeepsResults(messages: seq<Message>, keepRecent: nat, id: string)
    requires Paired(Items(messages)) && ProperIds(Items(messages))
    requires HasCall(Items(Cleared(messages, keepRecent)), id)
    ensures ResultsFor(Cleared(messages, keepRecent), id) == ResultsFor(messages, id)
  {
    if |messages| > keepRecent {
      var cutoff := |messages| - keepRecent;
      ClearedItems(messages, keepRecent);
      assert messages == messages[..cutoff] + messages[cutoff..];
      SplitKeepsResults(messages, Cleared(messages, keepRecent), messages[..cutoff], messages[cutoff..], id);
    }
  }

  lemma {:induction false} OthersSurvive(s: seq<Message>, removed: set<string>, kept: set<string>)
    ensures Others(PrunedMessages(s, removed, kept)) == Others(s)
    ensures Subsequence(PrunedMessages(s, removed, kept), s)
  {
    if s != [] {
      var n := |s| - 1;
      OthersSurvive(s[..n], removed, kept);
      var p := PrunedMessages(s[..n], removed, kept);
      assert (p + [s[n]])[..|p + [s[n]]| - 1] == p && p + [] == p;
    }
  }

  lemma ClearedItems(messages: seq<Message>, keepRecent: nat)
    requires |messages| > keepRecent
    ensures var cutoff := |messages| - keepRecent;
            && Items(Cleared(messages, keepRecent)) == Prune(Items(messages[..cutoff])) + Items(messages[cutoff..])
            && Items(messages) == Items(messages[..cutoff]) + Items(messages[cutoff..])
  {
    var cutoff := |messages| - keepRecent;
    var o, r := messages[..cutoff], messages[cutoff..];
    var removed := ResultIds(Items(o));
    var pruned := PrunedMessages(o, removed, KeptIds(Items(o), removed));
    PrunedItems(o, removed, KeptIds(Items(o), removed));
    ItemsConcat(pruned, r);
    ItemsConcat(o, r);
    assert messages == o + r;
  }

  /**
   Every remaining result still has its call before it, exactly when no recent
   result answers once more a call whose message was answered completely before the cutoff.
   */
  lemma ClearedStaysPaired(messages: seq<Message>, keepRecent: nat)
    requires Paired(Items(messages)) && ProperIds(Items(messages)) && |messages| > keepRecent
    ensures var cutoff := |messages| - keepRecent;
            Paired(Items(Cleared(messages, keepRecent))) <==>
              forall r :: r in Items(messages[cutoff..]) ==> !AnswersAgain(Items(messages[..cutoff]), r)
  {
    ClearedItems(messages, keepRecent);
    RecentPaired(Items(messages[..|messages| - keepRecent]), Items(messages[|messages| - keepRecent..]));
  }

  /** A history in which every call is answered exactly once, right away, stays one. */
  lemma ClearedStaysAnswered(messages: seq<Message>, keepRecent: nat)
    requires FullyAnswered(Items(messages)) && ProperIds(Items(messages))
    ensures FullyAnswered(Items(Cleared(messages, keepRecent)))
  {
    if |messages| > keepRecent {
      var cutoff := |messages| - keepRecent;
      ClearedItems(messages, keepRecent);
      PruneStaysAnswered(Items(messages[..cutoff]), Items(messages[cutoff..]));
    }
  }

  /** No id is answered twice. */
  ghost predicate AnsweredOnce(s: seq<Item>) {
    forall i, j :: 0 <= i < j < |s| && s[i].ResultItem? ==> s[i] != s[j]
  }

  lemma NoneAnswersAgain(older: seq<Item>, recent: seq<Item>)
    requires AnsweredOnce(older + recent)
    ensures forall r :: r in recent ==> !AnswersAgain(older, r)
  {
    forall r | r in recent && r.ResultItem? ensures r !in older {
      var j :| 0 <= j < |recent| && recent[j] == r;
      forall i | 0 <= i < |older| ensures older[i] != r {
        assert (older + recent)[i] != (older + recent)[|older| + j];
      }
    }
    forall r | r in recent && r.ResultItem? ensures r.id !in ResultIds(older) {
    }
  }

  lemma PruneOfAnsweredOnce(all: seq<Item>, older: seq<Item>, recent: seq<Item>, out: seq<Item>)
    requires Paired(all) && ProperIds(all) && AnsweredOnce(all)
    requires all == older + recent && out == Prune(older) + recent
    ensures Paired(out)
  {
    NoneAnswersAgain(older, recent);
    RecentPaired(older, recent);
  }

  lemma AnsweredOnceStaysPaired(messages: seq<Message>, keepRecent: nat)
    requires Paired(Items(messages)) && ProperIds(Items(messages)) && AnsweredOnce(Items(messages))
    ensures Paired(Items(Cleared(messages, keepRecent)))
  {
    if |messages| > keepRecent {
      var cutoff := |messages| - keepRecent;
      ClearedItems(messages, keepRecent);
      PruneOfAnsweredOnce(Items(messages), Items(messages[..cutoff]), Items(messages[cutoff..]),
                          Items(Cleared(messages, keepRecent)));
    }
  }

  lemma IdsOfOne(x: Item)
    ensures CallIds([x]) == if x.CallsItem? then x.ids else []
  {
    assert [x][1..] == [];
    assert x.CallsItem? ==> x.ids + [] == x.ids;
  }

  lemma IdsOfThree(c: Item, r: Item)
    requires c == CallsItem(["a"]) && r == ResultItem("a")
    ensures CallIds([c, r, r]) == ["a"]
  {
    IdsOfOne(c);
    IdsOfOne(r);
    CallIdsConcat([c], [r]);
    CallIdsConcat([c] + [r], [r]);
    assert [c, r, r] == [c] + [r] + [r];
  }

  lemma CallThenTwoAnswers(c: Item, r: Item)
    requires c == CallsItem(["a"]) && r == ResultItem("a")
    ensures Paired([c, r, r]) && ProperIds([c, r, r]) && AnswersAgain([c, r], r)
  {
    IdsOfThree(c, r);
    PairedLast([], c);
    PairedLast([c], r);
    PairedLast([c, r], r);
    assert [c] + [r] == [c, r] && [c, r] + [r] == [c, r, r] && [] + [c] == [c];
    assert c in [c] && c in [c, r] && r in [c, r];
    assert r.id in ResultIds([c, r]);
  }

  /** A call answered before the cutoff and again after it is pruned although its second answer stays. */
  lemma SecondAnswerIsOrphaned()
    ensures var call := Message(Assistant, Text(""), "", "", [ToolCall("a", "f", "{}")]);
            var answer := Message(Tool, Text("ok"), "f", "a", []);
            var history := [call, answer, answer];
            Paired(Items(history)) && ProperIds(Items(history)) && !Paired(Items(Cleared(history, 1)))
  {
    var call := Message(Assistant, Text(""), "", "", [ToolCall("a", "f", "{}")]);
    var answer := Message(Tool, Text("ok"), "f", "a", []);
    var history := [call, answer, answer];
    var c, r := ItemOf(call), ItemOf(answer);
    assert Ids(call.toolCalls) == ["a"];
    assert Items(history) == [c, r, r] && Items(history[..2]) == [c, r] && Items(history[2..]) == [r];
    CallThenTwoAnswers(c, r);
    ClearedStaysPaired(history, 1);
    assert r in Items(history[2..]);
  }

  // ---- Truncation when summarizing fails ----

  const SUFFIX := " [truncated]"

  const NOTICE := [
    Message(User, Text("[The previous conversation was truncated due to context limits. "
                       + "Please continue from where we left off.]"), "", "", []),
    Message(Assistant, Text("Context loaded."), "", "", [])
  ]

  function PartsLength(parts: seq<ContentPart>): nat {
    if parts == [] then 0
    else PartsLength(parts[..|parts| - 1]) + |PartText(parts[|parts| - 1])|
  }

  function CallsLength(calls: seq<ToolCall>): nat {
    if calls == [] then 0
    else CallsLength(calls[..|calls| - 1]) + |calls[|calls| - 1].name| + |calls[|calls| - 1].args|
  }

  /** Characters of a message's content and of its calls' names and arguments. */
  function ContentLength(m: Message): nat {
    (match m.content
     case Text(t) => |t|
     case Parts(parts) => PartsLength(parts)) + CallsLength(m.toolCalls)
  }

  function TotalLength(messages: seq<Message>): nat {
    if messages == [] then 0 else ContentLength(messages[0]) + TotalLength(messages[1..])
  }

  function Slice(t: string, n: nat): string {
    if |t| <= n then t else t[..n]
  }

  function Truncated(m: Message, allowed: nat): Message {
    match m.content
    case Text(t) => m.(content := Text(Slice(t, allowed) + SUFFIX))
    case Parts(parts) =>
      if parts == [] then m
      else
        var last := parts[|parts| - 1];
        match last.text
        case None => m
        case Some(t) =>
          if t == "" then m
          else m.(content := Parts(parts[..|parts| - 1] + [last.(text := Some(Slice(t, allowed) + SUFFIX))]))
  }

  // ---- What the lengths count ----

  /** The texts of all parts, whatever their kind, one after another. */
  function AllText(content: Content): string {
    match content
    case Text(t) => t
    case Parts(parts) => TextOfAll(parts)
  }

  function TextOfAll(parts: seq<ContentPart>): string {
    if parts == [] then ""
    else (match parts[0].text case Some(t) => t case None => "") + TextOfAll(parts[1..])
  }

  function NamesAndArguments(calls: seq<ToolCall>): string {
    if calls == [] then "" else calls[0].name + calls[0].args + NamesAndArguments(calls[1..])
  }

  lemma {:induction false} PartsCount(parts: seq<ContentPart>)
    ensures PartsLength(parts) == |TextOfAll(parts)|
  {
    if |parts| == 1 {
      assert parts[..0] == [] && parts[1..] == [];
    } else if parts != [] {
      var n := |parts| - 1;
      PartsCount(parts[1..]);
      PartsCount(parts[..n]);
      PartsCount(parts[1..n]);
      assert parts[1..][..n - 1] == parts[1..n] && parts[..n][1..] == parts[1..n];
    }
  }

  lemma {:induction false} CallsCount(calls: seq<ToolCall>)
    ensures CallsLength(calls) == |NamesAndArguments(calls)|
  {
    if |calls| == 1 {
      assert calls[..0] == [] && calls[1..] == [];
    } else if calls != [] {
      var n := |calls| - 1;
      CallsCount(calls[1..]);
      CallsCount(calls[..n]);
      CallsCount(calls[1..n]);
      assert calls[1..][..n - 1] == calls[1..n] && calls[..n][1..] == calls[1..n];
    }
  }

  /** A message is as long as its texts and the names and arguments of its calls. */
  lemma LengthCountsAll(m: Message)
    ensures ContentLength(m) == |AllText(m.content)| + |NamesAndArguments(m.toolCalls)|
  {
    CallsCount(m.toolCalls);
    if m.content.Parts? {
      PartsCount(m.content.parts);
    }
  }

  /** The lengths of the messages, one by one. */
  function Lengths(messages: seq<Message>): seq<int> {
    seq(|messages|, i requires 0 <= i < |messages| =>
      |AllText(messages[i].content)| + |NamesAndArguments(messages[i].toolCalls)|)
  }

  lemma {:induction false} TotalOneMore(messages: seq<Message>, m: Message)
    ensures TotalLength(messages + [m]) == TotalLength(messages) + ContentLength(m)
  {
    if messages == [] {
      assert [] + [m] == [m] && [m][1..] == [];
    } else {
      assert (messages + [m])[1..] == messages[1..] + [m];
      TotalOneMore(messages[1..], m);
    }
  }

  lemma {:induction false} TotalIsSum(messages: seq<Message>)
    ensures TotalLength(messages) == Sum(Lengths(messages))
  {
    if messages != [] {
      var n := |messages| - 1;
      TotalIsSum(messages[..n]);
      TotalOneMore(messages[..n], messages[n]);
      LengthCountsAll(messages[n]);
      assert messages == messages[..n] + [messages[n]];
      LengthsOneMore(messages, n);
    }
  }

  lemma LengthsOneMore(messages: seq<Message>, n: nat)
    requires |messages| == n + 1
    ensures var m := messages[n];
            Sum(Lengths(messages)) ==
            Sum(Lengths(messages[..n])) + |AllText(m.content)| + |NamesAndArguments(m.toolCalls)|
  {
    assert Lengths(messages)[..n] == Lengths(messages[..n]);
  }

  /** A cut text begins like the original, has at most so many characters of it, and ends with the mark. */
  ghost predicate CutText(text: string, allowed: nat, cut: string) {
    cut == (if |text| <= allowed then text else text[..allowed]) + " [truncated]"
  }

  /** Cutting a message touches its text, or the text of its last part, and nothing else. */
  lemma TruncatedKeepsRest(m: Message, allowed: nat)
    ensures var t := Truncated(m, allowed);
            && t.role == m.role && t.name == m.name && t.toolCallId == m.toolCallId && t.toolCalls == m.toolCalls
            && match m.content
               case Text(text) => t.content.Text? && CutText(text, allowed, t.content.text)
               case Parts(parts) =>
                 && t.content.Parts? && |t.content.parts| == |parts|
                 && (forall i :: 0 <= i < |parts| - 1 ==> t.content.parts[i] == parts[i])
                 && (parts != [] ==>
                       var n := |parts| - 1;
                       var last, last' := parts[n], t.content.parts[n];
                       && last'.kind == last.kind && last'.imageUrl == last.imageUrl
                       && if last.text == None || last.text == Some("") then last' == last
                          else last'.text.Some? && CutText(last.text.value, allowed, last'.text.value))
  {
  }

  /** `kept` is the longest run of most recent messages within the budget. */
  ghost predicate LongestFit(messages: seq<Message>, budget: int, kept: seq<Message>) {
    exists k :: 0 <= k <= |messages| && kept == messages[k..] && TotalLength(kept) <= budget
             && forall j :: 0 <= j < k ==> TotalLength(messages[j..]) > budget
  }

  lemma {:induction false} LongerIsNoShorter(messages: seq<Message>, j: nat, k: nat)
    requires j <= k <= |messages|
    ensures TotalLength(messages[k..]) <= TotalLength(messages[j..])
    decreases k - j
  {
    if j < k {
      assert messages[j..][1..] == messages[j + 1..];
      LongerIsNoShorter(messages, j + 1, k);
    }
  }

  /**
   What is kept is the longest run of recent messages within the budget; if not
   even the last message fits, it is cut, or dropped for want of any budget.
   */
  ghost predicate KeepsRecent(messages: seq<Message>, budget: int, kept: seq<Message>) {
    if messages == [] then kept == []
    else
      var last := messages[|messages| - 1];
      if ContentLength(last) <= budget then LongestFit(messages, budget, kept)
      else if budget > 0 then kept == [Truncated(last, if budget >= |SUFFIX| then budget - |SUFFIX| else 0)]
      else kept == []
  }

  /** Cutting a message to a budget it exceeds succeeds: only its last text is cut, and only that may be long. */
  predicate Cuttable(m: Message, budget: int) {
    && budget >= |SUFFIX| && CallsLength(m.toolCalls) == 0
    && match m.content
       case Text(_) => true
       case Parts(parts) =>
         && parts != [] && PartText(parts[|parts| - 1]) != ""
         && PartsLength(parts[..|parts| - 1]) == 0
  }

  /** Everything fits, down to nothing, but for a last message that is too long and cannot be cut to fit. */
  predicate CanFit(messages: seq<Message>, budget: int) {
    && budget >= 0
    && (messages == [] || budget == 0
        || var last := messages[|messages| - 1];
           ContentLength(last) <= budget || Cuttable(last, budget))
  }

  /** A message that exceeds the budget is cut to at most the budget exactly when it is cuttable. */
  lemma TruncatedFits(m: Message, budget: nat)
    requires ContentLength(m) > budget
    ensures ContentLength(Truncated(m, if budget >= |SUFFIX| then budget - |SUFFIX| else 0)) <= budget
       <==> Cuttable(m, budget)
  {
    if m.content.Parts? && m.content.parts != [] {
      var n := |m.content.parts| - 1;
      var cut := Truncated(m, if budget >= |SUFFIX| then budget - |SUFFIX| else 0).content.parts;
      assert cut[..n] == m.content.parts[..n];
    }
  }

  /** The arguments of a call are not cut: an empty text with a call of 13 characters exceeds a budget of 12. */
  lemma CallsAreNotCut()
    ensures var m := Message(Assistant, Text(""), "", "", [ToolCall("a", "f", "{\"path\":\"x\"}")]);
            && ContentLength(m) > 12
            && KeepsRecent([m], 12, [Truncated(m, 0)]) && TotalLength([Truncated(m, 0)]) > 12
  {
    var call := ToolCall("a", "f", "{\"path\":\"x\"}");
    var m := Message(Assistant, Text(""), "", "", [call]);
    assert [call][..0] == [] && CallsLength([call]) == 13;
    OneLength(Truncated(m, 0));
  }

  lemma OneLength(m: Message)
    ensures TotalLength([m]) == ContentLength(m)
  {
    assert [m][1..] == [];
  }

  /** What is kept is within the budget exactly when it can be. */
  lemma KeptFits(messages: seq<Message>, budget: int, kept: seq<Message>)
    requires KeepsRecent(messages, budget, kept)
    ensures TotalLength(kept) <= budget <==> CanFit(messages, budget)
  {
    if messages != [] {
      var last := messages[|messages| - 1];
      if ContentLength(last) > budget > 0 {
        TruncatedFits(last, budget);
        OneLength(kept[0]);
      }
    }
  }

  /** The first message that is not a system message is a tool result. */
  predicate OpensWithResult(s: seq<Item>) {
    s != [] && (s[0].ResultItem? || (s[0].SystemItem? && OpensWithResult(s[1..])))
  }

  lemma {:induction false} OpenedByResult(s: seq<Item>, pending: multiset<string>)
    requires Answered(s, pending)
    ensures FullyAnswered(s) <==> !OpensWithResult(s)
    decreases |s|
  {
    if s != [] && s[0].SystemItem? {
      OpenedByResult(s[1..], pending);
    }
  }

  /** The end of a fully answered history is fully answered itself exactly when it does not open with a result. */
  lemma {:induction false} SuffixAnswered(s: seq<Item>, pending: multiset<string>, k: nat)
    requires Answered(s, pending) && k <= |s|
    ensures FullyAnswered(s[k..]) <==> !OpensWithResult(s[k..])
    decreases |s|
  {
    if k == 0 {
      assert s[0..] == s;
      OpenedByResult(s, pending);
    } else {
      assert s[k..] == s[1..][k - 1..];
      SuffixAnswered(s[1..], After(s[0], pending), k - 1);
    }
  }

  /** The last message of a fully answered history calls nothing. */
  lemma {:induction false} LastCallsNothing(s: seq<Item>, pending: multiset<string>)
    requires Answered(s, pending) && s != []
    ensures !s[|s| - 1].CallsItem? || s[|s| - 1].ids == []
    decreases |s|
  {
    if |s| == 1 {
      assert s[1..] == [];
      assert s[0].CallsItem? ==> |multiset(s[0].ids)| == |s[0].ids|;
    } else {
      LastCallsNothing(s[1..], After(s[0], pending));
    }
  }

  lemma PlainFirst(m: Message, rest: seq<Message>)
    requires ItemOf(m) == PlainItem
    ensures FullyAnswered(Items([m] + rest)) <==> FullyAnswered(Items(rest))
  {
    AnsweredItems([m] + rest, multiset{});
    assert ([m] + rest)[1..] == rest;
  }

  /** Where the longest run of recent messages within the budget begins. */
  function CutAt(messages: seq<Message>, budget: int): (k: nat)
    ensures k <= |messages|
  {
    if messages == [] || TotalLength(messages) <= budget then 0 else 1 + CutAt(messages[1..], budget)
  }

  lemma {:induction false} CutIsLongest(messages: seq<Message>, budget: int, k: nat)
    requires k <= |messages| && TotalLength(messages[k..]) <= budget
    requires forall j :: 0 <= j < k ==> TotalLength(messages[j..]) > budget
    ensures CutAt(messages, budget) == k
  {
    assert messages[0..] == messages;
    if k > 0 {
      var rest := messages[1..];
      assert forall j :: 0 <= j <= k - 1 ==> rest[j..] == messages[j + 1..];
      CutIsLongest(rest, budget, k - 1);
    }
  }

  /** The budget ends within a turn, behind its calls; or a result is last, does not fit, and is cut. */
  predicate CutsATurn(messages: seq<Message>, budget: int) {
    messages != [] &&
    var last := messages[|messages| - 1];
    if ContentLength(last) <= budget then OpensWithResult(Items(messages[CutAt(messages, budget)..]))
    else budget > 0 && last.role == Tool
  }

  lemma FittingAnswered(messages: seq<Message>, budget: int, kept: seq<Message>)
    requires LongestFit(messages, budget, kept) && FullyAnswered(Items(messages))
    ensures FullyAnswered(Items(kept)) <==> !OpensWithResult(Items(messages[CutAt(messages, budget)..]))
  {
    var k :| 0 <= k <= |messages| && kept == messages[k..] && TotalLength(kept) <= budget
             && forall j :: 0 <= j < k ==> TotalLength(messages[j..]) > budget;
    CutIsLongest(messages, budget, k);
    assert Items(kept) == Items(messages)[k..];
    SuffixAnswered(Items(messages), multiset{}, k);
  }

  lemma KeptAnswered(messages: seq<Message>, budget: int, kept: seq<Message>)
    requires KeepsRecent(messages, budget, kept) && FullyAnswered(Items(messages))
    ensures FullyAnswered(Items(kept)) <==> !CutsATurn(messages, budget)
  {
    if messages != [] && ContentLength(messages[|messages| - 1]) <= budget {
      FittingAnswered(messages, budget, kept);
    } else if kept == [] {
      assert Items(kept) == [];
    } else {
      LastCallsNothing(Items(messages), multiset{});
      assert Items(kept) == [ItemOf(messages[|messages| - 1])];
      LoneAnswered(ItemOf(messages[|messages| - 1]));
    }
  }

  lemma LoneAnswered(x: Item)
    requires !x.CallsItem? || x.ids == []
    ensures FullyAnswered([x]) <==> !x.ResultItem?
  {
    assert [x] + [] == [x] && [x][1..] == [];
    AnsweredFirst(x, [], multiset{});
    assert x.CallsItem? ==> multiset(x.ids) == multiset{};
  }

  lemma NoticeFirst(kept: seq<Message>)
    ensures FullyAnswered(Items(NOTICE + kept)) <==> FullyAnswered(Items(kept))
  {
    assert NOTICE + kept == [NOTICE[0]] + ([NOTICE[1]] + kept);
    PlainFirst(NOTICE[1], kept);
    PlainFirst(NOTICE[0], [NOTICE[1]] + kept);
  }

  /** A fully answered history stays one through truncation exactly when that does not cut a turn. */
  lemma TruncationStaysAnswered(messages: seq<Message>, budget: int, kept: seq<Message>)
    requires KeepsRecent(messages, budget, kept) && FullyAnswered(Items(messages))
    ensures FullyAnswered(Items(NOTICE + kept)) <==> !CutsATurn(messages, budget)
  {
    KeptAnswered(messages, budget, kept);
    NoticeFirst(kept);
  }

  /** When a compaction is due and summarizing fails, a call longer than the budget is lost and its result kept. */
  lemma ResultLosesItsCall()
    ensures var call := Message(Assistant, Text("call it"), "", "", [ToolCall("a", "f", "{}")]);
            var answer := Message(Tool, Text("ok"), "f", "a", []);
            var config := Config(5, 1.0, 1);
            && FullyAnswered(Items([call, answer])) && ProperIds(Items([call, answer]))
            && Cleared([call, answer], KEEP_RECENT) == [call, answer]
            && ShouldCompact([call, answer], config) && Budget(config) == 5
            && KeepsRecent([call, answer], 5, [answer]) && !FullyAnswered(Items(NOTICE + [answer]))
  {
    var call := Message(Assistant, Text("call it"), "", "", [ToolCall("a", "f", "{}")]);
    var answer := Message(Tool, Text("ok"), "f", "a", []);
    assert ContentLength(call) >= 7 && ContentLength(answer) == 2;
    OnlyTheAnswerFits(call, answer);
    assert Ids(call.toolCalls) == ["a"];
    CallThenAnswer(ItemOf(call), ItemOf(answer));
    assert Items([call, answer]) == [ItemOf(call), ItemOf(answer)];
    TruncationStaysAnswered([call, answer], 5, [answer]);
  }

  lemma OnlyTheAnswerFits(call: Message, answer: Message)
    requires ContentLength(call) >= 7 && ContentLength(answer) == 2 && answer.role == Tool
    ensures ShouldCompact([call, answer], Config(5, 1.0, 1))
    ensures KeepsRecent([call, answer], 5, [answer]) && CutsATurn([call, answer], 5)
  {
    var history := [call, answer];
    assert history[0..] == history && history[1..] == [answer];
    OneLength(answer);
    assert TotalLength(history) == ContentLength(call) + 2;
    CutIsLongest(history, 5, 1);
    assert Items([answer])[0] == ItemOf(answer);
  }

  lemma CallThenAnswer(c: Item, r: Item)
    requires c == CallsItem(["a"]) && r == ResultItem("a")
    ensures FullyAnswered([c, r]) && ProperIds([c, r])
  {
    assert [c] + [r] == [c, r] && [r] + [] == [r];
    AnsweredFirst(c, [r], multiset{});
    AnsweredFirst(r, [], multiset{"a"});
    IdsOfOne(c);
    IdsOfOne(r);
    CallIdsConcat([c], [r]);
  }

  datatype Config = Config(maxTokens: nat, threshold: real, charsPerToken: nat)

  /** The recent messages that clearing leaves alone. */
  const KEEP_RECENT := 10

  function Budget(config: Config): int {
    (config.maxTokens as real * config.threshold * config.charsPerToken as real).Floor
  }

  /** Characters become tokens, rounded up. */
  function EstimateTokens(messages: seq<Message>, charsPerToken: nat): nat
    requires charsPerToken > 0
  {
    (TotalLength(messages) + charsPerToken - 1) / charsPerToken
  }

  /** Dividing by zero gives infinity, which is above the threshold, or, for zero, no number, which is not. */
  function ShouldCompact(messages: seq<Message>, config: Config): bool {
    if messages == [] then 0.0 >= config.threshold
    else if config.maxTokens == 0 || config.charsPerToken == 0 then TotalLength(messages) > 0
    else EstimateTokens(messages, config.charsPerToken) as real / config.maxTokens as real >= config.threshold
  }

  /** Tokens are the least number that covers all characters. */
  lemma EstimateCovers(messages: seq<Message>, charsPerToken: nat)
    requires charsPerToken > 0
    ensures var tokens, characters := EstimateTokens(messages, charsPerToken), Sum(Lengths(messages));
            characters <= tokens * charsPerToken < characters + charsPerToken
  {
    TotalIsSum(messages);
    Divided(TotalLength(messages) + charsPerToken - 1, charsPerToken);
  }

  lemma Divided(a: nat, c: nat)
    requires c > 0
    ensures a - c < a / c * c <= a
  {
    assert a == c * (a / c) + a % c;
  }

  /** The budget is the greatest whole number of characters below the threshold. */
  lemma BudgetIsGreatest(config: Config, characters: int)
    ensures characters <= Budget(config) <==>
            characters as real <= config.maxTokens as real * config.threshold * config.charsPerToken as real
  {
  }

  /** A compaction is due exactly when the estimated tokens reach the share of the maximum that the threshold says. */
  lemma DueAtThreshold(messages: seq<Message>, config: Config)
    requires config.maxTokens > 0 && config.charsPerToken > 0
    ensures ShouldCompact(messages, config) <==>
            EstimateTokens(messages, config.charsPerToken) as real >= config.threshold * config.maxTokens as real
  {
    var tokens, max := EstimateTokens(messages, config.charsPerToken) as real, config.maxTokens as real;
    if messages == [] {
      assert TotalLength(messages) == 0;
      EmptyEstimate(config.charsPerToken);
      SignOfProduct(config.threshold, max);
    } else {
      Quotient(tokens, max, config.threshold);
    }
  }

  /** With nothing to divide by, a compaction is due as soon as there are characters at all. */
  lemma DueWithoutMeasure(messages: seq<Message>, config: Config)
    requires config.maxTokens == 0 || config.charsPerToken == 0
    ensures ShouldCompact(messages, config) <==>
            if messages == [] then config.threshold <= 0.0 else Sum(Lengths(messages)) >= 1
  {
    TotalIsSum(messages);
  }

  lemma EmptyEstimate(charsPerToken: nat)
    requires charsPerToken > 0
    ensures EstimateTokens([], charsPerToken) == 0
  {
    Divided(charsPerToken - 1, charsPerToken);
    NoMultiple(EstimateTokens([], charsPerToken), charsPerToken);
  }

  lemma NoMultiple(k: nat, c: nat)
    requires k * c < c
    ensures k == 0
  {
  }

  lemma SignOfProduct(a: real, b: real)
    requires b > 0.0
    ensures a <= 0.0 <==> a * b <= 0.0
  {
  }

  lemma Quotient(a: real, b: real, c: real)
    requires b > 0.0
    ensures a / b >= c <==> a >= c * b
  {
    var q := a / b;
    assert a == q * b;
    if q >= c {
      assert q * b >= c * b;
    } else {
      assert q * b < c * b;
    }
  }

  /** A notice in two messages, and then what is kept, which is within the budget exactly when it can be. */
  method FallbackTruncation(messages: seq<Message>, config: Config) returns (out: seq<Message>)
    ensures NOTICE <= out && KeepsRecent(messages, Budget(config), out[|NOTICE|..])
    ensures TotalLength(out[|NOTICE|..]) <= Budget(config) <==> CanFit(messages, Budget(config))
    ensures FullyAnswered(Items(messages)) ==>
              (FullyAnswered(Items(out)) <==> !CutsATurn(messages, Budget(config)))
  {
    var kept := KeepRecent(messages, Budget(config));
    KeptFits(messages, Budget(config), kept);
    if FullyAnswered(Items(messages)) {
      TruncationStaysAnswered(messages, Budget(config), kept);
    }
    out := NOTICE + kept;
    assert out[|NOTICE|..] == kept;
  }

  /** Walks backwards over the messages as long as they fit. */
  method KeepRecent(messages: seq<Message>, budget: int) returns (result: seq<Message>)
    ensures KeepsRecent(messages, budget, result)
  {
    result := [];
    var totalChars := 0;
    var i := |messages| - 1;
    while i >= 0
      invariant -1 <= i < |messages| && result == messages[i + 1..] && totalChars == TotalLength(result)
      invariant result != [] ==> ContentLength(messages[|messages| - 1]) <= totalChars <= budget
    {
      var len := ContentLength(messages[i]);
      assert messages[i..][1..] == result;
      if totalChars + len > budget {
        if |result| == 0 && budget > 0 {
          var allowed := if budget - totalChars >= |SUFFIX| then budget - totalChars - |SUFFIX| else 0;
          result := [Truncated(messages[i], allowed)];
        } else if |result| > 0 {
          forall j | 0 <= j < i + 1 ensures TotalLength(messages[j..]) > budget {
            LongerIsNoShorter(messages, j, i);
          }
        }
        return;
      }
      totalChars := totalChars + len;
      result := [messages[i]] + result;
      i := i - 1;
    }
  }

  // ---- Both stages ----

  function SummaryMessages(text: string): seq<Message> {
    [Message(User, Text("[Previous conversation was compacted. Summary of prior context]\n\n" + text), "", "", []),
     Message(Assistant, Text("Context loaded."), "", "", [])]
  }

  /** The summary stands in a message of the user, and the assistant takes note of it. */
  lemma SummaryIsShown(text: string)
    ensures var s := SummaryMessages(text);
            && |s| == 2 && s[0].role == User && s[1].role == Assistant
            && s[0].toolCalls == [] && s[1].toolCalls == []
            && s[0].content == Text("[Previous conversation was compacted. Summary of prior context]\n\n" + text)
            && s[1].content == Text("Context loaded.")
  {
  }

  /** Clearing old results is enough, or a summary replaces everything, or, without one, the recent messages stay. */
  ghost predicate Compacted(messages: seq<Message>, config: Config, summary: Option<string>, out: seq<Message>) {
    var cleaned := Cleared(messages, KEEP_RECENT);
    if !ShouldCompact(cleaned, config) then out == cleaned
    else
      match summary
      case Some(text) => out == SummaryMessages(text)
      case None => NOTICE <= out && KeepsRecent(cleaned, Budget(config), out[|NOTICE|..])
  }

  /** Clearing is not enough, there is no summary, and the budget cuts a turn. */
  predicate CompactionCutsATurn(messages: seq<Message>, config: Config, summary: Option<string>) {
    var cleaned := Cleared(messages, KEEP_RECENT);
    ShouldCompact(cleaned, config) && summary.None? && CutsATurn(cleaned, Budget(config))
  }

  lemma SummaryAnswered(text: string)
    ensures FullyAnswered(Items(SummaryMessages(text)))
  {
    var s := SummaryMessages(text);
    assert s == [s[0]] + ([s[1]] + []);
    PlainFirst(s[1], []);
    PlainFirst(s[0], [s[1]] + []);
    assert Items([]) == [];
  }

  /** A compaction leaves a fully answered history behind exactly when it does not cut a turn. */
  lemma CompactionStaysAnswered(messages: seq<Message>, config: Config, summary: Option<string>, out: seq<Message>)
    requires FullyAnswered(Items(messages)) && ProperIds(Items(messages))
    requires Compacted(messages, config, summary, out)
    ensures FullyAnswered(Items(out)) <==> !CompactionCutsATurn(messages, config, summary)
  {
    var cleaned := Cleared(messages, KEEP_RECENT);
    ClearedStaysAnswered(messages, KEEP_RECENT);
    if ShouldCompact(cleaned, config) {
      match summary {
        case Some(text) => SummaryAnswered(text);
        case None =>
          TruncationStaysAnswered(cleaned, Budget(config), out[|NOTICE|..]);
          assert out == NOTICE + out[|NOTICE|..];
      }
    }
  }

  /** `summary` is what the summary model makes of the messages, if it answers. */
  method RunCompaction(messages: seq<Message>, config: Config, summary: Option<string>) returns (out: seq<Message>)
    ensures Compacted(messages, config, summary, out)
  {
    var cleaned := ClearOldToolResults(messages, KEEP_RECENT);
    if !ShouldCompact(cleaned, config) {
      return cleaned;
    }
    match summary {
      case Some(text) => out := SummaryMessages(text);
      case None => out := FallbackTruncation(cleaned, config);
    }
  }

  /** One compaction; the lock lets them run one after another. */
  method Compact(messages: seq<Message>, config: Config, summary: Option<string>, skipInitialCheck: bool)
    returns (out: seq<Message>)
    ensures var due := skipInitialCheck || ShouldCompact(messages, config);
            && (if due then Compacted(messages, config, summary, out) else out == messages)
            && (FullyAnswered(Items(messages)) && ProperIds(Items(messages)) ==>
                  (FullyAnswered(Items(out)) <==> !(due && CompactionCutsATurn(messages, config, summary))))
  {
    if !skipInitialCheck && !ShouldCompact(messages, config) {
      return messages;
    }
    out := RunCompaction(messages, config, summary);
    if FullyAnswered(Items(messages)) && ProperIds(Items(messages)) {
      CompactionStaysAnswered(messages, config, summary, out);
    }
  }

  // ---- What is counted as kept ----

  lemma {:induction false} ResultsCount(s: seq<Message>, id: string, m: Message)
    ensures multiset(ResultsFor(s, id))[m] == if m.role == Tool && m.toolCallId == id then multiset(s)[m] else 0
  {
    if s != [] {
      var n := |s| - 1;
      ResultsCount(s[..n], id, m);
      LastResult(s, id);
      LastCounted(s, s[..n], s[n], m);
    }
  }

  lemma {:induction false} ResultsInOrder(s: seq<Message>, id: string)
    ensures Subsequence(ResultsFor(s, id), s)
  {
    if s != [] {
      var n := |s| - 1;
      ResultsInOrder(s[..n], id);
      LastResult(s, id);
      OneMore(ResultsFor(s[..n], id), s[..n], s[n], s);
    }
  }

  /** The results for an id are all of them, in their order. */
  lemma ResultsAreAll(s: seq<Message>, id: string)
    ensures Subsequence(ResultsFor(s, id), s)
    ensures forall m :: multiset(ResultsFor(s, id))[m] ==
                        if m.role == Tool && m.toolCallId == id then multiset(s)[m] else 0
  {
    ResultsInOrder(s, id);
    forall m ensures multiset(ResultsFor(s, id))[m] ==
                     if m.role == Tool && m.toolCallId == id then multiset(s)[m] else 0 {
      ResultsCount(s, id, m);
    }
  }

  lemma {:induction false} OthersCount(s: seq<Message>, m: Message)
    ensures multiset(Others(s))[m] == if m.role != Tool && !HasCalls(m) then multiset(s)[m] else 0
  {
    if s != [] {
      var n := |s| - 1;
      OthersCount(s[..n], m);
      LastOther(s);
      LastCounted(s, s[..n], s[n], m);
    }
  }

  lemma {:induction false} OthersInOrder(s: seq<Message>)
    ensures Subsequence(Others(s), s)
  {
    if s != [] {
      var n := |s| - 1;
      OthersInOrder(s[..n]);
      LastOther(s);
      OneMore(Others(s[..n]), s[..n], s[n], s);
    }
  }

  /** The others are all messages that neither call a tool nor answer a call, in their order. */
  lemma OthersAreAll(s: seq<Message>)
    ensures Subsequence(Others(s), s)
    ensures forall m :: multiset(Others(s))[m] == if m.role != Tool && !HasCalls(m) then multiset(s)[m] else 0
  {
    OthersInOrder(s);
    forall m ensures multiset(Others(s))[m] == if m.role != Tool && !HasCalls(m) then multiset(s)[m] else 0 {
      OthersCount(s, m);
    }
  }

  lemma LastCounted(s: seq<Message>, init: seq<Message>, last: Message, m: Message)
    requires s != [] && init == s[..|s| - 1] && last == s[|s| - 1]
    ensures multiset(s)[m] == multiset(init)[m] + if last == m then 1 else 0
    ensures forall t: seq<Message> :: multiset(t + [last])[m] == multiset(t)[m] + if last == m then 1 else 0
  {
    assert s == init + [last];
  }

  lemma LastOther(s: seq<Message>)
    requires s != []
    ensures var n := |s| - 1;
            Others(s) == Others(s[..n]) + if s[n].role != Tool && !HasCalls(s[n]) then [s[n]] else []
  {
  }

  lemma LastResult(s: seq<Message>, id: string)
    requires s != []
    ensures var n := |s| - 1;
            ResultsFor(s, id) ==
            ResultsFor(s[..n], id) + if s[n].role == Tool && s[n].toolCallId == id then [s[n]] else []
  {
  }

  lemma OneMore(a: seq<Message>, b: seq<Message>, x: Message, all: seq<Message>)
    requires Subsequence(a, b) && all == b + [x]
    ensures Subsequence(a + [], all) && Subsequence(a + [x], all)
  {
    SubsequenceAppend(a, b, [x]);
    assert a + [] == a && all[..|b|] == b;
  }
}
