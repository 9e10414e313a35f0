/** Calls paired with results. */
module Pairing {
  /*
   Tool calls and their results in a conversation, seen through what matters for
   pairing: which ids a message calls or answers.
   */

  import opened Sequences

  /** A system message, a tool result, an assistant message with calls, or any other message. */
  datatype Item = SystemItem | ResultItem(id: string) | CallsItem(ids: seq<string>) | PlainItem

  ghost predicate HasCall(s: seq<Item>, id: string) {
    exists c :: c in s && c.CallsItem? && id in c.ids
  }

  /** Every tool result comes after a message that calls its id. */
  ghost predicate Paired(s: seq<Item>) {
    s == [] ||
    var n := |s| - 1;
    Paired(s[..n]) && (s[n].ResultItem? ==> HasCall(s[..n], s[n].id))
  }

  function CallIds(s: seq<Item>): seq<string> {
    if s == [] then []
    else if s[0].CallsItem? then s[0].ids + CallIds(s[1..])
    else CallIds(s[1..])
  }

  /** A result must answer an open call; a turn may only begin when no call is open. */
  predicate Fits(x: Item, pending: multiset<string>) {
    match x
    case SystemItem => true
    case ResultItem(id) => id in pending
    case CallsItem(_) => pending == multiset{}
    case PlainItem => pending == multiset{}
  }

  function After(x: Item, pending: multiset<string>): multiset<string> {
    match x
    case SystemItem => pending
    case ResultItem(id) => pending - multiset{id}
    case CallsItem(ids) => multiset(ids)
    case PlainItem => multiset{}
  }

  /**
   Each message with calls is followed, before anything else but system
   messages, by exactly one result per call; `pending` are the ids still open.
   */
  ghost predicate Answered(s: seq<Item>, pending: multiset<string>) {
    if s == [] then pending == multiset{}
    else Fits(s[0], pending) && Answered(s[1..], After(s[0], pending))
  }

  lemma AnsweredFirst(x: Item, s: seq<Item>, pending: multiset<string>)
    ensures Answered([x] + s, pending) <==> Fits(x, pending) && Answered(s, After(x, pending))
  {
    assert ([x] + s)[1..] == s;
  }

  ghost predicate FullyAnswered(s: seq<Item>) {
    Answered(s, multiset{})
  }

  lemma {:induction false} AnsweredConcat(s: seq<Item>, t: seq<Item>, pending: multiset<string>)
    requires Answered(s, pending) && FullyAnswered(t)
    ensures Answered(s + t, pending)
  {
    if s == [] {
      assert s + t == t;
    } else {
      AnsweredConcat(s[1..], t, After(s[0], pending));
      AnsweredFirst(s[0], s[1..] + t, pending);
      assert s + t == [s[0]] + (s[1..] + t);
    }
  }

  /** Dropping the rest of a cut turn leaves fully answered turns. */
  lemma {:induction false} AnsweredSuffix(s: seq<Item>, pending: multiset<string>, k: nat)
    requires Answered(s, pending) && k <= |s|
    requires k < |s| ==> s[k].CallsItem? || s[k].PlainItem?
    ensures FullyAnswered(s[k..])
  {
    if k > 0 {
      assert s[k..] == s[1..][k - 1..];
      AnsweredSuffix(s[1..], After(s[0], pending), k - 1);
    }
  }

  lemma {:induction false} CallIdsMembers(s: seq<Item>, id: string)
    ensures id in CallIds(s) <==> HasCall(s, id)
  {
    if s != [] {
      CallIdsMembers(s[1..], id);
      assert s == [s[0]] + s[1..];
    }
  }

  lemma {:induction false} CallIdsConcat(s: seq<Item>, t: seq<Item>)
    ensures CallIds(s + t) == CallIds(s) + CallIds(t)
  {
    if s == [] {
      assert s + t == t;
    } else {
      assert (s + t)[1..] == s[1..] + t;
      CallIdsConcat(s[1..], t);
    }
  }

  lemma DistinctParts<T>(a: seq<T>, b: seq<T>)
    requires Distinct(a + b)
    ensures Distinct(a) && Distinct(b) && forall x :: x in a ==> x !in b
  {
    forall i, j | 0 <= i < j < |a| ensures a[i] != a[j] {
      assert (a + b)[i] != (a + b)[j];
    }
    forall i, j | 0 <= i < j < |b| ensures b[i] != b[j] {
      assert (a + b)[|a| + i] != (a + b)[|a| + j];
    }
    forall i, j | 0 <= i < |a| && 0 <= j < |b| ensures a[i] != b[j] {
      assert (a + b)[i] != (a + b)[|a| + j];
    }
  }

  /** With distinct call ids, an id determines the message that calls it. */
  lemma {:induction false} CallIsUnique(s: seq<Item>, a: Item, b: Item, id: string)
    requires Distinct(CallIds(s)) && a in s && b in s
    requires a.CallsItem? && b.CallsItem? && id in a.ids && id in b.ids
    ensures a == b
  {
    assert s == [s[0]] + s[1..];
    if s[0].CallsItem? {
      DistinctParts(s[0].ids, CallIds(s[1..]));
      CallIdsMembers(s[1..], id);
    }
    if a in s[1..] && b in s[1..] {
      CallIsUnique(s[1..], a, b, id);
    }
  }

  lemma PairedLast(s: seq<Item>, r: Item)
    ensures Paired(s + [r]) <==> Paired(s) && (r.ResultItem? ==> HasCall(s, r.id))
  {
    assert (s + [r])[..|s + [r]| - 1] == s;
  }

  lemma DistinctCallsPrefix(s: seq<Item>, t: seq<Item>)
    requires Distinct(CallIds(s + t))
    ensures Distinct(CallIds(s)) && Distinct(CallIds(t)) && forall id :: id in CallIds(s) ==> id !in CallIds(t)
  {
    CallIdsConcat(s, t);
    DistinctParts(CallIds(s), CallIds(t));
  }

  ghost predicate AllCalled(ids: multiset<string>, before: seq<Item>) {
    forall id :: id in ids ==> HasCall(before, id)
  }

  lemma StaysCalled(before: seq<Item>, x: Item, pending: multiset<string>)
    requires AllCalled(pending, before)
    ensures AllCalled(After(x, pending), before + [x])
  {
    var more := before + [x];
    assert x in more;
    forall id | id in After(x, pending) ensures HasCall(more, id) {
      if id in pending {
        var c :| c in before && c.CallsItem? && id in c.ids;
        assert c in more;
      }
    }
  }

  /** Answered turns keep every result behind its call. */
  lemma {:induction false} AnsweredIsPaired(before: seq<Item>, s: seq<Item>, pending: multiset<string>)
    requires Paired(before) && Answered(s, pending) && AllCalled(pending, before)
    ensures Paired(before + s)
    decreases |s|
  {
    if s == [] {
      assert before + s == before;
    } else {
      var x := s[0];
      PairedLast(before, x);
      StaysCalled(before, x, pending);
      AnsweredIsPaired(before + [x], s[1..], After(x, pending));
      assert before + s == before + [x] + s[1..];
    }
  }

  /** A result's id has been called before it. */
  lemma {:induction false} PairedResultHasCall(s: seq<Item>, id: string)
    requires Paired(s) && ResultItem(id) in s
    ensures HasCall(s, id)
  {
    var n := |s| - 1;
    assert s == s[..n] + [s[n]];
    if s[n] != ResultItem(id) {
      PairedResultHasCall(s[..n], id);
    }
    var c :| c in s[..n] && c.CallsItem? && id in c.ids;
    assert c in s;
  }

  lemma {:induction false} PairedPrefix(s: seq<Item>, t: seq<Item>)
    requires Paired(s + t)
    ensures Paired(s)
    decreases |t|
  {
    if t == [] {
      assert s + t == s;
    } else {
      assert s + t == s + t[..|t| - 1] + [t[|t| - 1]];
      PairedLast(s + t[..|t| - 1], t[|t| - 1]);
      PairedPrefix(s, t[..|t| - 1]);
    }
  }

  /** Distinct ids occur once in a multiset. */
  lemma {:induction false} DistinctMultiset(ids: seq<string>)
    requires Distinct(ids)
    ensures forall id :: id in ids ==> multiset(ids)[id] == 1
  {
    if ids != [] {
      assert ids == [ids[0]] + ids[1..];
      DistinctParts([ids[0]], ids[1..]);
      DistinctMultiset(ids[1..]);
      assert ids[0] !in ids[1..];
      assert multiset(ids) == multiset{ids[0]} + multiset(ids[1..]);
      assert forall id :: id in ids[1..] ==> id in multiset(ids[1..]);
    }
  }
}
