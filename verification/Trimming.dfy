/**
 Trimming a stored history to its last messages, at a turn boundary: system
 messages are kept and come first, the others are cut from the front, and tool
 results that would then stand first are dropped as well, since the calls they
 answer are gone.
 */
module Trimming {
  import opened Sequences
  import opened Pairing
  import opened ModelMessages
  import opened MessageReducer

  function Select(s: seq<StoredMessage>, system: bool): seq<StoredMessage> {
    if s == [] then []
    else (if (s[0].body.role == System) == system then [s[0]] else []) + Select(s[1..], system)
  }

  /** The array method `slice(-n)`: the last `n` elements, but all of them for zero. */
  function SliceFromEnd<T>(s: seq<T>, n: int): seq<T> {
    if n > 0 then (if n <= |s| then s[|s| - n..] else s)
    else if -n <= |s| then s[-n..]
    else []
  }

  function DropResults(s: seq<StoredMessage>): seq<StoredMessage> {
    if s != [] && s[0].body.role == Tool then DropResults(s[1..]) else s
  }

  function Kept(messages: seq<StoredMessage>, maxMessages: int): seq<StoredMessage> {
    DropResults(SliceFromEnd(Select(messages, false), maxMessages))
  }

  method TrimMessages(messages: seq<StoredMessage>, maxMessages: int) returns (out: seq<StoredMessage>)
    ensures out == Select(messages, true) + Kept(messages, maxMessages)
  {
    var systemMsgs := Select(messages, true);
    var nonSystem := Select(messages, false);
    var trimmed := SliceFromEnd(nonSystem, maxMessages);
    while |trimmed| > 0 && trimmed[0].body.role == Tool
      invariant DropResults(trimmed) == Kept(messages, maxMessages)
      decreases |trimmed|
    {
      trimmed := trimmed[1..];
    }
    out := systemMsgs + trimmed;
  }

  /** A stored message as the pairing rules see it. */
  function StoredItem(m: StoredMessage): Item {
    ItemOf(Message(m.body.role, Text(""), "", m.body.toolCallId, m.body.toolCalls))
  }

  function StoredItems(s: seq<StoredMessage>): (items: seq<Item>)
    ensures |items| == |s| && forall i :: 0 <= i < |s| ==> items[i] == StoredItem(s[i])
  {
    seq(|s|, i requires 0 <= i < |s| => StoredItem(s[i]))
  }

  lemma {:induction false} SelectRoles(s: seq<StoredMessage>, system: bool)
    ensures forall i :: 0 <= i < |Select(s, system)| ==> (Select(s, system)[i].body.role == System) == system
  {
    if s != [] {
      SelectRoles(s[1..], system);
    }
  }

  lemma {:induction false} DropResultsIsSuffix(s: seq<StoredMessage>)
    ensures |DropResults(s)| <= |s| && DropResults(s) == s[|s| - |DropResults(s)|..]
    ensures DropResults(s) != [] ==> DropResults(s)[0].body.role != Tool
    ensures forall j :: 0 <= j < |s| - |DropResults(s)| ==> s[j].body.role == Tool
  {
    if s != [] && s[0].body.role == Tool {
      DropResultsIsSuffix(s[1..]);
    }
  }

  lemma SliceIsSuffix<T>(s: seq<T>, n: int)
    ensures |SliceFromEnd(s, n)| <= |s| && SliceFromEnd(s, n) == s[|s| - |SliceFromEnd(s, n)|..]
  {
  }

  /** What is kept is a suffix of the non-system messages that begins a turn, and no longer one would do. */
  lemma KeptIsTurnSuffix(messages: seq<StoredMessage>, maxMessages: int)
    ensures var all, kept := Select(messages, false), Kept(messages, maxMessages);
            var k := |all| - |kept|;
            && 0 <= k && kept == all[k..] && (kept != [] ==> kept[0].body.role != Tool)
            && forall j :: 0 <= j < k && all[j].body.role != Tool ==>
                 |all| - j > if maxMessages > 0 then maxMessages else |all| + maxMessages
  {
    var all := Select(messages, false);
    var sliced := SliceFromEnd(all, maxMessages);
    SliceIsSuffix(all, maxMessages);
    DropResultsIsSuffix(sliced);
    var cut := |all| - |sliced|;
    forall j | cut <= j < |all| - |DropResults(sliced)| ensures all[j].body.role == Tool {
      assert sliced[j - cut] == all[j];
    }
  }

  /** If the non-system messages are fully answered turns, so is what is kept of them. */
  lemma TrimmedStaysAnswered(messages: seq<StoredMessage>, maxMessages: int)
    requires FullyAnswered(StoredItems(Select(messages, false)))
    ensures FullyAnswered(StoredItems(Kept(messages, maxMessages)))
  {
    var all, kept := Select(messages, false), Kept(messages, maxMessages);
    var k := |all| - |kept|;
    KeptIsTurnSuffix(messages, maxMessages);
    SelectRoles(messages, false);
    assert k < |all| ==> all[k] == kept[0] && all[k].body.role != System;
    AnsweredSuffix(StoredItems(all), multiset{}, k);
    assert StoredItems(all)[k..] == StoredItems(kept);
  }

  /** At most `maxMessages` non-system messages are kept, for every history, exactly when the bound is positive. */
  lemma BoundHolds(maxMessages: int)
    ensures maxMessages > 0 <==> forall messages :: |Kept(messages, maxMessages)| <= maxMessages
  {
    if maxMessages > 0 {
      forall messages ensures |Kept(messages, maxMessages)| <= maxMessages {
        DropResultsIsSuffix(SliceFromEnd(Select(messages, false), maxMessages));
      }
    } else if maxMessages == 0 {
      ZeroKeepsAll();
    } else {
      assert |Kept([], maxMessages)| > maxMessages;
    }
  }

  /** A bound of zero keeps everything, because `-0` slices from the start. */
  lemma ZeroKeepsAll()
    ensures var m := StoredMessage("1", Body(User, "", [], map[])); Kept([m], 0) == [m]
  {
    var m := StoredMessage("1", Body(User, "", [], map[]));
    assert [m][1..] == [];
    assert Select([m], false) == [m];
  }

  lemma {:induction false} SelectSplits(s: seq<StoredMessage>)
    ensures multiset(Select(s, true)) + multiset(Select(s, false)) == multiset(s)
  {
    if s != [] {
      SelectSplits(s[1..]);
      assert s == [s[0]] + s[1..];
      assert multiset(s) == multiset{s[0]} + multiset(s[1..]);
    }
  }

  lemma {:induction false} SelectInOrder(s: seq<StoredMessage>, system: bool)
    ensures Subsequence(Select(s, system), s)
  {
    if s != [] {
      SelectInOrder(s[1..], system);
      SubsequencePrepend(s[0], Select(s[1..], system), s[1..]);
      assert s == [s[0]] + s[1..];
      assert [] + Select(s[1..], system) == Select(s[1..], system);
    }
  }

  /** Every message is either among the system messages kept or among the others, both in the order they had. */
  lemma SelectedInOrder(s: seq<StoredMessage>)
    ensures multiset(Select(s, true)) + multiset(Select(s, false)) == multiset(s)
    ensures forall system ::
              && Subsequence(Select(s, system), s)
              && forall i :: 0 <= i < |Select(s, system)| ==> (Select(s, system)[i].body.role == System <==> system)
  {
    SelectSplits(s);
    forall system: bool
      ensures Subsequence(Select(s, system), s)
      ensures forall i :: 0 <= i < |Select(s, system)| ==> (Select(s, system)[i].body.role == System <==> system)
    {
      SelectInOrder(s, system);
      SelectRoles(s, system);
    }
  }
}
