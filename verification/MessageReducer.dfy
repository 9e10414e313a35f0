/**
 The reducer of the messages channel: a batch of updates, each of which removes
 a message, patches one, or stores one under its id, applied to the history in
 order. Messages without an id get a generated one, and the generated ids are a
 parameter here.
 */
module MessageReducer {
  import opened Wrappers
  import opened Sequences
  import opened Pairing
  import opened ModelMessages

  /** Everything but the id; `others` holds the fields without a role here, as JSON. */
  datatype Body = Body(role: Role, toolCallId: string, toolCalls: seq<ToolCall>, others: map<string, string>)

  datatype StoredMessage = StoredMessage(id: string, body: Body)

  /** The fields a patch sets; an id among them is ignored. */
  datatype Patch = Patch(id: Option<string>, role: Option<Role>, toolCallId: Option<string>,
                         toolCalls: Option<seq<ToolCall>>, others: map<string, string>)

  datatype MessageUpdate =
    | AddMessage(id: Option<string>, body: Body)
    | RemoveMessage(target: string)
    | UpdateMessage(target: string, patch: Patch)

  function Or<T>(o: Option<T>, d: T): T {
    match o
    case Some(v) => v
    case None => d
  }

  function Patched(b: Body, p: Patch): Body {
    Body(Or(p.role, b.role), Or(p.toolCallId, b.toolCallId), Or(p.toolCalls, b.toolCalls), b.others + p.others)
  }

  // ---- The reducer on updates whose ids are settled ----

  /** The body stored under an id. */
  function Lookup(s: seq<StoredMessage>, id: string): Option<Body> {
    if s == [] then None else if s[0].id == id then Some(s[0].body) else Lookup(s[1..], id)
  }

  function Without(s: seq<StoredMessage>, id: string): seq<StoredMessage> {
    if s == [] then []
    else (if s[0].id == id then [] else [s[0]]) + Without(s[1..], id)
  }

  function PatchAll(s: seq<StoredMessage>, id: string, p: Patch): seq<StoredMessage> {
    if s == [] then []
    else [if s[0].id == id then StoredMessage(id, Patched(s[0].body, p)) else s[0]] + PatchAll(s[1..], id, p)
  }

  /** Overwrites the first message with that id, or appends. */
  function Upsert(s: seq<StoredMessage>, m: StoredMessage): seq<StoredMessage> {
    if s == [] then [m]
    else if s[0].id == m.id then [m] + s[1..]
    else [s[0]] + Upsert(s[1..], m)
  }

  /** `generated` is the id used if the message comes without one. */
  function Apply(s: seq<StoredMessage>, u: MessageUpdate, generated: string): seq<StoredMessage> {
    match u
    case AddMessage(id, body) => Upsert(s, StoredMessage(Or(id, generated), body))
    case RemoveMessage(target) => Without(s, target)
    case UpdateMessage(target, patch) => PatchAll(s, target, patch)
  }

  function Reduce(s: seq<StoredMessage>, updates: seq<MessageUpdate>, generated: seq<string>): seq<StoredMessage>
    requires |generated| == |updates|
  {
    if updates == [] then s
    else
      var n := |updates| - 1;
      Apply(Reduce(s, updates[..n], generated[..n]), updates[n], generated[n])
  }

  method FindIndex(s: seq<StoredMessage>, id: string) returns (k: int)
    ensures -1 <= k < |s| && (k >= 0 ==> s[k].id == id)
    ensures forall j :: 0 <= j < (if k >= 0 then k else |s|) ==> s[j].id != id
  {
    for i := 0 to |s|
      invariant forall j :: 0 <= j < i ==> s[j].id != id
    {
      if s[i].id == id {
        return i;
      }
    }
    return -1;
  }

  lemma {:induction false} UpsertAt(s: seq<StoredMessage>, m: StoredMessage, k: nat)
    requires k <= |s| && (k < |s| ==> s[k].id == m.id)
    requires forall j :: 0 <= j < k ==> s[j].id != m.id
    ensures Upsert(s, m) == if k < |s| then s[k := m] else s + [m]
  {
    if k > 0 {
      assert s == [s[0]] + s[1..];
      UpsertAt(s[1..], m, k - 1);
    }
  }

  method MessagesReducer(current: seq<StoredMessage>, updates: seq<MessageUpdate>, generated: seq<string>)
    returns (result: seq<StoredMessage>)
    requires |generated| == |updates|
    ensures result == Reduce(current, updates, generated)
  {
    result := current;
    for i := 0 to |updates|
      invariant result == Reduce(current, updates[..i], generated[..i])
    {
      assert updates[..i + 1][..i] == updates[..i] && generated[..i + 1][..i] == generated[..i];
      match updates[i] {
        case RemoveMessage(target) =>
          result := Without(result, target);
        case UpdateMessage(target, patch) =>
          result := PatchAll(result, target, patch);
        case AddMessage(id, body) =>
          var msg := StoredMessage(Or(id, generated[i]), body);
          var existingIdx := FindIndex(result, msg.id);
          UpsertAt(result, msg, if existingIdx >= 0 then existingIdx else |result|);
          if existingIdx >= 0 {
            result := result[existingIdx := msg];
          } else {
            result := result + [msg];
          }
      }
    }
    assert updates[..|updates|] == updates && generated[..|generated|] == generated;
  }

  // ---- Two batches in turn are one ----

  lemma {:induction false} BatchesConcatenate(s: seq<StoredMessage>, a: seq<MessageUpdate>, b: seq<MessageUpdate>,
                                              ga: seq<string>, gb: seq<string>)
    requires |ga| == |a| && |gb| == |b|
    ensures Reduce(Reduce(s, a, ga), b, gb) == Reduce(s, a + b, ga + gb)
    decreases |b|
  {
    if b == [] {
      assert a + b == a && ga + gb == ga;
    } else {
      var n := |b| - 1;
      assert (a + b)[..|a| + n] == a + b[..n] && (ga + gb)[..|a| + n] == ga + gb[..n];
      BatchesConcatenate(s, a, b[..n], ga, gb[..n]);
    }
  }

  // ---- Ids stay unique, and each id sees only the updates addressed to it ----

  function IdsOf(s: seq<StoredMessage>): seq<string> {
    if s == [] then [] else [s[0].id] + IdsOf(s[1..])
  }

  predicate UniqueIds(s: seq<StoredMessage>) {
    s == [] || (Lookup(s[1..], s[0].id).None? && UniqueIds(s[1..]))
  }

  lemma {:induction false} LookupIds(s: seq<StoredMessage>, id: string)
    ensures Lookup(s, id).Some? <==> id in IdsOf(s)
  {
    if s != [] {
      LookupIds(s[1..], id);
    }
  }

  lemma {:induction false} UniqueIsDistinct(s: seq<StoredMessage>)
    ensures UniqueIds(s) <==> Distinct(IdsOf(s))
  {
    if s != [] {
      var first, rest := [s[0].id], IdsOf(s[1..]);
      UniqueIsDistinct(s[1..]);
      LookupIds(s[1..], s[0].id);
      if Distinct(IdsOf(s)) {
        DistinctParts(first, rest);
        assert s[0].id in first;
      }
    }
  }

  lemma {:induction false} LookupWithout(s: seq<StoredMessage>, target: string, x: string)
    requires UniqueIds(s)
    ensures Lookup(Without(s, target), x) == if x == target then None else Lookup(s, x)
    ensures UniqueIds(Without(s, target))
  {
    if s != [] {
      LookupWithout(s[1..], target, x);
      LookupWithout(s[1..], target, s[0].id);
      var t := Without(s[1..], target);
      assert ([s[0]] + t)[1..] == t && [] + t == t;
    }
  }

  lemma {:induction false} LookupPatched(s: seq<StoredMessage>, target: string, p: Patch, x: string)
    ensures var before := Lookup(s, x);
            Lookup(PatchAll(s, target, p), x) ==
            if x == target && before.Some? then Some(Patched(before.value, p)) else before
    ensures IdsOf(PatchAll(s, target, p)) == IdsOf(s)
  {
    if s != [] {
      LookupPatched(s[1..], target, p, x);
      var first := [if s[0].id == target then StoredMessage(target, Patched(s[0].body, p)) else s[0]];
      assert (first + PatchAll(s[1..], target, p))[1..] == PatchAll(s[1..], target, p);
    }
  }

  lemma {:induction false} LookupUpserted(s: seq<StoredMessage>, m: StoredMessage, x: string)
    ensures Lookup(Upsert(s, m), x) == if x == m.id then Some(m.body) else Lookup(s, x)
    ensures IdsOf(Upsert(s, m)) == if Lookup(s, m.id).Some? then IdsOf(s) else IdsOf(s) + [m.id]
  {
    if s == [] {
      assert [m][1..] == [];
    } else if s[0].id == m.id {
      assert ([m] + s[1..])[1..] == s[1..];
    } else {
      LookupUpserted(s[1..], m, x);
      assert ([s[0]] + Upsert(s[1..], m))[1..] == Upsert(s[1..], m);
    }
  }

  lemma AppendDistinct(ids: seq<string>, id: string)
    requires Distinct(ids) && id !in ids
    ensures Distinct(ids + [id])
  {
  }

  lemma ApplyKeepsUnique(s: seq<StoredMessage>, u: MessageUpdate, g: string)
    requires UniqueIds(s)
    ensures UniqueIds(Apply(s, u, g))
  {
    UniqueIsDistinct(s);
    UniqueIsDistinct(Apply(s, u, g));
    match u
    case AddMessage(id, body) =>
      LookupUpserted(s, StoredMessage(Or(id, g), body), "");
      LookupIds(s, Or(id, g));
      if Or(id, g) !in IdsOf(s) {
        AppendDistinct(IdsOf(s), Or(id, g));
      }
    case RemoveMessage(target) => LookupWithout(s, target, "");
    case UpdateMessage(target, patch) => LookupPatched(s, target, patch, "");
  }

  /** Whatever ids the updates carry or are given, the history keeps its ids unique. */
  lemma {:induction false} ReduceKeepsUnique(s: seq<StoredMessage>, updates: seq<MessageUpdate>, generated: seq<string>)
    requires |generated| == |updates| && UniqueIds(s)
    ensures UniqueIds(Reduce(s, updates, generated))
  {
    if updates != [] {
      var n := |updates| - 1;
      ReduceKeepsUnique(s, updates[..n], generated[..n]);
      ApplyKeepsUnique(Reduce(s, updates[..n], generated[..n]), updates[n], generated[n]);
    }
  }

  /** One update as the message with id `x` sees it. */
  function Effect(u: MessageUpdate, g: string, x: string, body: Option<Body>): Option<Body> {
    match u
    case AddMessage(id, b) => if Or(id, g) == x then Some(b) else body
    case RemoveMessage(target) => if target == x then None else body
    case UpdateMessage(target, p) => if target == x && body.Some? then Some(Patched(body.value, p)) else body
  }

  function Effects(updates: seq<MessageUpdate>, generated: seq<string>, x: string, body: Option<Body>): Option<Body>
    requires |generated| == |updates|
  {
    if updates == [] then body
    else
      var n := |updates| - 1;
      Effect(updates[n], generated[n], x, Effects(updates[..n], generated[..n], x, body))
  }

  /** What a batch leaves under an id depends only on what was there and on the updates addressed to it. */
  lemma {:induction false} ReduceIsPerId(s: seq<StoredMessage>, updates: seq<MessageUpdate>, generated: seq<string>,
                                         x: string)
    requires |generated| == |updates| && UniqueIds(s)
    ensures Lookup(Reduce(s, updates, generated), x) == Effects(updates, generated, x, Lookup(s, x))
  {
    if updates != [] {
      var n := |updates| - 1;
      var before := Reduce(s, updates[..n], generated[..n]);
      ReduceIsPerId(s, updates[..n], generated[..n], x);
      ReduceKeepsUnique(s, updates[..n], generated[..n]);
      match updates[n]
      case AddMessage(id, body) => LookupUpserted(before, StoredMessage(Or(id, generated[n]), body), x);
      case RemoveMessage(target) => LookupWithout(before, target, x);
      case UpdateMessage(target, patch) => LookupPatched(before, target, patch, x);
    }
  }

  // ---- Applying a batch again ----

  /** No removals, and every added message brings its id. */
  predicate Repeatable(updates: seq<MessageUpdate>) {
    forall i :: 0 <= i < |updates| ==>
      !updates[i].RemoveMessage? && (updates[i].AddMessage? ==> updates[i].id.Some?)
  }

  predicate Adds(updates: seq<MessageUpdate>, x: string) {
    exists i :: 0 <= i < |updates| && updates[i].AddMessage? && updates[i].id == Some(x)
  }

  lemma {:induction false} AddedIsFixed(updates: seq<MessageUpdate>, g: seq<string>, h: seq<string>, x: string,
                                        a: Option<Body>, b: Option<Body>)
    requires |g| == |h| == |updates| && Repeatable(updates) && Adds(updates, x)
    ensures Effects(updates, g, x, a) == Effects(updates, h, x, b) && Effects(updates, g, x, a).Some?
  {
    var n := |updates| - 1;
    if !(updates[n].AddMessage? && updates[n].id == Some(x)) {
      var i :| 0 <= i < |updates| && updates[i].AddMessage? && updates[i].id == Some(x);
      assert updates[..n][i] == updates[i];
      AddedIsFixed(updates[..n], g[..n], h[..n], x, a, b);
    }
  }

  /** All patches for `x`, merged. */
  function Merged(updates: seq<MessageUpdate>, x: string): Patch {
    if updates == [] then Patch(None, None, None, None, map[])
    else
      var n := |updates| - 1;
      var m := Merged(updates[..n], x);
      match updates[n]
      case UpdateMessage(target, p) =>
        if target != x then m
        else Patch(None, if p.role.Some? then p.role else m.role,
                   if p.toolCallId.Some? then p.toolCallId else m.toolCallId,
                   if p.toolCalls.Some? then p.toolCalls else m.toolCalls, m.others + p.others)
      case _ => m
  }

  lemma {:induction false} PatchesMerge(updates: seq<MessageUpdate>, g: seq<string>, x: string, body: Option<Body>)
    requires |g| == |updates| && Repeatable(updates) && !Adds(updates, x)
    ensures Effects(updates, g, x, body) == if body.None? then None else Some(Patched(body.value, Merged(updates, x)))
  {
    if updates == [] {
      if body.Some? {
        assert body.value.others + map[] == body.value.others;
      }
    } else {
      var n := |updates| - 1;
      assert forall i :: 0 <= i < n ==> updates[..n][i] == updates[i];
      PatchesMerge(updates[..n], g[..n], x, body);
      if body.Some? && updates[n].UpdateMessage? {
        var m, p := Merged(updates[..n], x), updates[n].patch;
        assert body.value.others + m.others + p.others == body.value.others + (m.others + p.others);
      }
    }
  }

  lemma EffectsTwice(updates: seq<MessageUpdate>, g: seq<string>, h: seq<string>, x: string, body: Option<Body>)
    requires |g| == |h| == |updates| && Repeatable(updates)
    ensures Effects(updates, h, x, Effects(updates, g, x, body)) == Effects(updates, g, x, body)
  {
    if Adds(updates, x) {
      AddedIsFixed(updates, h, g, x, Effects(updates, g, x, body), body);
    } else {
      PatchesMerge(updates, g, x, body);
      PatchesMerge(updates, h, x, Effects(updates, g, x, body));
      if body.Some? {
        var m := Merged(updates, x).others;
        assert body.value.others + m + m == body.value.others + m;
      }
    }
  }

  lemma {:induction false} IdsOnlyGrow(s: seq<StoredMessage>, updates: seq<MessageUpdate>, g: seq<string>)
    requires |g| == |updates| && Repeatable(updates)
    ensures forall x :: x in IdsOf(s) || Adds(updates, x) <==> x in IdsOf(Reduce(s, updates, g))
    ensures (forall x :: Adds(updates, x) ==> x in IdsOf(s)) ==> IdsOf(Reduce(s, updates, g)) == IdsOf(s)
  {
    if updates != [] {
      var n := |updates| - 1;
      var before := Reduce(s, updates[..n], g[..n]);
      IdsOnlyGrow(s, updates[..n], g[..n]);
      assert forall i :: 0 <= i < n ==> updates[..n][i] == updates[i];
      forall x
        ensures Adds(updates, x) <==> Adds(updates[..n], x) || (updates[n].AddMessage? && updates[n].id == Some(x))
      {
        if i :| 0 <= i < |updates| && updates[i].AddMessage? && updates[i].id == Some(x) {
          assert i < n ==> updates[..n][i].AddMessage?;
        }
      }
      match updates[n]
      case AddMessage(id, body) =>
        LookupUpserted(before, StoredMessage(id.value, body), "");
        LookupIds(before, id.value);
      case UpdateMessage(target, patch) => LookupPatched(before, target, patch, "");
    }
  }

  lemma {:induction false} SameIdsAndLookups(s: seq<StoredMessage>, t: seq<StoredMessage>)
    requires UniqueIds(s) && UniqueIds(t) && IdsOf(s) == IdsOf(t)
    requires forall x :: Lookup(s, x) == Lookup(t, x)
    ensures s == t
  {
    if s != [] {
      assert t != [];
      assert IdsOf(s)[0] == IdsOf(t)[0] && IdsOf(s)[1..] == IdsOf(s[1..]) && IdsOf(t)[1..] == IdsOf(t[1..]);
      assert Lookup(s, s[0].id) == Lookup(t, s[0].id);
      forall x ensures Lookup(s[1..], x) == Lookup(t[1..], x) {
        assert Lookup(s, x) == Lookup(t, x);
      }
      SameIdsAndLookups(s[1..], t[1..]);
      assert s == [s[0]] + s[1..] && t == [t[0]] + t[1..];
    } else {
      assert t == [];
    }
  }

  /** Delivering such a batch again changes neither the messages nor their order. */
  lemma RedeliveryIsHarmless(s: seq<StoredMessage>, updates: seq<MessageUpdate>, g: seq<string>, h: seq<string>)
    requires |g| == |h| == |updates| && Repeatable(updates) && UniqueIds(s)
    ensures Reduce(Reduce(s, updates, g), updates, h) == Reduce(s, updates, g)
  {
    var once := Reduce(s, updates, g);
    var twice := Reduce(once, updates, h);
    ReduceKeepsUnique(s, updates, g);
    ReduceKeepsUnique(once, updates, h);
    IdsOnlyGrow(s, updates, g);
    IdsOnlyGrow(once, updates, h);
    forall x ensures Lookup(once, x) == Lookup(twice, x) {
      ReduceIsPerId(s, updates, g, x);
      ReduceIsPerId(once, updates, h, x);
      EffectsTwice(updates, g, h, x, Lookup(s, x));
    }
    SameIdsAndLookups(once, twice);
  }

  // ---- What one more update does ----

  /** Field by field: what the patch sets is set, everything else is as before. */
  ghost predicate PatchedBy(before: Body, p: Patch, after: Body) {
    && after.role == (match p.role case Some(role) => role case None => before.role)
    && after.toolCallId == (match p.toolCallId case Some(id) => id case None => before.toolCallId)
    && after.toolCalls == (match p.toolCalls case Some(calls) => calls case None => before.toolCalls)
    && (forall k :: k in after.others <==> k in before.others || k in p.others)
    && (forall k :: k in p.others ==> after.others[k] == p.others[k])
    && (forall k :: k in before.others && k !in p.others ==> after.others[k] == before.others[k])
  }

  lemma {:induction false} WithoutKeepsOrder(s: seq<StoredMessage>, id: string)
    ensures IdsOf(Without(s, id)) == Sequences.Without(IdsOf(s), id)
  {
    if s == [] {
    } else {
      WithoutKeepsOrder(s[1..], id);
      WithoutFirst(s[0].id, IdsOf(s[1..]), id);
      assert IdsOf([s[0]] + Without(s[1..], id)) == [s[0].id] + IdsOf(Without(s[1..], id)) by {
        assert ([s[0]] + Without(s[1..], id))[1..] == Without(s[1..], id);
      }
      assert [] + Without(s[1..], id) == Without(s[1..], id);
    }
  }

  lemma {:induction false} WithoutFirst(x: string, ids: seq<string>, id: string)
    ensures Sequences.Without([x] + ids, id) == (if x == id then [] else [x]) + Sequences.Without(ids, id)
    decreases |ids|
  {
    var all := [x] + ids;
    if ids == [] {
      assert all == [x] && [x][..0] == [];
    } else {
      var n := |ids| - 1;
      assert all[..|all| - 1] == [x] + ids[..n];
      WithoutFirst(x, ids[..n], id);
    }
  }

  /**
   An added message is stored as it is under its own or the generated id, at
   the place of that id or at the end; a removed one is gone; a patched one has
   the fields of the patch. All other messages, and the order, stay.
   */
  lemma LastUpdateTells(s: seq<StoredMessage>, updates: seq<MessageUpdate>, generated: seq<string>,
                        u: MessageUpdate, g: string, x: string)
    requires |generated| == |updates| && UniqueIds(s)
    ensures var t := Reduce(s, updates, generated);
            var t' := Reduce(s, updates + [u], generated + [g]);
            var before, after := Lookup(t, x), Lookup(t', x);
            match u
            case AddMessage(id, body) =>
              var target := match id { case Some(own) => own case None => g };
              && after == (if x == target then Some(body) else before)
              && IdsOf(t') == IdsOf(t) + (if target in IdsOf(t) then [] else [target])
            case RemoveMessage(target) =>
              && after == (if x == target then None else before)
              && IdsOf(t') == Sequences.Without(IdsOf(t), target)
            case UpdateMessage(target, p) =>
              && IdsOf(t') == IdsOf(t)
              && (if x == target && before.Some? then after.Some? && PatchedBy(before.value, p, after.value)
                  else after == before)
  {
    var t := Reduce(s, updates, generated);
    assert (updates + [u])[..|updates|] == updates && (generated + [g])[..|updates|] == generated;
    ReduceKeepsUnique(s, updates, generated);
    match u {
      case AddMessage(id, body) =>
        LookupUpserted(t, StoredMessage(Or(id, g), body), x);
        LookupIds(t, Or(id, g));
      case RemoveMessage(target) =>
        LookupWithout(t, target, x);
        WithoutKeepsOrder(t, target);
      case UpdateMessage(target, p) => LookupPatched(t, target, p, x);
    }
  }
}
