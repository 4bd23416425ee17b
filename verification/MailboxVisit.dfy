/** The poll: promote what is due, merge the ready indexes in pages while what is returned is claimed out of
    them, and stop at the limit. Proved equal to a scan over every message. */
module MailboxVisit {
  import opened Wrappers
  import opened MessageKeys
  import opened Mailbox
  import opened MailboxPolling
  import O = MessageOrder
  import M = MessageMerge

  // ---- The poll ----

  /** What a scan over every message would want. */
  predicate Wanted(messages: map<Id, Meta>, states: map<Id, RequestState>, shards: seq<string>,
                   addresses: Option<seq<Address>>, now: int, id: Id) {
    id in messages && Eligible(messages[id], StateOf(states, messages[id].requestId), now)
    && AskedFor(shards, addresses, messages[id].address)
  }

  /** The answer of a scan: the wanted messages by enqueue stamp, the first ones up to the limit. */
  ghost predicate Answer(result: seq<Id>, messages: map<Id, Meta>, states: map<Id, RequestState>, orders: map<Id, nat>,
                         shards: seq<string>, addresses: Option<seq<Address>>, now: int, limit: Option<nat>) {
    && InOrder(orders, result)
    && (forall id :: id in result ==> Wanted(messages, states, shards, addresses, now, id))
    && (limit.Some? ==> |result| <= limit.value)
    && (forall id :: id in orders && Wanted(messages, states, shards, addresses, now, id) && id !in result ==>
          limit == Some(|result|) && forall i :: 0 <= i < |result| ==> orders[result[i]] < orders[id])
  }

  /** A scan has one answer. */
  lemma AnswerUnique(a: seq<Id>, b: seq<Id>, messages: map<Id, Meta>, states: map<Id, RequestState>, orders: map<Id, nat>,
                     shards: seq<string>, addresses: Option<seq<Address>>, now: int, limit: Option<nat>)
    requires forall i, j :: i in orders && j in orders && orders[i] == orders[j] ==> i == j
    requires Answer(a, messages, states, orders, shards, addresses, now, limit)
    requires Answer(b, messages, states, orders, shards, addresses, now, limit)
    ensures a == b
  {
    if |a| <= |b| {
      AnswerPrefix(a, b, messages, states, orders, shards, addresses, now, limit);
    } else {
      AnswerPrefix(b, a, messages, states, orders, shards, addresses, now, limit);
    }
  }

  lemma AnswerPrefix(a: seq<Id>, b: seq<Id>, messages: map<Id, Meta>, states: map<Id, RequestState>, orders: map<Id, nat>,
                     shards: seq<string>, addresses: Option<seq<Address>>, now: int, limit: Option<nat>)
    requires forall i, j :: i in orders && j in orders && orders[i] == orders[j] ==> i == j
    requires Answer(a, messages, states, orders, shards, addresses, now, limit)
    requires Answer(b, messages, states, orders, shards, addresses, now, limit)
    requires |a| <= |b|
    ensures a == b
  {
    var i := 0;
    while i < |a|
      invariant i <= |a| && a[..i] == b[..i]
    {
      SameNext(a, b, messages, states, orders, shards, addresses, now, limit, i);
      SameNext(b, a, messages, states, orders, shards, addresses, now, limit, i);
      i := i + 1;
    }
    NoLonger(a, b, messages, states, orders, shards, addresses, now, limit);
  }

  lemma NoLonger(a: seq<Id>, b: seq<Id>, messages: map<Id, Meta>, states: map<Id, RequestState>, orders: map<Id, nat>,
                 shards: seq<string>, addresses: Option<seq<Address>>, now: int, limit: Option<nat>)
    requires Answer(a, messages, states, orders, shards, addresses, now, limit)
    requires Answer(b, messages, states, orders, shards, addresses, now, limit)
    requires |a| <= |b| && a == b[..|a|]
    ensures |a| == |b|
  {
    hide Wanted;
    assert forall i :: 0 <= i < |b| ==> b[i] in b && b[i] !in b[..i];
  }

  lemma EarlierSame(a: seq<Id>, b: seq<Id>, i: nat, k: nat)
    requires i < |a| && i < |b| && a[..i] == b[..i] && k < |a|
    ensures k < i ==> a[k] == b[k]
  {
    assert forall j :: 0 <= j < i ==> a[..i][j] == a[j] && b[..i][j] == b[j];
  }

  /** Two answers that agree so far: the next of one is not before the next of the other. */
  lemma SameNext(a: seq<Id>, b: seq<Id>, messages: map<Id, Meta>, states: map<Id, RequestState>, orders: map<Id, nat>,
                 shards: seq<string>, addresses: Option<seq<Address>>, now: int, limit: Option<nat>, i: nat)
    requires Answer(a, messages, states, orders, shards, addresses, now, limit)
    requires Answer(b, messages, states, orders, shards, addresses, now, limit)
    requires i < |a| && i < |b| && a[..i] == b[..i]
    ensures orders[a[i]] <= orders[b[i]]
  {
    var x := b[i];
    assert x in b;
    if x in a {
      var k :| 0 <= k < |a| && a[k] == x;
      EarlierSame(a, b, i, k);
    } else {
      assert orders[a[i]] < orders[x];
    }
  }

  function Left(limit: Option<nat>, taken: nat): (r: Option<nat>)
    ensures limit.Some? && taken < limit.value ==> r != Some(0)
    ensures limit.None? ==> r.None?
  {
    if limit.Some? && taken <= limit.value then Some(limit.value - taken) else limit
  }

  lemma TakeMore(a: seq<Id>, b: seq<Id>, limit: Option<nat>)
    ensures Take(a, limit) + Take(b, Left(limit, |Take(a, limit)|)) == Take(a + b, limit)
    ensures limit.Some? ==> |Take(a, limit)| <= limit.value
  {
  }

  lemma WindowFresh(promoted: map<Id, Meta>, states: map<Id, RequestState>, orders: map<Id, nat>, ready: seq<Id>,
                    k: nat, e: nat, result: seq<Id>, now: int, limit: Option<nat>)
    requires InOrder(orders, ready) && k <= e <= |ready|
    requires result == Take(Chosen(ready[..k], promoted, states, now, true), limit)
    ensures forall id :: id in ready[k..e] ==> id !in result
    ensures forall id :: id in ready[k..e] && id in promoted ==> Claimed(promoted, states, result, now)[id] == promoted[id]
  {
    ChosenIn(ready[..k], promoted, states, now, true);
    assert forall id :: id in result ==> id in ready[..k];
    forall id | id in ready[k..e]
      ensures id !in ready[..k]
    {
      var j :| 0 <= j < e - k && ready[k..e][j] == id;
      assert ready[k + j] == id;
      forall x | 0 <= x < k ensures ready[..k][x] != id { assert orders[ready[x]] < orders[ready[k + j]]; }
    }
  }

  lemma ClaimedTwice(was: map<Id, Meta>, states: map<Id, RequestState>, a: seq<Id>, b: seq<Id>, now: int)
    requires forall id :: id in b ==> id !in a
    ensures Claimed(Claimed(was, states, a, now), states, b, now) == Claimed(was, states, a + b, now)
  {
  }

  // ---- The ready indexes as the merge reads them ----

  function At(n: nat): O.Stamp {
    O.Stamp(n, 0, 0)
  }

  /** The committed rows of both ready families: those of messages enqueued before this transaction. */
  function ReadyRows(polls: Polls, boundary: nat): set<O.Row> {
    (set r | r in polls.readyByShard && r.stamp < boundary :: O.Row(AtShard(r.key), At(r.stamp), r.id))
    + (set r | r in polls.readyByAddress && r.stamp < boundary :: O.Row(AtAddress(r.key), At(r.stamp), r.id))
  }

  predicate RowFor(messages: map<Id, Meta>, orders: map<Id, nat>, boundary: nat, row: O.Row) {
    && row.id in messages && row.id in orders && messages[row.id].polling.Ready? && orders[row.id] < boundary
    && row.stamp == At(orders[row.id]) && Holds(row.space, messages[row.id].address)
  }

  lemma ReadyRowsAre(polls: Polls, orders: map<Id, nat>, messages: map<Id, Meta>, boundary: nat)
    requires AgreesReady(polls, orders, messages)
    ensures forall r :: r in ReadyRows(polls, boundary) <==> RowFor(messages, orders, boundary, r)
  {
    forall r | RowFor(messages, orders, boundary, r) ensures r in ReadyRows(polls, boundary) {
      match r.space
      case AtShard(shard) => assert ReadyRow(shard, orders[r.id], r.id) in polls.readyByShard;
      case AtAddress(a) => assert ReadyRow(a, orders[r.id], r.id) in polls.readyByAddress;
    }
  }

  /** Keys of one selection are all of shards or all of addresses. */
  lemma {:induction false} ShardKeysAlike(shards: seq<string>)
    ensures forall k :: k in ShardKeys(shards) ==> k.AtShard?
  {
    if shards != [] { ShardKeysAlike(shards[1..]); }
  }

  lemma {:induction false} AddressKeysAlike(shards: seq<string>, addresses: seq<Address>)
    ensures forall k :: k in AddressKeys(shards, addresses) ==> k.AtAddress?
  {
    if addresses != [] { AddressKeysAlike(shards, addresses[1..]); }
  }

  /** In the indexes of one selection an id and a stamp belong to one row. */
  lemma RowsOnce(polls: Polls, orders: map<Id, nat>, messages: map<Id, Meta>, boundary: nat,
                 shards: seq<string>, addresses: Option<seq<Address>>)
    requires AgreesReady(polls, orders, messages)
    requires forall i, j :: i in orders && j in orders && orders[i] == orders[j] ==> i == j
    ensures M.OneEach(ReadyRows(polls, boundary), Keys(shards, addresses))
  {
    ReadyRowsAre(polls, orders, messages, boundary);
    ShardKeysAlike(shards);
    if addresses.Some? { AddressKeysAlike(shards, addresses.value); }
    hide ReadyRows, AgreesReady, ShardKeys, AddressKeys;
  }

  // ---- Messages enqueued in this transaction ----

  function EntryOf(messages: map<Id, Meta>, orders: map<Id, nat>, boundary: nat, id: Id): O.Pending
    requires id in messages && id in orders && orders[id] >= boundary
  {
    O.Pending(id, orders[id] - boundary, [AtShard(messages[id].address.shard), AtAddress(messages[id].address)],
              messages[id].polling.Ready?)
  }

  predicate EnqueuedHere(messages: map<Id, Meta>, orders: map<Id, nat>, boundary: nat, id: Id) {
    id in messages && id in orders && orders[id] >= boundary
  }

  ghost predicate PendingFor(pending: seq<O.Pending>, messages: map<Id, Meta>, orders: map<Id, nat>, boundary: nat) {
    && M.Apart(pending)
    && (forall e :: e in pending ==> EnqueuedHere(messages, orders, boundary, e.id) && e == EntryOf(messages, orders, boundary, e.id))
    && (forall id :: EnqueuedHere(messages, orders, boundary, id) ==> EntryOf(messages, orders, boundary, id) in pending)
  }

  /** The pending entries of this transaction's own messages, in whatever order their map has them. */
  method PendingEntries(messages: map<Id, Meta>, orders: map<Id, nat>, boundary: nat) returns (pending: seq<O.Pending>)
    requires forall i, j :: i in orders && j in orders && orders[i] == orders[j] ==> i == j
    ensures PendingFor(pending, messages, orders, boundary)
  {
    pending := [];
    var todo := set id | id in messages && EnqueuedHere(messages, orders, boundary, id);
    while todo != {}
      invariant forall id :: id in todo ==> EnqueuedHere(messages, orders, boundary, id)
      invariant forall e :: e in pending ==>
        EnqueuedHere(messages, orders, boundary, e.id) && e.id !in todo && e == EntryOf(messages, orders, boundary, e.id)
      invariant forall id :: EnqueuedHere(messages, orders, boundary, id) ==>
        id in todo || EntryOf(messages, orders, boundary, id) in pending
      invariant M.Apart(pending)
      decreases todo
    {
      var id :| id in todo;
      assert forall i :: 0 <= i < |pending| ==> pending[i] in pending;
      pending := pending + [EntryOf(messages, orders, boundary, id)];
      todo := todo - {id};
    }
  }

  // ---- The visitor ----

  /** What a claiming read of the next batch hands out after some ids have been read. */
  function LoadedNext(messages: map<Id, Meta>, states: map<Id, RequestState>, now: int, limit: Option<nat>,
                      shown: seq<Id>, batch: seq<Id>): seq<Id> {
    Take(Chosen(batch, messages, states, now, true), Left(limit, |FirstOf(messages, states, now, limit, shown)|))
  }

  function FirstOf(messages: map<Id, Meta>, states: map<Id, RequestState>, now: int, limit: Option<nat>,
                   shown: seq<Id>): seq<Id> {
    Take(Chosen(shown, messages, states, now, true), limit)
  }

  /** Takes out of the indexes what it hands out, and wants more while it is below the limit. */
  function PollVisitor(messages: map<Id, Meta>, states: map<Id, RequestState>, now: int, limit: Option<nat>): M.Visitor {
    (shown: seq<Id>, batch: seq<Id>) =>
      var loaded := LoadedNext(messages, states, now, limit, shown, batch);
      ((set id | id in loaded),
       limit.None? || |FirstOf(messages, states, now, limit, shown)| + |loaded| < limit.value)
  }

  /** The first ones of two batches are the first ones of the one and what the next read adds. */
  lemma FirstOfMore(messages: map<Id, Meta>, states: map<Id, RequestState>, now: int, limit: Option<nat>,
                    shown: seq<Id>, batch: seq<Id>)
    ensures FirstOf(messages, states, now, limit, shown + batch)
            == FirstOf(messages, states, now, limit, shown) + LoadedNext(messages, states, now, limit, shown, batch)
    ensures forall id :: id in LoadedNext(messages, states, now, limit, shown, batch) ==> id in batch
  {
    ChosenConcat(shown, batch, messages, states, now, true);
    TakeMore(Chosen(shown, messages, states, now, true), Chosen(batch, messages, states, now, true), limit);
    ChosenIn(batch, messages, states, now, true);
  }

  lemma VisitorRemovesShown(messages: map<Id, Meta>, states: map<Id, RequestState>, now: int, limit: Option<nat>)
    ensures forall shown, batch, id :: id in PollVisitor(messages, states, now, limit)(shown, batch).0 ==> id in batch
  {
    forall shown, batch, id | id in PollVisitor(messages, states, now, limit)(shown, batch).0 ensures id in batch {
      FirstOfMore(messages, states, now, limit, shown, batch);
    }
  }

  /** Over any windows the visitor takes out exactly what reading them hands out. */
  lemma {:induction false} VisitorTakes(messages: map<Id, Meta>, states: map<Id, RequestState>, now: int,
                              limit: Option<nat>, batches: seq<seq<Id>>)
    ensures M.TakenOut(PollVisitor(messages, states, now, limit), batches)
            == set id | id in FirstOf(messages, states, now, limit, M.Flat(batches))
  {
    if batches != [] {
      var front, last := batches[..|batches| - 1], batches[|batches| - 1];
      VisitorTakes(messages, states, now, limit, front);
      FirstOfMore(messages, states, now, limit, M.Flat(front), last);
      hide FirstOf, LoadedNext;
    }
  }

  /** It is content with a window exactly when the limit is reached. */
  lemma VisitorWants(messages: map<Id, Meta>, states: map<Id, RequestState>, now: int, limit: Option<nat>,
                     batches: seq<seq<Id>>, i: nat)
    requires i < |batches|
    ensures M.WantsMore(PollVisitor(messages, states, now, limit), batches, i)
            <==> (limit.None? || |FirstOf(messages, states, now, limit, M.Flat(batches[..i + 1]))| < limit.value)
  {
    assert batches[..i + 1][..i] == batches[..i];
    FirstOfMore(messages, states, now, limit, M.Flat(batches[..i]), batches[i]);
    hide FirstOf, LoadedNext;
  }

  // ---- What a visit shows ----

  /** The ids shown are ready, in enqueue order, and nothing ready was passed over; all of it unless the
      visit was stopped. */
  ghost predicate ShownFirst(shown: seq<Id>, stopped: bool, messages: map<Id, Meta>, orders: map<Id, nat>,
                             keys: seq<Key>) {
    && InOrder(orders, shown)
    && (forall id :: id in shown ==> IsReadyFor(messages, keys, id))
    && (forall id :: IsReadyFor(messages, keys, id) && id !in shown ==>
          stopped && id in orders && forall i :: 0 <= i < |shown| ==> orders[shown[i]] < orders[id])
  }

  lemma NothingAsked(was: map<Id, Meta>, states: map<Id, RequestState>, orders: map<Id, nat>, shards: seq<string>,
                     addresses: Option<seq<Address>>, now: int)
    ensures Answer([], was, states, orders, shards, addresses, now, Some(0))
    ensures AfterPoll(was, states, shards, addresses, [], now, false) == was
  {
  }

  function Bound(limit: Option<int>): Option<nat> {
    if limit.None? then None else if limit.value <= 0 then Some(0) else Some(limit.value)
  }

  /** Claims on what was handed out; due timers of the indexes asked for made ready; nothing else. */
  function AfterPoll(messages: map<Id, Meta>, states: map<Id, RequestState>, shards: seq<string>,
                     addresses: Option<seq<Address>>, result: seq<Id>, now: int, polls: bool): map<Id, Meta> {
    map id | id in messages ::
      if id in result then WithClaim(messages[id], states, Some(now))
      else if polls && AskedFor(shards, addresses, messages[id].address)
              && messages[id].polling.Timer? && messages[id].polling.time <= now then messages[id].(polling := Ready)
      else messages[id]
  }


  lemma TakeInOrder(orders: map<Id, nat>, ids: seq<Id>, limit: Option<nat>)
    requires InOrder(orders, ids)
    ensures var taken := Take(ids, limit);
            && InOrder(orders, taken) && (forall id :: id in taken ==> id in ids)
            && forall id :: id in ids && id !in taken ==>
                 limit == Some(|taken|) && forall i :: 0 <= i < |taken| ==> orders[taken[i]] < orders[id]
  {
    if limit.Some? && limit.value < |ids| {
      var n := limit.value;
      assert forall k :: 0 <= k < n ==> ids[..n][k] == ids[k];
      forall id | id in ids && id !in ids[..n]
        ensures forall i :: 0 <= i < n ==> orders[ids[i]] < orders[id]
      {
        var k :| 0 <= k < |ids| && ids[k] == id;
        assert k >= n;
      }
    }
  }

  lemma PollLeaves(was: map<Id, Meta>, states: map<Id, RequestState>, shards: seq<string>,
                   addresses: Option<seq<Address>>, result: seq<Id>, now: int)
    ensures var promoted := PromotedIn(was, Due(was, Keys(shards, addresses), now));
            Claimed(promoted, states, result, now) == AfterPoll(was, states, shards, addresses, result, now, true)
  {
    var keys := Keys(shards, addresses);
    forall a ensures Selected(keys, a) <==> AskedFor(shards, addresses, a) { KeysSelect(shards, addresses, a); }
    hide Keys, Selected, AskedFor, Eligible, StateOf, PollingState;
  }

  /** After promotion the ready messages that are handed out are those a scan of the old state wants. */
  lemma ReadyIffWanted(was: map<Id, Meta>, states: map<Id, RequestState>, keys: seq<Key>, now: int, id: Id)
    requires Polled(was, states) && id in was
    ensures var promoted := PromotedIn(was, Due(was, keys, now));
            IsReadyFor(promoted, keys, id) && HandedOut(promoted[id], StateOf(states, promoted[id].requestId), now, true)
            <==> Eligible(was[id], StateOf(states, was[id].requestId), now) && Selected(keys, was[id].address)
  {
    PollingAnswersEligible(was[id], StateOf(states, was[id].requestId), now);
    assert PolledOne(was[id], StateOf(states, was[id].requestId));
  }

  /** The first of what the windows show is the answer. */
  lemma FirstAnswer(was: map<Id, Meta>, states: map<Id, RequestState>, orders: map<Id, nat>, shards: seq<string>,
                    addresses: Option<seq<Address>>, chosen: seq<Id>, now: int, limit: Option<nat>)
    requires InOrder(orders, chosen)
    requires forall id :: id in chosen ==> Wanted(was, states, shards, addresses, now, id)
    requires forall id :: Wanted(was, states, shards, addresses, now, id) && id !in chosen ==>
               limit.Some? && |chosen| >= limit.value && id in orders && forall i :: 0 <= i < |chosen| ==> orders[chosen[i]] < orders[id]
    ensures Answer(Take(chosen, limit), was, states, orders, shards, addresses, now, limit)
  {
    hide Wanted, InOrder;
    TakeInOrder(orders, chosen, limit);
    InOrderHas(orders, chosen);
  }

  lemma InOrderHas(orders: map<Id, nat>, ids: seq<Id>)
    requires InOrder(orders, ids)
    ensures forall id :: id in ids ==> id in orders
  {
  }

  /** What is handed out of the ids shown is what a scan wants of them; what a scan wants else was ready and not shown. */
  lemma ShownAreWanted(was: map<Id, Meta>, states: map<Id, RequestState>, shards: seq<string>,
                       addresses: Option<seq<Address>>, shown: seq<Id>, now: int)
    requires Polled(was, states)
    requires forall id :: id in shown ==> IsReadyFor(PromotedIn(was, Due(was, Keys(shards, addresses), now)), Keys(shards, addresses), id)
    ensures var promoted := PromotedIn(was, Due(was, Keys(shards, addresses), now));
            var chosen := Chosen(shown, promoted, states, now, true);
            && (forall id :: id in chosen ==> id in shown && Wanted(was, states, shards, addresses, now, id))
            && (forall id :: Wanted(was, states, shards, addresses, now, id) && id !in chosen ==>
                  id !in shown && IsReadyFor(promoted, Keys(shards, addresses), id))
  {
    var keys := Keys(shards, addresses);
    var promoted := PromotedIn(was, Due(was, keys, now));
    ChosenIn(shown, promoted, states, now, true);
    forall id | id in was
      ensures IsReadyFor(promoted, keys, id) && HandedOut(promoted[id], StateOf(states, promoted[id].requestId), now, true)
              <==> Wanted(was, states, shards, addresses, now, id)
    {
      ReadyIffWanted(was, states, keys, now, id);
      KeysSelect(shards, addresses, was[id].address);
    }
    assert promoted.Keys == was.Keys;
    hide HandedOut, Eligible, AskedFor, Selected, Keys, Due, Chosen;
  }

  /** A chosen id comes before whatever comes after all shown. */
  lemma ChosenBefore(orders: map<Id, nat>, shown: seq<Id>, chosen: seq<Id>, id: Id)
    requires InOrder(orders, shown) && InOrder(orders, chosen) && id in orders
    requires forall x :: x in chosen ==> x in shown
    requires forall i :: 0 <= i < |shown| ==> orders[shown[i]] < orders[id]
    ensures forall i :: 0 <= i < |chosen| ==> orders[chosen[i]] < orders[id]
  {
    forall i | 0 <= i < |chosen| ensures orders[chosen[i]] < orders[id] { assert chosen[i] in chosen; }
  }

  lemma PollAnswers(was: map<Id, Meta>, states: map<Id, RequestState>, orders: map<Id, nat>, shards: seq<string>,
                    addresses: Option<seq<Address>>, shown: seq<Id>, stopped: bool, now: int, limit: Option<nat>)
    requires Polled(was, states)
    requires ShownFirst(shown, stopped, PromotedIn(was, Due(was, Keys(shards, addresses), now)), orders, Keys(shards, addresses))
    requires var promoted := PromotedIn(was, Due(was, Keys(shards, addresses), now));
             stopped ==> !Room(limit, |FirstOf(promoted, states, now, limit, shown)|)
    ensures var promoted := PromotedIn(was, Due(was, Keys(shards, addresses), now));
            Answer(FirstOf(promoted, states, now, limit, shown), was, states, orders, shards, addresses, now, limit)
  {
    var keys := Keys(shards, addresses);
    var promoted := PromotedIn(was, Due(was, keys, now));
    var chosen := Chosen(shown, promoted, states, now, true);
    ShownAreWanted(was, states, shards, addresses, shown, now);
    ChosenInOrder(orders, shown, promoted, states, now, true);
    hide Wanted, IsReadyFor, Chosen, Keys, Due, PromotedIn, Polled;
    forall id | Wanted(was, states, shards, addresses, now, id) && id !in chosen
      ensures limit.Some? && |chosen| >= limit.value && id in orders && forall i :: 0 <= i < |chosen| ==> orders[chosen[i]] < orders[id]
    {
      ChosenBefore(orders, shown, chosen, id);
    }
    hide InOrder, ShownFirst;
    FirstAnswer(was, states, orders, shards, addresses, chosen, now, limit);
  }

  // ---- From the visit to what it shows ----

  lemma EntryRow(store: map<Key, seq<M.Entry>>, rows: set<O.Row>, keys: seq<Key>, e: M.Entry)
    requires M.ListsAll(store, rows, keys) && exists s :: s in keys && e in store[s]
    ensures exists s :: s in keys && O.Row(s, e.stamp, e.id) in rows
  {
    var s :| s in keys && e in store[s];
    assert O.Row(s, e.stamp, e.id) in rows;
  }

  /** Committed rows shown are of ready messages; a ready committed message not shown comes later. */
  lemma CommittedShown(store: map<Key, seq<M.Entry>>, rows: set<O.Row>, keys: seq<Key>, entries: seq<M.Entry>,
                       messages: map<Id, Meta>, orders: map<Id, nat>, boundary: nat)
    requires M.ListsAll(store, rows, keys) && forall r :: r in rows <==> RowFor(messages, orders, boundary, r)
    requires messages.Keys == orders.Keys
    requires forall e :: e in entries ==> exists s :: s in keys && e in store[s]
    requires forall e, s, d :: e in entries && s in keys && d in store[s] && d !in entries ==> e.stamp.Before(d.stamp)
    ensures forall e :: e in entries ==> IsReadyFor(messages, keys, e.id) && e.stamp == At(orders[e.id]) && orders[e.id] < boundary
    ensures forall id :: IsReadyFor(messages, keys, id) && orders[id] < boundary && M.Entry(At(orders[id]), id) !in entries ==>
              forall e :: e in entries ==> e.id in orders && orders[e.id] < orders[id]
    ensures forall id :: IsReadyFor(messages, keys, id) && orders[id] < boundary ==>
              exists s :: s in keys && M.Entry(At(orders[id]), id) in store[s]
  {
    forall e | e in entries
      ensures IsReadyFor(messages, keys, e.id) && e.stamp == At(orders[e.id]) && orders[e.id] < boundary
    {
      EntryRow(store, rows, keys, e);
      var s :| s in keys && O.Row(s, e.stamp, e.id) in rows;
      assert RowFor(messages, orders, boundary, O.Row(s, e.stamp, e.id));
      assert Holds(s, messages[e.id].address);
    }
    forall id | IsReadyFor(messages, keys, id) && orders[id] < boundary
      ensures exists s :: s in keys && M.Entry(At(orders[id]), id) in store[s]
      ensures M.Entry(At(orders[id]), id) !in entries ==> forall e :: e in entries ==> e.id in orders && orders[e.id] < orders[id]
    {
      var s :| s in keys && Holds(s, messages[id].address);
      var d := M.Entry(At(orders[id]), id);
      assert RowFor(messages, orders, boundary, O.Row(s, d.stamp, d.id));
      assert d in store[s];
    }
  }

  /** Pending entries shown are of this transaction's ready messages, in enqueue order, and all of those are listed. */
  lemma PendingShown(pending: seq<O.Pending>, list: seq<O.Pending>, keys: seq<Key>, gone: set<Id>,
                     messages: map<Id, Meta>, orders: map<Id, nat>, boundary: nat)
    requires PendingFor(pending, messages, orders, boundary) && messages.Keys == orders.Keys
    requires forall e :: e in list <==> e in pending && M.Due(e, keys, gone)
    requires forall id :: id in gone ==> id in orders && orders[id] < boundary
    ensures forall e :: e in list ==> IsReadyFor(messages, keys, e.id) && orders[e.id] == boundary + e.user
    ensures forall id :: IsReadyFor(messages, keys, id) && orders[id] >= boundary ==> EntryOf(messages, orders, boundary, id) in list
  {
    forall e | e in list ensures IsReadyFor(messages, keys, e.id) && orders[e.id] == boundary + e.user {
      assert e == EntryOf(messages, orders, boundary, e.id);
      var s :| s in e.spaces && s in keys;
      assert Holds(s, messages[e.id].address);
    }
    forall id | IsReadyFor(messages, keys, id) && orders[id] >= boundary ensures EntryOf(messages, orders, boundary, id) in list {
      var e := EntryOf(messages, orders, boundary, id);
      assert EnqueuedHere(messages, orders, boundary, id) && e in pending;
      var s :| s in keys && Holds(s, messages[id].address);
      assert s == e.spaces[0] || s == e.spaces[1];
      assert s in e.spaces;
    }
  }

  lemma ShownInOrder(entries: seq<M.Entry>, list: seq<O.Pending>, tail: nat, orders: map<Id, nat>, boundary: nat)
    requires M.Sorted(entries) && M.Rising(list) && tail <= |list|
    requires forall e :: e in entries ==> e.id in orders && e.stamp == At(orders[e.id]) && orders[e.id] < boundary
    requires forall e :: e in list ==> e.id in orders && orders[e.id] == boundary + e.user
    ensures InOrder(orders, M.Ids(entries) + M.EntryIds(list[..tail]))
  {
    var a, b := M.Ids(entries), M.EntryIds(list[..tail]);
    forall i | 0 <= i < |entries| ensures a[i] in orders && entries[i].stamp == At(orders[a[i]]) && orders[a[i]] < boundary {
      assert entries[i] in entries;
    }
    forall i | 0 <= i < tail ensures b[i] in orders && orders[b[i]] == boundary + list[i].user {
      assert list[i] in list;
    }
    forall i, j | 0 <= i < j < |a| ensures orders[a[i]] < orders[a[j]] {
      assert entries[i].stamp.Before(entries[j].stamp);
    }
    forall i, j | 0 <= i < j < |b| ensures orders[b[i]] < orders[b[j]] {
      assert list[i].user < list[j].user;
    }
    hide M.Ids, M.EntryIds, M.Sorted, M.Rising, At;
  }

  /** What came before everything in one part and everything in the other came before all that was shown. */
  lemma LaterThanShown(entries: seq<M.Entry>, list: seq<O.Pending>, tail: nat, orders: map<Id, nat>, id: Id)
    requires tail <= |list| && id in orders
    requires forall e :: e in entries ==> e.id in orders && orders[e.id] < orders[id]
    requires forall i :: 0 <= i < tail ==> list[i].id in orders && orders[list[i].id] < orders[id]
    ensures var shown := M.Ids(entries) + M.EntryIds(list[..tail]);
            forall i :: 0 <= i < |shown| ==> shown[i] in orders && orders[shown[i]] < orders[id]
  {
    forall i | 0 <= i < |entries| ensures M.Ids(entries)[i] in orders && orders[M.Ids(entries)[i]] < orders[id] {
      assert entries[i] in entries;
    }
  }

  lemma EntriesShown(entries: seq<M.Entry>, list: seq<O.Pending>, tail: nat)
    requires tail <= |list|
    ensures var shown := M.Ids(entries) + M.EntryIds(list[..tail]);
            && (forall e :: e in entries ==> e.id in shown)
            && (forall i :: 0 <= i < tail ==> list[i].id in shown)
            && (forall id :: id in shown ==> (exists e :: e in entries && e.id == id) || (exists i :: 0 <= i < tail && list[i].id == id))
  {
    var a, b := M.Ids(entries), M.EntryIds(list[..tail]);
    forall e | e in entries ensures e.id in a + b {
      var i :| 0 <= i < |entries| && entries[i] == e;
      assert (a + b)[i] == e.id;
    }
    forall i | 0 <= i < tail ensures list[i].id in a + b {
      assert (a + b)[|a| + i] == list[i].id;
    }
    forall id | id in a + b ensures (exists e :: e in entries && e.id == id) || (exists i :: 0 <= i < tail && list[i].id == id) {
      var k :| 0 <= k < |a + b| && (a + b)[k] == id;
      if k < |a| { assert entries[k] in entries; } else { assert list[k - |a|].id == id; }
    }
  }

  /** A ready message a visit has not shown comes after all it has shown, and the visit was stopped. */
  lemma NotShownLater(store: map<Key, seq<M.Entry>>, keys: seq<Key>, entries: seq<M.Entry>, list: seq<O.Pending>,
                      tail: nat, stopped: bool,
                      messages: map<Id, Meta>, orders: map<Id, nat>, boundary: nat, id: Id)
    requires M.Rising(list) && tail <= |list| && messages.Keys == orders.Keys && IsReadyFor(messages, keys, id)
    requires id !in M.Ids(entries) + M.EntryIds(list[..tail])
    requires forall e :: e in entries ==> e.id in orders && orders[e.id] < boundary
    requires forall e :: e in list ==> e.id in orders && orders[e.id] == boundary + e.user
    requires orders[id] < boundary ==> forall e :: e in entries ==> orders[e.id] < orders[id]
    requires orders[id] < boundary && (tail > 0 || !stopped) ==> M.Entry(At(orders[id]), id) in entries
    requires orders[id] >= boundary ==> EntryOf(messages, orders, boundary, id) in list
    requires !stopped ==> tail == |list|
    ensures stopped
    ensures var shown := M.Ids(entries) + M.EntryIds(list[..tail]);
            forall i :: 0 <= i < |shown| ==> shown[i] in orders && orders[shown[i]] < orders[id]
  {
    EntriesShown(entries, list, tail);
    forall i | 0 <= i < tail ensures list[i].id in orders && orders[list[i].id] < orders[id] && stopped {
      assert list[i] in list;
      if orders[id] >= boundary { AtTail(list, tail, EntryOf(messages, orders, boundary, id)); }
    }
    if orders[id] >= boundary { AtTail(list, tail, EntryOf(messages, orders, boundary, id)); }
    LaterThanShown(entries, list, tail, orders, id);
  }

  lemma AtTail(list: seq<O.Pending>, tail: nat, e: O.Pending)
    requires M.Rising(list) && tail <= |list| && e in list && forall i :: 0 <= i < tail ==> list[i].id != e.id
    ensures tail < |list| && forall i :: 0 <= i < tail ==> list[i].user < e.user
  {
    var k :| 0 <= k < |list| && list[k] == e;
    assert k >= tail;
  }

  /** A visit of the ready indexes shows what is ready first things first, those of this transaction last. */
  lemma VisitShowsFirst(store: map<Key, seq<M.Entry>>, rows: set<O.Row>, pending: seq<O.Pending>, keys: seq<Key>,
                        visit: M.Visitor,
                        batches: seq<seq<Id>>, entries: seq<M.Entry>, list: seq<O.Pending>, tail: nat, stopped: bool,
                        messages: map<Id, Meta>, orders: map<Id, nat>, boundary: nat)
    requires M.Indexes(store, keys) && M.Visited(keys, store, pending, visit, batches, entries, list, tail, stopped)
    requires M.ListsAll(store, rows, keys) && (forall r :: r in rows <==> RowFor(messages, orders, boundary, r))
    requires PendingFor(pending, messages, orders, boundary) && messages.Keys == orders.Keys
    requires forall id :: id in M.TakenOut(visit, batches[..|entries| / M.PAGE_SIZE]) ==> id in orders && orders[id] < boundary
    ensures ShownFirst(M.Flat(batches), stopped, messages, orders, keys)
  {
    var gone := M.TakenOut(visit, batches[..|entries| / M.PAGE_SIZE]);
    CommittedShown(store, rows, keys, entries, messages, orders, boundary);
    PendingShown(pending, list, keys, gone, messages, orders, boundary);
    EntriesShown(entries, list, tail);
    ShownInOrder(entries, list, tail, orders, boundary);
    var shown := M.Flat(batches);
    hide M.Windows, M.Once, M.Ids, M.EntryIds, M.Flat, M.TakenOut, M.Due, M.Rising, M.Sorted, PendingFor, RowFor, InOrder, M.ListsAll;
    forall id | id in shown ensures IsReadyFor(messages, keys, id) {
      if i :| 0 <= i < tail && list[i].id == id { assert list[i] in list; }
    }
    forall id | IsReadyFor(messages, keys, id) && id !in shown
      ensures stopped && id in orders && forall i :: 0 <= i < |shown| ==> shown[i] in orders && orders[shown[i]] < orders[id]
    {
      hide IsReadyFor;
      assert M.Entry(At(orders[id]), id) !in entries;
      NotShownLater(store, keys, entries, list, tail, stopped, messages, orders, boundary, id);
    }
  }

  // ---- Claiming while the indexes are read ----

  /** After so much was taken out, each index holds what the merge expects to read of it. */
  ghost predicate HoldsAfter(store: map<Key, seq<M.Entry>>, keys: seq<Key>, rows: set<O.Row>, gone: set<Id>) {
    forall k :: k in keys ==> k in store && M.Lists(M.Without(store[k], gone), rows, k)
  }

  lemma {:induction false} WithoutEntries(index: seq<M.Entry>, gone: set<Id>)
    requires M.Sorted(index)
    ensures M.Sorted(M.Without(index, gone))
    ensures forall e :: e in M.Without(index, gone) <==> e in index && e.id !in gone
  {
    if index != [] {
      WithoutEntries(index[1..], gone);
      var rest := M.Without(index[1..], gone);
      assert index == [index[0]] + index[1..];
      forall e | e in rest ensures index[0].stamp.Before(e.stamp) {
        var i :| 0 <= i < |index[1..]| && index[1..][i] == e;
        assert index[i + 1] == e;
      }
      assert forall i :: 0 <= i < |rest| ==> rest[i] in rest;
    }
  }

  lemma {:induction false} WithoutTwice(index: seq<M.Entry>, gone: set<Id>, more: set<Id>)
    ensures M.Without(M.Without(index, gone), more) == M.Without(index, gone + more)
  {
    if index != [] {
      WithoutTwice(index[1..], gone, more);
      var rest := M.Without(index[1..], gone);
      assert ([index[0]] + rest)[1..] == rest;
      assert [] + rest == rest;
    }
  }

  /** Claiming what is handed out takes exactly its rows out of the ready indexes. */
  lemma ClaimEmpties(messages: map<Id, Meta>, states: map<Id, RequestState>, orders: map<Id, nat>, before: Polls,
                     after: Polls, loaded: seq<Id>, now: int, boundary: nat)
    requires AgreesReady(before, orders, messages) && AgreesReady(after, orders, Claimed(messages, states, loaded, now))
    requires forall id :: id in loaded ==>
               id in messages && HandedOut(messages[id], StateOf(states, messages[id].requestId), now, true)
    ensures ReadyRows(after, boundary) == set r | r in ReadyRows(before, boundary) && r.id !in loaded
  {
    ReadyRowsAre(before, orders, messages, boundary);
    ReadyRowsAre(after, orders, Claimed(messages, states, loaded, now), boundary);
    forall id | id in loaded ensures Claimed(messages, states, loaded, now)[id].polling.Timer? {
      ClaimTimes(messages[id], states, now);
    }
    hide ReadyRows, AgreesReady, HandedOut, WithClaim;
  }

  lemma ClaimTimes(meta: Meta, states: map<Id, RequestState>, now: int)
    requires HandedOut(meta, StateOf(states, meta.requestId), now, true)
    ensures WithClaim(meta, states, Some(now)).polling.Timer?
  {
  }

  lemma StillHolds(store: map<Key, seq<M.Entry>>, keys: seq<Key>, rows: set<O.Row>, left: set<O.Row>, gone: set<Id>,
                   more: seq<Id>)
    requires HoldsAfter(store, keys, rows, gone) && left == set r | r in rows && r.id !in more
    ensures HoldsAfter(store, keys, left, gone + set id | id in more)
  {
    var taken := set id | id in more;
    forall k | k in keys ensures k in store && M.Lists(M.Without(store[k], gone + taken), left, k) {
      WithoutTwice(store[k], gone, taken);
      WithoutEntries(M.Without(store[k], gone), taken);
    }
  }

  lemma HoldsAtFirst(store: map<Key, seq<M.Entry>>, keys: seq<Key>, rows: set<O.Row>)
    requires M.ListsAll(store, rows, keys)
    ensures HoldsAfter(store, keys, rows, {})
  {
    forall k | k in keys ensures M.Without(store[k], {}) == store[k] { M.WithoutUntouched(store[k], {}); }
  }

  lemma {:induction false} FlatParts(batches: seq<seq<Id>>, i: nat)
    requires i < |batches|
    ensures var all, k := M.Flat(batches), |M.Flat(batches[..i])|;
            && k + |batches[i]| <= |all| && all[..k] == M.Flat(batches[..i]) && all[k..k + |batches[i]|] == batches[i]
            && all[..k + |batches[i]|] == M.Flat(batches[..i + 1]) == M.Flat(batches[..i]) + batches[i]
  {
    assert batches[..i + 1][..i] == batches[..i];
    if i + 1 == |batches| {
      assert batches[..i + 1] == batches;
    } else {
      var front := batches[..|batches| - 1];
      assert front[..i] == batches[..i] && front[..i + 1] == batches[..i + 1];
      FlatParts(front, i);
    }
  }

  /** A window leaves what later windows read as it was. */
  lemma ReadNext(promoted: map<Id, Meta>, states: map<Id, RequestState>, orders: map<Id, nat>, ready: seq<Id>,
                 k: nat, e: nat, result: seq<Id>, loaded: seq<Id>, now: int, limit: Option<nat>)
    requires InOrder(orders, ready) && k <= e <= |ready|
    requires result == FirstOf(promoted, states, now, limit, ready[..k])
    requires loaded == Take(Chosen(ready[k..e], Claimed(promoted, states, result, now), states, now, true), Left(limit, |result|))
    ensures result + loaded == FirstOf(promoted, states, now, limit, ready[..e])
    ensures limit.Some? ==> |result + loaded| <= limit.value
    ensures Claimed(Claimed(promoted, states, result, now), states, loaded, now) == Claimed(promoted, states, result + loaded, now)
  {
    var before := Claimed(promoted, states, result, now);
    WindowFresh(promoted, states, orders, ready, k, e, result, now, limit);
    ChosenDepends(ready[k..e], promoted, before, states, now, true);
    assert ready[..k] + ready[k..e] == ready[..e];
    FirstOfMore(promoted, states, now, limit, ready[..k], ready[k..e]);
    ClaimedTwice(promoted, states, result, loaded, now);
    TakeMore(Chosen(ready[..e], promoted, states, now, true), [], limit);
    hide Claimed, Chosen, Take;
  }

  lemma WindowOnce(orders: map<Id, nat>, ready: seq<Id>, k: nat, e: nat)
    requires InOrder(orders, ready) && k <= e <= |ready|
    ensures Distinct(ready[k..e])
  {
  }

  lemma ReadyAgrees(m: Mailbox)
    requires m.Valid()
    ensures AgreesReady(m.polls, m.orders, m.messages) && m.messages.Keys == m.orders.Keys
    ensures forall i, j :: i in m.orders && j in m.orders && m.orders[i] == m.orders[j] ==> i == j
    ensures Polled(m.messages, m.states)
  {
    hide AgreesReady, AgreesScheduled, Listed, Named, Polled, Processed, Counted, OneEntity;
  }

  lemma SelectedHandedOut(ids: seq<Id>, messages: map<Id, Meta>, states: map<Id, RequestState>, now: int,
                          limit: Option<nat>)
    ensures forall id :: id in Take(Chosen(ids, messages, states, now, true), limit) ==>
              id in messages && HandedOut(messages[id], StateOf(states, messages[id].requestId), now, true)
  {
    ChosenIn(ids, messages, states, now, true);
    hide Chosen, HandedOut;
  }

  lemma SetOfBoth(a: seq<Id>, b: seq<Id>)
    ensures (set id | id in a) + (set id | id in b) == set id | id in a + b
  {
  }

  lemma WindowReads(was: map<Id, Meta>, states: map<Id, RequestState>, orders: map<Id, nat>, batches: seq<seq<Id>>,
                    i: nat, result: seq<Id>, ids: seq<Id>, now: int, limit: Option<nat>)
    requires i < |batches| && InOrder(orders, M.Flat(batches))
    requires result == FirstOf(was, states, now, limit, M.Flat(batches[..i]))
    requires ids == Take(Chosen(batches[i], Claimed(was, states, result, now), states, now, true), Left(limit, |result|))
    ensures result + ids == FirstOf(was, states, now, limit, M.Flat(batches[..i + 1]))
    ensures Claimed(Claimed(was, states, result, now), states, ids, now) == Claimed(was, states, result + ids, now)
    ensures limit.Some? ==> |result + ids| <= limit.value
  {
    hide *;
    FlatParts(batches, i);
    var k := |M.Flat(batches[..i])|;
    ReadNext(was, states, orders, M.Flat(batches), k, k + |batches[i]|, result, ids, now, limit);
  }

  lemma WindowEmpties(was: map<Id, Meta>, states: map<Id, RequestState>, orders: map<Id, nat>, batches: seq<seq<Id>>,
                      i: nat, result: seq<Id>, ids: seq<Id>, before: Polls, after: Polls, now: int, limit: Option<nat>,
                      store: map<Key, seq<M.Entry>>, keys: seq<Key>, boundary: nat)
    requires i < |batches| && result == FirstOf(was, states, now, limit, M.Flat(batches[..i]))
    requires result + ids == FirstOf(was, states, now, limit, M.Flat(batches[..i + 1]))
    requires ids == Take(Chosen(batches[i], Claimed(was, states, result, now), states, now, true), Left(limit, |result|))
    requires AgreesReady(before, orders, Claimed(was, states, result, now))
    requires AgreesReady(after, orders, Claimed(Claimed(was, states, result, now), states, ids, now))
    requires HoldsAfter(store, keys, ReadyRows(before, boundary), M.TakenOut(PollVisitor(was, states, now, limit), batches[..i]))
    ensures HoldsAfter(store, keys, ReadyRows(after, boundary), M.TakenOut(PollVisitor(was, states, now, limit), batches[..i + 1]))
  {
    hide *;
    VisitorTakes(was, states, now, limit, batches[..i]);
    VisitorTakes(was, states, now, limit, batches[..i + 1]);
    SelectedHandedOut(batches[i], Claimed(was, states, result, now), states, now, Left(limit, |result|));
    ClaimEmpties(Claimed(was, states, result, now), states, orders, before, after, ids, now, boundary);
    StillHolds(store, keys, ReadyRows(before, boundary), ReadyRows(after, boundary),
               M.TakenOut(PollVisitor(was, states, now, limit), batches[..i]), ids);
    SetOfBoth(result, ids);
  }

  lemma WindowWants(was: map<Id, Meta>, states: map<Id, RequestState>, batches: seq<seq<Id>>, i: nat,
                    result: seq<Id>, now: int, limit: Option<nat>)
    requires i < |batches| && result == FirstOf(was, states, now, limit, M.Flat(batches[..i + 1]))
    ensures (limit.Some? ==> |result| < limit.value) <==> M.WantsMore(PollVisitor(was, states, now, limit), batches, i)
  {
    hide *;
    VisitorWants(was, states, now, limit, batches, i);
  }

  predicate Room(limit: Option<nat>, taken: nat) {
    limit.Some? ==> taken < limit.value
  }

  /** So many windows have been read: what they hand out is claimed, the indexes hold what the merge expects
      to read of them, and there is room for more exactly when the merge was told so. */
  ghost predicate Reading(was: map<Id, Meta>, states: map<Id, RequestState>, batches: seq<seq<Id>>, i: nat,
                          result: seq<Id>,
                          messages: map<Id, Meta>, rows: set<O.Row>, now: int, limit: Option<nat>, store: map<Key,
                          seq<M.Entry>>,
                          keys: seq<Key>) {
    var visit := PollVisitor(was, states, now, limit);
    && i <= |batches| && result == FirstOf(was, states, now, limit, M.Flat(batches[..i]))
    && messages == Claimed(was, states, result, now)
    && HoldsAfter(store, keys, rows, M.TakenOut(visit, batches[..i]))
    && (if i == 0 then result == [] else Room(limit, |result|) <==> M.WantsMore(visit, batches, i - 1))
  }

  lemma ReadingStarts(was: map<Id, Meta>, states: map<Id, RequestState>, batches: seq<seq<Id>>, rows: set<O.Row>,
                      now: int, limit: Option<nat>, store: map<Key, seq<M.Entry>>, keys: seq<Key>)
    requires M.ListsAll(store, rows, keys)
    ensures Reading(was, states, batches, 0, [], was, rows, now, limit, store, keys)
  {
    HoldsAtFirst(store, keys, rows);
    hide HoldsAfter, M.ListsAll;
  }

  /** Every window but the last leaves room for more. */
  lemma RoomForNext(was: map<Id, Meta>, states: map<Id, RequestState>, batches: seq<seq<Id>>, i: nat, result: seq<Id>,
                    messages: map<Id, Meta>, rows: set<O.Row>, now: int, limit: Option<nat>, store: map<Key,
                    seq<M.Entry>>, keys: seq<Key>,
                    stopped: bool)
    requires M.Windows(PollVisitor(was, states, now, limit), batches, stopped) && limit != Some(0) && i < |batches|
    requires Reading(was, states, batches, i, result, messages, rows, now, limit, store, keys)
    ensures Room(limit, |result|)
  {
  }

  lemma ReadingNext(was: map<Id, Meta>, states: map<Id, RequestState>, orders: map<Id, nat>, batches: seq<seq<Id>>,
                    i: nat, result: seq<Id>, ids: seq<Id>, before: Polls, after: Polls, now: int, limit: Option<nat>,
                    store: map<Key, seq<M.Entry>>, keys: seq<Key>, boundary: nat)
    requires i < |batches| && InOrder(orders, M.Flat(batches))
    requires Reading(was, states, batches, i, result, Claimed(was, states, result, now), ReadyRows(before, boundary), now, limit, store, keys)
    requires ids == Take(Chosen(batches[i], Claimed(was, states, result, now), states, now, true), Left(limit, |result|))
    requires AgreesReady(before, orders, Claimed(was, states, result, now))
    requires AgreesReady(after, orders, Claimed(Claimed(was, states, result, now), states, ids, now))
    ensures Claimed(Claimed(was, states, result, now), states, ids, now) == Claimed(was, states, result + ids, now)
    ensures Reading(was, states, batches, i + 1, result + ids, Claimed(was, states, result + ids, now), ReadyRows(after, boundary),
                    now, limit, store, keys)
  {
    WindowReads(was, states, orders, batches, i, result, ids, now, limit);
    WindowEmpties(was, states, orders, batches, i, result, ids, before, after, now, limit, store, keys, boundary);
    WindowWants(was, states, batches, i, result + ids, now, limit);
    hide FirstOf, HoldsAfter, M.TakenOut, M.WantsMore, PollVisitor, Claimed, Chosen, AgreesReady, InOrder, Take, Left;
  }

  lemma ReadingEnds(was: map<Id, Meta>, states: map<Id, RequestState>, batches: seq<seq<Id>>, result: seq<Id>,
                    messages: map<Id, Meta>, rows: set<O.Row>, now: int, limit: Option<nat>, store: map<Key,
                    seq<M.Entry>>, keys: seq<Key>,
                    stopped: bool)
    requires M.Windows(PollVisitor(was, states, now, limit), batches, stopped)
    requires Reading(was, states, batches, |batches|, result, messages, rows, now, limit, store, keys)
    ensures result == FirstOf(was, states, now, limit, M.Flat(batches)) && messages == Claimed(was, states, result, now)
    ensures HoldsAfter(store, keys, rows, set id | id in result)
    ensures stopped ==> !Room(limit, |result|)
  {
    assert batches[..|batches|] == batches;
    VisitorTakes(was, states, now, limit, batches);
    hide FirstOf, HoldsAfter, M.TakenOut, M.WantsMore, PollVisitor, Claimed;
  }

  lemma ReadingParts(was: map<Id, Meta>, states: map<Id, RequestState>, batches: seq<seq<Id>>, i: nat, result: seq<Id>,
                     messages: map<Id, Meta>, rows: set<O.Row>, now: int, limit: Option<nat>, store: map<Key,
                     seq<M.Entry>>, keys: seq<Key>)
    requires Reading(was, states, batches, i, result, messages, rows, now, limit, store, keys)
    ensures messages == Claimed(was, states, result, now)
  {
  }

  /** The visitor at work: one window read, and what it hands out claimed. */
  method ReadWindow(m: Mailbox, batches: seq<seq<Id>>, i: nat, result: seq<Id>, now: int, limit: Option<nat>,
                    ghost was: map<Id, Meta>, ghost store: map<Key, seq<M.Entry>>, ghost keys: seq<Key>,
                    ghost boundary: nat)
    returns (ids: seq<Id>, loaded: seq<Message>)
    requires m.Valid() && i < |batches| && InOrder(m.orders, M.Flat(batches)) && Room(limit, |result|)
    requires Reading(was, m.states, batches, i, result, m.messages, ReadyRows(m.polls, boundary), now, limit, store, keys)
    modifies m`messages, m`polls
    ensures m.Valid()
    ensures Reading(was, m.states, batches, i + 1, result + ids, m.messages, ReadyRows(m.polls, boundary), now, limit, store, keys)
    ensures HandsOut(loaded, ids, old(m.messages), m.envelopes, m.states, m.replies)
  {
    FlatParts(batches, i);
    WindowOnce(m.orders, M.Flat(batches), |M.Flat(batches[..i])|, |M.Flat(batches[..i])| + |batches[i]|);
    ReadyAgrees(m);
    ghost var polls := m.polls;
    hide *;
    ReadingParts(was, m.states, batches, i, result, m.messages, ReadyRows(m.polls, boundary), now, limit, store, keys);
    LeftOver(limit, |result|);
    ids, loaded := ReadMessages(m, batches[i], now, true, Left(limit, |result|));
    ReadyAgrees(m);
    ReadingNext(was, m.states, m.orders, batches, i, result, ids, polls, m.polls, now, limit, store, keys, boundary);
  }

  lemma LeftOver(limit: Option<nat>, taken: nat)
    requires Room(limit, taken)
    ensures Left(limit, taken) != Some(0)
  {
  }

  lemma HandsOutMore(a: seq<Message>, b: seq<Message>, x: seq<Id>, y: seq<Id>, was: map<Id, Meta>, states: map<Id,
                     RequestState>,
                     replies: Replies, envelopes: map<Id, Payload>, result: seq<Id>, now: int)
    requires HandsOut(a, x, was, envelopes, states, replies)
    requires HandsOut(b, y, Claimed(was, states, result, now), envelopes, states, replies)
    ensures HandsOut(a + b, x + y, was, envelopes, states, replies)
  {
    forall i | 0 <= i < |y|
      ensures y[i] in was && was[y[i]].id in envelopes && b[i] == MessageOf(envelopes, states, replies, was[y[i]])
    {
      assert y[i] in Claimed(was, states, result, now);
    }
  }

  /** The visitor over all windows. */
  method ReadWindows(m: Mailbox, batches: seq<seq<Id>>, stopped: bool, now: int, limit: Option<nat>,
                     ghost store: map<Key, seq<M.Entry>>, ghost keys: seq<Key>, ghost boundary: nat)
    returns (result: seq<Id>, loaded: seq<Message>)
    requires m.Valid() && InOrder(m.orders, M.Flat(batches)) && limit != Some(0)
    requires M.Windows(PollVisitor(m.messages, m.states, now, limit), batches, stopped)
    requires M.ListsAll(store, ReadyRows(m.polls, boundary), keys)
    modifies m`messages, m`polls
    ensures m.Valid() && result == FirstOf(old(m.messages), m.states, now, limit, M.Flat(batches))
    ensures HandsOut(loaded, result, old(m.messages), m.envelopes, m.states, m.replies)
    ensures m.messages == Claimed(old(m.messages), m.states, result, now)
    ensures HoldsAfter(store, keys, ReadyRows(m.polls, boundary), set id | id in result)
    ensures stopped ==> !Room(limit, |result|)
  {
    hide *;
    ghost var was := m.messages;
    ReadingStarts(was, m.states, batches, ReadyRows(m.polls, boundary), now, limit, store, keys);
    HandsOutNone(was, m.envelopes, m.states, m.replies);
    result, loaded := [], [];
    for i := 0 to |batches|
      invariant m.Valid() && HandsOut(loaded, result, was, m.envelopes, m.states, m.replies)
      invariant Reading(was, m.states, batches, i, result, m.messages, ReadyRows(m.polls, boundary), now, limit, store, keys)
    {
      RoomForNext(was, m.states, batches, i, result, m.messages, ReadyRows(m.polls, boundary), now, limit, store, keys, stopped);
      ReadingParts(was, m.states, batches, i, result, m.messages, ReadyRows(m.polls, boundary), now, limit, store, keys);
      var ids, more := ReadWindow(m, batches, i, result, now, limit, was, store, keys, boundary);
      HandsOutMore(loaded, more, result, ids, was, m.states, m.replies, m.envelopes, result, now);
      result, loaded := result + ids, loaded + more;
    }
    ReadingEnds(was, m.states, batches, result, m.messages, ReadyRows(m.polls, boundary), now, limit, store, keys, stopped);
  }

  // ---- The poll ----

  /** What was taken out while committed rows were shown are committed messages. */
  lemma TakenCommitted(messages: map<Id, Meta>, states: map<Id, RequestState>, now: int, limit: Option<nat>,
                       batches: seq<seq<Id>>, entries: seq<M.Entry>, list: seq<O.Pending>, tail: nat, orders: map<Id,
                       nat>, boundary: nat)
    requires tail <= |list| && M.Flat(batches) == M.Ids(entries) + M.EntryIds(list[..tail])
    requires |entries| / M.PAGE_SIZE <= |batches| && forall i :: 0 <= i < |batches| ==> |batches[i]| <= M.PAGE_SIZE
    requires forall e :: e in entries ==> e.id in orders && orders[e.id] < boundary
    ensures forall id :: id in M.TakenOut(PollVisitor(messages, states, now, limit), batches[..|entries| / M.PAGE_SIZE]) ==>
              id in orders && orders[id] < boundary
  {
    var n := |entries| / M.PAGE_SIZE;
    VisitorTakes(messages, states, now, limit, batches[..n]);
    ChosenIn(M.Flat(batches[..n]), messages, states, now, true);
    FlatFront(batches, n);
    var front := M.Flat(batches[..n]);
    assert |front| <= |entries|;
    forall id | id in front ensures id in orders && orders[id] < boundary {
      var k :| 0 <= k < |front| && front[k] == id;
      assert M.Flat(batches)[k] == M.Ids(entries)[k];
      assert entries[k] in entries;
    }
    hide M.TakenOut, PollVisitor, HandedOut, M.Flat, M.Ids, Chosen;
  }

  lemma {:induction false} FlatFront(batches: seq<seq<Id>>, n: nat)
    requires n <= |batches| && forall i :: 0 <= i < |batches| ==> |batches[i]| <= M.PAGE_SIZE
    ensures |M.Flat(batches[..n])| <= n * M.PAGE_SIZE && M.Flat(batches[..n]) <= M.Flat(batches)
  {
    if batches != [] {
      var front := batches[..|batches| - 1];
      if n < |batches| {
        assert batches[..n] == front[..n];
        FlatFront(front, n);
      } else {
        FlatFront(front, n - 1);
        assert batches[..n] == batches && front[..n - 1] == front;
      }
    } else {
      assert batches[..n] == batches;
    }
  }

  /** No message of this transaction has a committed row. */
  lemma PendingUnlisted(store: map<Key, seq<M.Entry>>, rows: set<O.Row>, keys: seq<Key>, pending: seq<O.Pending>,
                        messages: map<Id, Meta>, orders: map<Id, nat>, boundary: nat)
    requires M.OneEach(rows, keys) && M.ListsAll(store, rows, keys) && M.Indexes(store, keys)
    requires forall r :: r in rows <==> RowFor(messages, orders, boundary, r)
    requires PendingFor(pending, messages, orders, boundary)
    ensures M.NoneListed(store, keys, pending)
  {
    M.ListsFacts(store, rows, keys);
    forall e | e in pending ensures !M.Among(rows, keys, e.id) {
      assert EnqueuedHere(messages, orders, boundary, e.id);
    }
    hide M.ListsAll, M.HasRow, M.Among, M.Indexes, M.OneEach, PendingFor, RowFor;
  }

  lemma VisitShows(store: map<Key, seq<M.Entry>>, rows: set<O.Row>, pending: seq<O.Pending>, keys: seq<Key>,
                   batches: seq<seq<Id>>, entries: seq<M.Entry>, list: seq<O.Pending>, tail: nat, stopped: bool,
                   messages: map<Id, Meta>, states: map<Id, RequestState>, orders: map<Id, nat>, now: int,
                   limit: Option<nat>, boundary: nat)
    requires M.Indexes(store, keys)
    requires M.Visited(keys, store, pending, PollVisitor(messages, states, now, limit), batches, entries, list, tail, stopped)
    requires M.ListsAll(store, rows, keys) && (forall r :: r in rows <==> RowFor(messages, orders, boundary, r))
    requires PendingFor(pending, messages, orders, boundary) && messages.Keys == orders.Keys
    ensures ShownFirst(M.Flat(batches), stopped, messages, orders, keys) && InOrder(orders, M.Flat(batches))
    ensures M.Windows(PollVisitor(messages, states, now, limit), batches, stopped)
  {
    var visit := PollVisitor(messages, states, now, limit);
    assert forall i :: 0 <= i < |batches| ==> |batches[i]| <= M.PAGE_SIZE;
    CommittedShown(store, rows, keys, entries, messages, orders, boundary);
    hide M.ListsAll, RowFor, PendingFor, M.Windows, IsReadyFor, PollVisitor, M.TakenOut;
    TakenCommitted(messages, states, now, limit, batches, entries, list, tail, orders, boundary);
    VisitShowsFirst(store, rows, pending, keys, visit, batches, entries, list, tail, stopped, messages, orders, boundary);
  }

  lemma VisitorFits(store: map<Key, seq<M.Entry>>, keys: seq<Key>, messages: map<Id, Meta>, states: map<Id,
                    RequestState>, now: int, limit: Option<nat>)
    requires M.Indexes(store, keys)
    ensures M.RemovesShownOnly(PollVisitor(messages, states, now, limit), store, keys)
  {
    VisitorRemovesShown(messages, states, now, limit);
    hide PollVisitor;
  }

  /** Merges the ready indexes of one selection in pages while what is handed out is claimed out of them. */
  method PollReady(m: Mailbox, shards: seq<string>, addresses: Option<seq<Address>>, now: int, limit: Option<nat>,
                   boundary: nat)
    returns (result: seq<Id>, loaded: seq<Message>, ghost shown: seq<Id>, ghost stopped: bool)
    requires m.Valid() && limit != Some(0)
    modifies m`messages, m`polls
    ensures m.Valid()
    ensures ShownFirst(shown, stopped, old(m.messages), m.orders, Keys(shards, addresses))
    ensures result == FirstOf(old(m.messages), m.states, now, limit, shown)
    ensures stopped ==> !Room(limit, |result|)
    ensures HandsOut(loaded, result, old(m.messages), m.envelopes, m.states, m.replies)
    ensures m.messages == Claimed(old(m.messages), m.states, result, now)
  {
    hide *;
    var keys := Keys(shards, addresses);
    ReadyAgrees(m);
    RowsOnce(m.polls, m.orders, m.messages, boundary, shards, addresses);
    ReadyRowsAre(m.polls, m.orders, m.messages, boundary);
    var rows := ReadyRows(m.polls, boundary);
    var store := M.ReadIndexes(rows, keys);
    M.ListsFacts(store, rows, keys);
    var pending := PendingEntries(m.messages, m.orders, boundary);
    PendingUnlisted(store, rows, keys, pending, m.messages, m.orders, boundary);
    PendingApart(pending, m.messages, m.orders, boundary);
    VisitorFits(store, keys, m.messages, m.states, now, limit);
    var batches, entries, list, tail, end := M.Visit(keys, store, pending, PollVisitor(m.messages, m.states, now, limit));
    VisitShows(store, rows, pending, keys, batches, entries, list, tail, end, m.messages, m.states, m.orders, now, limit, boundary);
    shown, stopped := M.Flat(batches), end;
    result, loaded := ReadWindows(m, batches, end, now, limit, store, keys, boundary);
  }

  lemma PendingApart(pending: seq<O.Pending>, messages: map<Id, Meta>, orders: map<Id, nat>, boundary: nat)
    requires PendingFor(pending, messages, orders, boundary)
    ensures M.Apart(pending)
  {
  }

  /** Promotion changes nothing that is handed out. */
  lemma HandedOutBefore(loaded: seq<Message>, ids: seq<Id>, was: map<Id, Meta>, due: set<Id>, envelopes: map<Id, Payload>,
                        states: map<Id, RequestState>, replies: Replies)
    requires HandsOut(loaded, ids, PromotedIn(was, due), envelopes, states, replies)
    ensures HandsOut(loaded, ids, was, envelopes, states, replies)
  {
  }

  /** Hands out the first unprocessed messages asked for and claims them; the answer is the scan's. Messages
      from the boundary on were enqueued by the transaction the poll runs in. */
  method UnprocessedMessages(m: Mailbox, shards: seq<string>, addresses: Option<seq<Address>>, now: int,
                             limit: Option<int>, boundary: nat)
    returns (result: seq<Id>, loaded: seq<Message>)
    requires m.Valid()
    modifies m`messages, m`polls
    ensures m.Valid()
    ensures Answer(result, old(m.messages), m.states, m.orders, shards, addresses, now, Bound(limit))
    ensures Delivers(loaded, result, old(m.messages), m.envelopes, m.sent)
    ensures m.messages == AfterPoll(old(m.messages), m.states, shards, addresses, result, now, Bound(limit) != Some(0))
  {
    hide *;
    var bound := Bound(limit);
    ghost var was, keys := m.messages, Keys(shards, addresses);
    ReadyAgrees(m);
    NothingAsked(was, m.states, m.orders, shards, addresses, now);
    StoredKeyed(m);
    m.Parts();
    HandsOutNone(was, m.envelopes, m.states, m.replies);
    DeliversSent([], [], was, m.envelopes, m.orders, m.next, m.states, m.replies, m.sent);
    if bound == Some(0) { return [], []; }
    PromoteDue(m, Keys(shards, addresses), now);
    ghost var shown, stopped;
    result, loaded, shown, stopped := PollReady(m, shards, addresses, now, bound, boundary);
    PollAnswers(was, m.states, m.orders, shards, addresses, shown, stopped, now, bound);
    PollLeaves(was, m.states, shards, addresses, result, now);
    HandedOutBefore(loaded, result, was, Due(was, keys, now), m.envelopes, m.states, m.replies);
    DeliversSent(loaded, result, was, m.envelopes, m.orders, m.next, m.states, m.replies, m.sent);
  }
}
