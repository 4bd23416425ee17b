/** Polling the mailbox through its indexes: promote what is due, visit what is ready in stamp
    order, claim what is returned. Proved equal to a scan over every message. */
module MailboxPolling {
  import opened Wrappers
  import opened MessageKeys
  import opened Mailbox

  // ---- Which messages a poll asks for ----

  predicate Holds(key: Key, address: Address) {
    match key
    case AtShard(shard) => address.shard == shard
    case AtAddress(a) => address == a
  }

  predicate Selected(keys: seq<Key>, address: Address) {
    exists k :: k in keys && Holds(k, address)
  }

  /** The indexes to read: the shards' own, or those of the addresses that lie in the shards. */
  function Keys(shards: seq<string>, addresses: Option<seq<Address>>): seq<Key> {
    if addresses.None? then ShardKeys(shards) else AddressKeys(shards, addresses.value)
  }

  function ShardKeys(shards: seq<string>): seq<Key> {
    if shards == [] then [] else [AtShard(shards[0])] + ShardKeys(shards[1..])
  }

  function AddressKeys(shards: seq<string>, addresses: seq<Address>): seq<Key> {
    if addresses == [] then []
    else (if addresses[0].shard in shards then [AtAddress(addresses[0])] else []) + AddressKeys(shards, addresses[1..])
  }

  lemma SelectedFirst(k: Key, rest: seq<Key>, a: Address)
    ensures Selected([k] + rest, a) <==> Holds(k, a) || Selected(rest, a)
  {
    assert forall x :: x in [k] + rest <==> x == k || x in rest;
  }

  lemma {:induction false} ShardKeysSelect(shards: seq<string>, a: Address)
    ensures Selected(ShardKeys(shards), a) <==> a.shard in shards
  {
    if shards != [] {
      ShardKeysSelect(shards[1..], a);
      SelectedFirst(AtShard(shards[0]), ShardKeys(shards[1..]), a);
    }
  }

  lemma {:induction false} AddressKeysSelect(shards: seq<string>, addresses: seq<Address>, a: Address)
    ensures Selected(AddressKeys(shards, addresses), a) <==> a.shard in shards && a in addresses
  {
    if addresses != [] {
      var rest := AddressKeys(shards, addresses[1..]);
      AddressKeysSelect(shards, addresses[1..], a);
      SelectedFirst(AtAddress(addresses[0]), rest, a);
      assert [] + rest == rest;
    }
  }

  /** What a caller asks for, whichever indexes serve it. */
  predicate AskedFor(shards: seq<string>, addresses: Option<seq<Address>>, a: Address) {
    a.shard in shards && (addresses.Some? ==> a in addresses.value)
  }

  lemma KeysSelect(shards: seq<string>, addresses: Option<seq<Address>>, a: Address)
    ensures Selected(Keys(shards, addresses), a) <==> AskedFor(shards, addresses, a)
  {
    if addresses.None? { ShardKeysSelect(shards, a); } else { AddressKeysSelect(shards, addresses.value, a); }
  }

  // ---- Promotion ----

  function Due(messages: map<Id, Meta>, keys: seq<Key>, now: int): set<Id> {
    set id | id in messages && messages[id].polling.Timer? && messages[id].polling.time <= now
             && Selected(keys, messages[id].address)
  }

  /** The ids in the timer rows of one index up to now. */
  function TimerIds(polls: Polls, key: Key, now: int): set<Id> {
    match key
    case AtShard(shard) => set r | r in polls.scheduledByShard && r.key == shard && r.time <= now :: r.id
    case AtAddress(a) => set r | r in polls.scheduledByAddress && r.key == a && r.time <= now :: r.id
  }

  /** Reading one timer index finds exactly the due messages it serves. */
  lemma TimerIdsAreDue(polls: Polls, messages: map<Id, Meta>, key: Key, now: int)
    requires AgreesScheduled(polls, messages)
    ensures TimerIds(polls, key, now) == Due(messages, [key], now)
  {
    forall id | id in Due(messages, [key], now)
      ensures id in TimerIds(polls, key, now)
    {
      var meta := messages[id];
      match key
      case AtShard(shard) => assert TimerRow(shard, meta.polling.time, id) in polls.scheduledByShard;
      case AtAddress(a) => assert TimerRow(a, meta.polling.time, id) in polls.scheduledByAddress;
    }
    assert key in [key];
  }

  lemma DueNext(was: map<Id, Meta>, keys: seq<Key>, i: nat, now: int)
    requires i < |keys|
    ensures var before := PromotedIn(was, Due(was, keys[..i], now));
            && DueIn(before, Due(before, [keys[i]], now), now)
            && PromotedIn(before, Due(before, [keys[i]], now)) == PromotedIn(was, Due(was, keys[..i + 1], now))
  {
    assert keys[..i + 1] == keys[..i] + [keys[i]];
    var before := PromotedIn(was, Due(was, keys[..i], now));
    assert forall a :: Selected(keys[..i + 1], a) <==> Selected(keys[..i], a) || Selected([keys[i]], a);
    assert Due(before, [keys[i]], now) == Due(was, keys[..i + 1], now) - Due(was, keys[..i], now);
  }

  /** Promotes every due message of the selected indexes. */
  method PromoteDue(m: Mailbox, keys: seq<Key>, now: int)
    requires m.Valid()
    modifies m`messages, m`polls
    ensures m.Valid() && m.messages == PromotedIn(old(m.messages), Due(old(m.messages), keys, now))
  {
    hide *;
    ghost var was := m.messages;
    PromoteNone(was);
    NoneDue(was, keys, now);
    for i := 0 to |keys|
      invariant m.Valid() && m.messages == PromotedIn(was, Due(was, keys[..i], now))
    {
      DueNext(was, keys, i, now);
      PromoteKey(m, keys[i], now);
    }
  }

  lemma NoneDue(was: map<Id, Meta>, keys: seq<Key>, now: int)
    ensures Due(was, keys[..0], now) == {} && keys[..|keys|] == keys
  {
  }

  /** Promotes what one timer index has up to now. */
  method PromoteKey(m: Mailbox, key: Key, now: int)
    requires m.Valid() && DueIn(m.messages, Due(m.messages, [key], now), now)
    modifies m`messages, m`polls
    ensures m.Valid() && m.messages == PromotedIn(old(m.messages), Due(old(m.messages), [key], now))
  {
    hide AgreesReady, Listed, Keyed, Named, InStep, TimerIds, Due, PromotedIn, DueIn;
    TimerIdsAreDue(m.polls, m.messages, key, now);
    m.Promote(TimerIds(m.polls, key, now), now);
  }

  // ---- What is ready, in order ----

  predicate IsReadyFor(messages: map<Id, Meta>, keys: seq<Key>, id: Id) {
    id in messages && messages[id].polling.Ready? && Selected(keys, messages[id].address)
  }

  ghost predicate InOrder(orders: map<Id, nat>, ids: seq<Id>) {
    && (forall i :: 0 <= i < |ids| ==> ids[i] in orders)
    && (forall i, j :: 0 <= i < j < |ids| ==> orders[ids[i]] < orders[ids[j]])
  }

  // ---- Reading and claiming ----

  /** Whether a message is handed out; only a claiming read consults an earlier claim. */
  predicate HandedOut(meta: Meta, state: RequestState, now: int, claim: bool) {
    && !meta.processed
    && (meta.deliverAt.Some? ==> meta.deliverAt.value <= now)
    && (claim && meta.claimedAt.Some? ==> meta.claimedAt.value <= now - CLAIM_EXPIRATION_MILLIS)
    && state.exitId.None? && state.unacked <= 0
    && (meta.kind.AckChunk? ==> state.latestAckId == Some(meta.id))
  }

  function Chosen(ids: seq<Id>, messages: map<Id, Meta>, states: map<Id, RequestState>, now: int, claim: bool): seq<Id> {
    if ids == [] then []
    else
      var last := ids[|ids| - 1];
      Chosen(ids[..|ids| - 1], messages, states, now, claim)
      + if last in messages && HandedOut(messages[last], StateOf(states, messages[last].requestId), now, claim)
        then [last] else []
  }

  /** At most a limit, if there is one. */
  function Take(ids: seq<Id>, limit: Option<nat>): seq<Id> {
    if limit.Some? && limit.value < |ids| then ids[..limit.value] else ids
  }

  lemma {:induction false} ChosenConcat(a: seq<Id>, b: seq<Id>, messages: map<Id, Meta>, states: map<Id, RequestState>,
                                        now: int, claim: bool)
    ensures Chosen(a + b, messages, states, now, claim)
            == Chosen(a, messages, states, now, claim) + Chosen(b, messages, states, now, claim)
    decreases b
  {
    if b == [] {
      assert a + b == a;
    } else {
      var all := a + b;
      assert all[..|all| - 1] == a + b[..|b| - 1];
      ChosenConcat(a, b[..|b| - 1], messages, states, now, claim);
    }
  }

  lemma {:induction false} ChosenIn(ids: seq<Id>, messages: map<Id, Meta>, states: map<Id, RequestState>, now: int,
                              claim: bool)
    ensures forall id :: id in Chosen(ids, messages, states, now, claim) <==>
              id in ids && id in messages && HandedOut(messages[id], StateOf(states, messages[id].requestId), now, claim)
  {
    if ids != [] {
      var front, last := ids[..|ids| - 1], ids[|ids| - 1];
      ChosenIn(front, messages, states, now, claim);
      var tail := Chosen(ids, messages, states, now, claim)[|Chosen(front, messages, states, now, claim)|..];
      hide HandedOut;
      assert Chosen(ids, messages, states, now, claim) == Chosen(front, messages, states, now, claim) + tail;
      assert ids == front + [last];
      hide Chosen;
    }
  }

  lemma {:induction false} ChosenInOrder(orders: map<Id, nat>, ids: seq<Id>, messages: map<Id, Meta>,
                                         states: map<Id, RequestState>, now: int, claim: bool)
    requires InOrder(orders, ids)
    ensures InOrder(orders, Chosen(ids, messages, states, now, claim))
  {
    if ids != [] {
      var front := ids[..|ids| - 1];
      ChosenInOrder(orders, front, messages, states, now, claim);
      ChosenIn(front, messages, states, now, claim);
      var before := Chosen(front, messages, states, now, claim);
      hide HandedOut;
      FrontInOrder(orders, ids, before);
    }
  }

  lemma FrontInOrder(orders: map<Id, nat>, ids: seq<Id>, before: seq<Id>)
    requires InOrder(orders, ids) && ids != [] && InOrder(orders, before)
    requires forall id :: id in before ==> id in ids[..|ids| - 1]
    ensures InOrder(orders, before + [ids[|ids| - 1]]) && before + [] == before
  {
    var front := ids[..|ids| - 1];
    assert forall i :: 0 <= i < |before| ==> before[i] in before;
    forall id | id in front ensures orders[id] < orders[ids[|ids| - 1]] {
      var k :| 0 <= k < |front| && front[k] == id;
      assert ids[k] == id;
    }
  }

  /** Reading depends only on the metadata of the ids read. */
  lemma {:induction false} ChosenDepends(ids: seq<Id>, v: map<Id, Meta>, w: map<Id, Meta>, states: map<Id, RequestState>,
                                         now: int, claim: bool)
    requires forall id :: id in ids ==> (id in v <==> id in w) && (id in v ==> w[id] == v[id])
    ensures Chosen(ids, v, states, now, claim) == Chosen(ids, w, states, now, claim)
  {
    if ids != [] {
      var front := ids[..|ids| - 1];
      assert forall id :: id in front ==> id in ids;
      ChosenDepends(front, v, w, states, now, claim);
      assert ids[|ids| - 1] in ids;
    }
  }

  /** The given messages claimed at a time, all others as they were. */
  function Claimed(messages: map<Id, Meta>, states: map<Id, RequestState>, ids: seq<Id>, now: int): map<Id, Meta> {
    map id | id in messages :: if id in ids then WithClaim(messages[id], states, Some(now)) else messages[id]
  }

  lemma ClaimNext(was: map<Id, Meta>, states: map<Id, RequestState>, ids: seq<Id>, i: nat, now: int)
    requires i < |ids| && ids[i] !in ids[..i] && ids[i] in was
    ensures var before := Claimed(was, states, ids[..i], now);
            && ids[i] in before
            && before[ids[i] := WithClaim(before[ids[i]], states, Some(now))] == Claimed(was, states, ids[..i + 1], now)
  {
    assert ids[..i + 1] == ids[..i] + [ids[i]];
  }

  ghost predicate Distinct(ids: seq<Id>) {
    forall i, j :: 0 <= i < j < |ids| ==> ids[i] != ids[j]
  }

  lemma ClaimNone(was: map<Id, Meta>, states: map<Id, RequestState>, now: int)
    ensures Claimed(was, states, [], now) == was
  {
  }

  lemma EachOnce(ids: seq<Id>)
    requires Distinct(ids)
    ensures ids[..0] == [] && ids[..|ids|] == ids
    ensures forall i :: 0 <= i < |ids| ==> ids[i] in ids && ids[i] !in ids[..i]
  {
  }

  method ClaimAll(m: Mailbox, ids: seq<Id>, now: int)
    requires m.Valid() && Distinct(ids) && forall id :: id in ids ==> id in m.messages
    modifies m`messages, m`polls
    ensures m.Valid() && m.messages == Claimed(old(m.messages), m.states, ids, now)
  {
    ghost var was := m.messages;
    hide *;
    ClaimNone(was, m.states, now);
    EachOnce(ids);
    for i := 0 to |ids|
      invariant m.Valid() && m.messages == Claimed(was, m.states, ids[..i], now)
    {
      ClaimOne(m, ids, i, now, was);
    }
  }

  method ClaimOne(m: Mailbox, ids: seq<Id>, i: nat, now: int, ghost was: map<Id, Meta>)
    requires m.Valid() && i < |ids| && ids[i] !in ids[..i] && ids[i] in was
    requires m.messages == Claimed(was, m.states, ids[..i], now)
    modifies m`messages, m`polls
    ensures m.Valid() && m.messages == Claimed(was, m.states, ids[..i + 1], now)
  {
    hide *;
    ClaimNext(was, m.states, ids, i, now);
    m.SetClaim(ids[i], Some(now));
  }

  lemma ChosenStep(ids: seq<Id>, i: nat, messages: map<Id, Meta>, states: map<Id, RequestState>, now: int, claim: bool)
    requires i < |ids|
    ensures Chosen(ids[..i + 1], messages, states, now, claim) ==
            Chosen(ids[..i], messages, states, now, claim)
            + if ids[i] in messages && HandedOut(messages[ids[i]], StateOf(states, messages[ids[i]].requestId), now, claim)
              then [ids[i]] else []
  {
    assert ids[..i + 1][..i] == ids[..i];
  }

  /** The messages among ids that are handed out, stopping at the limit. */
  method Select(ids: seq<Id>, messages: map<Id, Meta>, states: map<Id, RequestState>, now: int, claim: bool,
                limit: Option<nat>)
    returns (selected: seq<Id>)
    requires limit != Some(0)
    ensures selected == Take(Chosen(ids, messages, states, now, claim), limit)
  {
    selected := [];
    assert ids[..|ids|] == ids;
    for i := 0 to |ids|
      invariant selected == Chosen(ids[..i], messages, states, now, claim)
      invariant limit.Some? ==> |selected| < limit.value
    {
      ChosenStep(ids, i, messages, states, now, claim);
      if ids[i] !in messages { continue; }
      var meta := messages[ids[i]];
      if !HandedOut(meta, StateOf(states, meta.requestId), now, claim) { continue; }
      selected := selected + [ids[i]];
      if limit == Some(|selected|) {
        ChosenConcat(ids[..i + 1], ids[i + 1..], messages, states, now, claim);
        assert ids[..i + 1] + ids[i + 1..] == ids;
        return;
      }
    }
  }

  /** What a read hands out: the envelope, and for a request the reply last sent for it. */
  datatype Message = Message(envelope: Payload, lastSentReply: Option<ReplyId>)

  function LastReply(states: map<Id, RequestState>, replies: Replies, request: Id): Option<ReplyId> {
    var last := StateOf(states, request).lastReplyId;
    if last.Some? && (request, last.value) in replies.metadata then last else None
  }

  function MessageOf(envelopes: map<Id, Payload>, states: map<Id, RequestState>, replies: Replies, meta: Meta): Message
    requires meta.id in envelopes
  {
    Message(envelopes[meta.id], if meta.kind.Request? then LastReply(states, replies, meta.requestId) else None)
  }

  /** These are the messages of these ids, in this order. */
  ghost predicate HandsOut(loaded: seq<Message>, ids: seq<Id>, messages: map<Id, Meta>, envelopes: map<Id, Payload>,
                           states: map<Id, RequestState>, replies: Replies) {
    && |loaded| == |ids|
    && forall i :: 0 <= i < |ids| ==>
         && ids[i] in messages && messages[ids[i]].id in envelopes
         && loaded[i] == MessageOf(envelopes, states, replies, messages[ids[i]])
  }

  /** The envelopes as they were saved; a request comes with the reply last saved for it, if none has been
      cleared since, and no other message comes with one. */
  ghost predicate Delivers(loaded: seq<Message>, ids: seq<Id>, messages: map<Id, Meta>, envelopes: map<Id, Payload>,
                           sent: map<Id, ReplyId>) {
    && |loaded| == |ids|
    && forall i :: 0 <= i < |ids| ==>
         && ids[i] in messages && ids[i] in envelopes && loaded[i].envelope == envelopes[ids[i]]
         && loaded[i].lastSentReply == if messages[ids[i]].kind.Request? && ids[i] in sent then Some(sent[ids[i]]) else None
  }

  lemma DeliversSent(loaded: seq<Message>, ids: seq<Id>, messages: map<Id, Meta>, envelopes: map<Id, Payload>,
                     orders: map<Id, nat>, next: nat, states: map<Id, RequestState>, replies: Replies, sent: map<Id, ReplyId>)
    requires HandsOut(loaded, ids, messages, envelopes, states, replies)
    requires Keyed(envelopes, orders, next, messages) && Remembered(sent, states, replies.metadata)
    ensures Delivers(loaded, ids, messages, envelopes, sent)
  {
  }

  /** Loads what was selected. A message without its envelope is an error, which a valid mailbox never meets. */
  method Load(m: Mailbox, ids: seq<Id>) returns (loaded: seq<Message>, missing: Option<Id>)
    requires m.Valid() && forall id :: id in ids ==> id in m.messages
    ensures missing.None? && HandsOut(loaded, ids, m.messages, m.envelopes, m.states, m.replies)
  {
    KeyedFacts(m.envelopes, m.orders, m.next, m.messages);
    hide *;
    loaded := [];
    HandsOutNone(m.messages, m.envelopes, m.states, m.replies);
    assert ids[..|ids|] == ids && ids[..0] == [];
    for i := 0 to |ids|
      invariant HandsOut(loaded, ids[..i], m.messages, m.envelopes, m.states, m.replies)
    {
      assert ids[i] in ids;
      var meta := m.messages[ids[i]];
      if meta.id !in m.envelopes { return loaded, Some(meta.id); }
      HandsOutNext(loaded, ids, i, m.messages, m.envelopes, m.states, m.replies);
      loaded := loaded + [MessageOf(m.envelopes, m.states, m.replies, meta)];
    }
    return loaded, None;
  }

  lemma HandsOutNone(messages: map<Id, Meta>, envelopes: map<Id, Payload>, states: map<Id, RequestState>,
                     replies: Replies)
    ensures HandsOut([], [], messages, envelopes, states, replies)
  {
  }

  lemma HandsOutNext(loaded: seq<Message>, ids: seq<Id>, i: nat, messages: map<Id, Meta>, envelopes: map<Id, Payload>,
                     states: map<Id, RequestState>, replies: Replies)
    requires i < |ids| && ids[i] in messages && messages[ids[i]].id in envelopes
    requires HandsOut(loaded, ids[..i], messages, envelopes, states, replies)
    ensures HandsOut(loaded + [MessageOf(envelopes, states, replies, messages[ids[i]])], ids[..i + 1], messages, envelopes, states, replies)
  {
    hide MessageOf;
    assert ids[..i + 1] == ids[..i] + [ids[i]];
  }

  /** Reads a batch of ids; a claiming read also claims exactly what it returns. */
  method ReadMessages(m: Mailbox, ids: seq<Id>, now: int, claim: bool, limit: Option<nat>)
    returns (selected: seq<Id>, loaded: seq<Message>)
    requires m.Valid() && Distinct(ids) && limit != Some(0)
    modifies m`messages, m`polls
    ensures m.Valid() && selected == Take(Chosen(ids, old(m.messages), m.states, now, claim), limit)
    ensures HandsOut(loaded, selected, old(m.messages), m.envelopes, m.states, m.replies)
    ensures Delivers(loaded, selected, old(m.messages), m.envelopes, m.sent)
    ensures m.messages == if claim then Claimed(old(m.messages), m.states, selected, now) else old(m.messages)
  {
    hide *;
    SelectedOnce(ids, m.messages, m.states, now, claim, limit);
    selected := Select(ids, m.messages, m.states, now, claim, limit);
    var missing;
    loaded, missing := Load(m, selected);
    m.Parts();
    StoredKeyed(m);
    DeliversSent(loaded, selected, m.messages, m.envelopes, m.orders, m.next, m.states, m.replies, m.sent);
    if claim {
      ClaimAll(m, selected, now);
    }
  }

  lemma StoredKeyed(m: Mailbox)
    requires m.Valid()
    ensures Keyed(m.envelopes, m.orders, m.next, m.messages)
  {
  }

  lemma SelectedOnce(ids: seq<Id>, messages: map<Id, Meta>, states: map<Id, RequestState>, now: int, claim: bool,
                     limit: Option<nat>)
    requires Distinct(ids)
    ensures var selected := Take(Chosen(ids, messages, states, now, claim), limit);
            Distinct(selected) && forall id :: id in selected ==> id in messages
  {
    ChosenIn(ids, messages, states, now, claim);
    ChosenDistinct(ids, messages, states, now, claim);
    hide Chosen, HandedOut;
  }

  lemma {:induction false} ChosenDistinct(ids: seq<Id>, messages: map<Id, Meta>, states: map<Id, RequestState>,
                              now: int, claim: bool)
    requires Distinct(ids)
    ensures Distinct(Chosen(ids, messages, states, now, claim))
  {
    if ids != [] {
      var front := ids[..|ids| - 1];
      ChosenDistinct(front, messages, states, now, claim);
      ChosenIn(front, messages, states, now, claim);
    }
  }
}
