/** What one operation of the mailbox means for the polls after it. Each method is a few operations in a row,
    with nothing in between. */
module MailboxDelivery {
  import opened Wrappers
  import opened MessageKeys
  import opened Mailbox
  import opened MailboxPolling
  import opened MailboxVisit

  /** Without a limit a scan answers with all messages that are wanted. */
  lemma AnswersAll(result: seq<Id>, m: Mailbox, messages: map<Id, Meta>, shards: seq<string>,
                   addresses: Option<seq<Address>>, now: int)
    requires m.Valid() && messages.Keys == m.messages.Keys
    requires Answer(result, messages, m.states, m.orders, shards, addresses, now, None)
    ensures forall id :: id in result <==> Wanted(messages, m.states, shards, addresses, now, id)
  {
    m.Parts();
    hide Eligible, AskedFor;
  }

  lemma AnswersWanted(result: seq<Id>, messages: map<Id, Meta>, states: map<Id, RequestState>, orders: map<Id, nat>,
                      shards: seq<string>, addresses: Option<seq<Address>>, now: int, limit: Option<nat>)
    requires Answer(result, messages, states, orders, shards, addresses, now, limit)
    ensures forall id :: id in result ==> Wanted(messages, states, shards, addresses, now, id)
  {
  }

  /** What a message is and whom it belongs to does not depend on claims and timers. */
  lemma PolledSame(was: map<Id, Meta>, states: map<Id, RequestState>, shards: seq<string>,
                   addresses: Option<seq<Address>>, result: seq<Id>, now: int, polls: bool, later: int, id: Id)
    requires id in was
    ensures var after := AfterPoll(was, states, shards, addresses, result, now, polls);
            id !in result ==> (Wanted(after, states, shards, addresses, later, id) <==> Wanted(was, states, shards, addresses, later, id))
    ensures var after := AfterPoll(was, states, shards, addresses, result, now, polls);
            id in result && Wanted(was, states, shards, addresses, now, id) && now <= later ==>
              (Wanted(after, states, shards, addresses, later, id) <==> later >= now + 600_000)
  {
  }

  // ---- Claims ----

  /** What a poll has returned it returns again ten minutes later and not before; what it has not returned is
      not held back. */
  method PollTwice(m: Mailbox, shards: seq<string>, addresses: Option<seq<Address>>, now: int, later: int, boundary: nat)
    returns (first: seq<Id>, second: seq<Id>)
    requires m.Valid() && now <= later
    modifies m
    ensures m.Valid()
    ensures forall id :: id in first ==> (id in second <==> later >= now + 600_000)
    ensures forall id :: id in old(m.messages) && id !in first ==>
              (id in second <==> Wanted(old(m.messages), m.states, shards, addresses, later, id))
  {
    hide *;
    ghost var was := m.messages;
    var loaded;
    first, loaded := UnprocessedMessages(m, shards, addresses, now, None, boundary);
    ghost var middle := m.messages;
    NoBound(was, m.states, shards, addresses, first, now);
    AnswersAll(first, m, was, shards, addresses, now);
    second, loaded := UnprocessedMessages(m, shards, addresses, later, None, boundary);
    NoBound(middle, m.states, shards, addresses, second, later);
    AnswersAll(second, m, middle, shards, addresses, later);
    WantedThere(was, m.states, shards, addresses, now);
    forall id | id in was
      ensures id in first ==> (id in second <==> later >= now + 600_000)
      ensures id !in first ==> (id in second <==> Wanted(was, m.states, shards, addresses, later, id))
    {
      PolledSame(was, m.states, shards, addresses, first, now, true, later, id);
    }
  }

  lemma NoBound(was: map<Id, Meta>, states: map<Id, RequestState>, shards: seq<string>,
                addresses: Option<seq<Address>>, result: seq<Id>, now: int)
    ensures Bound(None) == None && AfterPoll(was, states, shards, addresses, result, now, true).Keys == was.Keys
  {
  }

  lemma WantedThere(messages: map<Id, Meta>, states: map<Id, RequestState>, shards: seq<string>,
                    addresses: Option<seq<Address>>, now: int)
    ensures forall id :: Wanted(messages, states, shards, addresses, now, id) ==> id in messages
  {
  }

  /** Claims given up: whatever was returned is returned again at once. */
  method ResetThenPoll(m: Mailbox, shards: seq<string>, now: int, later: int, boundary: nat, byShard: bool)
    returns (first: seq<Id>, second: seq<Id>)
    requires m.Valid() && now <= later
    modifies m
    ensures m.Valid() && forall id :: id in first ==> id in second
  {
    hide *;
    ghost var was := m.messages;
    var loaded;
    first, loaded := UnprocessedMessages(m, shards, None, now, None, boundary);
    ghost var middle := m.messages;
    NoBound(was, m.states, shards, None, first, now);
    AnswersAll(first, m, was, shards, None, now);
    if byShard { m.ResetShards(shards); } else { m.ResetRequests(first); }
    ghost var given := m.messages;
    ResetSame(middle, m.states, shards, first, byShard);
    second, loaded := UnprocessedMessages(m, shards, None, later, None, boundary);
    NoBound(given, m.states, shards, None, second, later);
    AnswersAll(second, m, given, shards, None, later);
    forall id | id in first ensures id in second {
      ResetWanted(was, m.states, shards, first, now, later, byShard, id);
    }
  }

  lemma ResetSame(messages: map<Id, Meta>, states: map<Id, RequestState>, shards: seq<string>, ids: seq<Id>, byShard: bool)
    ensures ResetIn(messages, states, if byShard then AtShards(messages, shards) else Present(messages, ids), byShard).Keys == messages.Keys
  {
  }

  lemma ResetWanted(was: map<Id, Meta>, states: map<Id, RequestState>, shards: seq<string>, first: seq<Id>, now: int,
                    later: int, byShard: bool, id: Id)
    requires id in first && Wanted(was, states, shards, None, now, id) && now <= later
    ensures var middle := AfterPoll(was, states, shards, None, first, now, true);
            var given := ResetIn(middle, states, if byShard then AtShards(middle, shards) else Present(middle, first), byShard);
            Wanted(given, states, shards, None, later, id)
  {
    hide PollingState;
    var middle := AfterPoll(was, states, shards, None, first, now, true);
    assert middle[id] == WithClaim(was[id], states, Some(now));
    assert Resets(middle[id], byShard);
  }

  // ---- Replies ----

  /** A chunk that is not acknowledged yet, and an exit, keep all messages of their request from being returned. */
  method ReplyThenPoll(m: Mailbox, request: Id, reply: ReplyId, tag: ReplyTag, shards: seq<string>,
                       addresses: Option<seq<Address>>, now: int, limit: Option<int>, boundary: nat)
    returns (r: ReplyResult, result: seq<Id>)
    requires m.Valid()
    modifies m
    ensures m.Valid() && forall id :: id in result ==> id in old(m.messages)
    ensures r.ReplySaved? ==> forall id :: id in result ==> old(m.messages)[id].requestId != request
  {
    hide *;
    m.Parts();
    NotNegative(m.states, m.replies, m.messages, request);
    ghost var was := m.messages;
    r := m.SaveReply(request, reply, tag);
    ghost var replied := m.messages;
    var loaded;
    result, loaded := UnprocessedMessages(m, shards, addresses, now, limit, boundary);
    AnswersWanted(result, replied, m.states, m.orders, shards, addresses, now, Bound(limit));
    WantedThere(replied, m.states, shards, addresses, now);
    forall id | id in result
      ensures id in was && (r.ReplySaved? ==> was[id].requestId != request)
    {
      if r.ReplySaved? { RepliedBlocked(was, old(m.states), request, reply, tag, shards, addresses, now, id); }
    }
  }

  lemma NotNegative(states: map<Id, RequestState>, replies: Replies, messages: map<Id, Meta>, request: Id)
    requires InStep(messages, states, replies)
    ensures StateOf(states, request).unacked >= 0
  {
  }

  lemma RepliedBlocked(was: map<Id, Meta>, states: map<Id, RequestState>, request: Id, reply: ReplyId, tag: ReplyTag,
                       shards: seq<string>, addresses: Option<seq<Address>>, now: int, id: Id)
    requires StateOf(states, request).unacked >= 0
    ensures var after := AfterReply(was, states, request, reply, tag);
            var next := states[request := RepliedState(StateOf(states, request), reply, tag)];
            Wanted(after, next, shards, addresses, now, id) ==> id in was && was[id].requestId != request
  {
    hide PollingState, AskedFor;
  }

  /** No exit yet, and no chunk waits to be acknowledged. */
  predicate Idle(state: RequestState) {
    state.exitId.None? && state.unacked == 0
  }

  /** A chunk acknowledged: the request comes with that chunk as the reply last sent, its acknowledgement with none,
      and earlier acknowledgements do not come any more. */
  method AcknowledgeThenPoll(m: Mailbox, request: Id, reply: ReplyId, sequence: nat, ackId: Id, address: Address,
                             payload: Payload, shards: seq<string>, addresses: Option<seq<Address>>, now: int, boundary: nat)
    returns (r: ReplyResult, s: SaveResult, result: seq<Id>, loaded: seq<Message>)
    requires m.Valid() && JoinsEntity(m.messages, request, address)
    modifies m
    ensures m.Valid() && |loaded| == |result| && forall id :: id in result ==> id in m.messages
    ensures r.ReplySaved? && s.Saved? ==> AckReturned(result, loaded, m.messages, request, reply, ackId, payload)
    ensures r.ReplySaved? && s.Saved? && AskedFor(shards, addresses, address) && Idle(StateOf(old(m.states), request)) ==>
              ackId in result
  {
    hide *;
    ghost var was := m.messages;
    r := m.SaveReply(request, reply, ChunkReply(sequence));
    RepliesKeepIdentity(was, old(m.states), request, reply, ChunkReply(sequence), address);
    StoredKeyed(m);
    KeyedRequest(m.envelopes, m.orders, m.next, m.messages);
    ghost var replied, states, replies := m.messages, m.states, m.replies;
    s := m.SaveEnvelope(ackId, request, AckChunk, reply, address, None, None, payload);
    ghost var acked := m.messages;
    m.Parts();
    result, loaded := UnprocessedMessages(m, shards, addresses, now, None, boundary);
    NoBound(acked, m.states, shards, addresses, result, now);
    AnswersAll(result, m, acked, shards, addresses, now);
    WantedThere(acked, m.states, shards, addresses, now);
    LoadedAs(loaded, result, acked, m.envelopes, m.sent);
    PolledThere(acked, m.states, shards, addresses, result, now);
    if r.ReplySaved? && s.Saved? {
      AckedOnly(replied, states, replies, request, reply, ackId, address, shards, addresses, now);
      AckAnswers(result, loaded, acked, m.envelopes, m.sent, request, reply, ackId, payload);
      PolledKinds(acked, m.states, shards, addresses, result, now, loaded, request, reply, ackId, payload);
      if Idle(StateOf(old(m.states), request)) {
        AckWanted(old(m.states), old(m.replies), replied, request, reply, sequence, ackId, address, shards, addresses, now);
      }
    }
  }

  /** What a poll returns of a request and its acknowledgements. */
  ghost predicate AckReturned(result: seq<Id>, loaded: seq<Message>, messages: map<Id, Meta>, request: Id, reply: ReplyId,
                               ackId: Id, payload: Payload) {
    |loaded| == |result| && forall i :: 0 <= i < |result| ==>
      && result[i] in messages
      && (result[i] == request && messages[request].kind.Request? ==> loaded[i].lastSentReply == Some(reply))
      && (result[i] == ackId ==> loaded[i] == Message(payload, None))
      && (messages[result[i]].requestId == request && messages[result[i]].kind.AckChunk? ==> result[i] == ackId)
  }

  lemma AckAnswers(result: seq<Id>, loaded: seq<Message>, messages: map<Id, Meta>, envelopes: map<Id, Payload>,
                   sent: map<Id, ReplyId>, request: Id, reply: ReplyId, ackId: Id, payload: Payload)
    requires Delivers(loaded, result, messages, envelopes, sent) && request in sent && sent[request] == reply
    requires ackId in messages && messages[ackId].kind.AckChunk? && ackId in envelopes && envelopes[ackId] == payload
    requires forall id :: id in result ==>
               id in messages && (!(messages[id].requestId == request && messages[id].kind.AckChunk?) || id == ackId)
    ensures AckReturned(result, loaded, messages, request, reply, ackId, payload)
  {
    assert forall i :: 0 <= i < |result| ==> result[i] in result;
  }

  lemma RepliesKeepIdentity(messages: map<Id, Meta>, states: map<Id, RequestState>, request: Id, reply: ReplyId,
                            tag: ReplyTag, address: Address)
    requires JoinsEntity(messages, request, address)
    ensures JoinsEntity(AfterReply(messages, states, request, reply, tag), request, address)
  {
  }

  lemma PolledKinds(messages: map<Id, Meta>, states: map<Id, RequestState>, shards: seq<string>,
                    addresses: Option<seq<Address>>, result: seq<Id>, now: int, loaded: seq<Message>, request: Id,
                    reply: ReplyId, ackId: Id, payload: Payload)
    requires AckReturned(result, loaded, messages, request, reply, ackId, payload)
    ensures AckReturned(result, loaded, AfterPoll(messages, states, shards, addresses, result, now, true), request, reply, ackId, payload)
  {
    hide PollingState, StateOf;
  }

  lemma PolledThere(messages: map<Id, Meta>, states: map<Id, RequestState>, shards: seq<string>,
                    addresses: Option<seq<Address>>, result: seq<Id>, now: int)
    ensures AfterPoll(messages, states, shards, addresses, result, now, true).Keys == messages.Keys
  {
  }

  lemma LoadedAs(loaded: seq<Message>, ids: seq<Id>, messages: map<Id, Meta>, envelopes: map<Id, Payload>, sent: map<Id, ReplyId>)
    requires Delivers(loaded, ids, messages, envelopes, sent)
    ensures |loaded| == |ids| && forall i :: 0 <= i < |ids| ==>
              && ids[i] in messages && ids[i] in envelopes
              && loaded[i] == Message(envelopes[ids[i]],
                                      if messages[ids[i]].kind.Request? && ids[i] in sent then Some(sent[ids[i]]) else None)
  {
  }

  lemma AckedOnly(messages: map<Id, Meta>, states: map<Id, RequestState>, replies: Replies, request: Id, reply: ReplyId,
                  ackId: Id, address: Address, shards: seq<string>, addresses: Option<seq<Address>>, now: int)
    requires forall id :: id in messages ==> messages[id].id == id
    ensures var state := AckedState(states, replies, request, reply, ackId);
            var meta := NewMeta(ackId, request, AckChunk, address, None, None, StateOf(states, request));
            var after := Rewritten(messages[ackId := Written(meta, state)], request, Same, state);
            && ackId in after && after[ackId].kind.AckChunk? && after[ackId].requestId == request
            && forall id :: Wanted(after, states[request := state], shards, addresses, now, id) ==>
                 !(after[id].requestId == request && after[id].kind.AckChunk?) || id == ackId
  {
    hide PollingState, AskedFor;
  }

  lemma AckWanted(states: map<Id, RequestState>, replies: Replies, replied: map<Id, Meta>, request: Id, reply: ReplyId,
                  sequence: nat, ackId: Id, address: Address, shards: seq<string>, addresses: Option<seq<Address>>, now: int)
    requires Idle(StateOf(states, request))
    ensures var tag := ChunkReply(sequence);
            var next := states[request := RepliedState(StateOf(states, request), reply, tag)];
            var replies' := WithReply(replies, request, reply, tag);
            var state := AckedState(next, replies', request, reply, ackId);
            var meta := NewMeta(ackId, request, AckChunk, address, None, None, StateOf(next, request));
            var after := Rewritten(replied[ackId := Written(meta, state)], request, Same, state);
            Wanted(after, next[request := state], shards, addresses, now, ackId) <==> AskedFor(shards, addresses, address)
  {
    hide PollingState, AskedFor;
  }

  /** Replies cleared: the request comes without any reply, and an unconditional clear leaves no interrupts of it. */
  method ClearThenPoll(m: Mailbox, request: Id, expected: Option<ReplyId>, shards: seq<string>,
                       addresses: Option<seq<Address>>, now: int, boundary: nat)
    returns (result: seq<Id>, loaded: seq<Message>)
    requires m.Valid()
    modifies m
    ensures m.Valid() && |loaded| == |result| && forall id :: id in result ==> id in old(m.messages)
    ensures Clears(old(m.sent), request, expected) ==>
              && (forall i :: 0 <= i < |result| && result[i] == request ==> loaded[i].lastSentReply == None)
              && (expected.None? ==>
                    forall id :: id in result && old(m.messages)[id].requestId == request ==> !old(m.messages)[id].kind.Interrupt?)
              && (request in old(m.messages) && old(m.messages)[request].kind.Request? && StateOf(old(m.states), request).unacked == 0 ==>
                    var meta := old(m.messages)[request];
                    (meta.deliverAt.None? && AskedFor(shards, addresses, meta.address) ==> request in result))
  {
    hide *;
    m.Parts();
    StoredKeyed(m);
    KeyedRequest(m.envelopes, m.orders, m.next, m.messages);
    ghost var was, states := m.messages, m.states;
    m.ClearReplies(request, expected);
    ghost var cleared := m.messages;
    m.Parts();
    if Clears(old(m.sent), request, expected) {
      ClearedWanted(was, states, old(m.replies), cleared, m.states, m.replies, request, expected.None?, shards, addresses, now);
    }
    result, loaded := UnprocessedMessages(m, shards, addresses, now, None, boundary);
    NoBound(cleared, m.states, shards, addresses, result, now);
    AnswersAll(result, m, cleared, shards, addresses, now);
    WantedThere(cleared, m.states, shards, addresses, now);
    LoadedAs(loaded, result, cleared, m.envelopes, m.sent);
  }

  lemma KeyedRequest(envelopes: map<Id, Payload>, orders: map<Id, nat>, next: nat, messages: map<Id, Meta>)
    requires Keyed(envelopes, orders, next, messages)
    ensures forall id :: id in messages && messages[id].kind.Request? ==> messages[id].requestId == id
    ensures forall id :: id in messages ==> messages[id].id == id
  {
  }

  lemma ClearedWanted(was: map<Id, Meta>, states: map<Id, RequestState>, replies: Replies, messages: map<Id, Meta>,
                      states': map<Id, RequestState>, replies': Replies, request: Id, discard: bool, shards: seq<string>,
                      addresses: Option<seq<Address>>, now: int)
    requires TakenBack(was, states, replies, messages, states', replies', request, discard)
    ensures forall id :: id in messages ==> id in was && messages[id].requestId == was[id].requestId
    ensures discard ==> forall id :: id in messages && was[id].requestId == request ==> !was[id].kind.Interrupt?
    ensures request in was && was[request].kind.Request? && was[request].requestId == request
            && was[request].deliverAt.None? && StateOf(states, request).unacked == 0 ==>
              (Wanted(messages, states', shards, addresses, now, request) <==> AskedFor(shards, addresses, was[request].address))
  {
    hide Rewritten, Eligible, AskedFor, WithoutExit;
  }

  // ---- Saving and clearing an entity ----

  /** A new request is returned, as it was saved, from its delivery time on. */
  method SaveThenPoll(m: Mailbox, id: Id, address: Address, hash: Option<Hash>, deliverAt: Option<int>, payload: Payload,
                      shards: seq<string>, addresses: Option<seq<Address>>, now: int, boundary: nat)
    returns (s: SaveResult, result: seq<Id>, loaded: seq<Message>)
    requires m.Valid() && JoinsEntity(m.messages, id, address)
    modifies m
    ensures m.Valid() && |loaded| == |result|
    ensures s.Saved? && id !in old(m.states) ==>
              && (id in result <==> AskedFor(shards, addresses, address) && (deliverAt.Some? ==> deliverAt.value <= now))
              && forall i :: 0 <= i < |result| && result[i] == id ==> loaded[i] == Message(payload, None)
  {
    hide *;
    m.Parts();
    NeverSent(m.sent, m.states, m.replies.metadata, id);
    s := m.SaveEnvelope(id, id, Request, 0, address, hash, deliverAt, payload);
    ghost var saved := m.messages;
    result, loaded := UnprocessedMessages(m, shards, addresses, now, None, boundary);
    NoBound(saved, m.states, shards, addresses, result, now);
    AnswersAll(result, m, saved, shards, addresses, now);
    LoadedAs(loaded, result, saved, m.envelopes, m.sent);
    if s.Saved? && id !in old(m.states) {
      SavedWanted(old(m.messages), m.states, id, address, hash, deliverAt, shards, addresses, now);
    }
  }

  lemma NeverSent(sent: map<Id, ReplyId>, states: map<Id, RequestState>, metadata: map<(Id, ReplyId), ReplyMeta>, id: Id)
    requires Remembered(sent, states, metadata)
    ensures id !in states ==> id !in sent
  {
  }

  lemma SavedWanted(was: map<Id, Meta>, states: map<Id, RequestState>, id: Id, address: Address, hash: Option<Hash>,
                    deliverAt: Option<int>, shards: seq<string>, addresses: Option<seq<Address>>, now: int)
    requires id !in states
    ensures var state := StateOf(states, id);
            var after := was[id := Written(NewMeta(id, id, Request, address, hash, deliverAt, state), state)];
            Wanted(after, states, shards, addresses, now, id) <==>
              AskedFor(shards, addresses, address) && (deliverAt.Some? ==> deliverAt.value <= now)
  {
    hide PollingState, AskedFor;
  }

  /** A message saved again, under its own id or under another with the same primary key, is the one saved first. */
  method SaveTwice(m: Mailbox, id: Id, again: Id, kind: Kind, requestId: Id, againRequest: Id, replyId: ReplyId,
                   address: Address, hash: Option<Hash>, deliverAt: Option<int>, payload: Payload, other: Payload)
    returns (s: SaveResult, t: SaveResult)
    requires m.Valid() && JoinsEntity(m.messages, requestId, address) && JoinsEntity(m.messages, againRequest, address)
    requires kind.Request? ==> requestId == id && againRequest == again
    requires again == id || hash.Some?
    modifies m
    ensures m.Valid() && (s.Saved? ==> t == Duplicate(id)) && (s.Duplicate? && again == id ==> t == s)
  {
    hide *;
    ghost var was, states, replies := m.messages, m.states, m.replies;
    s := m.SaveEnvelope(id, requestId, kind, replyId, address, hash, deliverAt, payload);
    if s.Saved? {
      SavedAs(was, states, replies, id, requestId, kind, replyId, address, hash, deliverAt);
      JoinsStill(was, m.messages, againRequest, address);
      KnownNow(m, hash, id, again);
    }
    t := m.SaveEnvelope(again, againRequest, kind, replyId, address, hash, deliverAt, other);
  }

  lemma SavedAs(was: map<Id, Meta>, states: map<Id, RequestState>, replies: Replies, id: Id, requestId: Id, kind: Kind,
                replyId: ReplyId, address: Address, hash: Option<Hash>, deliverAt: Option<int>)
    ensures var meta := NewMeta(id, requestId, kind, address, hash, deliverAt, StateOf(states, requestId));
            var state := AckedState(states, replies, requestId, replyId, id);
            && HasMessage(was, Rewritten(was[id := Written(meta, state)], requestId, Same, state), id, address, hash)
            && HasMessage(was, was[id := Written(meta, StateOf(states, requestId))], id, address, hash)
  {
    hide PollingState, AckedState;
  }

  ghost predicate HasMessage(was: map<Id, Meta>, messages: map<Id, Meta>, id: Id, address: Address, hash: Option<Hash>) {
    && id in messages && messages[id].primaryKey == hash
    && forall x :: x in messages ==>
         (x in was && messages[x].requestId == was[x].requestId && messages[x].address == was[x].address)
         || messages[x].address == address
  }

  lemma KnownNow(m: Mailbox, hash: Option<Hash>, id: Id, again: Id)
    requires m.Valid() && (again == id || hash.Some?) && id in m.messages && m.messages[id].primaryKey == hash
    ensures KnownAs(m.primaryKeys, hash, again) == id
  {
    hide InStep, Agrees, Listed, Keyed, Remembered;
  }

  lemma JoinsStill(was: map<Id, Meta>, messages: map<Id, Meta>, requestId: Id, address: Address)
    requires JoinsEntity(was, requestId, address)
    ensures forall id, hash :: HasMessage(was, messages, id, address, hash) ==>
              id in messages && messages[id].primaryKey == hash && JoinsEntity(messages, requestId, address)
  {
  }

  /** A reply saved again is known, and another reply in its place is refused: one exit, and one chunk of a number. */
  method ReplyTwice(m: Mailbox, request: Id, reply: ReplyId, tag: ReplyTag, other: ReplyId)
    returns (r: ReplyResult, s: ReplyResult, t: ReplyResult)
    requires m.Valid() && (request, other) !in m.replies.metadata && other != reply
    modifies m
    ensures m.Valid() && (r.ReplySaved? ==> s.AlreadySaved? && t.DuplicateReply?)
  {
    hide *;
    ghost var was := m.replies;
    r := m.SaveReply(request, reply, tag);
    ReplyKept(was, request, reply, tag, other);
    s := m.SaveReply(request, reply, tag);
    t := m.SaveReply(request, other, tag);
  }

  lemma ReplyKept(replies: Replies, request: Id, reply: ReplyId, tag: ReplyTag, other: ReplyId)
    ensures var after := WithReply(replies, request, reply, tag);
            && (request, reply) in after.metadata && (request, SlotOf(tag)) in after.unique
            && (other != reply && (request, other) !in replies.metadata ==> (request, other) !in after.metadata)
    ensures SlotOf(tag) == if tag.ExitReply? then Exit else Sequence(tag.sequence)
  {
  }

  /** Nothing of an entity that was cleared is returned any more, and everything else still is. */
  method ClearAddressThenPoll(m: Mailbox, entityType: string, entityId: string, shards: seq<string>,
                              addresses: Option<seq<Address>>, now: int, boundary: nat)
    returns (result: seq<Id>)
    requires m.Valid()
    modifies m
    ensures m.Valid() && forall id :: id in result <==>
              && Wanted(old(m.messages), old(m.states), shards, addresses, now, id)
              && !(old(m.messages)[id].address.entityType == entityType && old(m.messages)[id].address.entityId == entityId)
  {
    hide *;
    m.Parts();
    StoredKeyed(m);
    ghost var was, states := m.messages, m.states;
    OthersWanted(m.envelopes, m.orders, m.next, was, states, m.replies, entityType, entityId, shards, addresses, now);
    WantedThere(was, states, shards, addresses, now);
    m.ClearAddress(entityType, entityId);
    ghost var cleared := m.messages;
    var loaded;
    result, loaded := UnprocessedMessages(m, shards, addresses, now, None, boundary);
    NoBound(cleared, m.states, shards, addresses, result, now);
    AnswersAll(result, m, cleared, shards, addresses, now);
  }

  lemma OthersWanted(envelopes: map<Id, Payload>, orders: map<Id, nat>, next: nat, was: map<Id, Meta>,
                     states: map<Id, RequestState>, replies: Replies, entityType: string, entityId: string,
                     shards: seq<string>, addresses: Option<seq<Address>>, now: int)
    requires Keyed(envelopes, orders, next, was) && InStep(was, states, replies)
    ensures var ids := AtEntity(was, entityType, entityId);
            forall id :: Wanted(was - ids, states - RequestsIn(was, ids), shards, addresses, now, id) <==>
              && Wanted(was, states, shards, addresses, now, id)
              && !(was[id].address.entityType == entityType && was[id].address.entityId == entityId)
  {
    var ids := AtEntity(was, entityType, entityId);
    forall id | id in was && id !in ids ensures was[id].requestId !in RequestsIn(was, ids) {
      SurvivorsRequest(envelopes, orders, next, was, entityType, entityId, id);
    }
    hide Keyed, InStep, Eligible, AskedFor;
  }
}
