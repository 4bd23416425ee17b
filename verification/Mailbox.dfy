/** The mailbox: messages, per-request reply state, and two mirrored families of polling indexes.
    Every operation is one transaction and is one atomic step here. */
module Mailbox {
  import opened Wrappers
  import opened MessageKeys

  type ReplyId = nat
  type Hash = string
  type Payload = string

  const CLAIM_EXPIRATION_MILLIS := 600_000

  datatype Kind = Request | AckChunk | Interrupt
  datatype Polling = Ready | Blocked | Timer(time: int)
  datatype Meta = Meta(id: Id, requestId: Id, kind: Kind, address: Address, primaryKey: Option<Hash>,
                       deliverAt: Option<int>, claimedAt: Option<int>, processed: bool, polling: Polling)
  datatype RequestState = RequestState(lastReplyId: Option<ReplyId>, exitId: Option<ReplyId>,
                                       latestAckId: Option<Id>, unacked: int)
  datatype ReplyKind = Chunk | WithExit
  datatype ReplyMeta = ReplyMeta(kind: ReplyKind, sequence: Option<nat>, acked: bool)
  datatype Slot = Exit | Sequence(n: nat)
  datatype ReadyRow<K> = ReadyRow(key: K, stamp: nat, id: Id)
  datatype TimerRow<K> = TimerRow(key: K, time: int, id: Id)

  const INITIAL_STATE := RequestState(None, None, None, 0)

  // ---- Readiness ----

  /** Which polling index a message belongs to; no clock is consulted. */
  function PollingState(meta: Meta, state: RequestState): Polling {
    if meta.processed || state.exitId.Some? || state.unacked > 0
       || (meta.kind.AckChunk? && state.latestAckId != Some(meta.id)) then Blocked
    else if meta.claimedAt.Some? then
      var expires := meta.claimedAt.value + CLAIM_EXPIRATION_MILLIS;
      Timer(if meta.deliverAt.Some? && meta.deliverAt.value > expires then meta.deliverAt.value else expires)
    else if meta.deliverAt.Some? then Timer(meta.deliverAt.value)
    else Ready
  }

  /** What a full scan asks of a message at a time. */
  predicate Eligible(meta: Meta, state: RequestState, now: int) {
    && !meta.processed
    && (meta.deliverAt.Some? ==> meta.deliverAt.value <= now)
    && (meta.claimedAt.Some? ==> meta.claimedAt.value <= now - CLAIM_EXPIRATION_MILLIS)
    && state.exitId.None? && state.unacked <= 0
    && (meta.kind.AckChunk? ==> state.latestAckId == Some(meta.id))
  }

  /** The polling state answers eligibility at every time. */
  lemma PollingAnswersEligible(meta: Meta, state: RequestState, now: int)
    ensures Eligible(meta, state, now) <==>
            match PollingState(meta, state)
            case Ready => true
            case Blocked => false
            case Timer(t) => t <= now
  {
  }

  function Written(meta: Meta, state: RequestState): Meta {
    meta.(polling := PollingState(meta, state))
  }

  datatype Update = Rewrite(meta: Meta) | Drop

  function StateOf(states: map<Id, RequestState>, id: Id): RequestState {
    if id in states then states[id] else INITIAL_STATE
  }

  /** The messages of one request rewritten or dropped, all others as they were. */
  function Rewritten(messages: map<Id, Meta>, request: Id, update: Meta -> Update, state: RequestState): map<Id, Meta> {
    map id | id in messages && !(messages[id].requestId == request && update(messages[id]).Drop?) ::
      if messages[id].requestId == request then Written(update(messages[id]).meta, state) else messages[id]
  }

  /** Unacknowledged chunk replies of a request. */
  ghost function Unacked(replies: map<(Id, ReplyId), ReplyMeta>, request: Id): set<ReplyId> {
    set key | key in replies && key.0 == request && replies[key].kind.Chunk? && !replies[key].acked :: key.1
  }

  // ---- The records, as values ----

  /** Two mirrored families of polling indexes. */
  datatype Polls = Polls(
    readyByShard: set<ReadyRow<string>>,
    readyByAddress: set<ReadyRow<Address>>,
    scheduledByShard: set<TimerRow<string>>,
    scheduledByAddress: set<TimerRow<Address>>)

  datatype Lists = Lists(byShard: set<(string, Id)>, byAddress: set<(Address, Id)>, byRequest: set<(Id, Id)>)

  datatype Replies = Replies(
    metadata: map<(Id, ReplyId), ReplyMeta>,
    ids: set<(Id, ReplyId)>,
    unique: map<(Id, Slot), ReplyId>)

  predicate IsReady(orders: map<Id, nat>, view: map<Id, Meta>, stamp: nat, id: Id) {
    id in view && id in orders && view[id].polling.Ready? && orders[id] == stamp
  }

  predicate IsScheduled(view: map<Id, Meta>, time: int, id: Id) {
    id in view && view[id].polling == Timer(time)
  }

  /** Ready rows are exactly the ready messages, at their own stamp, in both families. */
  ghost predicate AgreesReady(p: Polls, orders: map<Id, nat>, view: map<Id, Meta>) {
    && (forall r :: r in p.readyByShard <==> IsReady(orders, view, r.stamp, r.id) && r.key == view[r.id].address.shard)
    && (forall r :: r in p.readyByAddress <==> IsReady(orders, view, r.stamp, r.id) && r.key == view[r.id].address)
  }

  /** Timer rows are exactly the messages with a timer, at its time, in both families. */
  ghost predicate AgreesScheduled(p: Polls, view: map<Id, Meta>) {
    && (forall r :: r in p.scheduledByShard <==> IsScheduled(view, r.time, r.id) && r.key == view[r.id].address.shard)
    && (forall r :: r in p.scheduledByAddress <==> IsScheduled(view, r.time, r.id) && r.key == view[r.id].address)
  }

  ghost predicate Agrees(p: Polls, orders: map<Id, nat>, view: map<Id, Meta>) {
    AgreesReady(p, orders, view) && AgreesScheduled(p, view)
  }

  /** The enumeration indexes list exactly the messages. */
  ghost predicate Listed(l: Lists, view: map<Id, Meta>) {
    && (forall x :: x in l.byShard <==> x.1 in view && view[x.1].address.shard == x.0)
    && (forall x :: x in l.byAddress <==> x.1 in view && view[x.1].address == x.0)
    && (forall x :: x in l.byRequest <==> x.1 in view && view[x.1].requestId == x.0)
  }

  /** Every message has its envelope and its own enqueue stamp. */
  ghost predicate Keyed(envelopes: map<Id, Payload>, orders: map<Id, nat>, next: nat, view: map<Id, Meta>) {
    && envelopes.Keys == view.Keys == orders.Keys
    && (forall id :: id in view ==> view[id].id == id && orders[id] < next)
    && (forall id :: id in view && view[id].kind.Request? ==> view[id].requestId == id)
    && (forall i, j :: i in orders && j in orders && orders[i] == orders[j] ==> i == j)
  }

  /** Primary keys and the messages that carry them name each other. */
  ghost predicate Named(primaryKeys: map<Hash, Id>, view: map<Id, Meta>) {
    && (forall h :: h in primaryKeys ==> primaryKeys[h] in view && view[primaryKeys[h]].primaryKey == Some(h))
    && (forall id :: id in view && view[id].primaryKey.Some? ==>
          view[id].primaryKey.value in primaryKeys && primaryKeys[view[id].primaryKey.value] == id)
  }

  /** Stored polling is what readiness asks for, or is ready where a timer has been promoted. */
  ghost predicate Polled(messages: map<Id, Meta>, states: map<Id, RequestState>) {
    forall id :: id in messages ==> PolledOne(messages[id], StateOf(states, messages[id].requestId))
  }

  predicate PolledOne(meta: Meta, state: RequestState) {
    var wanted := PollingState(meta, state);
    meta.polling == wanted || (meta.polling.Ready? && wanted.Timer?)
  }

  /** A message is processed iff its request has an exit reply. */
  ghost predicate Processed(messages: map<Id, Meta>, states: map<Id, RequestState>) {
    forall id :: id in messages ==>
      (messages[id].processed <==> StateOf(states, messages[id].requestId).exitId.Some?)
  }

  /** Request state agrees with the replies. */
  ghost predicate Counted(states: map<Id, RequestState>, replies: Replies) {
    UnackedCounted(states, replies.metadata) && ExitsRecorded(states, replies)
  }

  ghost predicate UnackedCounted(states: map<Id, RequestState>, metadata: map<(Id, ReplyId), ReplyMeta>) {
    forall r: Id :: StateOf(states, r).unacked == |Unacked(metadata, r)|
  }

  ghost predicate ExitsRecorded(states: map<Id, RequestState>, replies: Replies) {
    && (forall r: Id :: (r, Exit) in replies.unique <==> StateOf(states, r).exitId.Some?)
    && (forall r: Id, x: ReplyId :: StateOf(states, r).exitId == Some(x) ==>
          (r, x) in replies.metadata && replies.metadata[(r, x)].kind.WithExit?)
    && (forall key :: key in replies.ids <==> key in replies.metadata)
  }

  /** The reply last saved for a request, unless it was cleared since, is the one its state names. */
  ghost predicate Remembered(sent: map<Id, ReplyId>, states: map<Id, RequestState>, metadata: map<(Id, ReplyId), ReplyMeta>) {
    forall r: Id ::
      && StateOf(states, r).lastReplyId == (if r in sent then Some(sent[r]) else None)
      && (r in sent ==> (r, sent[r]) in metadata)
  }

  /** Assumed of callers: the messages of one request belong to one entity. */
  ghost predicate OneEntity(messages: map<Id, Meta>) {
    forall i, j :: i in messages && j in messages && messages[i].requestId == messages[j].requestId ==>
      SameEntity(messages[i].address, messages[j].address)
  }

  predicate SameEntity(a: Address, b: Address) {
    a.entityType == b.entityType && a.entityId == b.entityId
  }

  /** Messages, request states and replies agree. */
  ghost predicate InStep(messages: map<Id, Meta>, states: map<Id, RequestState>, replies: Replies) {
    Polled(messages, states) && Processed(messages, states) && Counted(states, replies) && OneEntity(messages)
  }

  /** The metadata stands for the rows the view has for this message. */
  ghost predicate StandsFor(view: map<Id, Meta>, meta: Meta) {
    meta.id in view && view[meta.id].polling == meta.polling && view[meta.id].address == meta.address
  }

  // ---- What the records depend on ----

  lemma ReadyDepends(p: Polls, orders: map<Id, nat>, v: map<Id, Meta>, w: map<Id, Meta>)
    requires AgreesReady(p, orders, v)
    requires forall id :: id in v && v[id].polling.Ready? <==> id in w && w[id].polling.Ready?
    requires forall id :: id in v && id in w ==> v[id].address == w[id].address
    ensures AgreesReady(p, orders, w)
  {
  }

  lemma ScheduledDepends(p: Polls, v: map<Id, Meta>, w: map<Id, Meta>)
    requires AgreesScheduled(p, v)
    requires forall id, t :: IsScheduled(v, t, id) <==> IsScheduled(w, t, id)
    requires forall id :: id in v && id in w ==> v[id].address == w[id].address
    ensures AgreesScheduled(p, w)
  {
  }

  /** The same messages up to their progress fields. */
  ghost predicate SameIdentity(v: map<Id, Meta>, w: map<Id, Meta>) {
    && v.Keys == w.Keys
    && forall id :: id in v ==>
         w[id] == v[id].(processed := w[id].processed, claimedAt := w[id].claimedAt, polling := w[id].polling)
  }

  lemma IdentityDecides(l: Lists, envelopes: map<Id, Payload>, orders: map<Id, nat>, next: nat,
                        primaryKeys: map<Hash, Id>, v: map<Id, Meta>, w: map<Id, Meta>)
    requires SameIdentity(v, w)
    ensures Listed(l, v) ==> Listed(l, w)
    ensures Keyed(envelopes, orders, next, v) ==> Keyed(envelopes, orders, next, w)
    ensures Named(primaryKeys, v) ==> Named(primaryKeys, w)
    ensures OneEntity(v) ==> OneEntity(w)
  {
  }

  lemma RewriteIdentity(messages: map<Id, Meta>, id: Id, meta: Meta, state: RequestState)
    requires id in messages && messages[id].id == id
    requires meta == messages[id].(processed := meta.processed, claimedAt := meta.claimedAt)
    ensures SameIdentity(messages, messages[id := Written(meta, state)]) && StandsFor(messages, meta) && meta.id == id
    ensures messages == messages[id := messages[id]]
  {
    hide PollingState;
  }

  lemma KeyedFacts(envelopes: map<Id, Payload>, orders: map<Id, nat>, next: nat, view: map<Id, Meta>)
    requires Keyed(envelopes, orders, next, view)
    ensures envelopes.Keys == view.Keys == orders.Keys
    ensures forall id :: id in view ==> view[id].id == id
  {
  }

  lemma ListedFacts(l: Lists, view: map<Id, Meta>, request: Id)
    requires Listed(l, view)
    ensures (set x | x in l.byRequest && x.0 == request :: x.1) == set id | id in view && view[id].requestId == request
  {
    forall id | id in view && view[id].requestId == request
      ensures id in (set x | x in l.byRequest && x.0 == request :: x.1)
    {
      assert (request, id) in l.byRequest;
    }
  }

  lemma UnindexedGone(p: Polls, orders: map<Id, nat>, view: map<Id, Meta>, meta: Meta)
    requires AgreesReady(p, orders, view[meta.id := meta.(polling := Blocked)])
    requires AgreesScheduled(p, view[meta.id := meta.(polling := Blocked)])
    ensures Agrees(p, orders - {meta.id}, view - {meta.id})
  {
  }

  function Unlist(l: Lists, meta: Meta): Lists {
    Lists(l.byShard - {(meta.address.shard, meta.id)}, l.byAddress - {(meta.address, meta.id)},
          l.byRequest - {(meta.requestId, meta.id)})
  }

  lemma UnlistedGone(l: Lists, view: map<Id, Meta>, meta: Meta)
    requires Listed(l, view) && meta.id in view && view[meta.id] == meta
    ensures Listed(Unlist(l, meta), view - {meta.id})
  {
  }

  lemma UnnamedGone(primaryKeys: map<Hash, Id>, view: map<Id, Meta>, meta: Meta)
    requires Named(primaryKeys, view) && meta.id in view && view[meta.id] == meta
    ensures Named(if meta.primaryKey.Some? then primaryKeys - {meta.primaryKey.value} else primaryKeys, view - {meta.id})
  {
  }

  lemma UnkeyedGone(envelopes: map<Id, Payload>, orders: map<Id, nat>, next: nat, view: map<Id, Meta>, id: Id)
    requires Keyed(envelopes, orders, next, view)
    ensures Keyed(envelopes - {id}, orders - {id}, next, view - {id})
  {
  }

  /** Halfway through a request: only the messages not waiting any more are rewritten. */
  ghost function PartlyRewritten(messages: map<Id, Meta>, request: Id, update: Meta -> Update, state: RequestState,
                                 waiting: set<Id>): map<Id, Meta> {
    map id | id in messages && (messages[id].requestId == request && id !in waiting ==> update(messages[id]).Rewrite?) ::
      if messages[id].requestId == request && id !in waiting then Written(update(messages[id]).meta, state) else messages[id]
  }

  lemma RewritesNext(was: map<Id, Meta>, request: Id, update: Meta -> Update, state: RequestState, waiting: set<Id>,
                     id: Id)
    requires id in waiting && id in was && was[id].requestId == request
    ensures var before := PartlyRewritten(was, request, update, state, waiting);
            && id in before && before[id] == was[id]
            && PartlyRewritten(was, request, update, state, waiting - {id}) ==
               if update(was[id]).Drop? then before - {id} else before[id := Written(update(was[id]).meta, state)]
  {
  }

  lemma RewritesEnds(was: map<Id, Meta>, request: Id, update: Meta -> Update, state: RequestState, all: set<Id>)
    requires all == set id | id in was && was[id].requestId == request
    ensures PartlyRewritten(was, request, update, state, all) == was
    ensures PartlyRewritten(was, request, update, state, {}) == Rewritten(was, request, update, state)
  {
  }

  lemma KeptAll<V>(before: map<Id, V>, after: map<Id, V>)
    requires Kept(before, after) && before.Keys == after.Keys
    ensures before == after
  {
  }

  lemma KeptSelf<V>(records: map<Id, V>)
    ensures Kept(records, records)
  {
  }

  /** Records kept for the messages that remain. */
  ghost predicate Kept<V>(before: map<Id, V>, after: map<Id, V>) {
    forall id :: id in after ==> id in before && after[id] == before[id]
  }

  datatype SaveResult = Saved | Duplicate(originalId: Id)

  /** The message an envelope would duplicate: the holder of its primary key, or its own id. */
  function KnownAs(primaryKeys: map<Hash, Id>, hash: Option<Hash>, id: Id): Id {
    if hash.Some? && hash.value in primaryKeys then primaryKeys[hash.value] else id
  }

  ghost predicate KeepsIdentity(update: Meta -> Update) {
    forall m: Meta :: update(m).Rewrite? ==>
      update(m).meta == m.(processed := update(m).meta.processed, claimedAt := update(m).meta.claimedAt)
  }

  /** An update that only recomputes readiness. */
  function Same(meta: Meta): Update {
    Rewrite(meta)
  }

  lemma SameKeepsIdentity()
    ensures KeepsIdentity(Same)
  {
  }

  /** The messages of the request so far belong to this address's entity. */
  ghost predicate JoinsEntity(messages: map<Id, Meta>, requestId: Id, address: Address) {
    forall j :: j in messages && messages[j].requestId == requestId ==> SameEntity(messages[j].address, address)
  }

  lemma PlainKeeps(messages: map<Id, Meta>, states: map<Id, RequestState>, replies: Replies, meta: Meta)
    requires InStep(messages, states, replies)
    requires meta.processed <==> StateOf(states, meta.requestId).exitId.Some?
    requires JoinsEntity(messages, meta.requestId, meta.address)
    ensures var after := messages[meta.id := Written(meta, StateOf(states, meta.requestId))];
            InStep(after, states, replies)
  {
    hide Counted;
  }

  /** Rewriting a request's messages for its new state keeps polling and completion in step. */
  lemma RewriteKeeps(messages: map<Id, Meta>, states: map<Id, RequestState>, request: Id, update: Meta -> Update,
                     next: RequestState)
    requires PolledElsewhere(messages, states, request) && OneEntity(messages) && KeepsIdentity(update)
    requires forall id :: id in messages && messages[id].requestId == request && update(messages[id]).Rewrite? ==>
               (update(messages[id]).meta.processed <==> next.exitId.Some?)
    ensures var after, states' := Rewritten(messages, request, update, next), states[request := next];
            && Polled(after, states') && Processed(after, states') && OneEntity(after)
            && ((forall id :: id in messages ==> update(messages[id]).Rewrite?) ==> after.Keys == messages.Keys)
  {
    var after, states' := Rewritten(messages, request, update, next), states[request := next];
    assert forall id :: id in after ==> after[id].requestId == messages[id].requestId && after[id].address == messages[id].address;
    forall id | id in after
      ensures PolledOne(after[id], StateOf(states', after[id].requestId))
      ensures after[id].processed <==> StateOf(states', after[id].requestId).exitId.Some?
    {
      if messages[id].requestId == request {
        assert after[id] == Written(update(messages[id]).meta, next);
      } else {
        assert after[id] == messages[id];
      }
    }
  }

  /** Polling and completion hold for every message of the other requests. */
  ghost predicate PolledElsewhere(messages: map<Id, Meta>, states: map<Id, RequestState>, request: Id) {
    forall id :: id in messages && messages[id].requestId != request ==>
      && PolledOne(messages[id], StateOf(states, messages[id].requestId))
      && (messages[id].processed <==> StateOf(states, messages[id].requestId).exitId.Some?)
  }

  lemma AcknowledgeKeeps(messages: map<Id, Meta>, states: map<Id, RequestState>, meta: Meta, state: RequestState)
    requires Polled(messages, states) && Processed(messages, states) && OneEntity(messages)
    requires meta.processed <==> StateOf(states, meta.requestId).exitId.Some?
    requires state.exitId == StateOf(states, meta.requestId).exitId
    requires JoinsEntity(messages, meta.requestId, meta.address)
    ensures var after, states' := Rewritten(messages[meta.id := Written(meta, state)], meta.requestId, Same, state),
                                  states[meta.requestId := state];
            && Polled(after, states') && Processed(after, states') && OneEntity(after)
            && after.Keys == messages.Keys + {meta.id}
  {
    var added := messages[meta.id := Written(meta, state)];
    assert OneEntity(added);
    RewriteKeeps(added, states, meta.requestId, Same, state);
  }

  lemma AcknowledgeAll(messages: map<Id, Meta>, states: map<Id, RequestState>, replies: Replies, meta: Meta,
                       reply: ReplyId)
    requires InStep(messages, states, replies)
    requires meta.processed <==> StateOf(states, meta.requestId).exitId.Some?
    requires JoinsEntity(messages, meta.requestId, meta.address)
    ensures KeepsIdentity(Same)
    ensures var state := AckedState(states, replies, meta.requestId, reply, meta.id);
            var after, states' := Rewritten(messages[meta.id := Written(meta, state)], meta.requestId, Same, state),
                                  states[meta.requestId := state];
            && InStep(after, states', Acknowledged(replies, meta.requestId, reply))
            && after.Keys == messages.Keys + {meta.id}
  {
    SameKeepsIdentity();
    AcknowledgeCounts(states, replies, meta.requestId, reply, meta.id);
    AcknowledgeKeeps(messages, states, meta, AckedState(states, replies, meta.requestId, reply, meta.id));
    hide Polled, Processed, OneEntity, Counted, Rewritten;
  }

  /** A message as first written: completed already if its request has its exit. */
  function NewMeta(id: Id, requestId: Id, kind: Kind, address: Address, hash: Option<Hash>, deliverAt: Option<int>,
                   state: RequestState): Meta {
    Meta(id, requestId, kind, address, hash, deliverAt, None, state.exitId.Some?, Blocked)
  }

  predicate Acknowledges(replies: Replies, request: Id, reply: ReplyId) {
    (request, reply) in replies.metadata
    && replies.metadata[(request, reply)].kind.Chunk? && !replies.metadata[(request, reply)].acked
  }

  function Acknowledged(replies: Replies, request: Id, reply: ReplyId): Replies {
    if Acknowledges(replies, request, reply) then
      replies.(metadata := replies.metadata[(request, reply) := replies.metadata[(request, reply)].(acked := true)])
    else replies
  }

  function AckedState(states: map<Id, RequestState>, replies: Replies, request: Id, reply: ReplyId,
                      ackId: Id): RequestState {
    var state := StateOf(states, request);
    state.(latestAckId := Some(ackId), unacked := state.unacked - if Acknowledges(replies, request, reply) then 1 else 0)
  }

  lemma UnackedAcknowledged(replies: Replies, request: Id, reply: ReplyId, r: Id)
    ensures |Unacked(Acknowledged(replies, request, reply).metadata, r)| ==
            |Unacked(replies.metadata, r)| - if r == request && Acknowledges(replies, request, reply) then 1 else 0
  {
    var before, after := Unacked(replies.metadata, r), Unacked(Acknowledged(replies, request, reply).metadata, r);
    if r == request && Acknowledges(replies, request, reply) {
      assert (request, reply) in replies.metadata;
      assert reply in before;
      assert after == before - {reply};
    } else {
      assert after == before;
    }
  }

  lemma AcknowledgedExits(states: map<Id, RequestState>, replies: Replies, request: Id, reply: ReplyId, ackId: Id)
    requires ExitsRecorded(states, replies)
    ensures ExitsRecorded(states[request := AckedState(states, replies, request, reply, ackId)], Acknowledged(replies, request, reply))
  {
  }

  /** Acknowledging a chunk takes exactly one off the count of its request. */
  lemma AcknowledgeCounts(states: map<Id, RequestState>, replies: Replies, request: Id, reply: ReplyId, ackId: Id)
    requires Counted(states, replies)
    ensures Counted(states[request := AckedState(states, replies, request, reply, ackId)], Acknowledged(replies, request, reply))
  {
    var after, replies' := states[request := AckedState(states, replies, request, reply, ackId)], Acknowledged(replies, request, reply);
    forall r: Id
      ensures StateOf(after, r).unacked == |Unacked(replies'.metadata, r)|
    {
      UnackedAcknowledged(replies, request, reply, r);
    }
    AcknowledgedExits(states, replies, request, reply, ackId);
    hide ExitsRecorded, AckedState, Acknowledged, Unacked;
  }

  function List(l: Lists, meta: Meta): Lists {
    Lists(l.byShard + {(meta.address.shard, meta.id)}, l.byAddress + {(meta.address, meta.id)},
          l.byRequest + {(meta.requestId, meta.id)})
  }

  lemma InsertAgrees(p: Polls, orders: map<Id, nat>, next: nat, messages: map<Id, Meta>, meta: Meta)
    requires Agrees(p, orders, messages) && meta.id !in messages && meta.polling.Blocked?
    ensures Agrees(p, orders[meta.id := next], messages[meta.id := meta])
  {
    assert AgreesReady(p, orders[meta.id := next], messages[meta.id := meta]);
    assert AgreesScheduled(p, messages[meta.id := meta]);
  }

  lemma InsertListed(l: Lists, messages: map<Id, Meta>, meta: Meta)
    requires Listed(l, messages) && meta.id !in messages
    ensures Listed(List(l, meta), messages[meta.id := meta])
  {
  }

  lemma InsertKeyed(envelopes: map<Id, Payload>, orders: map<Id, nat>, next: nat, messages: map<Id, Meta>,
                    meta: Meta, payload: Payload)
    requires Keyed(envelopes, orders, next, messages)
    requires meta.id !in messages && (meta.kind.Request? ==> meta.requestId == meta.id)
    ensures Keyed(envelopes[meta.id := payload], orders[meta.id := next], next + 1, messages[meta.id := meta])
  {
  }

  lemma InsertNamed(primaryKeys: map<Hash, Id>, messages: map<Id, Meta>, meta: Meta)
    requires Named(primaryKeys, messages) && meta.id !in messages
    requires meta.primaryKey.Some? ==> meta.primaryKey.value !in primaryKeys
    ensures Named(Name(primaryKeys, meta), messages[meta.id := meta])
  {
  }

  function Name(primaryKeys: map<Hash, Id>, meta: Meta): map<Hash, Id> {
    if meta.primaryKey.Some? then primaryKeys[meta.primaryKey.value := meta.id] else primaryKeys
  }

  lemma InsertKeeps(p: Polls, l: Lists, envelopes: map<Id, Payload>, orders: map<Id, nat>, next: nat,
                    primaryKeys: map<Hash, Id>, messages: map<Id, Meta>, meta: Meta, state: RequestState,
                    payload: Payload)
    requires Agrees(p, orders, messages) && Listed(l, messages) && Keyed(envelopes, orders, next, messages)
    requires Named(primaryKeys, messages)
    requires meta.id !in messages && meta.polling.Blocked? && (meta.kind.Request? ==> meta.requestId == meta.id)
    requires meta.primaryKey.Some? ==> meta.primaryKey.value !in primaryKeys
    ensures var view, after := messages[meta.id := meta], messages[meta.id := Written(meta, state)];
            && Agrees(p, orders[meta.id := next], view) && StandsFor(view, meta)
            && view == messages[meta.id := view[meta.id]]
            && Listed(List(l, meta), after)
            && Keyed(envelopes[meta.id := payload], orders[meta.id := next], next + 1, after)
            && Named(Name(primaryKeys, meta), after)
  {
    var view, after := messages[meta.id := meta], messages[meta.id := Written(meta, state)];
    InsertAgrees(p, orders, next, messages, meta);
    InsertListed(l, messages, meta);
    InsertKeyed(envelopes, orders, next, messages, meta, payload);
    InsertNamed(primaryKeys, messages, meta);
    WrittenIdentity(messages, meta, state);
    assert StandsFor(view, meta);
    hide *;
    IdentityDecides(List(l, meta), envelopes[meta.id := payload], orders[meta.id := next], next + 1,
                    Name(primaryKeys, meta), view, after);
  }

  lemma WrittenIdentity(messages: map<Id, Meta>, meta: Meta, state: RequestState)
    ensures SameIdentity(messages[meta.id := meta], messages[meta.id := Written(meta, state)])
  {
  }

  lemma NotKnown(primaryKeys: map<Hash, Id>, messages: map<Id, Meta>, hash: Option<Hash>, id: Id)
    requires Named(primaryKeys, messages)
    requires KnownAs(primaryKeys, hash, id) !in messages
    ensures id !in messages && (hash.Some? ==> hash.value !in primaryKeys)
  {
  }

  datatype ReplyTag = ChunkReply(sequence: nat) | ExitReply
  datatype ReplyResult = ReplySaved | AlreadySaved | DuplicateReply

  function SlotOf(tag: ReplyTag): Slot {
    if tag.ExitReply? then Exit else Sequence(tag.sequence)
  }

  function RepliedState(state: RequestState, reply: ReplyId, tag: ReplyTag): RequestState {
    state.(lastReplyId := Some(reply),
           exitId := if tag.ExitReply? then Some(reply) else state.exitId,
           unacked := state.unacked + if tag.ChunkReply? then 1 else 0)
  }

  function WithReply(replies: Replies, request: Id, reply: ReplyId, tag: ReplyTag): Replies {
    Replies(replies.metadata[(request, reply) :=
              if tag.ExitReply? then ReplyMeta(WithExit, None, false) else ReplyMeta(Chunk, Some(tag.sequence), false)],
            replies.ids + {(request, reply)},
            replies.unique[(request, SlotOf(tag)) := reply])
  }

  /** An update that completes the request's messages. */
  function Complete(meta: Meta): Update {
    Rewrite(meta.(processed := true))
  }

  lemma UnackedWithReply(replies: Replies, request: Id, reply: ReplyId, tag: ReplyTag, r: Id)
    requires (request, reply) !in replies.metadata
    ensures |Unacked(WithReply(replies, request, reply, tag).metadata, r)| ==
            |Unacked(replies.metadata, r)| + if r == request && tag.ChunkReply? then 1 else 0
  {
    var meta := if tag.ExitReply? then ReplyMeta(WithExit, None, false) else ReplyMeta(Chunk, Some(tag.sequence), false);
    assert WithReply(replies, request, reply, tag).metadata == replies.metadata[(request, reply) := meta];
    hide WithReply;
    var before, after := Unacked(replies.metadata, r), Unacked(replies.metadata[(request, reply) := meta], r);
    assert r == request ==> reply !in before;
    if r == request && tag.ChunkReply? {
      UnackedMore(replies.metadata, r, reply, meta);
    } else {
      UnackedOther(replies.metadata, request, reply, meta, r);
    }
  }

  lemma UnackedMore(metadata: map<(Id, ReplyId), ReplyMeta>, r: Id, reply: ReplyId, meta: ReplyMeta)
    requires (r, reply) !in metadata && meta.kind.Chunk? && !meta.acked
    ensures Unacked(metadata[(r, reply) := meta], r) == Unacked(metadata, r) + {reply}
  {
    var after := metadata[(r, reply) := meta];
    assert (r, reply) in after;
    forall x | x in Unacked(metadata, r) ensures x in Unacked(after, r) {
      assert (r, x) in after;
    }
  }

  lemma UnackedOther(metadata: map<(Id, ReplyId), ReplyMeta>, request: Id, reply: ReplyId, meta: ReplyMeta, r: Id)
    requires (request, reply) !in metadata && (r != request || !meta.kind.Chunk?)
    ensures Unacked(metadata[(request, reply) := meta], r) == Unacked(metadata, r)
  {
    var after := metadata[(request, reply) := meta];
    forall x | x in Unacked(metadata, r) ensures x in Unacked(after, r) {
      assert (r, x) in after;
    }
  }

  lemma ReplyCounts(states: map<Id, RequestState>, replies: Replies, request: Id, reply: ReplyId, tag: ReplyTag)
    requires Counted(states, replies) && (request, reply) !in replies.metadata
    requires (request, SlotOf(tag)) !in replies.unique
    ensures Counted(states[request := RepliedState(StateOf(states, request), reply, tag)], WithReply(replies, request, reply, tag))
  {
    ReplyRecordsExit(states, replies, request, reply, tag);
    hide ExitsRecorded, Unacked, WithReply;
    var after, replies' := states[request := RepliedState(StateOf(states, request), reply, tag)],
                           WithReply(replies, request, reply, tag);
    forall r: Id
      ensures StateOf(after, r).unacked == |Unacked(replies'.metadata, r)|
    {
      UnackedWithReply(replies, request, reply, tag, r);
    }
  }

  lemma ReplyRecordsExit(states: map<Id, RequestState>, replies: Replies, request: Id, reply: ReplyId, tag: ReplyTag)
    requires ExitsRecorded(states, replies) && (request, reply) !in replies.metadata
    requires (request, SlotOf(tag)) !in replies.unique
    ensures ExitsRecorded(states[request := RepliedState(StateOf(states, request), reply, tag)], WithReply(replies, request, reply, tag))
  {
  }

  /** An exit completes the request's messages; a first unacknowledged chunk blocks them. */
  function AfterReply(messages: map<Id, Meta>, states: map<Id, RequestState>, request: Id, reply: ReplyId,
                      tag: ReplyTag): map<Id, Meta> {
    var state := StateOf(states, request);
    var next := RepliedState(state, reply, tag);
    if tag.ExitReply? then Rewritten(messages, request, Complete, next)
    else if state.unacked == 0 then Rewritten(messages, request, Same, next)
    else messages
  }

  lemma AfterReplyCases(messages: map<Id, Meta>, states: map<Id, RequestState>, request: Id, reply: ReplyId,
                        tag: ReplyTag)
    ensures var state := StateOf(states, request);
            var next := RepliedState(state, reply, tag);
            AfterReply(messages, states, request, reply, tag) ==
            if tag.ExitReply? then Rewritten(messages, request, Complete, next)
            else if state.unacked == 0 then Rewritten(messages, request, Same, next) else messages
  {
  }

  lemma ReplyAll(messages: map<Id, Meta>, states: map<Id, RequestState>, replies: Replies, request: Id,
                 reply: ReplyId, tag: ReplyTag)
    requires InStep(messages, states, replies)
    requires (request, reply) !in replies.metadata && (request, SlotOf(tag)) !in replies.unique
    ensures KeepsIdentity(if tag.ExitReply? then Complete else Same)
    ensures var after := AfterReply(messages, states, request, reply, tag);
            && InStep(after, states[request := RepliedState(StateOf(states, request), reply, tag)],
                      WithReply(replies, request, reply, tag))
            && after.Keys == messages.Keys
  {
    ReplyCounts(states, replies, request, reply, tag);
    ReplyKeeps(messages, states, request, reply, tag, |Unacked(replies.metadata, request)|);
    hide Polled, Processed, OneEntity, Counted, AfterReply;
  }

  /** A reply to a request that is blocked already leaves every readiness as it is. */
  lemma ReplyKeeps(messages: map<Id, Meta>, states: map<Id, RequestState>, request: Id, reply: ReplyId,
                   tag: ReplyTag, n: nat)
    requires Polled(messages, states) && Processed(messages, states) && OneEntity(messages)
    requires StateOf(states, request).unacked == n
    ensures KeepsIdentity(if tag.ExitReply? then Complete else Same)
    ensures var after, states' := AfterReply(messages, states, request, reply, tag),
                                  states[request := RepliedState(StateOf(states, request), reply, tag)];
            && Polled(after, states') && Processed(after, states') && OneEntity(after) && after.Keys == messages.Keys
  {
    var next := RepliedState(StateOf(states, request), reply, tag);
    if tag.ExitReply? {
      RewriteKeeps(messages, states, request, Complete, next);
    } else if n == 0 {
      RewriteKeeps(messages, states, request, Same, next);
    }
  }

  function ReopenedState(state: RequestState): RequestState {
    state.(lastReplyId := None, exitId := None)
  }

  function WithoutExit(replies: Replies, request: Id, state: RequestState): Replies {
    if state.exitId.None? then replies
    else Replies(replies.metadata - {(request, state.exitId.value)}, replies.ids - {(request, state.exitId.value)},
                 replies.unique - {(request, Exit)})
  }

  function Reopen(meta: Meta): Update {
    Rewrite(meta.(processed := false, claimedAt := None))
  }

  function ReopenOrDiscard(meta: Meta): Update {
    if meta.kind.Interrupt? then Drop else Reopen(meta)
  }

  /** Whether a clear takes effect: it expects no reply, or the one last saved. */
  predicate Clears(sent: map<Id, ReplyId>, request: Id, expected: Option<ReplyId>) {
    expected.Some? ==> request in sent && sent[request] == expected.value
  }

  /** What a clear leaves: all messages of the request, but for its interrupts where they are discarded, unprocessed
      and unclaimed. They can be polled as soon as they are due, unless a chunk is still to be acknowledged or a
      later acknowledgement has taken their place. */
  ghost predicate Reopened(before: map<Id, Meta>, after: map<Id, Meta>, request: Id, state: RequestState, next: RequestState,
                           discard: bool) {
    && (forall id :: id in after <==> id in before && !(before[id].requestId == request && discard && before[id].kind.Interrupt?))
    && (forall id :: id in after && before[id].requestId != request ==> after[id] == before[id])
    && (forall id :: id in after && before[id].requestId == request ==>
          && after[id] == before[id].(processed := false, claimedAt := None, polling := after[id].polling)
          && forall now :: Eligible(after[id], next, now) <==>
               && (before[id].deliverAt.Some? ==> before[id].deliverAt.value <= now)
               && state.unacked <= 0 && (before[id].kind.AckChunk? ==> state.latestAckId == Some(before[id].id)))
  }

  /** The request's exit is taken back and its messages are reopened. */
  ghost predicate TakenBack(messages: map<Id, Meta>, states: map<Id, RequestState>, replies: Replies,
                            messages': map<Id, Meta>, states': map<Id, RequestState>, replies': Replies, request: Id,
                            discard: bool) {
    var state := StateOf(states, request);
    && states' == states[request := ReopenedState(state)]
    && replies' == WithoutExit(replies, request, state)
    && messages' == Rewritten(messages, request, if discard then ReopenOrDiscard else Reopen, ReopenedState(state))
    && Reopened(messages, messages', request, state, ReopenedState(state), discard)
  }

  lemma ReopensMessages(messages: map<Id, Meta>, request: Id, state: RequestState, discard: bool)
    ensures Reopened(messages, Rewritten(messages, request, if discard then ReopenOrDiscard else Reopen, ReopenedState(state)),
                     request, state, ReopenedState(state), discard)
  {
    hide PollingState;
  }

  lemma WithoutExitCounts(states: map<Id, RequestState>, replies: Replies, request: Id)
    requires Counted(states, replies)
    ensures Counted(states[request := ReopenedState(StateOf(states, request))],
                    WithoutExit(replies, request, StateOf(states, request)))
  {
    var after, states' := WithoutExit(replies, request, StateOf(states, request)),
                          states[request := ReopenedState(StateOf(states, request))];
    forall r: Id
      ensures StateOf(states', r).unacked == |Unacked(after.metadata, r)|
    {
      UnackedWithoutExit(states, replies, request, r);
    }
    ExitUnrecorded(states, replies, request);
    hide ExitsRecorded, Unacked, WithoutExit;
  }

  lemma ExitUnrecorded(states: map<Id, RequestState>, replies: Replies, request: Id)
    requires ExitsRecorded(states, replies)
    ensures ExitsRecorded(states[request := ReopenedState(StateOf(states, request))],
                          WithoutExit(replies, request, StateOf(states, request)))
  {
  }

  lemma UnackedWithoutExit(states: map<Id, RequestState>, replies: Replies, request: Id, r: Id)
    requires ExitsRecorded(states, replies)
    ensures Unacked(WithoutExit(replies, request, StateOf(states, request)).metadata, r) == Unacked(replies.metadata, r)
  {
    var after := WithoutExit(replies, request, StateOf(states, request));
    forall x | x in Unacked(replies.metadata, r) ensures x in Unacked(after.metadata, r) {
      assert (r, x) in after.metadata;
    }
  }

  lemma ReopenKeeps(messages: map<Id, Meta>, states: map<Id, RequestState>, request: Id, update: Meta -> Update)
    requires Polled(messages, states) && Processed(messages, states) && OneEntity(messages)
    requires update == Reopen || update == ReopenOrDiscard
    ensures KeepsIdentity(update)
    ensures var next := ReopenedState(StateOf(states, request));
            var after, states' := Rewritten(messages, request, update, next), states[request := next];
            Polled(after, states') && Processed(after, states') && OneEntity(after)
  {
    assert KeepsIdentity(Reopen) && KeepsIdentity(ReopenOrDiscard);
    RewriteKeeps(messages, states, request, update, ReopenedState(StateOf(states, request)));
  }

  lemma ReopenAll(messages: map<Id, Meta>, states: map<Id, RequestState>, replies: Replies, request: Id,
                  update: Meta -> Update)
    requires InStep(messages, states, replies) && (update == Reopen || update == ReopenOrDiscard)
    ensures KeepsIdentity(update)
    ensures var state := StateOf(states, request);
            InStep(Rewritten(messages, request, update, ReopenedState(state)), states[request := ReopenedState(state)],
                   WithoutExit(replies, request, state))
  {
    WithoutExitCounts(states, replies, request);
    ReopenKeeps(messages, states, request, update);
    hide Polled, Processed, OneEntity, Counted, Rewritten;
  }

  // ---- The reply last saved ----

  lemma AcknowledgeRemembers(sent: map<Id, ReplyId>, states: map<Id, RequestState>, replies: Replies, request: Id,
                             reply: ReplyId, ackId: Id)
    requires Remembered(sent, states, replies.metadata)
    ensures Remembered(sent, states[request := AckedState(states, replies, request, reply, ackId)],
                       Acknowledged(replies, request, reply).metadata)
  {
  }

  lemma ReplyRemembers(sent: map<Id, ReplyId>, states: map<Id, RequestState>, replies: Replies, request: Id,
                       reply: ReplyId, tag: ReplyTag)
    requires Remembered(sent, states, replies.metadata)
    ensures Remembered(sent[request := reply], states[request := RepliedState(StateOf(states, request), reply, tag)],
                       WithReply(replies, request, reply, tag).metadata)
  {
  }

  lemma ClearRemembers(sent: map<Id, ReplyId>, states: map<Id, RequestState>, replies: Replies, request: Id)
    requires Remembered(sent, states, replies.metadata)
    ensures StateOf(states, request).lastReplyId == if request in sent then Some(sent[request]) else None
    ensures Remembered(sent - {request}, states[request := ReopenedState(StateOf(states, request))],
                       WithoutExit(replies, request, StateOf(states, request)).metadata)
  {
  }

  lemma AddressForgets(sent: map<Id, ReplyId>, states: map<Id, RequestState>, replies: Replies, requests: set<Id>)
    requires Remembered(sent, states, replies.metadata)
    ensures Remembered(sent - requests, states - requests, ClearedReplies(replies, requests).metadata)
  {
  }

  function WithClaim(meta: Meta, states: map<Id, RequestState>, claimedAt: Option<int>): Meta {
    Written(meta.(claimedAt := claimedAt), StateOf(states, meta.requestId))
  }

  lemma ClaimKeeps(messages: map<Id, Meta>, states: map<Id, RequestState>, replies: Replies, id: Id,
                   claimedAt: Option<int>)
    requires InStep(messages, states, replies) && id in messages
    ensures InStep(messages[id := WithClaim(messages[id], states, claimedAt)], states, replies)
  {
    hide Counted;
  }

  predicate Resets(meta: Meta, claimedOnly: bool) {
    !meta.processed && (claimedOnly ==> meta.claimedAt.Some?)
  }

  /** Given messages with their claims given up. */
  function ResetIn(messages: map<Id, Meta>, states: map<Id, RequestState>, ids: set<Id>, claimedOnly: bool): map<Id,
                   Meta> {
    map id | id in messages ::
      if id in ids && Resets(messages[id], claimedOnly) then WithClaim(messages[id], states, None) else messages[id]
  }

  lemma ResetStep(was: map<Id, Meta>, states: map<Id, RequestState>, done: set<Id>, id: Id, claimedOnly: bool)
    requires id in was && id !in done
    ensures var before := ResetIn(was, states, done, claimedOnly);
            && id in before && before[id] == was[id]
            && ResetIn(was, states, done + {id}, claimedOnly) ==
               if Resets(was[id], claimedOnly) then before[id := WithClaim(was[id], states, None)] else before
  {
  }

  /** A set split into what waits and what is done. */
  ghost predicate Divides(ids: set<Id>, todo: set<Id>, done: set<Id>) {
    todo + done == ids && todo !! done
  }

  lemma DivideNext(ids: set<Id>, todo: set<Id>, done: set<Id>, id: Id)
    requires Divides(ids, todo, done) && id in todo
    ensures id in ids && id !in done && Divides(ids, todo - {id}, done + {id})
  {
  }

  lemma DivideEnds(ids: set<Id>, done: set<Id>)
    requires Divides(ids, {}, done)
    ensures done == ids
  {
  }

  lemma ResetNone(was: map<Id, Meta>, states: map<Id, RequestState>, claimedOnly: bool)
    ensures ResetIn(was, states, {}, claimedOnly) == was
    ensures forall ids: set<Id> :: Divides(ids, ids, {})
  {
  }

  function AtShards(messages: map<Id, Meta>, shards: seq<string>): set<Id> {
    set id | id in messages && messages[id].address.shard in shards
  }

  function AtAddresses(messages: map<Id, Meta>, addresses: seq<Address>): set<Id> {
    set id | id in messages && messages[id].address in addresses
  }

  function Present(messages: map<Id, Meta>, ids: seq<Id>): set<Id> {
    set id | id in messages && id in ids
  }

  lemma ShardsListed(l: Lists, view: map<Id, Meta>, shards: seq<string>)
    requires Listed(l, view)
    ensures (set x | x in l.byShard && x.0 in shards :: x.1) == AtShards(view, shards) <= view.Keys
  {
    assert forall id :: id in view ==> (view[id].address.shard, id) in l.byShard;
  }

  lemma AddressesListed(l: Lists, view: map<Id, Meta>, addresses: seq<Address>)
    requires Listed(l, view)
    ensures (set x | x in l.byAddress && x.0 in addresses :: x.1) == AtAddresses(view, addresses) <= view.Keys
  {
    assert forall id :: id in view ==> (view[id].address, id) in l.byAddress;
  }

  function AtEntity(messages: map<Id, Meta>, entityType: string, entityId: string): set<Id> {
    set id | id in messages && messages[id].address.entityType == entityType && messages[id].address.entityId == entityId
  }

  function RequestsIn(messages: map<Id, Meta>, ids: set<Id>): set<Id> {
    set id | id in ids && id in messages && messages[id].kind.Request?
  }

  function ClearedReplies(replies: Replies, requests: set<Id>): Replies {
    Replies(map k | k in replies.metadata && k.0 !in requests :: replies.metadata[k],
            set k | k in replies.ids && k.0 !in requests,
            map k | k in replies.unique && k.0 !in requests :: replies.unique[k])
  }

  lemma EntityListed(l: Lists, view: map<Id, Meta>, entityType: string, entityId: string)
    requires Listed(l, view)
    ensures (set x | x in l.byAddress && x.0.entityType == entityType && x.0.entityId == entityId :: x.1)
            == AtEntity(view, entityType, entityId) <= view.Keys
  {
    assert forall id :: id in view ==> (view[id].address, id) in l.byAddress;
  }

  lemma ClearNone(messages: map<Id, Meta>, states: map<Id, RequestState>, replies: Replies)
    ensures RequestsIn(messages, {}) == {} && messages - {} == messages && states - {} == states
    ensures ClearedReplies(replies, {}) == replies
    ensures forall ids: set<Id> :: Divides(ids, ids, {})
  {
  }

  lemma ClearStep(was: map<Id, Meta>, states: map<Id, RequestState>, replies: Replies, done: set<Id>, id: Id)
    requires id in was && id !in done
    ensures id in was - done && (was - done)[id] == was[id]
    ensures was - done - {id} == was - (done + {id})
    ensures var r, s := RequestsIn(was, done), RequestsIn(was, done + {id});
            if was[id].kind.Request? then
              states - r - {id} == states - s && ClearedReplies(ClearedReplies(replies, r), {id}) == ClearedReplies(replies, s)
            else s == r
  {
    var r, s := RequestsIn(was, done), RequestsIn(was, done + {id});
    if was[id].kind.Request? {
      assert s == r + {id};
      assert states - r - {id} == states - s;
    } else {
      assert s == r;
    }
  }

  /** A message of another entity belongs to a request that is not cleared. */
  lemma SurvivorsRequest(envelopes: map<Id, Payload>, orders: map<Id, nat>, next: nat, messages: map<Id, Meta>,
                         entityType: string, entityId: string, id: Id)
    requires Keyed(envelopes, orders, next, messages) && OneEntity(messages)
    requires id in messages && id !in AtEntity(messages, entityType, entityId)
    ensures messages[id].requestId !in RequestsIn(messages, AtEntity(messages, entityType, entityId))
  {
    var r := messages[id].requestId;
    assert r in messages && messages[r].kind.Request? ==> messages[r].requestId == r;
    assert r in messages && messages[r].kind.Request? ==> SameEntity(messages[r].address, messages[id].address);
  }

  /** With one entity to a request, the requests whose replies go are those whose messages all go. */
  lemma ClearKeeps(envelopes: map<Id, Payload>, orders: map<Id, nat>, next: nat, messages: map<Id, Meta>,
                   states: map<Id, RequestState>, replies: Replies, entityType: string, entityId: string)
    requires Keyed(envelopes, orders, next, messages) && InStep(messages, states, replies)
    ensures var ids := AtEntity(messages, entityType, entityId);
            var requests := RequestsIn(messages, ids);
            InStep(messages - ids, states - requests, ClearedReplies(replies, requests))
  {
    var ids := AtEntity(messages, entityType, entityId);
    var requests := RequestsIn(messages, ids);
    var after, states', replies' := messages - ids, states - requests, ClearedReplies(replies, requests);
    forall id | id in after
      ensures messages[id].requestId !in requests && StateOf(states', after[id].requestId) == StateOf(states, messages[id].requestId)
    {
      SurvivorsRequest(envelopes, orders, next, messages, entityType, entityId, id);
    }
    assert Polled(after, states') && Processed(after, states') && OneEntity(after);
    ClearCounts(states, replies, requests);
    hide Counted;
  }

  lemma ClearCounts(states: map<Id, RequestState>, replies: Replies, requests: set<Id>)
    requires Counted(states, replies)
    ensures Counted(states - requests, ClearedReplies(replies, requests))
  {
    var states', replies' := states - requests, ClearedReplies(replies, requests);
    forall r: Id
      ensures StateOf(states', r).unacked == |Unacked(replies'.metadata, r)|
    {
      if r in requests {
        assert Unacked(replies'.metadata, r) == {};
      } else {
        assert Unacked(replies'.metadata, r) == Unacked(replies.metadata, r) by {
          forall x | x in Unacked(replies.metadata, r) ensures x in Unacked(replies'.metadata, r) {
            assert (r, x) in replies'.metadata;
          }
        }
      }
    }
    assert UnackedCounted(states', replies'.metadata);
    assert ExitsRecorded(states', replies');
  }

  /** Messages whose timer has run out. */
  ghost predicate DueIn(messages: map<Id, Meta>, ids: set<Id>, now: int) {
    forall id :: id in ids ==> id in messages && messages[id].polling.Timer? && messages[id].polling.time <= now
  }

  function PromotedIn(messages: map<Id, Meta>, ids: set<Id>): map<Id, Meta> {
    map id | id in messages :: if id in ids then messages[id].(polling := Ready) else messages[id]
  }

  lemma PromoteNone(was: map<Id, Meta>)
    ensures PromotedIn(was, {}) == was
  {
  }

  lemma PromoteStep(was: map<Id, Meta>, ids: set<Id>, done: set<Id>, id: Id, now: int)
    requires DueIn(was, ids, now) && id in ids && id !in done
    ensures var before := PromotedIn(was, done);
            && id in before && before[id] == was[id] && before[id].polling.Timer?
            && PromotedIn(was, done + {id}) == before[id := was[id].(polling := Ready)]
  {
  }

  lemma PromoteKeeps(messages: map<Id, Meta>, states: map<Id, RequestState>, replies: Replies, id: Id)
    requires InStep(messages, states, replies) && id in messages && messages[id].polling.Timer?
    ensures InStep(messages[id := messages[id].(polling := Ready)], states, replies)
    ensures SameIdentity(messages, messages[id := messages[id].(polling := Ready)])
  {
    hide Counted;
  }

  lemma PromoteAll(lists: Lists, envelopes: map<Id, Payload>, orders: map<Id, nat>, next: nat, primaryKeys: map<Hash, Id>,
                   messages: map<Id, Meta>, states: map<Id, RequestState>, replies: Replies,
                   was: map<Id, Meta>, ids: set<Id>, done: set<Id>, id: Id, now: int)
    requires Listed(lists, messages) && Keyed(envelopes, orders, next, messages) && Named(primaryKeys, messages)
    requires InStep(messages, states, replies)
    requires DueIn(was, ids, now) && id in ids && id !in done && messages == PromotedIn(was, done)
    ensures id in messages && id in orders && messages[id].id == id && StandsFor(messages, messages[id])
    ensures var after := messages[id := messages[id].(polling := Ready)];
            && after == PromotedIn(was, done + {id})
            && Listed(lists, after) && Keyed(envelopes, orders, next, after) && Named(primaryKeys, after)
            && InStep(after, states, replies)
  {
    PromoteStep(was, ids, done, id, now);
    PromoteKeeps(messages, states, replies, id);
    KeyedFacts(envelopes, orders, next, messages);
    var after := messages[id := messages[id].(polling := Ready)];
    assert StandsFor(messages, messages[id]);
    hide *;
    IdentityDecides(lists, envelopes, orders, next, primaryKeys, messages, after);
  }

  class Mailbox {
    var messages: map<Id, Meta>
    var envelopes: map<Id, Payload>
    var states: map<Id, RequestState>
    var replies: Replies
    var primaryKeys: map<Hash, Id>
    var lists: Lists
    var polls: Polls
    var orders: map<Id, nat>
    var next: nat
    /** The reply last saved for each request, until its replies are cleared. */
    ghost var sent: map<Id, ReplyId>

    /** Messages, their indexes and their records agree. */
    ghost predicate Stored()
      reads this`messages, this`envelopes, this`primaryKeys, this`lists, this`polls, this`orders, this`next
    {
      && Agrees(polls, orders, messages)
      && Listed(lists, messages)
      && Keyed(envelopes, orders, next, messages)
      && Named(primaryKeys, messages)
    }

    ghost predicate Valid()
      reads this
    {
      Stored() && InStep(messages, states, replies) && Remembered(sent, states, replies.metadata)
    }

    constructor ()
      ensures Valid() && messages == map[] && next == 0 && sent == map[]
    {
      messages, envelopes, states, primaryKeys := map[], map[], map[], map[];
      replies := Replies(map[], {}, map[]);
      lists := Lists({}, {}, {});
      polls := Polls({}, {}, {}, {});
      orders, next, sent := map[], 0, map[];
      new;
      forall r: Id ensures Unacked(replies.metadata, r) == {} { }
      assert UnackedCounted(states, replies.metadata);
    }

    lemma Parts()
      requires Valid()
      ensures Stored() && InStep(messages, states, replies) && messages.Keys == orders.Keys == envelopes.Keys
      ensures Remembered(sent, states, replies.metadata)
    {
      KeyedFacts(envelopes, orders, next, messages);
      hide Agrees, Listed, Keyed, Named, InStep;
    }

    // ---- Index membership ----

    method ClearMessageTimer(meta: Meta, ghost view: map<Id, Meta>)
      requires AgreesScheduled(polls, view) && StandsFor(view, meta)
      modifies this`polls
      ensures AgreesScheduled(polls, view[meta.id := meta.(polling := Blocked)])
      ensures polls.readyByShard == old(polls.readyByShard) && polls.readyByAddress == old(polls.readyByAddress)
    {
      if !meta.polling.Timer? { return; }
      polls := polls.(
        scheduledByShard := polls.scheduledByShard - {TimerRow(meta.address.shard, meta.polling.time, meta.id)},
        scheduledByAddress := polls.scheduledByAddress - {TimerRow(meta.address, meta.polling.time, meta.id)});
    }

    method SetTimer(meta: Meta, time: int, ghost view: map<Id, Meta>)
      requires AgreesScheduled(polls, view[meta.id := meta.(polling := Blocked)])
      modifies this`polls
      ensures AgreesScheduled(polls, view[meta.id := meta.(polling := Timer(time))])
      ensures polls.readyByShard == old(polls.readyByShard) && polls.readyByAddress == old(polls.readyByAddress)
    {
      polls := polls.(
        scheduledByShard := polls.scheduledByShard + {TimerRow(meta.address.shard, time, meta.id)},
        scheduledByAddress := polls.scheduledByAddress + {TimerRow(meta.address, time, meta.id)});
    }

    /** Ready membership at the message's own stamp in both families. */
    method SetMessageOrderIndexed(meta: Meta, indexed: bool, ghost view: map<Id, Meta>)
      requires AgreesReady(polls, orders, view) && StandsFor(view, meta) && meta.id in orders
      modifies this`polls
      ensures AgreesReady(polls, orders, view[meta.id := meta.(polling := if indexed then Ready else Blocked)])
      ensures polls.scheduledByShard == old(polls.scheduledByShard) && polls.scheduledByAddress == old(polls.scheduledByAddress)
    {
      var stamp := orders[meta.id];
      var shard, address := {ReadyRow(meta.address.shard, stamp, meta.id)}, {ReadyRow(meta.address, stamp, meta.id)};
      if indexed {
        polls := polls.(readyByShard := polls.readyByShard + shard, readyByAddress := polls.readyByAddress + address);
      } else {
        polls := polls.(readyByShard := polls.readyByShard - shard, readyByAddress := polls.readyByAddress - address);
      }
    }

    /** Moves a message between the ready indexes, the timer indexes and neither. */
    method SetMessagePolling(meta: Meta, polling: Polling, ghost view: map<Id, Meta>) returns (r: Meta)
      requires Agrees(polls, orders, view) && StandsFor(view, meta) && meta.id in orders
      modifies this`polls
      ensures r == meta.(polling := polling) && Agrees(polls, orders, view[meta.id := r])
    {
      r := meta.(polling := polling);
      ghost var after := view[meta.id := r];
      if meta.polling == polling {
        ReadyDepends(polls, orders, view, after);
        ScheduledDepends(polls, view, after);
        return;
      }
      ClearMessageTimer(meta, view);
      if meta.polling.Ready? || polling.Ready? {
        SetMessageOrderIndexed(meta, polling.Ready?, view);
        ReadyDepends(polls, orders, view[meta.id := meta.(polling := if polling.Ready? then Ready else Blocked)], after);
      } else {
        ReadyDepends(polls, orders, view, after);
      }
      if polling.Timer? {
        SetTimer(meta, polling.time, view);
      } else {
        ScheduledDepends(polls, view[meta.id := meta.(polling := Blocked)], after);
      }
    }

    // ---- Single messages ----

    /** Persists metadata with the polling its request's state asks for. */
    method WriteMessage(meta: Meta, state: RequestState, ghost view: map<Id, Meta>)
      requires Agrees(polls, orders, view) && StandsFor(view, meta) && meta.id in orders
      requires view == messages[meta.id := view[meta.id]]
      modifies this`messages, this`polls
      ensures messages == old(messages)[meta.id := Written(meta, state)] && Agrees(polls, orders, messages)
    {
      var stored := SetMessagePolling(meta, PollingState(meta, state), view);
      messages := messages[meta.id := stored];
      assert messages == view[meta.id := stored];
    }

    /** A message with everything that points at it. */
    method RemoveMessage(meta: Meta)
      requires Stored() && meta.id in messages && messages[meta.id] == meta
      modifies this`messages, this`envelopes, this`primaryKeys, this`orders, this`polls, this`lists
      ensures Stored()
      ensures messages == old(messages) - {meta.id} && orders == old(orders) - {meta.id}
      ensures envelopes == old(envelopes) - {meta.id}
    {
      KeyedFacts(envelopes, orders, next, messages);
      hide AgreesReady, AgreesScheduled, Listed, Keyed, Named;
      ghost var view := messages;
      ClearMessageTimer(meta, view);
      SetMessageOrderIndexed(meta, false, view);
      UnindexedGone(polls, orders, view, meta);
      UnlistedGone(lists, view, meta);
      UnnamedGone(primaryKeys, view, meta);
      UnkeyedGone(envelopes, orders, next, view, meta.id);
      hide *;
      DropRecords(meta);
    }

    method DropRecords(meta: Meta)
      modifies this`messages, this`envelopes, this`primaryKeys, this`orders, this`lists
      ensures messages == old(messages) - {meta.id} && orders == old(orders) - {meta.id}
      ensures envelopes == old(envelopes) - {meta.id} && lists == Unlist(old(lists), meta)
      ensures primaryKeys == if meta.primaryKey.Some? then old(primaryKeys) - {meta.primaryKey.value} else old(primaryKeys)
    {
      lists := Unlist(lists, meta);
      primaryKeys := if meta.primaryKey.Some? then primaryKeys - {meta.primaryKey.value} else primaryKeys;
      orders := orders - {meta.id};
      messages := messages - {meta.id};
      envelopes := envelopes - {meta.id};
    }

    // ---- All messages of a request ----

    /** Visits the request's messages; each is rewritten for the new request state or removed. */
    method UpdateRequest(request: Id, update: Meta -> Update, state: RequestState)
      requires Stored() && KeepsIdentity(update)
      modifies this`messages, this`envelopes, this`primaryKeys, this`orders, this`polls, this`lists
      ensures Stored()
      ensures messages == Rewritten(old(messages), request, update, state) && envelopes.Keys == orders.Keys == messages.Keys
      ensures Kept(old(orders), orders) && Kept(old(envelopes), envelopes)
    {
      ghost var was := messages;
      var todo := set x | x in lists.byRequest && x.0 == request :: x.1;
      ListedFacts(lists, messages, request);
      RewritesEnds(was, request, update, state, todo);
      assert envelopes.Keys == orders.Keys == messages.Keys;
      hide *;
      while todo != {}
        invariant envelopes.Keys == orders.Keys == messages.Keys
        invariant Stored() && KeepsIdentity(update) && OfRequest(was, request, todo)
        invariant messages == PartlyRewritten(was, request, update, state, todo)
        invariant Kept(old(orders), orders) && Kept(old(envelopes), envelopes)
        decreases todo
      {
        var id :| id in todo;
        UpdateNext(id, request, update, state, was, todo);
        todo := todo - {id};
      }
    }

    ghost predicate OfRequest(was: map<Id, Meta>, request: Id, todo: set<Id>) {
      forall id :: id in todo ==> id in was && was[id].requestId == request
    }

    method UpdateNext(id: Id, request: Id, update: Meta -> Update, state: RequestState,
                      ghost was: map<Id, Meta>, ghost todo: set<Id>)
      requires Stored() && KeepsIdentity(update) && OfRequest(was, request, todo) && id in todo
      requires messages == PartlyRewritten(was, request, update, state, todo)
      modifies this`messages, this`envelopes, this`primaryKeys, this`orders, this`polls, this`lists
      ensures Stored() && OfRequest(was, request, todo - {id}) && envelopes.Keys == orders.Keys == messages.Keys
      ensures messages == PartlyRewritten(was, request, update, state, todo - {id})
      ensures forall before :: Kept(before, old(orders)) ==> Kept(before, orders)
      ensures forall before :: Kept(before, old(envelopes)) ==> Kept(before, envelopes)
    {
      RewritesNext(was, request, update, state, todo, id);
      UpdateOne(id, update(messages[id]), state);
    }

    method UpdateOne(id: Id, update: Update, state: RequestState)
      requires Stored() && id in messages
      requires update.Rewrite? ==>
                 update.meta == messages[id].(processed := update.meta.processed, claimedAt := update.meta.claimedAt)
      modifies this`messages, this`envelopes, this`primaryKeys, this`orders, this`polls, this`lists
      ensures Stored()
      ensures messages == if update.Drop? then old(messages) - {id} else old(messages)[id := Written(update.meta, state)]
      ensures Kept(old(orders), orders) && Kept(old(envelopes), envelopes)
    {
      KeyedFacts(envelopes, orders, next, messages);
      hide AgreesReady, AgreesScheduled, Listed, Keyed, Named;
      match update {
        case Drop => RemoveMessage(messages[id]);
        case Rewrite(changed) => RewriteOne(id, changed, state);
      }
    }

    method RewriteOne(id: Id, meta: Meta, state: RequestState)
      requires Stored() && id in messages
      requires meta == messages[id].(processed := meta.processed, claimedAt := meta.claimedAt)
      modifies this`messages, this`polls
      ensures Stored()
      ensures messages == old(messages)[id := Written(meta, state)]
    {
      KeyedFacts(envelopes, orders, next, messages);
      RewriteIdentity(messages, id, meta, state);
      hide Agrees, Listed, Keyed, Named, PollingState, SameIdentity, StandsFor, Written;
      ghost var view := messages;
      WriteMessage(meta, state, messages);
      IdentityDecides(lists, envelopes, orders, next, primaryKeys, view, messages);
    }

    // ---- Saving an envelope ----

    /** A new message: envelope, stamp, metadata and every index that lists it. */
    method Insert(meta: Meta, state: RequestState, payload: Payload)
      requires Stored() && meta.id !in messages && meta.polling.Blocked?
      requires meta.kind.Request? ==> meta.requestId == meta.id
      requires meta.primaryKey.Some? ==> meta.primaryKey.value !in primaryKeys
      modifies this`messages, this`envelopes, this`orders, this`next, this`polls, this`lists, this`primaryKeys
      ensures Stored()
      ensures messages == old(messages)[meta.id := Written(meta, state)]
      ensures orders == old(orders)[meta.id := old(next)] && next == old(next) + 1
      ensures envelopes == old(envelopes)[meta.id := payload]
    {
      hide Agrees, Listed, Keyed, Named, Written, StandsFor, List, Name;
      ghost var view, after := messages[meta.id := meta], messages[meta.id := Written(meta, state)];
      InsertKeeps(polls, lists, envelopes, orders, next, primaryKeys, messages, meta, state, payload);
      hide *;
      PutRecords(meta, payload, view, after);
      WriteMessage(meta, state, view);
    }

    method PutRecords(meta: Meta, payload: Payload, ghost view: map<Id, Meta>, ghost after: map<Id, Meta>)
      requires Agrees(polls, orders[meta.id := next], view)
      requires Listed(List(lists, meta), after)
      requires Keyed(envelopes[meta.id := payload], orders[meta.id := next], next + 1, after)
      requires Named(Name(primaryKeys, meta), after)
      modifies this`envelopes, this`orders, this`next, this`lists, this`primaryKeys
      ensures orders == old(orders)[meta.id := old(next)] && next == old(next) + 1
      ensures envelopes == old(envelopes)[meta.id := payload]
      ensures Agrees(polls, orders, view)
      ensures Listed(lists, after) && Keyed(envelopes, orders, next, after) && Named(primaryKeys, after)
    {
      hide *;
      envelopes := envelopes[meta.id := payload];
      orders, next := orders[meta.id := next], next + 1;
      lists := List(lists, meta);
      primaryKeys := Name(primaryKeys, meta);
    }

    /** Saves a request or control envelope once; an acknowledgement also updates its request. */
    method SaveEnvelope(id: Id, requestId: Id, kind: Kind, replyId: ReplyId, address: Address,
                        hash: Option<Hash>, deliverAt: Option<int>, payload: Payload) returns (r: SaveResult)
      requires Valid() && (kind.Request? ==> requestId == id) && JoinsEntity(messages, requestId, address)
      modifies this
      ensures Valid()
      ensures r == if KnownAs(old(primaryKeys), hash, id) in old(messages) then Duplicate(KnownAs(old(primaryKeys), hash, id)) else Saved
      ensures r.Duplicate? ==>
                && messages == old(messages) && states == old(states) && replies == old(replies)
                && orders == old(orders) && primaryKeys == old(primaryKeys)
      ensures envelopes == if r.Saved? then old(envelopes)[id := payload] else old(envelopes)
      ensures sent == old(sent)
      ensures r.Saved? ==>
                var meta := NewMeta(id, requestId, kind, address, hash, deliverAt, StateOf(old(states), requestId));
                && orders == old(orders)[id := old(next)]
                && if kind.AckChunk? then
                     var state := AckedState(old(states), old(replies), requestId, replyId, id);
                     && messages == Rewritten(old(messages)[id := Written(meta, state)], requestId, Same, state)
                     && states == old(states)[requestId := state]
                     && replies == Acknowledged(old(replies), requestId, replyId)
                   else
                     && messages == old(messages)[id := Written(meta, StateOf(old(states), requestId))]
                     && states == old(states) && replies == old(replies)
    {
      hide Agrees, Listed, Keyed, Named, InStep, Remembered, Rewritten, Written, JoinsEntity, AckedState, Acknowledged;
      Parts();
      var known := KnownAs(primaryKeys, hash, id);
      if known in messages { return Duplicate(known); }
      NotKnown(primaryKeys, messages, hash, id);
      var state := StateOf(states, requestId);
      var meta := NewMeta(id, requestId, kind, address, hash, deliverAt, state);
      if kind.AckChunk? {
        SaveAcknowledgement(meta, replyId, payload);
      } else {
        PlainKeeps(messages, states, replies, meta);
        hide *;
        Insert(meta, state, payload);
      }
      return Saved;
    }

    /** Acknowledging can unblock the whole request and supersedes an older acknowledgement. */
    method SaveAcknowledgement(meta: Meta, replyId: ReplyId, payload: Payload)
      requires Valid() && meta.id !in messages && meta.kind.AckChunk? && meta.polling.Blocked?
      requires JoinsEntity(messages, meta.requestId, meta.address)
      requires meta.processed <==> StateOf(states, meta.requestId).exitId.Some?
      requires meta.primaryKey.Some? ==> meta.primaryKey.value !in primaryKeys
      modifies this
      ensures Valid() && orders == old(orders)[meta.id := old(next)]
      ensures envelopes == old(envelopes)[meta.id := payload] && sent == old(sent)
      ensures var state := AckedState(old(states), old(replies), meta.requestId, replyId, meta.id);
              && messages == Rewritten(old(messages)[meta.id := Written(meta, state)], meta.requestId, Same, state)
              && states == old(states)[meta.requestId := state]
              && replies == Acknowledged(old(replies), meta.requestId, replyId)
    {
      hide Agrees, Listed, Keyed, Named, InStep, StateOf, Rewritten, Written, Kept, KeepsIdentity, AckedState, Acknowledged, JoinsEntity;
      Parts();
      var request := meta.requestId;
      var state := AckedState(states, replies, request, replyId, meta.id);
      AcknowledgeAll(messages, states, replies, meta, replyId);
      AcknowledgeRemembers(sent, states, replies, request, replyId, meta.id);
      replies := Acknowledged(replies, request, replyId);
      states := states[request := state];
      Insert(meta, state, payload);
      UpdateAll(request, Same, state);
    }

    // ---- Replies ----

    /** Saves a reply once. An exit completes the request; a first unacknowledged chunk blocks it. */
    method SaveReply(request: Id, reply: ReplyId, tag: ReplyTag) returns (r: ReplyResult)
      requires Valid()
      modifies this
      ensures Valid() && orders == old(orders) && envelopes == old(envelopes)
      ensures sent == if r.ReplySaved? then old(sent)[request := reply] else old(sent)
      ensures r == if (request, reply) in old(replies.metadata) then AlreadySaved
                   else if (request, SlotOf(tag)) in old(replies.unique) then DuplicateReply else ReplySaved
      ensures !r.ReplySaved? ==> messages == old(messages) && states == old(states) && replies == old(replies)
      ensures r.ReplySaved? ==>
                var state := StateOf(old(states), request);
                var next := RepliedState(state, reply, tag);
                && states == old(states)[request := next]
                && replies == WithReply(old(replies), request, reply, tag)
                && messages == AfterReply(old(messages), old(states), request, reply, tag)
    {
      hide Agrees, Listed, Keyed, Named, InStep, StateOf, Rewritten, Written, Kept, KeepsIdentity, SlotOf, RepliedState, WithReply, AfterReply;
      Parts();
      if (request, reply) in replies.metadata { return AlreadySaved; }
      if (request, SlotOf(tag)) in replies.unique { return DuplicateReply; }
      var state := StateOf(states, request);
      var next := RepliedState(state, reply, tag);
      ReplyAll(messages, states, replies, request, reply, tag);
      AfterReplyCases(messages, states, request, reply, tag);
      ReplyRemembers(sent, states, replies, request, reply, tag);
      sent := sent[request := reply];
      replies := WithReply(replies, request, reply, tag);
      states := states[request := next];
      if tag.ExitReply? {
        UpdateAll(request, Complete, next);
      } else if state.unacked == 0 {
        UpdateAll(request, Same, next);
      }
      return ReplySaved;
    }

    /** An update that drops nothing leaves every order as it was. */
    method UpdateAll(request: Id, update: Meta -> Update, state: RequestState)
      requires Stored() && KeepsIdentity(update)
      requires envelopes.Keys == orders.Keys == messages.Keys == Rewritten(messages, request, update, state).Keys
      modifies this`messages, this`envelopes, this`primaryKeys, this`orders, this`polls, this`lists
      ensures Stored() && messages == Rewritten(old(messages), request, update, state) && orders == old(orders)
      ensures envelopes == old(envelopes)
    {
      ghost var wanted, payloads := orders, envelopes;
      hide *;
      UpdateRequest(request, update, state);
      KeptAll(wanted, orders);
      KeptAll(payloads, envelopes);
    }

    /** Takes back the exit of a request and reopens its messages; chunk history stays. Without an
        expected reply id interrupts are discarded; a mismatching one changes nothing. */
    method ClearReplies(request: Id, expected: Option<ReplyId>)
      requires Valid()
      modifies this
      ensures Valid() && Kept(old(orders), orders) && Kept(old(envelopes), envelopes)
      ensures sent == if Clears(old(sent), request, expected) then old(sent) - {request} else old(sent)
      ensures if Clears(old(sent), request, expected) then
                TakenBack(old(messages), old(states), old(replies), messages, states, replies, request, expected.None?)
              else
                messages == old(messages) && states == old(states) && replies == old(replies)
    {
      hide Agrees, Listed, Keyed, Named, InStep, StateOf, Rewritten, Written, Kept, KeepsIdentity, ReopenedState, WithoutExit,
           Reopened, Remembered;
      Parts();
      KeptSelf(orders);
      KeptSelf(envelopes);
      ClearRemembers(sent, states, replies, request);
      var state := StateOf(states, request);
      ReopensMessages(messages, request, state, expected.None?);
      if expected.Some? && state.lastReplyId != expected { return; }
      var next := ReopenedState(state);
      var update := if expected.None? then ReopenOrDiscard else Reopen;
      ReopenAll(messages, states, replies, request, update);
      sent := sent - {request};
      replies := WithoutExit(replies, request, state);
      states := states[request := next];
      UpdateRequest(request, update, next);
    }

    // ---- Claims ----

    /** Rewrites one message's claim under its unchanged request state. */
    method SetClaim(id: Id, claimedAt: Option<int>)
      requires Valid() && id in messages
      modifies this`messages, this`polls
      ensures Valid() && messages == old(messages)[id := WithClaim(old(messages)[id], states, claimedAt)]
    {
      hide Agrees, Listed, Keyed, Named, InStep;
      ClaimKeeps(messages, states, replies, id, claimedAt);
      var meta := messages[id].(claimedAt := claimedAt);
      var state := StateOf(states, meta.requestId);
      hide *;
      RewriteOne(id, meta, state);
    }

    /** Gives up claims so that messages are delivered again. */
    method ResetMessages(ids: set<Id>, claimedOnly: bool)
      requires Valid() && ids <= messages.Keys
      modifies this`messages, this`polls
      ensures Valid() && messages == ResetIn(old(messages), states, ids, claimedOnly)
    {
      ghost var was := messages;
      var todo := ids;
      ResetNone(was, states, claimedOnly);
      ghost var done: set<Id> := {};
      hide *;
      while todo != {}
        invariant Valid() && ids <= was.Keys && Divides(ids, todo, done)
        invariant messages == ResetIn(was, states, done, claimedOnly)
        decreases todo
      {
        var id :| id in todo;
        DivideNext(ids, todo, done, id);
        ResetNext(id, claimedOnly, was, done);
        todo, done := todo - {id}, done + {id};
      }
      DivideEnds(ids, done);
    }

    method ResetNext(id: Id, claimedOnly: bool, ghost was: map<Id, Meta>, ghost done: set<Id>)
      requires Valid() && id in was && id !in done && messages == ResetIn(was, states, done, claimedOnly)
      modifies this`messages, this`polls
      ensures Valid() && messages == ResetIn(was, states, done + {id}, claimedOnly)
    {
      hide *;
      ResetStep(was, states, done, id, claimedOnly);
      if Resets(messages[id], claimedOnly) {
        SetClaim(id, None);
      }
    }

    method ResetRequests(requests: seq<Id>)
      requires Valid()
      modifies this`messages, this`polls
      ensures Valid() && messages == ResetIn(old(messages), states, Present(old(messages), requests), false)
    {
      ResetMessages(Present(messages, requests), false);
    }

    method ResetShards(shards: seq<string>)
      requires Valid()
      modifies this`messages, this`polls
      ensures Valid()
      ensures messages == ResetIn(old(messages), states, AtShards(old(messages), shards), true)
    {
      var ids := set x | x in lists.byShard && x.0 in shards :: x.1;
      ShardsListed(lists, messages, shards);
      hide *;
      ResetMessages(ids, true);
    }

    method ResetAddresses(addresses: seq<Address>)
      requires Valid()
      modifies this`messages, this`polls
      ensures Valid()
      ensures messages == ResetIn(old(messages), states, AtAddresses(old(messages), addresses), true)
    {
      var ids := set x | x in lists.byAddress && x.0 in addresses :: x.1;
      AddressesListed(lists, messages, addresses);
      hide *;
      ResetMessages(ids, true);
    }

    // ---- Clearing an entity ----

    /** Removes every message of an entity, at whatever shard, with the reply state of its requests. */
    method ClearAddress(entityType: string, entityId: string)
      requires Valid()
      modifies this
      ensures Valid()
      ensures var ids := AtEntity(old(messages), entityType, entityId);
              && messages == old(messages) - ids
              && states == old(states) - RequestsIn(old(messages), ids)
              && replies == ClearedReplies(old(replies), RequestsIn(old(messages), ids))
              && sent == old(sent) - RequestsIn(old(messages), ids)
      ensures Kept(old(envelopes), envelopes)
    {
      ghost var was := messages;
      var ids := set x | x in lists.byAddress && x.0.entityType == entityType && x.0.entityId == entityId :: x.1;
      EntityListed(lists, messages, entityType, entityId);
      ClearKeeps(envelopes, orders, next, messages, states, replies, entityType, entityId);
      ClearNone(messages, states, replies);
      AddressForgets(sent, states, replies, RequestsIn(messages, ids));
      KeptSelf(envelopes);
      sent := sent - RequestsIn(messages, ids);
      var todo := ids;
      ghost var done: set<Id> := {};
      hide *;
      while todo != {}
        invariant Stored() && ids <= was.Keys && Divides(ids, todo, done)
        invariant messages == was - done
        invariant states == old(states) - RequestsIn(was, done)
        invariant replies == ClearedReplies(old(replies), RequestsIn(was, done))
        invariant sent == old(sent) - RequestsIn(was, ids) && Kept(old(envelopes), envelopes)
        decreases todo
      {
        var id :| id in todo;
        DivideNext(ids, todo, done, id);
        ClearNext(id, was, old(states), old(replies), done);
        todo, done := todo - {id}, done + {id};
      }
      DivideEnds(ids, done);
    }

    method ClearNext(id: Id, ghost was: map<Id, Meta>, ghost states0: map<Id, RequestState>, ghost replies0: Replies,
                     ghost done: set<Id>)
      requires Stored() && id in was && id !in done && messages == was - done
      requires states == states0 - RequestsIn(was, done)
      requires replies == ClearedReplies(replies0, RequestsIn(was, done))
      modifies this
      ensures Stored() && messages == was - (done + {id}) && sent == old(sent)
      ensures forall before :: Kept(before, old(envelopes)) ==> Kept(before, envelopes)
      ensures states == states0 - RequestsIn(was, done + {id})
      ensures replies == ClearedReplies(replies0, RequestsIn(was, done + {id}))
    {
      hide Agrees, AgreesReady, AgreesScheduled, Listed, Keyed, Named, RequestsIn, ClearedReplies;
      var meta := messages[id];
      ClearStep(was, states0, replies0, done, id);
      KeyedFacts(envelopes, orders, next, messages);
      if meta.kind.Request? {
        states := states - {id};
        replies := ClearedReplies(replies, {id});
      }
      RemoveMessage(meta);
    }

    // ---- Polling ----

    /** Makes the due messages ready; their claim and delivery times stay as they are. */
    method Promote(ids: set<Id>, now: int)
      requires Valid() && DueIn(messages, ids, now)
      modifies this`messages, this`polls
      ensures Valid() && messages == PromotedIn(old(messages), ids)
    {
      ghost var was := messages;
      PromoteNone(was);
      var todo := ids;
      ghost var done: set<Id> := {};
      assert Divides(ids, ids, {});
      hide *;
      while todo != {}
        invariant Valid() && DueIn(was, ids, now) && Divides(ids, todo, done)
        invariant messages == PromotedIn(was, done)
        decreases todo
      {
        var id :| id in todo;
        DivideNext(ids, todo, done, id);
        PromoteNext(id, now, was, ids, done);
        todo, done := todo - {id}, done + {id};
      }
      DivideEnds(ids, done);
    }

    method PromoteNext(id: Id, now: int, ghost was: map<Id, Meta>, ghost ids: set<Id>, ghost done: set<Id>)
      requires Valid() && DueIn(was, ids, now) && id in ids && id !in done && messages == PromotedIn(was, done)
      modifies this`messages, this`polls
      ensures Valid() && messages == PromotedIn(was, done + {id})
    {
      hide Agrees, AgreesReady, AgreesScheduled, Listed, Keyed, Named, InStep, DueIn, PromotedIn, StandsFor;
      ghost var view := messages;
      PromoteAll(lists, envelopes, orders, next, primaryKeys, messages, states, replies, was, ids, done, id, now);
      var meta := SetMessagePolling(messages[id], Ready, view);
      messages := messages[id := meta];
    }
  }
}
