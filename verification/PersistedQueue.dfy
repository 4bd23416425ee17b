/** The persisted queue: entries in four states, each in the one index its record dictates, leases that
    expire, and transactions that may be replayed after an ambiguous commit. */
module PersistedQueue {
  import opened Wrappers

  type Id = string
  type ClaimId = string
  type Element = string
  type Sequence = nat

  const MAX_SAFE_INTEGER := 9_007_199_254_740_991
  const BATCH := 100

  /** Whole milliseconds a number can hold exactly. */
  type Millis = t: int | 0 <= t <= MAX_SAFE_INTEGER

  /** The index key of a time. */
  function Timestamp(value: int): (t: Millis)
    ensures 0 <= value <= MAX_SAFE_INTEGER ==> t == value
  {
    if value < 0 then 0 else if value > MAX_SAFE_INTEGER then MAX_SAFE_INTEGER else value
  }

  /** A delay is not negative, may be infinite, and never leaves the exact range. */
  function AddDelay(now: Millis, delay: Option<int>): (t: Millis)
    ensures now <= t
    ensures delay.Some? && 0 <= delay.value <= MAX_SAFE_INTEGER - now ==> t == now + delay.value
    ensures delay.Some? && delay.value < 0 ==> t == now
    ensures delay.None? || delay.value > MAX_SAFE_INTEGER - now ==> t == MAX_SAFE_INTEGER
  {
    if delay.None? then MAX_SAFE_INTEGER
    else
      var later := now + if delay.value < 0 then 0 else delay.value;
      if later > MAX_SAFE_INTEGER then MAX_SAFE_INTEGER else later
  }

  // ---- Records and indexes ----

  datatype Status = Pending | Processing | Completed | Failed

  datatype Entry = Entry(id: Id, element: Element, attempts: nat, status: Status, visibleAt: Millis,
                         acquiredAt: Option<Millis>, acquiredBy: Option<ClaimId>, updatedAt: Millis)

  datatype Row = Row(time: Millis, sequence: Sequence) {
    predicate Before(other: Row) {
      time < other.time || (time == other.time && sequence < other.sequence)
    }
  }

  datatype Queue = Queue(entries: map<Sequence, Entry>, ids: map<Id, Sequence>, claims: map<ClaimId, Sequence>,
                         pending: set<Row>, locks: set<Row>, completed: set<Row>, failed: set<Row>,
                         counter: nat, signal: nat)

  function Index(q: Queue, status: Status): set<Row> {
    match status
    case Pending => q.pending
    case Processing => q.locks
    case Completed => q.completed
    case Failed => q.failed
  }

  /** An entry being worked on knows since when and by whom; no other does. */
  predicate Leased(e: Entry) {
    e.acquiredAt.Some? == e.acquiredBy.Some? == e.status.Processing?
  }

  /** The time an entry's record puts it at in the index of its state. */
  function KeyTime(e: Entry): Millis {
    match e.status
    case Pending => e.visibleAt
    case Processing => if e.acquiredAt.Some? then e.acquiredAt.value else 0
    case Completed => e.updatedAt
    case Failed => e.updatedAt
  }

  predicate Indexed(q: Queue, status: Status, row: Row) {
    row.sequence in q.entries && q.entries[row.sequence].status == status && KeyTime(q.entries[row.sequence]) == row.time
  }

  /** Each entry is in exactly one index, at the key its record dictates. */
  ghost predicate Sorted(q: Queue) {
    forall status, row :: row in Index(q, status) <==> Indexed(q, status, row)
  }

  ghost predicate ClaimsName(claims: map<ClaimId, Sequence>, entries: map<Sequence, Entry>) {
    && (forall c :: c in claims ==> claims[c] in entries && entries[claims[c]].acquiredBy == Some(c))
    && (forall s :: s in entries && entries[s].acquiredBy.Some? ==>
          entries[s].acquiredBy.value in claims && claims[entries[s].acquiredBy.value] == s)
  }

  ghost predicate IdsName(ids: map<Id, Sequence>, entries: map<Sequence, Entry>) {
    && (forall i :: i in ids ==> ids[i] in entries && entries[ids[i]].id == i)
    && (forall s :: s in entries ==> entries[s].id in ids && ids[entries[s].id] == s)
  }

  /** Claims are in bijection with the entries being processed, ids with all entries. */
  ghost predicate Named(q: Queue) {
    && (forall s :: s in q.entries ==> Leased(q.entries[s]) && s < q.counter)
    && ClaimsName(q.claims, q.entries) && IdsName(q.ids, q.entries)
  }

  ghost predicate Valid(q: Queue) {
    Sorted(q) && Named(q)
  }

  ghost predicate Bounded(q: Queue, maxAttempts: nat) {
    forall s :: s in q.entries ==> q.entries[s].attempts <= maxAttempts
  }

  const EMPTY := Queue(map[], map[], map[], {}, {}, {}, {}, 0, 0)

  function SetIndex(q: Queue, status: Status, rows: set<Row>): Queue {
    match status
    case Pending => q.(pending := rows)
    case Processing => q.(locks := rows)
    case Completed => q.(completed := rows)
    case Failed => q.(failed := rows)
  }

  /** An entry rewritten, with its index row and its claim. */
  function Replaced(q: Queue, s: Sequence, e: Entry): Queue
    requires s in q.entries
  {
    var was := q.entries[s];
    var cleared := SetIndex(q, was.status, Index(q, was.status) - {Row(KeyTime(was), s)});
    var moved := SetIndex(cleared, e.status, Index(cleared, e.status) + {Row(KeyTime(e), s)});
    moved.(entries := q.entries[s := e], claims := Claims(q.claims, was.acquiredBy, e.acquiredBy, s))
  }

  function Claims(claims: map<ClaimId, Sequence>, before: Option<ClaimId>, after: Option<ClaimId>,
                  s: Sequence): map<ClaimId, Sequence> {
    var released := if before.Some? then claims - {before.value} else claims;
    if after.Some? then released[after.value := s] else released
  }

  lemma ReplaceIndex(q: Queue, s: Sequence, e: Entry, status: Status)
    requires s in q.entries
    ensures Index(Replaced(q, s, e), status) ==
            (if q.entries[s].status == status then Index(q, status) - {Row(KeyTime(q.entries[s]), s)} else Index(q, status))
            + (if e.status == status then {Row(KeyTime(e), s)} else {})
    ensures Replaced(q, s, e).entries == q.entries[s := e]
  {
    hide KeyTime;
  }

  lemma ReplaceSorted(q: Queue, s: Sequence, e: Entry)
    requires Sorted(q) && s in q.entries
    ensures Sorted(Replaced(q, s, e))
  {
    var r := Replaced(q, s, e);
    forall status, row
      ensures row in Index(r, status) <==> Indexed(r, status, row)
    {
      assert row in Index(q, status) <==> Indexed(q, status, row);
      ReplaceIndex(q, s, e, status);
      hide Replaced, Index, KeyTime;
    }
  }

  lemma ReplaceClaims(claims: map<ClaimId, Sequence>, entries: map<Sequence, Entry>, s: Sequence, e: Entry)
    requires ClaimsName(claims, entries) && s in entries
    requires e.acquiredBy.Some? ==> e.acquiredBy.value !in claims || e.acquiredBy == entries[s].acquiredBy
    ensures ClaimsName(Claims(claims, entries[s].acquiredBy, e.acquiredBy, s), entries[s := e])
  {
    var before, after := claims, Claims(claims, entries[s].acquiredBy, e.acquiredBy, s);
    assert forall c :: c in after ==> (e.acquiredBy == Some(c) && after[c] == s) || (c in before && after[c] == before[c] && after[c] != s);
  }

  lemma ReplaceNamed(q: Queue, s: Sequence, e: Entry)
    requires Named(q) && s in q.entries && Leased(e) && e.id == q.entries[s].id
    requires e.acquiredBy.Some? ==> e.acquiredBy.value !in q.claims || e.acquiredBy == q.entries[s].acquiredBy
    ensures Named(Replaced(q, s, e))
  {
    ReplaceFields(q, s, e);
    hide Replaced;
    ReplaceClaims(q.claims, q.entries, s, e);
    ReplaceIds(q.ids, q.entries, s, e);
    hide ClaimsName, Claims, IdsName, Leased;
  }

  lemma ReplaceFields(q: Queue, s: Sequence, e: Entry)
    requires s in q.entries
    ensures var r := Replaced(q, s, e);
            && r.entries == q.entries[s := e] && r.ids == q.ids && r.counter == q.counter && r.signal == q.signal
            && r.claims == Claims(q.claims, q.entries[s].acquiredBy, e.acquiredBy, s)
  {
    hide KeyTime, Claims, SetIndex, Index;
    var was := q.entries[s];
    var cleared := SetIndex(q, was.status, Index(q, was.status) - {Row(KeyTime(was), s)});
    SetIndexFields(q, was.status, Index(q, was.status) - {Row(KeyTime(was), s)});
    SetIndexFields(cleared, e.status, Index(cleared, e.status) + {Row(KeyTime(e), s)});
  }

  lemma SetIndexFields(q: Queue, status: Status, rows: set<Row>)
    ensures var r := SetIndex(q, status, rows);
            r.entries == q.entries && r.ids == q.ids && r.claims == q.claims && r.counter == q.counter && r.signal == q.signal
  {
  }

  lemma ReplaceIds(ids: map<Id, Sequence>, entries: map<Sequence, Entry>, s: Sequence, e: Entry)
    requires IdsName(ids, entries) && s in entries && e.id == entries[s].id
    ensures IdsName(ids, entries[s := e])
  {
  }

  lemma ReplaceKeeps(q: Queue, s: Sequence, e: Entry)
    requires Valid(q) && s in q.entries && Leased(e) && e.id == q.entries[s].id
    requires e.acquiredBy.Some? ==> e.acquiredBy.value !in q.claims || e.acquiredBy == q.entries[s].acquiredBy
    ensures Valid(Replaced(q, s, e))
  {
    ReplaceSorted(q, s, e);
    ReplaceNamed(q, s, e);
  }

  // ---- Reading an index ----

  /** The first rows of an index up to a time, in order, at most one batch of them. */
  ghost predicate FirstRows(rows: seq<Row>, index: set<Row>, upTo: int) {
    && |rows| <= BATCH
    && (forall i, j :: 0 <= i < j < |rows| ==> rows[i].Before(rows[j]))
    && (forall row :: row in rows ==> row in index && row.time <= upTo)
    && (forall row :: row in index && row.time <= upTo && row !in rows ==>
          |rows| == BATCH && forall i :: 0 <= i < |rows| ==> rows[i].Before(row))
  }

  method IndexBefore(index: set<Row>, upTo: int) returns (rows: seq<Row>)
    ensures FirstRows(rows, index, upTo)
  {
    rows := [];
    if upTo < 0 { return; }
    var todo := set row | row in index && row.time <= upTo;
    while todo != {} && |rows| < BATCH
      invariant todo <= index && |rows| <= BATCH
      invariant forall i, j :: 0 <= i < j < |rows| ==> rows[i].Before(rows[j])
      invariant forall row :: row in index && row.time <= upTo <==> row in rows || row in todo
      invariant forall row, i :: row in todo && 0 <= i < |rows| ==> rows[i].Before(row)
      decreases todo
    {
      LeastExists(todo, (x: Row, y: Row) => x == y || x.Before(y));
      var least :| least in todo && forall y :: y in todo ==> least == y || least.Before(y);
      rows := rows + [least];
      todo := todo - {least};
    }
  }

  // ---- Offering ----

  function Fresh(id: Id, element: Element, now: Millis): Entry {
    Entry(id, element, 0, Pending, now, None, None, now)
  }

  /** An id that is there already leaves the queue as it is. */
  function Offered(q: Queue, id: Id, element: Element, now: Millis): Queue {
    if id in q.ids then q
    else q.(entries := q.entries[q.counter := Fresh(id, element, now)], ids := q.ids[id := q.counter],
            pending := q.pending + {Row(Timestamp(now), q.counter)}, counter := q.counter + 1, signal := q.signal + 1)
  }

  lemma OfferSorted(q: Queue, id: Id, element: Element, now: Millis)
    requires Valid(q)
    ensures Sorted(Offered(q, id, element, now))
  {
    var r := Offered(q, id, element, now);
    assert q.counter !in q.entries;
    forall status, row
      ensures row in Index(r, status) <==> Indexed(r, status, row)
    {
      assert row in Index(q, status) <==> Indexed(q, status, row);
    }
  }

  lemma OfferNamed(q: Queue, id: Id, element: Element, now: Millis)
    requires Named(q)
    ensures Named(Offered(q, id, element, now))
  {
    assert q.counter !in q.entries;
  }

  lemma OfferKeeps(q: Queue, id: Id, element: Element, now: Millis)
    requires Valid(q)
    ensures Valid(Offered(q, id, element, now))
    ensures forall m :: Bounded(q, m) ==> Bounded(Offered(q, id, element, now), m)
  {
    OfferSorted(q, id, element, now);
    OfferNamed(q, id, element, now);
    hide Sorted, Named;
  }

  /** Replaying an offer, at whatever time and with whatever element, changes nothing. */
  lemma OfferTwice(q: Queue, id: Id, element: Element, now: Millis, again: Element, later: Millis)
    ensures Offered(Offered(q, id, element, now), id, again, later) == Offered(q, id, element, now)
  {
  }

  // ---- Leases ----

  predicate Holds(q: Queue, s: Sequence, claimId: ClaimId) {
    s in q.entries && q.entries[s].status.Processing? && q.entries[s].acquiredBy == Some(claimId)
    && q.entries[s].acquiredAt.Some?
  }

  function Acquired(e: Entry, claimId: ClaimId, now: Millis): Entry {
    e.(attempts := e.attempts + 1, status := Processing, acquiredAt := Some(now), acquiredBy := Some(claimId), updatedAt := now)
  }

  /** A lease renewed by its holder; nobody else can renew it. */
  function Refreshed(q: Queue, s: Sequence, claimId: ClaimId, now: Millis): Queue {
    if Holds(q, s, claimId) then Replaced(q, s, q.entries[s].(acquiredAt := Some(now))) else q
  }

  datatype Exit = Success | DeadLetter | Interrupted | Failure(retryDelay: Option<int>)

  /** Where an exit sends the entry: its next state, when it is visible, and whether the attempt counts. */
  function Settled(e: Entry, claimedAttempts: nat, maxAttempts: nat, exit: Exit, now: Millis): Entry {
    var status := match exit
      case Success => Completed
      case DeadLetter => Failed
      case Interrupted => Pending
      case Failure(_) => if claimedAttempts >= maxAttempts then Failed else Pending;
    e.(attempts := if exit.Interrupted? && e.attempts > 0 then e.attempts - 1 else e.attempts,
       status := status,
       visibleAt := if exit.Failure? && status.Pending? then AddDelay(now, exit.retryDelay) else now,
       acquiredAt := None, acquiredBy := None, updatedAt := now)
  }

  function Finalized(q: Queue, s: Sequence, claimId: ClaimId, claimedAttempts: nat, maxAttempts: nat, exit: Exit,
                     now: Millis): Queue {
    if !Holds(q, s, claimId) then q
    else
      var e := Settled(q.entries[s], claimedAttempts, maxAttempts, exit, now);
      var r := Replaced(q, s, e);
      if e.status.Pending? then r.(signal := q.signal + 1) else r
  }

  /** A lease that is held is settled: the lock row and the claim are gone, and the entry is in the index of the
      state its exit asks for, at the time and with the attempts it asks for. No other entry is touched. */
  lemma SettledHeld(q: Queue, s: Sequence, claimId: ClaimId, claimedAttempts: nat, maxAttempts: nat, exit: Exit,
                    now: Millis)
    requires Valid(q)
    ensures claimId in q.claims && q.claims[claimId] == s ==>
              var r := Finalized(q, s, claimId, claimedAttempts, maxAttempts, exit, now);
              && s in q.entries && s in r.entries && r.entries == q.entries[s := r.entries[s]]
              && claimId !in r.claims && (forall t :: Row(t, s) !in r.locks)
              && var was, e := q.entries[s], r.entries[s];
                 && e.id == was.id && e.element == was.element
                 && match exit
                    case Success => e.status == Completed && Row(now, s) in r.completed && e.attempts == was.attempts
                    case DeadLetter => e.status == Failed && Row(now, s) in r.failed && e.attempts == was.attempts
                    case Interrupted =>
                      && e.status == Pending && Row(now, s) in r.pending
                      && e.attempts == if was.attempts == 0 then 0 else was.attempts - 1
                    case Failure(delay) =>
                      && e.attempts == was.attempts
                      && if claimedAttempts >= maxAttempts then e.status == Failed && Row(now, s) in r.failed
                         else e.status == Pending && Row(AddDelay(now, delay), s) in r.pending
  {
    if claimId in q.claims && q.claims[claimId] == s {
      assert Holds(q, s, claimId);
      FinalizeKeeps(q, s, claimId, claimedAttempts, maxAttempts, exit, now);
      var e := Settled(q.entries[s], claimedAttempts, maxAttempts, exit, now);
      var r := Finalized(q, s, claimId, claimedAttempts, maxAttempts, exit, now);
      ReplaceFields(q, s, e);
      hide Replaced, AddDelay;
      assert r.entries[s] == e;
      RowIn(r, s);
    }
  }

  /** An entry's row is in the index of its state and in no other. */
  lemma RowIn(q: Queue, s: Sequence)
    requires Valid(q) && s in q.entries
    ensures Row(KeyTime(q.entries[s]), s) in Index(q, q.entries[s].status)
    ensures forall status, t :: status != q.entries[s].status ==> Row(t, s) !in Index(q, status)
    ensures forall t :: !q.entries[s].status.Processing? ==> Row(t, s) !in q.locks
  {
    var row := Row(KeyTime(q.entries[s]), s);
    assert row in Index(q, q.entries[s].status) <==> Indexed(q, q.entries[s].status, row);
    forall status, t | status != q.entries[s].status ensures Row(t, s) !in Index(q, status) {
      assert Row(t, s) in Index(q, status) <==> Indexed(q, status, Row(t, s));
    }
    assert Index(q, Processing) == q.locks;
    hide Sorted;
  }

  /** A lease that is held is renewed: its lock row moves to now, and nothing else of the entry changes. */
  lemma RefreshedHeld(q: Queue, s: Sequence, claimId: ClaimId, now: Millis)
    requires Valid(q) && claimId in q.claims && q.claims[claimId] == s
    ensures var r := Refreshed(q, s, claimId, now);
            && s in q.entries && r.entries == q.entries[s := q.entries[s].(acquiredAt := Some(now))]
            && Row(now, s) in r.locks && (forall t :: t != now ==> Row(t, s) !in r.locks)
            && claimId in r.claims && r.claims[claimId] == s
  {
    assert Holds(q, s, claimId);
    RefreshKeeps(q, s, claimId, now);
    ReplaceFields(q, s, q.entries[s].(acquiredAt := Some(now)));
    var r := Refreshed(q, s, claimId, now);
    hide Replaced;
    RowIn(r, s);
    forall t | t != now ensures Row(t, s) !in r.locks {
      assert Row(t, s) in Index(r, Processing) <==> Indexed(r, Processing, Row(t, s));
    }
  }

  lemma RefreshKeeps(q: Queue, s: Sequence, claimId: ClaimId, now: Millis)
    requires Valid(q)
    ensures Valid(Refreshed(q, s, claimId, now))
    ensures forall m :: Bounded(q, m) ==> Bounded(Refreshed(q, s, claimId, now), m)
  {
    hide Sorted;
    if Holds(q, s, claimId) { ReplaceKeeps(q, s, q.entries[s].(acquiredAt := Some(now))); }
  }

  /** Waking waiters touches no record. */
  lemma SignalKeeps(q: Queue, signal: nat)
    requires Valid(q)
    ensures Valid(q.(signal := signal))
  {
    forall status, row ensures row in Index(q.(signal := signal), status) <==> Indexed(q.(signal := signal), status, row) {
      assert row in Index(q, status) <==> Indexed(q, status, row);
    }
  }

  lemma FinalizeKeeps(q: Queue, s: Sequence, claimId: ClaimId, claimedAttempts: nat, maxAttempts: nat, exit: Exit,
                      now: Millis)
    requires Valid(q)
    ensures Valid(Finalized(q, s, claimId, claimedAttempts, maxAttempts, exit, now))
  {
    if Holds(q, s, claimId) {
      hide Sorted, Named, KeyTime, AddDelay;
      var e := Settled(q.entries[s], claimedAttempts, maxAttempts, exit, now);
      assert Leased(e) && e.id == q.entries[s].id && e.acquiredBy.None?;
      hide Replaced, Settled, Leased;
      ReplaceKeeps(q, s, e);
      SignalKeeps(Replaced(q, s, e), q.signal + 1);
    }
  }

  /** Settling a lease adds no attempt. */
  lemma FinalizeBounded(q: Queue, s: Sequence, claimId: ClaimId, claimedAttempts: nat, maxAttempts: nat, exit: Exit,
                        now: Millis, m: nat)
    requires Bounded(q, m)
    ensures Bounded(Finalized(q, s, claimId, claimedAttempts, maxAttempts, exit, now), m)
  {
    if Holds(q, s, claimId) {
      ReplaceFields(q, s, Settled(q.entries[s], claimedAttempts, maxAttempts, exit, now));
      hide Replaced;
    }
  }

  /** Replaying a refresh or a finalize of the same lease changes nothing further. */
  lemma RefreshTwice(q: Queue, s: Sequence, claimId: ClaimId, now: Millis)
    requires Valid(q)
    ensures Refreshed(Refreshed(q, s, claimId, now), s, claimId, now) == Refreshed(q, s, claimId, now)
  {
    var r := Refreshed(q, s, claimId, now);
    if Holds(q, s, claimId) {
      assert r.locks - {Row(now, s)} + {Row(now, s)} == r.locks;
      assert r.claims - {claimId} == q.claims - {claimId};
    }
  }

  lemma FinalizeTwice(q: Queue, s: Sequence, claimId: ClaimId, n: nat, maxAttempts: nat, exit: Exit, now: Millis,
                      m: nat, other: Exit, later: Millis)
    ensures var r := Finalized(q, s, claimId, n, maxAttempts, exit, now);
            Finalized(r, s, claimId, m, maxAttempts, other, later) == r
  {
  }

  /** Whoever has lost the lease can neither renew nor settle it. */
  lemma StaleHolder(q: Queue, s: Sequence, claimId: ClaimId, n: nat, maxAttempts: nat, exit: Exit, now: Millis)
    requires Valid(q) && (claimId !in q.claims || q.claims[claimId] != s)
    ensures Finalized(q, s, claimId, n, maxAttempts, exit, now) == q
    ensures Refreshed(q, s, claimId, now) == q
  {
    hide Sorted;
  }

  lemma SameClaims(q: Queue, s: Sequence, claimId: ClaimId)
    requires Valid(q)
    ensures Holds(q, s, claimId) ==> Claims(q.claims, Some(claimId), Some(claimId), s) == q.claims
  {
    hide Sorted;
  }

  // ---- Claiming ----

  datatype ClaimResult = Taken(sequence: Sequence, entry: Entry) | Progressed | Waits

  /** A lock row whose entry is not, or not any more, under the lease the row stands for. */
  predicate Stale(q: Queue, row: Row, expiredAt: int) {
    row.sequence !in q.entries || !q.entries[row.sequence].status.Processing?
    || q.entries[row.sequence].acquiredAt.None? || q.entries[row.sequence].acquiredAt.value > expiredAt
  }

  /** An entry whose lease ran out: failed when its attempts are used up, otherwise pending again. */
  function Recovered(e: Entry, maxAttempts: nat, now: Millis): Entry {
    if e.attempts >= maxAttempts then
      e.(status := Failed, acquiredAt := None, acquiredBy := None, updatedAt := now)
    else
      e.(status := Pending, visibleAt := now, acquiredAt := None, acquiredBy := None, updatedAt := now)
  }

  function GivenUp(e: Entry, now: Millis): Entry {
    e.(status := Failed, updatedAt := now)
  }

  /** The entries of some rows rewritten, all others as they were. */
  function RecoveredIn(entries: map<Sequence, Entry>, rows: seq<Row>, maxAttempts: nat, now: Millis): map<Sequence,
                       Entry> {
    map s | s in entries :: if InRows(rows, s) then Recovered(entries[s], maxAttempts, now) else entries[s]
  }

  function GivenUpIn(entries: map<Sequence, Entry>, rows: seq<Row>, now: Millis): map<Sequence, Entry> {
    map s | s in entries :: if InRows(rows, s) then GivenUp(entries[s], now) else entries[s]
  }

  predicate InRows(rows: seq<Row>, s: Sequence) {
    exists i :: 0 <= i < |rows| && rows[i].sequence == s
  }

  /** Due, and with attempts left. */
  predicate Takeable(e: Entry, maxAttempts: nat, now: Millis) {
    e.status.Pending? && e.visibleAt <= now && e.attempts < maxAttempts
  }

  datatype Trial = Gone | Postponed | Exhausted | Won(entry: Entry)

  /** Where an exit sends the entry, decided before the transaction. */
  method Decide(claimedAttempts: nat, maxAttempts: nat, exit: Exit, now: Millis)
    returns (status: Status, visibleAt: Millis, decrementAttempt: bool)
    ensures forall e: Entry :: Settled(e, claimedAttempts, maxAttempts, exit, now) == Resettled(e, status, visibleAt, decrementAttempt, now)
    ensures !status.Processing?
    ensures match exit
            case Success => status == Completed
            case DeadLetter => status == Failed
            case Interrupted => status == Pending
            case Failure(_) => status == if claimedAttempts >= maxAttempts then Failed else Pending
  {
    visibleAt := now;
    decrementAttempt := false;
    if exit.Success? {
      status := Completed;
    } else if exit.DeadLetter? {
      status := Failed;
    } else if exit.Interrupted? {
      status := Pending;
      decrementAttempt := true;
    } else if claimedAttempts >= maxAttempts {
      status := Failed;
    } else {
      status := Pending;
      visibleAt := AddDelay(now, exit.retryDelay);
    }
  }

  function Resettled(e: Entry, status: Status, visibleAt: Millis, decrementAttempt: bool, now: Millis): Entry {
    e.(attempts := if decrementAttempt && e.attempts > 0 then e.attempts - 1 else e.attempts,
       status := status, visibleAt := visibleAt, acquiredAt := None, acquiredBy := None, updatedAt := now)
  }

  function SettledAs(q: Queue, s: Sequence, status: Status, visibleAt: Millis, decrementAttempt: bool, now: Millis): Queue
    requires s in q.entries
  {
    var r := Replaced(q, s, Resettled(q.entries[s], status, visibleAt, decrementAttempt, now));
    if status.Pending? then r.(signal := q.signal + 1) else r
  }

  lemma FinalizedAs(q: Queue, s: Sequence, claimId: ClaimId, claimedAttempts: nat, maxAttempts: nat, exit: Exit,
                    now: Millis, status: Status, visibleAt: Millis, decrementAttempt: bool)
    requires forall e: Entry :: Settled(e, claimedAttempts, maxAttempts, exit, now) == Resettled(e, status, visibleAt, decrementAttempt, now)
    ensures s in q.entries ==> Settled(q.entries[s], claimedAttempts, maxAttempts, exit, now).status == status
    ensures Holds(q, s, claimId) ==> s in q.entries
    ensures Finalized(q, s, claimId, claimedAttempts, maxAttempts, exit, now) ==
            if Holds(q, s, claimId) then SettledAs(q, s, status, visibleAt, decrementAttempt, now) else q
  {
    hide Settled, Replaced;
  }

  class PersistedQueue {
    var q: Queue

    constructor ()
      ensures q == EMPTY && Valid(q)
    {
      q := EMPTY;
    }

    /** Adds an element under an id, once. */
    method Offer(id: Id, element: Element, now: Millis)
      requires Valid(q)
      modifies this
      ensures Valid(q) && q == Offered(old(q), id, element, now)
      ensures id in old(q).ids ==> q == old(q)
      ensures id !in old(q).ids ==>
                && q.entries == old(q).entries[old(q).counter := Entry(id, element, 0, Pending, now, None, None, now)]
                && id in q.ids && q.ids[id] == old(q).counter < q.counter && q.signal == old(q).signal + 1
                && Row(now, old(q).counter) in q.pending
    {
      OfferKeeps(q, id, element, now);
      hide Valid;
      if id in q.ids { return; }
      var sequence := q.counter;
      q := q.(entries := q.entries[sequence := Entry(id, element, 0, Pending, now, None, None, now)]);
      q := q.(ids := q.ids[id := sequence]);
      q := q.(pending := q.pending + {Row(Timestamp(now), sequence)});
      q := q.(counter := sequence + 1);
      q := q.(signal := q.signal + 1);
    }

    /** Renews a lease that is still held. */
    method RefreshClaim(s: Sequence, claimId: ClaimId, now: Millis)
      requires Valid(q)
      modifies this
      ensures Valid(q) && q == Refreshed(old(q), s, claimId, now)
    {
      RefreshKeeps(q, s, claimId, now);
      SameClaims(q, s, claimId);
      hide Valid;
      if !Holds(q, s, claimId) { return; }
      var e := q.entries[s];
      q := q.(locks := q.locks - {Row(Timestamp(e.acquiredAt.value), s)});
      q := q.(entries := q.entries[s := e.(acquiredAt := Some(now))]);
      q := q.(locks := q.locks + {Row(Timestamp(now), s)});
    }

    /** Settles a lease that is still held; a stale holder changes nothing. Success completes the entry, a dead
        letter fails it, an interrupt makes it pending at once with the attempt taken back, and any other
        failure makes it pending after the delay while attempts are left. */
    method FinalizeClaim(s: Sequence, claimId: ClaimId, claimedAttempts: nat, maxAttempts: nat, exit: Exit, now: Millis)
      returns (status: Status)
      requires Valid(q)
      modifies this
      ensures Valid(q) && q == Finalized(old(q), s, claimId, claimedAttempts, maxAttempts, exit, now)
      ensures match exit
              case Success => status == Completed
              case DeadLetter => status == Failed
              case Interrupted => status == Pending
              case Failure(_) => status == if claimedAttempts >= maxAttempts then Failed else Pending
      ensures claimId in old(q).claims && old(q).claims[claimId] == s ==>
                && s in old(q).entries && s in q.entries && q.entries[s].status == status
                && claimId !in q.claims && (forall t :: Row(t, s) !in q.locks)
                && match exit
                   case Success => Row(now, s) in q.completed && q.entries[s].attempts == old(q).entries[s].attempts
                   case DeadLetter => Row(now, s) in q.failed && q.entries[s].attempts == old(q).entries[s].attempts
                   case Interrupted =>
                     && Row(now, s) in q.pending
                     && q.entries[s].attempts == if old(q).entries[s].attempts == 0 then 0 else old(q).entries[s].attempts - 1
                   case Failure(delay) =>
                     && q.entries[s].attempts == old(q).entries[s].attempts
                     && if claimedAttempts >= maxAttempts then Row(now, s) in q.failed else Row(AddDelay(now, delay), s) in q.pending
    {
      SettledHeld(q, s, claimId, claimedAttempts, maxAttempts, exit, now);
      hide *;
      FinalizeKeeps(q, s, claimId, claimedAttempts, maxAttempts, exit, now);
      var visibleAt, decrementAttempt;
      status, visibleAt, decrementAttempt := Decide(claimedAttempts, maxAttempts, exit, now);
      FinalizedAs(q, s, claimId, claimedAttempts, maxAttempts, exit, now, status, visibleAt, decrementAttempt);
      if !Holds(q, s, claimId) { return; }
      Settle(s, claimId, status, visibleAt, decrementAttempt, now);
    }

    /** Rewrites a held lease's record and moves it to the index of its next state. */
    method Settle(s: Sequence, claimId: ClaimId, status: Status, visibleAt: Millis, decrementAttempt: bool, now: Millis)
      requires Holds(q, s, claimId) && !status.Processing?
      modifies this
      ensures q == SettledAs(old(q), s, status, visibleAt, decrementAttempt, now)
    {
      var e := q.entries[s];
      var attempts := if decrementAttempt && e.attempts > 0 then e.attempts - 1 else e.attempts;
      q := q.(locks := q.locks - {Row(Timestamp(e.acquiredAt.value), s)});
      q := q.(claims := q.claims - {claimId});
      q := q.(entries := q.entries[s := e.(attempts := attempts, status := status, visibleAt := visibleAt,
                                           acquiredAt := None, acquiredBy := None, updatedAt := now)]);
      match status {
        case Pending =>
          q := q.(pending := q.pending + {Row(Timestamp(visibleAt), s)});
          q := q.(signal := q.signal + 1);
        case Completed => q := q.(completed := q.completed + {Row(Timestamp(now), s)});
        case Failed => q := q.(failed := q.failed + {Row(Timestamp(now), s)});
      }
    }

    // ---- Claim ----

    /** The entry an earlier commit of the same claim took; a claim that came to nothing is forgotten. */
    method Previous(claimId: ClaimId) returns (r: Option<Sequence>)
      modifies this
      ensures r.Some? ==> claimId in old(q).claims && r.value == old(q).claims[claimId] && q == old(q)
                          && r.value in q.entries && q.entries[r.value].status.Processing? && q.entries[r.value].acquiredBy == Some(claimId)
      ensures r.None? ==> q == old(q).(claims := old(q).claims - {claimId})
                          && (claimId in old(q).claims ==> !Working(old(q), old(q).claims[claimId], claimId))
    {
      if claimId !in q.claims {
        assert q.claims == q.claims - {claimId};
        return None;
      }
      var sequence := q.claims[claimId];
      if Working(q, sequence, claimId) { return Some(sequence); }
      q := q.(claims := q.claims - {claimId});
      return None;
    }

    /** Handles one expired lock row. */
    method RecoverOne(row: Row, expiredAt: int, maxAttempts: nat, now: Millis) returns (again: bool)
      modifies this
      ensures Stale(old(q), row, expiredAt) ==> !again && q == old(q).(locks := old(q).locks - {row})
      ensures !Stale(old(q), row, expiredAt) ==>
                var e := Recovered(old(q).entries[row.sequence], maxAttempts, now);
                again == e.status.Pending?
                && q == Moved(old(q), row, Processing, e, Claims(old(q).claims, old(q).entries[row.sequence].acquiredBy, None, row.sequence))
    {
      if Stale(q, row, expiredAt) {
        q := q.(locks := q.locks - {row});
        return false;
      }
      var e := q.entries[row.sequence];
      q := q.(locks := q.locks - {row});
      if e.acquiredBy.Some? { q := q.(claims := q.claims - {e.acquiredBy.value}); }
      var recovered := Recovered(e, maxAttempts, now);
      q := q.(entries := q.entries[row.sequence := recovered]);
      if recovered.status.Failed? {
        q := q.(failed := q.failed + {Row(Timestamp(now), row.sequence)});
      } else {
        q := q.(pending := q.pending + {Row(Timestamp(now), row.sequence)});
      }
      return recovered.status.Pending?;
    }

    /** Handles one due row of the pending index. */
    method TryOne(row: Row, claimId: ClaimId, maxAttempts: nat, now: Millis) returns (r: Trial)
      modifies this
      ensures r == Tried(old(q), row, claimId, maxAttempts, now)
      ensures match r
              case Gone => q == old(q).(pending := old(q).pending - {row})
              case Postponed =>
                q == old(q).(pending := old(q).pending - {row} + {Row(old(q).entries[row.sequence].visibleAt, row.sequence)})
              case Exhausted => q == Moved(old(q), row, Pending, GivenUp(old(q).entries[row.sequence], now), old(q).claims)
              case Won(e) => q == Moved(old(q), row, Pending, e, old(q).claims[claimId := row.sequence])
    {
      if row.sequence !in q.entries || !q.entries[row.sequence].status.Pending? {
        q := q.(pending := q.pending - {row});
        return Gone;
      }
      var e := q.entries[row.sequence];
      q := q.(pending := q.pending - {row});
      if e.visibleAt > now {
        q := q.(pending := q.pending + {Row(Timestamp(e.visibleAt), row.sequence)});
        return Postponed;
      }
      if e.attempts >= maxAttempts {
        q := q.(entries := q.entries[row.sequence := GivenUp(e, now)]);
        q := q.(failed := q.failed + {Row(Timestamp(now), row.sequence)});
        return Exhausted;
      }
      var processing := Acquired(e, claimId, now);
      q := q.(entries := q.entries[row.sequence := processing]);
      q := q.(locks := q.locks + {Row(Timestamp(now), row.sequence)});
      q := q.(claims := q.claims[claimId := row.sequence]);
      return Won(processing);
    }

    method RecoverRow(expired: seq<Row>, i: nat, expiredAt: int, maxAttempts: nat, now: Millis, ghost was: Queue)
      returns (again: bool)
      requires Valid(q) && Recovering(was, q, expired, i, maxAttempts, now) && i < |expired|
      requires Valid(was) && FirstRows(expired, was.locks, expiredAt)
      modifies this
      ensures Valid(q) && Recovering(was, q, expired, i + 1, maxAttempts, now)
      ensures again <==> !UsedUp(was, expired[i], maxAttempts)
    {
      hide *;
      RecoverNext(was, q, expired, i, expiredAt, maxAttempts, now);
      again := RecoverOne(expired[i], expiredAt, maxAttempts, now);
    }

    /** Recovers one batch of expired leases; waiters are woken if an entry is pending again. */
    method RecoverExpired(expired: seq<Row>, expiredAt: int, maxAttempts: nat, now: Millis)
      requires Valid(q) && FirstRows(expired, q.locks, expiredAt)
      modifies this
      ensures Valid(q) && q.entries == RecoveredIn(old(q).entries, expired, maxAttempts, now)
      ensures q.ids == old(q).ids && q.counter == old(q).counter && q.claims.Keys <= old(q).claims.Keys
      ensures q.signal == if AttemptsLeft(old(q), expired, |expired|, maxAttempts) then old(q).signal + 1 else old(q).signal
      ensures expired == [] ==> q == old(q)
    {
      ghost var was := q;
      var recoveredPending := false;
      RecoverNone(q, expired, maxAttempts, now);
      hide *;
      for i := 0 to |expired|
        invariant Valid(q) && Recovering(was, q, expired, i, maxAttempts, now) && (i == 0 ==> q == was && !recoveredPending)
        invariant recoveredPending == AttemptsLeft(was, expired, i, maxAttempts)
      {
        LeftNext(was, expired, i, maxAttempts);
        var again := RecoverRow(expired, i, expiredAt, maxAttempts, now, was);
        recoveredPending := recoveredPending || again;
      }
      RecoverEnds(was, q, expired, maxAttempts, now);
      if recoveredPending {
        SignalKeeps(q, q.signal + 1);
        q := q.(signal := q.signal + 1);
      }
    }

    method TryRow(due: seq<Row>, i: nat, claimId: ClaimId, maxAttempts: nat, now: Millis, ghost was: Queue)
      returns (r: Option<ClaimResult>)
      requires Through(was, q, due, i, claimId, maxAttempts, now) && i < |due|
      requires Valid(was) && FirstRows(due, was.pending, now)
      modifies this
      ensures r.None? ==> Through(was, q, due, i + 1, claimId, maxAttempts, now)
      ensures r.Some? ==> Valid(q) && q.ids == was.ids && q.counter == was.counter && q.signal == was.signal
                          && AllUsedUp(was, due, i, maxAttempts) && Takes(was, q, due, i, r.value, claimId, maxAttempts, now)
    {
      hide *;
      ThroughNext(was, q, due, i, claimId, maxAttempts, now);
      var trial := TryOne(due[i], claimId, maxAttempts, now);
      match trial {
        case Won(e) => return Some(Taken(due[i].sequence, e));
        case _ => return None;
      }
    }

    /** Works through one batch of due rows until an entry with attempts left is found. */
    method TakeFirst(due: seq<Row>, claimId: ClaimId, maxAttempts: nat, now: Millis)
      returns (r: Option<ClaimResult>, ghost n: nat)
      requires Valid(q) && FirstRows(due, q.pending, now) && claimId !in q.claims
      modifies this
      ensures Valid(q) && q.ids == old(q).ids && q.counter == old(q).counter && q.signal == old(q).signal && n <= |due|
      ensures AllUsedUp(old(q), due, n, maxAttempts)
      ensures r.None? ==> n == |due| && q.entries == GivenUpIn(old(q).entries, due, now) && (due == [] ==> q == old(q))
      ensures r.Some? ==> n < |due| && Takes(old(q), q, due, n, r.value, claimId, maxAttempts, now)
    {
      hide *;
      ghost var was := q;
      n := 0;
      GiveUpNone(q, due, claimId, maxAttempts, now);
      for i := 0 to |due|
        invariant n == i && Through(was, q, due, i, claimId, maxAttempts, now)
      {
        r := TryRow(due, i, claimId, maxAttempts, now, was);
        if r.Some? { return r, n; }
        n := n + 1;
      }
      GiveUpEnds(was, q, due, claimId, maxAttempts, now);
      return None, n;
    }

    /** Takes the first due entry with attempts left, after recovering expired leases. A claim that
        has taken an entry and still holds it gets the same entry again. */
    method Claim(claimId: ClaimId, maxAttempts: nat, now: Millis, lockExpiration: nat)
      returns (r: ClaimResult, ghost back: Queue, ghost expired: seq<Row>, ghost due: seq<Row>, ghost n: nat)
      requires Valid(q)
      modifies this
      ensures Valid(q)
      ensures claimId in old(q).claims ==>
                q == old(q) && r == Taken(q.claims[claimId], q.entries[q.claims[claimId]])
      ensures claimId !in old(q).claims ==>
                ClaimStep(old(q), back, q, expired, due, n, r, claimId, maxAttempts, now, lockExpiration)
    {
      hide *;
      back, expired, due, n := q, [], [], 0;
      PreviousWorks(q, claimId);
      var previous := Previous(claimId);
      if previous.Some? { return Taken(previous.value, q.entries[previous.value]), back, expired, due, n; }
      var rows := IndexBefore(q.locks, now - lockExpiration);
      expired := rows;
      var progressed := |rows| > 0;
      RecoverExpired(rows, now - lockExpiration, maxAttempts, now);
      back := q;
      var pending := IndexBefore(q.pending, now);
      due := pending;
      progressed := progressed || |pending| > 0;
      var taken;
      taken, n := TakeFirst(pending, claimId, maxAttempts, now);
      r := if taken.Some? then taken.value else if progressed then Progressed else Waits;
      ClaimEnds(old(q), back, q, expired, due, n, taken, r, claimId, maxAttempts, now, lockExpiration);
    }

    // ---- Cleanup ----

    /** One indexed row of a finished entry; the row goes even where the record does not match it. */
    method CleanupOne(row: Row, status: Status, cutoff: int)
      requires status.Completed? || status.Failed?
      modifies this
      ensures q == Cleaned(old(q), row, status, cutoff)
    {
      if row.sequence in q.entries && q.entries[row.sequence].status == status && q.entries[row.sequence].updatedAt <= cutoff {
        var id := q.entries[row.sequence].id;
        q := q.(entries := q.entries - {row.sequence});
        q := q.(ids := q.ids - {id});
      }
      if status.Completed? { q := q.(completed := q.completed - {row}); } else { q := q.(failed := q.failed - {row}); }
    }

    /** One transaction of a cleanup. */
    method CleanupBatch(status: Status, cutoff: int) returns (count: nat)
      requires Valid(q) && (status.Completed? || status.Failed?)
      modifies this
      ensures Valid(q) && count <= BATCH
      ensures q.entries.Keys <= old(q).entries.Keys && Remaining(q.entries, status, cutoff) == Remaining(old(q).entries, status, cutoff)
      ensures count < BATCH ==> q.entries == Remaining(old(q).entries, status, cutoff)
      ensures count > 0 ==> q.entries.Keys < old(q).entries.Keys
    {
      hide *;
      ghost var was := q;
      var rows := IndexBefore(Index(q, status), cutoff);
      CleanNone(q, rows, status, cutoff);
      for i := 0 to |rows|
        invariant Cleaning(was, q, rows, i, status, cutoff)
      {
        CleanNext(was, q, rows, i, status, cutoff);
        CleanupOne(rows[i], status, cutoff);
      }
      CleanEnds(was, q, rows, status, cutoff);
      return |rows|;
    }

    /** Batch after batch until one is not full: everything of that state up to the cutoff is gone, with
        its id, and nothing else. */
    method CleanupState(status: Status, cutoff: int)
      requires Valid(q) && (status.Completed? || status.Failed?)
      modifies this
      ensures Valid(q) && q.entries == Remaining(old(q).entries, status, cutoff)
      ensures forall s :: s in q.entries <==>
                s in old(q).entries && !(old(q).entries[s].status == status && old(q).entries[s].updatedAt <= cutoff)
    {
      hide BATCH, Valid;
      while true
        invariant Valid(q) && Remaining(q.entries, status, cutoff) == Remaining(old(q).entries, status, cutoff)
        decreases q.entries.Keys
      {
        var count := CleanupBatch(status, cutoff);
        BatchIsFull();
        if count < BATCH { return; }
      }
    }
  }

  lemma BatchIsFull()
    ensures BATCH > 0
  {
  }

  /** What a cleanup leaves. */
  function Remaining(entries: map<Sequence, Entry>, status: Status, cutoff: int): map<Sequence, Entry> {
    map s | s in entries && !(entries[s].status == status && entries[s].updatedAt <= cutoff) :: entries[s]
  }

  function Cleaned(q: Queue, row: Row, status: Status, cutoff: int): Queue {
    var kept := SetIndex(q, status, Index(q, status) - {row});
    if row.sequence in q.entries && q.entries[row.sequence].status == status && q.entries[row.sequence].updatedAt <= cutoff then
      kept.(entries := q.entries - {row.sequence}, ids := q.ids - {q.entries[row.sequence].id})
    else kept
  }

  ghost predicate Cleaning(was: Queue, q: Queue, rows: seq<Row>, i: nat, status: Status, cutoff: int) {
    && (status.Completed? || status.Failed?) && Valid(was) && Valid(q)
    && FirstRows(rows, Index(was, status), cutoff) && i <= |rows|
    && (forall s :: s in q.entries <==> s in was.entries && !InRows(rows[..i], s))
    && (forall s :: s in q.entries ==> q.entries[s] == was.entries[s])
  }

  lemma CleanNone(q: Queue, rows: seq<Row>, status: Status, cutoff: int)
    requires Valid(q) && FirstRows(rows, Index(q, status), cutoff) && (status.Completed? || status.Failed?)
    ensures Cleaning(q, q, rows, 0, status, cutoff)
  {
  }

  lemma CleanRow(q: Queue, row: Row, status: Status)
    requires Valid(q) && (status.Completed? || status.Failed?) && row in Index(q, status)
    ensures row.sequence in q.entries && q.entries[row.sequence].status == status
    ensures row == Row(q.entries[row.sequence].updatedAt, row.sequence)
  {
    assert row in Index(q, status) <==> Indexed(q, status, row);
    hide Sorted;
  }

  lemma CleanApart(q: Queue, rows: seq<Row>, status: Status, cutoff: int, i: nat)
    requires Valid(q) && (status.Completed? || status.Failed?) && FirstRows(rows, Index(q, status), cutoff) && i < |rows|
    ensures forall k :: 0 <= k < |rows| && k != i ==> rows[k].sequence != rows[i].sequence
    ensures rows[i].sequence in q.entries && q.entries[rows[i].sequence].status == status
    ensures rows[i] == Row(q.entries[rows[i].sequence].updatedAt, rows[i].sequence) && rows[i].time <= cutoff
  {
    hide Valid;
    forall k | 0 <= k < |rows|
      ensures rows[k].sequence in q.entries && rows[k] == Row(q.entries[rows[k].sequence].updatedAt, rows[k].sequence)
      ensures q.entries[rows[k].sequence].status == status && rows[k].time <= cutoff
    {
      assert rows[k] in rows;
      CleanRow(q, rows[k], status);
    }
    assert forall k :: 0 <= k < |rows| && k != i ==> rows[k] != rows[i];
  }

  lemma CleanNext(was: Queue, q: Queue, rows: seq<Row>, i: nat, status: Status, cutoff: int)
    requires Cleaning(was, q, rows, i, status, cutoff) && i < |rows|
    ensures Cleaning(was, Cleaned(q, rows[i], status, cutoff), rows, i + 1, status, cutoff)
  {
    hide Valid, InRows;
    var row := rows[i];
    CleanApart(was, rows, status, cutoff, i);
    InMoreRows(rows, i);
    hide FirstRows;
    DropKeeps(q, row.sequence);
    assert Cleaned(q, row, status, cutoff) == Dropped(q, row.sequence, status);
  }

  lemma CleanEnds(was: Queue, q: Queue, rows: seq<Row>, status: Status, cutoff: int)
    requires Cleaning(was, q, rows, |rows|, status, cutoff)
    ensures Valid(q) && |rows| <= BATCH
    ensures q.entries.Keys <= was.entries.Keys && Remaining(q.entries, status, cutoff) == Remaining(was.entries, status, cutoff)
    ensures |rows| < BATCH ==> q.entries == Remaining(was.entries, status, cutoff)
    ensures |rows| > 0 ==> q.entries.Keys < was.entries.Keys
  {
    assert rows[..|rows|] == rows;
    assert |rows| <= BATCH;
    hide Valid, InRows, FirstRows;
    CleanOnly(was, rows, status, cutoff);
    CleanAll(was, rows, status, cutoff);
    RemainingAfter(was.entries, q.entries, rows, status, cutoff);
    if |rows| > 0 { assert rows[0].sequence in was.entries.Keys && rows[0].sequence !in q.entries.Keys; }
    hide Remaining;
  }

  lemma RemainingAfter(was: map<Sequence, Entry>, entries: map<Sequence, Entry>, rows: seq<Row>, status: Status,
                       cutoff: int)
    requires forall s :: s in entries <==> s in was && !InRows(rows, s)
    requires forall s :: s in entries ==> entries[s] == was[s]
    requires forall s :: s in was && InRows(rows, s) ==> was[s].status == status && was[s].updatedAt <= cutoff
    ensures entries.Keys <= was.Keys && Remaining(entries, status, cutoff) == Remaining(was, status, cutoff)
    ensures (forall s :: s in was && was[s].status == status && was[s].updatedAt <= cutoff ==> InRows(rows, s)) ==>
              entries == Remaining(was, status, cutoff)
  {
    hide InRows;
  }

  lemma CleanOnly(q: Queue, rows: seq<Row>, status: Status, cutoff: int)
    requires Valid(q) && (status.Completed? || status.Failed?) && FirstRows(rows, Index(q, status), cutoff)
    ensures forall s :: s in q.entries && InRows(rows, s) ==> q.entries[s].status == status && q.entries[s].updatedAt <= cutoff
    ensures |rows| > 0 ==> rows[0].sequence in q.entries && InRows(rows, rows[0].sequence)
  {
    hide Valid;
    forall k | 0 <= k < |rows|
      ensures rows[k].sequence in q.entries && rows[k] == Row(q.entries[rows[k].sequence].updatedAt, rows[k].sequence)
      ensures q.entries[rows[k].sequence].status == status && rows[k].time <= cutoff
    {
      assert rows[k] in rows;
      CleanRow(q, rows[k], status);
    }
  }

  lemma CleanAll(q: Queue, rows: seq<Row>, status: Status, cutoff: int)
    requires Valid(q) && (status.Completed? || status.Failed?) && FirstRows(rows, Index(q, status), cutoff)
    ensures |rows| < BATCH ==>
              forall s :: s in q.entries && q.entries[s].status == status && q.entries[s].updatedAt <= cutoff ==> InRows(rows, s)
  {
    if |rows| < BATCH {
      forall s | s in q.entries && q.entries[s].status == status && q.entries[s].updatedAt <= cutoff ensures InRows(rows, s) {
        var row := Row(q.entries[s].updatedAt, s);
        assert row in Index(q, status) <==> Indexed(q, status, row);
        assert row in rows;
      }
    }
  }

  predicate UsedUp(q: Queue, row: Row, maxAttempts: nat) {
    row.sequence in q.entries && q.entries[row.sequence].attempts >= maxAttempts
  }

  ghost predicate AllUsedUp(q: Queue, due: seq<Row>, n: nat, maxAttempts: nat) {
    n <= |due| && forall k :: 0 <= k < n ==> UsedUp(q, due[k], maxAttempts)
  }

  lemma OneMoreUsedUp(q: Queue, due: seq<Row>, n: nat, maxAttempts: nat)
    requires n < |due| && AllUsedUp(q, due, n, maxAttempts) && UsedUp(q, due[n], maxAttempts)
    ensures AllUsedUp(q, due, n + 1, maxAttempts)
  {
  }

  /** Of the entries of the first so many rows one has attempts left. */
  ghost predicate AttemptsLeft(q: Queue, rows: seq<Row>, n: nat, maxAttempts: nat)
    requires n <= |rows|
  {
    exists k :: 0 <= k < n && !UsedUp(q, rows[k], maxAttempts)
  }

  lemma LeftNext(q: Queue, rows: seq<Row>, n: nat, maxAttempts: nat)
    requires n < |rows|
    ensures AttemptsLeft(q, rows, n + 1, maxAttempts) <==> AttemptsLeft(q, rows, n, maxAttempts) || !UsedUp(q, rows[n], maxAttempts)
    ensures n == 0 ==> !AttemptsLeft(q, rows, 0, maxAttempts)
  {
    hide UsedUp;
  }

  /** The n-th due row's entry is taken, those before it are given up, nothing else has changed. */
  ghost predicate Takes(was: Queue, q: Queue, due: seq<Row>, n: nat, r: ClaimResult, claimId: ClaimId,
                        maxAttempts: nat, now: Millis)
    requires n < |due|
  {
    var s := due[n].sequence;
    && s in was.entries && Takeable(was.entries[s], maxAttempts, now)
    && r == Taken(s, Acquired(was.entries[s], claimId, now))
    && q.entries == GivenUpIn(was.entries, due[..n], now)[s := Acquired(was.entries[s], claimId, now)]
    && claimId in q.claims && q.claims[claimId] == s
  }

  /** What a claim comes to that held no entry before: expired leases recovered, used-up entries given up, and
      the first entry with attempts left taken; it waits only if there was nothing to do. */
  ghost predicate ClaimStep(was: Queue, back: Queue, q: Queue, expired: seq<Row>, due: seq<Row>, n: nat, r: ClaimResult,
                            claimId: ClaimId, maxAttempts: nat, now: Millis, lockExpiration: nat) {
    && FirstRows(expired, was.locks, now - lockExpiration) && Valid(back)
    && back.entries == RecoveredIn(was.entries, expired, maxAttempts, now)
    && FirstRows(due, back.pending, now) && n <= |due|
    && AllUsedUp(back, due, n, maxAttempts)
    && q.counter == was.counter
    && q.signal == (if AttemptsLeft(was, expired, |expired|, maxAttempts) then was.signal + 1 else was.signal)
    && match r
       case Taken(_, _) => n < |due| && Takes(back, q, due, n, r, claimId, maxAttempts, now)
       case Progressed => n == |due| && |expired| + |due| > 0 && q.entries == GivenUpIn(back.entries, due, now)
       case Waits => expired == [] && due == [] && q == was
  }

  lemma ClaimEnds(was: Queue, back: Queue, q: Queue, expired: seq<Row>, due: seq<Row>, n: nat, taken: Option<ClaimResult>,
                  r: ClaimResult, claimId: ClaimId, maxAttempts: nat, now: Millis, lockExpiration: nat)
    requires FirstRows(expired, was.locks, now - lockExpiration) && Valid(back)
    requires back.entries == RecoveredIn(was.entries, expired, maxAttempts, now) && (expired == [] ==> back == was)
    requires FirstRows(due, back.pending, now) && n <= |due| && AllUsedUp(back, due, n, maxAttempts)
    requires taken.None? ==> n == |due| && q.entries == GivenUpIn(back.entries, due, now) && (due == [] ==> q == back)
    requires taken.Some? ==> n < |due| && Takes(back, q, due, n, taken.value, claimId, maxAttempts, now)
    requires r == if taken.Some? then taken.value else if |expired| > 0 || |due| > 0 then Progressed else Waits
    requires q.counter == was.counter
    requires q.signal == (if AttemptsLeft(was, expired, |expired|, maxAttempts) then was.signal + 1 else was.signal)
    ensures ClaimStep(was, back, q, expired, due, n, r, claimId, maxAttempts, now, lockExpiration)
  {
    hide Valid, FirstRows, AllUsedUp, RecoveredIn, GivenUpIn, Takeable, Acquired;
  }

  lemma PreviousWorks(q: Queue, claimId: ClaimId)
    requires Valid(q)
    ensures claimId in q.claims ==> Working(q, q.claims[claimId], claimId)
    ensures claimId !in q.claims ==> q.(claims := q.claims - {claimId}) == q
  {
    hide Sorted;
    if claimId !in q.claims { assert q.claims - {claimId} == q.claims; }
  }

  // ---- The recovery loop ----

  ghost predicate Recovering(was: Queue, q: Queue, expired: seq<Row>, i: nat, maxAttempts: nat, now: Millis) {
    && i <= |expired| && q.entries == RecoveredIn(was.entries, expired[..i], maxAttempts, now)
    && q.ids == was.ids && q.counter == was.counter && q.signal == was.signal && q.claims.Keys <= was.claims.Keys
    && forall k :: i <= k < |expired| ==> expired[k] in q.locks
  }

  lemma RecoverNone(q: Queue, expired: seq<Row>, maxAttempts: nat, now: Millis)
    requires forall row :: row in expired ==> row in q.locks
    ensures Recovering(q, q, expired, 0, maxAttempts, now)
  {
  }

  lemma RecoverEnds(was: Queue, q: Queue, expired: seq<Row>, maxAttempts: nat, now: Millis)
    requires Recovering(was, q, expired, |expired|, maxAttempts, now)
    ensures q.entries == RecoveredIn(was.entries, expired, maxAttempts, now)
    ensures q.ids == was.ids && q.counter == was.counter && q.signal == was.signal && q.claims.Keys <= was.claims.Keys
  {
    assert expired[..|expired|] == expired;
  }

  /** In a valid queue an expired lock row is never stale: it stands for a lease that has run out. */
  lemma NotStale(q: Queue, row: Row, expiredAt: int)
    requires Valid(q) && row in q.locks && row.time <= expiredAt
    ensures !Stale(q, row, expiredAt) && row.sequence in q.entries
    ensures row == Row(KeyTime(q.entries[row.sequence]), row.sequence) && q.entries[row.sequence].status.Processing?
    ensures q.entries[row.sequence].acquiredBy.Some?
  {
    assert row in Index(q, Processing) <==> Indexed(q, Processing, row);
    hide Sorted;
  }

  lemma RecoverNext(was: Queue, q: Queue, expired: seq<Row>, i: nat, expiredAt: int, maxAttempts: nat, now: Millis)
    requires Valid(q) && Recovering(was, q, expired, i, maxAttempts, now) && i < |expired|
    requires FirstRows(expired, was.locks, expiredAt) && Valid(was)
    ensures !Stale(q, expired[i], expiredAt) && expired[i].sequence in q.entries
    ensures Recovered(q.entries[expired[i].sequence], maxAttempts, now).status.Pending? <==> !UsedUp(was, expired[i], maxAttempts)
    ensures var row := expired[i];
            var e := Recovered(q.entries[row.sequence], maxAttempts, now);
            var after := Moved(q, row, Processing, e, Claims(q.claims, q.entries[row.sequence].acquiredBy, None, row.sequence));
            Valid(after) && Recovering(was, after, expired, i + 1, maxAttempts, now)
  {
    var row := expired[i];
    assert row in expired && row in q.locks;
    NotStale(q, row, expiredAt);
    var s := row.sequence;
    var e := Recovered(q.entries[s], maxAttempts, now);
    hide Sorted, Named;
    ReplaceKeeps(q, s, e);
    ReplaceIndex(q, s, e, Processing);
    ReplaceFields(q, s, e);
    var after := Replaced(q, s, e);
    assert Moved(q, row, Processing, e, Claims(q.claims, q.entries[s].acquiredBy, None, s)) == after;
    RowsApart(was, expired, expiredAt, i);
    hide Valid, Replaced, FirstRows, Recovered, Stale, KeyTime;
    RecoveredMore(was.entries, q.entries, expired, i, maxAttempts, now);
  }

  /** Different rows of one index are of different entries. */
  lemma RowsApart(q: Queue, rows: seq<Row>, expiredAt: int, i: nat)
    requires Valid(q) && FirstRows(rows, q.locks, expiredAt) && i < |rows|
    ensures forall k :: 0 <= k < |rows| && k != i ==> rows[k].sequence != rows[i].sequence
  {
    assert forall k :: 0 <= k < |rows| ==> rows[k] in rows && rows[k] in Index(q, Processing);
    assert forall k :: 0 <= k < |rows| ==> Indexed(q, Processing, rows[k]);
    assert forall k :: 0 <= k < |rows| && k != i ==> rows[k] != rows[i];
  }

  lemma RecoveredMore(was: map<Sequence, Entry>, entries: map<Sequence, Entry>, rows: seq<Row>, i: nat,
                      maxAttempts: nat, now: Millis)
    requires i < |rows| && entries == RecoveredIn(was, rows[..i], maxAttempts, now) && rows[i].sequence in entries
    requires forall k :: 0 <= k < |rows| && k != i ==> rows[k].sequence != rows[i].sequence
    ensures rows[i].sequence in was && entries[rows[i].sequence] == was[rows[i].sequence]
    ensures entries[rows[i].sequence := Recovered(entries[rows[i].sequence], maxAttempts, now)]
            == RecoveredIn(was, rows[..i + 1], maxAttempts, now)
  {
    InMoreRows(rows, i);
    hide InRows, Recovered;
  }

  lemma InMoreRows(rows: seq<Row>, i: nat)
    requires i < |rows| && forall k :: 0 <= k < |rows| && k != i ==> rows[k].sequence != rows[i].sequence
    ensures forall s :: InRows(rows[..i + 1], s) <==> InRows(rows[..i], s) || s == rows[i].sequence
    ensures !InRows(rows[..i], rows[i].sequence)
  {
    forall s ensures InRows(rows[..i + 1], s) <==> InRows(rows[..i], s) || s == rows[i].sequence {
      if s == rows[i].sequence { assert rows[..i + 1][i].sequence == s; }
      if InRows(rows[..i], s) {
        var k :| 0 <= k < i && rows[..i][k].sequence == s;
        assert rows[..i + 1][k].sequence == s;
      }
      if InRows(rows[..i + 1], s) && s != rows[i].sequence {
        var k :| 0 <= k < i + 1 && rows[..i + 1][k].sequence == s;
        assert rows[..i][k].sequence == s;
      }
    }
  }

  // ---- The taking loop ----

  ghost predicate GivingUp(was: Queue, q: Queue, due: seq<Row>, i: nat, maxAttempts: nat, now: Millis) {
    && i <= |due| && q.entries == GivenUpIn(was.entries, due[..i], now)
    && q.ids == was.ids && q.counter == was.counter && q.signal == was.signal && q.claims == was.claims
    && forall k :: i <= k < |due| ==> due[k] in q.pending
  }

  /** So many due rows have been worked through, all of entries used up. */
  ghost predicate Through(was: Queue, q: Queue, due: seq<Row>, i: nat, claimId: ClaimId, maxAttempts: nat, now: Millis) {
    && Valid(q) && GivingUp(was, q, due, i, maxAttempts, now) && (i == 0 ==> q == was)
    && claimId !in q.claims && AllUsedUp(was, due, i, maxAttempts)
  }

  lemma GiveUpNone(q: Queue, due: seq<Row>, claimId: ClaimId, maxAttempts: nat, now: Millis)
    requires Valid(q) && FirstRows(due, q.pending, now) && claimId !in q.claims
    ensures Through(q, q, due, 0, claimId, maxAttempts, now)
  {
    hide Valid;
    assert forall k :: 0 <= k < |due| ==> due[k] in due;
    assert GivingUp(q, q, due, 0, maxAttempts, now);
  }

  lemma GiveUpEnds(was: Queue, q: Queue, due: seq<Row>, claimId: ClaimId, maxAttempts: nat, now: Millis)
    requires Through(was, q, due, |due|, claimId, maxAttempts, now)
    ensures q.entries == GivenUpIn(was.entries, due, now) && q.ids == was.ids && q.counter == was.counter && q.signal == was.signal
    ensures Valid(q) && AllUsedUp(was, due, |due|, maxAttempts) && (due == [] ==> q == was)
  {
    assert due[..|due|] == due;
    hide Valid, AllUsedUp, GivenUpIn;
  }

  lemma ThroughNext(was: Queue, q: Queue, due: seq<Row>, i: nat, claimId: ClaimId, maxAttempts: nat, now: Millis)
    requires Through(was, q, due, i, claimId, maxAttempts, now) && i < |due|
    requires Valid(was) && FirstRows(due, was.pending, now)
    ensures due[i].sequence in q.entries && AllUsedUp(was, due, i, maxAttempts)
    ensures match Tried(q, due[i], claimId, maxAttempts, now)
            case Won(e) =>
              var after := Moved(q, due[i], Pending, e, q.claims[claimId := due[i].sequence]);
              Valid(after) && Takes(was, after, due, i, Taken(due[i].sequence, e), claimId, maxAttempts, now)
              && after.ids == was.ids && after.counter == was.counter && after.signal == was.signal
            case Exhausted =>
              Through(was, Moved(q, due[i], Pending, GivenUp(q.entries[due[i].sequence], now), q.claims), due, i + 1,
                      claimId, maxAttempts, now)
            case _ => false
  {
    hide Valid, GivingUp, AllUsedUp, UsedUp, Takes, FirstRows, Moved, Tried;
    TryNext(was, q, due, i, claimId, maxAttempts, now);
    if Tried(q, due[i], claimId, maxAttempts, now).Exhausted? { OneMoreUsedUp(was, due, i, maxAttempts); }
  }

  lemma PendingRow(q: Queue, row: Row)
    requires Valid(q) && row in q.pending
    ensures row.sequence in q.entries && q.entries[row.sequence].status.Pending? && q.entries[row.sequence].acquiredBy.None?
    ensures row == Row(q.entries[row.sequence].visibleAt, row.sequence)
  {
    assert row in Index(q, Pending) <==> Indexed(q, Pending, row);
    hide Sorted;
  }

  lemma PendingApart(q: Queue, rows: seq<Row>, now: int, i: nat)
    requires Valid(q) && FirstRows(rows, q.pending, now) && i < |rows|
    ensures forall k :: 0 <= k < |rows| && k != i ==> rows[k].sequence != rows[i].sequence
  {
    assert forall k :: 0 <= k < |rows| ==> rows[k] in rows && rows[k] in Index(q, Pending);
    assert forall k :: 0 <= k < |rows| ==> Indexed(q, Pending, rows[k]);
    assert forall k :: 0 <= k < |rows| && k != i ==> rows[k] != rows[i];
  }

  lemma GivenUpMore(was: map<Sequence, Entry>, entries: map<Sequence, Entry>, rows: seq<Row>, i: nat, now: Millis)
    requires i < |rows| && entries == GivenUpIn(was, rows[..i], now) && rows[i].sequence in entries
    requires forall k :: 0 <= k < |rows| && k != i ==> rows[k].sequence != rows[i].sequence
    ensures rows[i].sequence in was && entries[rows[i].sequence] == was[rows[i].sequence]
    ensures entries[rows[i].sequence := GivenUp(entries[rows[i].sequence], now)] == GivenUpIn(was, rows[..i + 1], now)
  {
    InMoreRows(rows, i);
    hide InRows, GivenUp;
  }

  /** A due row of a valid queue is either used up and given up, or taken. */
  lemma TryNext(was: Queue, q: Queue, due: seq<Row>, i: nat, claimId: ClaimId, maxAttempts: nat, now: Millis)
    requires Valid(q) && GivingUp(was, q, due, i, maxAttempts, now) && i < |due| && claimId !in q.claims
    requires Valid(was) && FirstRows(due, was.pending, now)
    ensures var row := due[i];
            && row.sequence in q.entries
            && match Tried(q, row, claimId, maxAttempts, now)
               case Won(e) =>
                 var after := Moved(q, row, Pending, e, q.claims[claimId := row.sequence]);
                 Valid(after) && Takes(was, after, due, i, Taken(row.sequence, e), claimId, maxAttempts, now)
                 && after.ids == was.ids && after.counter == was.counter && after.signal == was.signal
               case Exhausted =>
                 var after := Moved(q, row, Pending, GivenUp(q.entries[row.sequence], now), q.claims);
                 Valid(after) && GivingUp(was, after, due, i + 1, maxAttempts, now) && UsedUp(was, row, maxAttempts)
                 && after.claims == q.claims
               case _ => false
  {
    var row := due[i];
    assert row in due && row in q.pending;
    PendingRow(q, row);
    var s := row.sequence;
    hide Sorted, Named, FirstRows, GivingUp, Takes, UsedUp, Moved, Valid;
    if q.entries[s].attempts >= maxAttempts {
      TryGivesUp(was, q, due, i, maxAttempts, now);
    } else {
      DueNow(due, was, now, i);
      TryTakes(was, q, due, i, claimId, maxAttempts, now);
    }
  }

  lemma DueNow(due: seq<Row>, q: Queue, now: Millis, i: nat)
    requires FirstRows(due, q.pending, now) && i < |due|
    ensures due[i].time <= now
  {
    assert due[i] in due;
  }

  lemma TryGivesUp(was: Queue, q: Queue, due: seq<Row>, i: nat, maxAttempts: nat, now: Millis)
    requires Valid(q) && GivingUp(was, q, due, i, maxAttempts, now) && i < |due|
    requires Valid(was) && FirstRows(due, was.pending, now)
    requires due[i].sequence in q.entries && q.entries[due[i].sequence].attempts >= maxAttempts
    ensures var after := Moved(q, due[i], Pending, GivenUp(q.entries[due[i].sequence], now), q.claims);
            Valid(after) && GivingUp(was, after, due, i + 1, maxAttempts, now) && UsedUp(was, due[i], maxAttempts)
            && after.claims == q.claims
  {
    var row, s := due[i], due[i].sequence;
    PendingRow(q, row);
    PendingApart(was, due, now, i);
    hide Sorted, FirstRows;
    GivenUpMore(was.entries, q.entries, due, i, now);
    var e := GivenUp(q.entries[s], now);
    assert Leased(e);
    hide Named;
    ReplaceKeeps(q, s, e);
    ReplaceFields(q, s, e);
    ReplaceIndex(q, s, e, Pending);
    MovedIsReplaced(q, row, e);
    hide Valid, Replaced, Moved, GivenUpIn;
  }

  lemma TryTakes(was: Queue, q: Queue, due: seq<Row>, i: nat, claimId: ClaimId, maxAttempts: nat, now: Millis)
    requires Valid(q) && GivingUp(was, q, due, i, maxAttempts, now) && i < |due| && claimId !in q.claims
    requires Valid(was) && FirstRows(due, was.pending, now) && due[i].time <= now
    requires due[i].sequence in q.entries && q.entries[due[i].sequence].attempts < maxAttempts
    ensures var row := due[i];
            var e := Acquired(q.entries[row.sequence], claimId, now);
            var after := Moved(q, row, Pending, e, q.claims[claimId := row.sequence]);
            Valid(after) && Takes(was, after, due, i, Taken(row.sequence, e), claimId, maxAttempts, now)
            && after.ids == was.ids && after.counter == was.counter && after.signal == was.signal
  {
    var row, s := due[i], due[i].sequence;
    PendingRow(q, row);
    PendingApart(was, due, now, i);
    hide Sorted, FirstRows, Named;
    GivenUpMore(was.entries, q.entries, due, i, now);
    var e := Acquired(q.entries[s], claimId, now);
    ReplaceKeeps(q, s, e);
    ReplaceFields(q, s, e);
    MovedIsReplaced(q, row, e);
    hide Valid, Replaced, Moved, GivenUpIn;
  }

  lemma MovedIsReplaced(q: Queue, row: Row, e: Entry)
    requires row.sequence in q.entries && row == Row(KeyTime(q.entries[row.sequence]), row.sequence)
    ensures Moved(q, row, q.entries[row.sequence].status, e, Claims(q.claims, q.entries[row.sequence].acquiredBy, e.acquiredBy, row.sequence))
            == Replaced(q, row.sequence, e)
  {
    hide KeyTime, Claims;
  }

  predicate Working(q: Queue, s: Sequence, claimId: ClaimId) {
    s in q.entries && q.entries[s].status.Processing? && q.entries[s].acquiredBy == Some(claimId)
  }

  /** An index row removed and its entry rewritten into the index of its new state. */
  function Moved(q: Queue, row: Row, from: Status, e: Entry, claims: map<ClaimId, Sequence>): Queue {
    var cleared := SetIndex(q, from, Index(q, from) - {row});
    var moved := SetIndex(cleared, e.status, Index(cleared, e.status) + {Row(KeyTime(e), row.sequence)});
    moved.(entries := q.entries[row.sequence := e], claims := claims)
  }

  function Tried(q: Queue, row: Row, claimId: ClaimId, maxAttempts: nat, now: Millis): Trial {
    if row.sequence !in q.entries || !q.entries[row.sequence].status.Pending? then Gone
    else
      var e := q.entries[row.sequence];
      if e.visibleAt > now then Postponed
      else if e.attempts >= maxAttempts then Exhausted
      else Won(Acquired(e, claimId, now))
  }

  // ---- What a claim takes ----

  /** The order in which entries are claimed. */
  predicate Earlier(entries: map<Sequence, Entry>, s: Sequence, t: Sequence)
    requires s in entries && t in entries
  {
    Row(entries[s].visibleAt, s).Before(Row(entries[t].visibleAt, t))
  }

  /** Of all entries that are due with attempts left, just recovered ones included, the first is taken. */
  lemma TakesLeast(back: Queue, q: Queue, due: seq<Row>, n: nat, r: ClaimResult, claimId: ClaimId, maxAttempts: nat,
                   now: Millis, x: Sequence)
    requires Valid(back) && FirstRows(due, back.pending, now) && n < |due| && AllUsedUp(back, due, n, maxAttempts)
    requires Takes(back, q, due, n, r, claimId, maxAttempts, now)
    requires x in back.entries && Takeable(back.entries[x], maxAttempts, now)
    ensures r.Taken? && r.sequence in back.entries
    ensures x == r.sequence || Earlier(back.entries, r.sequence, x)
  {
    var row := Row(back.entries[x].visibleAt, x);
    assert row in Index(back, Pending) <==> Indexed(back, Pending, row);
    PendingRow(back, due[n]) by { assert due[n] in due; }
    hide Valid;
    if row in due {
      var k :| 0 <= k < |due| && due[k] == row;
      assert k >= n by { assert k < n ==> UsedUp(back, due[k], maxAttempts); }
    }
  }

  /** What is taken was pending and due and had attempts left. Whoever takes it holds its lease from now on and has
      used one more attempt. */
  lemma TakenIsHeld(back: Queue, q: Queue, due: seq<Row>, n: nat, r: ClaimResult, claimId: ClaimId, maxAttempts: nat,
                    now: Millis)
    requires Valid(q) && n < |due| && Takes(back, q, due, n, r, claimId, maxAttempts, now)
    ensures r.Taken? && r.sequence in back.entries && r.sequence in q.entries && q.entries[r.sequence] == r.entry
    ensures claimId in q.claims && q.claims[claimId] == r.sequence && Row(now, r.sequence) in q.locks
    ensures var was := back.entries[r.sequence];
            was.status.Pending? && was.visibleAt <= now && was.attempts < maxAttempts
    ensures var was := back.entries[r.sequence];
            r.entry == Entry(was.id, was.element, was.attempts + 1, Processing, was.visibleAt, Some(now), Some(claimId), now)
  {
    hide GivenUpIn;
    RowIn(q, due[n].sequence);
  }

  /** A claim waits only when no pending entry is due and no lease has run out. */
  lemma WaitsRightly(was: Queue, back: Queue, q: Queue, expired: seq<Row>, due: seq<Row>, n: nat, r: ClaimResult,
                     claimId: ClaimId, maxAttempts: nat, now: Millis, lockExpiration: nat, s: Sequence)
    requires Valid(was) && s in was.entries && r.Waits?
    requires ClaimStep(was, back, q, expired, due, n, r, claimId, maxAttempts, now, lockExpiration)
    ensures q == was
    ensures was.entries[s].status.Pending? ==> was.entries[s].visibleAt > now
    ensures was.entries[s].acquiredAt.Some? ==> was.entries[s].acquiredAt.value > now - lockExpiration
  {
    RowIn(was, s);
    NoneExpired(was.entries, expired, maxAttempts, now);
    assert back.entries == was.entries;
    RowIn(back, s);
    hide Sorted, AllUsedUp;
  }

  lemma NoneExpired(entries: map<Sequence, Entry>, expired: seq<Row>, maxAttempts: nat, now: Millis)
    ensures expired == [] ==> RecoveredIn(entries, expired, maxAttempts, now) == entries
  {
  }

  /** What recovery does to a lease: one that has not run out is left alone, one of the batch that has is
      failed when its attempts are used up and pending at once otherwise, with the attempts it had. */
  lemma RecoveredLease(was: Queue, back: Queue, expired: seq<Row>, maxAttempts: nat, now: Millis, lockExpiration: nat,
                       s: Sequence)
    requires Valid(was) && FirstRows(expired, was.locks, now - lockExpiration) && s in was.entries
    requires back.entries == RecoveredIn(was.entries, expired, maxAttempts, now)
    ensures var e := was.entries[s];
            && s in back.entries
            && (e.acquiredAt.None? || e.acquiredAt.value > now - lockExpiration ==> back.entries[s] == e)
            && (e.acquiredAt.Some? && Row(e.acquiredAt.value, s) in expired ==>
                  back.entries[s] == if e.attempts >= maxAttempts
                    then Entry(e.id, e.element, e.attempts, Failed, e.visibleAt, None, None, now)
                    else Entry(e.id, e.element, e.attempts, Pending, now, None, None, now))
            && (e.acquiredAt.Some? && e.acquiredAt.value <= now - lockExpiration && |expired| < BATCH ==>
                  Row(e.acquiredAt.value, s) in expired)
  {
    if was.entries[s].acquiredAt.Some? { RowIn(was, s); }
    if InRows(expired, s) {
      var i :| 0 <= i < |expired| && expired[i].sequence == s;
      assert expired[i] in expired;
      NotStale(was, expired[i], now - lockExpiration);
    }
    hide Sorted, Named;
    if was.entries[s].acquiredAt.Some? && Row(was.entries[s].acquiredAt.value, s) in expired {
      var i :| 0 <= i < |expired| && expired[i] == Row(was.entries[s].acquiredAt.value, s);
      assert InRows(expired, s);
    }
  }

  // ---- When a claim misses ----

  /** The used-up entries a claim meets before it comes to an entry. */
  ghost function InTheWay(q: Queue, maxAttempts: nat, x: Sequence): set<Sequence>
    requires x in q.entries
  {
    set s | s in q.entries && q.entries[s].status.Pending? && q.entries[s].attempts >= maxAttempts && Earlier(q.entries, s, x)
  }

  /** The entry a claim ought to take. */
  ghost predicate FirstTakeable(q: Queue, maxAttempts: nat, now: Millis, x: Sequence) {
    && x in q.entries && Takeable(q.entries[x], maxAttempts, now)
    && forall y :: y in q.entries && Takeable(q.entries[y], maxAttempts, now) ==> y == x || Earlier(q.entries, x, y)
  }

  lemma {:induction false} SequencesOf(rows: seq<Row>)
    requires forall i, j :: 0 <= i < j < |rows| ==> rows[i].sequence != rows[j].sequence
    ensures |set r | r in rows :: r.sequence| == |rows|
  {
    if rows != [] {
      var front, last := rows[..|rows| - 1], rows[|rows| - 1];
      SequencesOf(front);
      var before, all := set r | r in front :: r.sequence, set r | r in rows :: r.sequence;
      assert rows == front + [last];
      assert all == before + {last.sequence};
      assert last.sequence !in before;
    }
  }

  lemma RowOf(q: Queue, x: Sequence, now: Millis)
    requires Valid(q) && x in q.entries && q.entries[x].status.Pending?
    ensures Row(q.entries[x].visibleAt, x) in q.pending
  {
    assert Row(q.entries[x].visibleAt, x) in Index(q, Pending) <==> Indexed(q, Pending, Row(q.entries[x].visibleAt, x));
  }

  /** A full batch of used-up rows, none of them the entry: all of them are in its way. */
  lemma BatchInTheWay(q: Queue, due: seq<Row>, maxAttempts: nat, now: Millis, x: Sequence)
    requires Valid(q) && FirstRows(due, q.pending, now) && AllUsedUp(q, due, |due|, maxAttempts)
    requires x in q.entries && Takeable(q.entries[x], maxAttempts, now)
    ensures |InTheWay(q, maxAttempts, x)| >= BATCH
  {
    var row, way := Row(q.entries[x].visibleAt, x), InTheWay(q, maxAttempts, x);
    RowOf(q, x, now);
    assert row !in due;
    forall k | 0 <= k < |due| ensures due[k].sequence in way {
      assert due[k] in due && due[k] in q.pending;
      PendingRow(q, due[k]);
      assert UsedUp(q, due[k], maxAttempts);
    }
    forall i, j | 0 <= i < j < |due| ensures due[i].sequence != due[j].sequence {
      PendingApart(q, due, now, i);
    }
    hide Valid, FirstRows;
    SequencesOf(due);
    Fewer(set r | r in due :: r.sequence, way);
  }

  lemma {:induction false} Fewer<T>(a: set<T>, b: set<T>)
    requires a <= b
    ensures |a| <= |b|
  {
    assert b == a + (b - a) && a !! (b - a);
  }

  /** What is in the way of the n-th row stands among the n rows before it. */
  lemma AmongEarlier(q: Queue, due: seq<Row>, maxAttempts: nat, now: Millis, n: nat)
    requires Valid(q) && FirstRows(due, q.pending, now) && n < |due| && due[n].sequence in q.entries
    requires due[n] == Row(q.entries[due[n].sequence].visibleAt, due[n].sequence) && due[n].time <= now
    ensures |InTheWay(q, maxAttempts, due[n].sequence)| <= n
  {
    var way, front := InTheWay(q, maxAttempts, due[n].sequence), due[..n];
    forall s | s in way ensures s in set r | r in front :: r.sequence {
      var row := Row(q.entries[s].visibleAt, s);
      RowOf(q, s, now);
      if row in due {
        var k :| 0 <= k < |due| && due[k] == row;
        assert k < n;
        assert front[k] == row;
      }
      assert row in front;
    }
    forall i, j | 0 <= i < j < |front| ensures front[i].sequence != front[j].sequence {
      PendingApart(q, due, now, i);
    }
    SequencesOf(front);
    Fewer(way, set r | r in front :: r.sequence);
  }

  /** A claim misses the entry it ought to take exactly when a full batch of used-up entries is in its way. */
  lemma MissesExactly(back: Queue, due: seq<Row>, maxAttempts: nat, now: Millis, x: Sequence)
    requires Valid(back) && FirstRows(due, back.pending, now) && FirstTakeable(back, maxAttempts, now, x)
    ensures AllUsedUp(back, due, |due|, maxAttempts) <==> |InTheWay(back, maxAttempts, x)| >= BATCH
  {
    if AllUsedUp(back, due, |due|, maxAttempts) {
      BatchInTheWay(back, due, maxAttempts, now, x);
    } else {
      var n :| 0 <= n < |due| && !UsedUp(back, due[n], maxAttempts);
      assert due[n] in due;
      PendingRow(back, due[n]);
      NotPast(back, due, maxAttempts, now, x, n);
      var row := Row(back.entries[x].visibleAt, x);
      var k :| 0 <= k < |due| && due[k] == row;
      AmongEarlier(back, due, maxAttempts, now, k);
      assert |due| <= BATCH;
    }
  }

  /** The first takeable entry is read if any takeable one is. */
  lemma NotPast(back: Queue, due: seq<Row>, maxAttempts: nat, now: Millis, x: Sequence, n: nat)
    requires Valid(back) && FirstRows(due, back.pending, now) && FirstTakeable(back, maxAttempts, now, x)
    requires n < |due| && due[n].sequence in back.entries && Takeable(back.entries[due[n].sequence], maxAttempts, now)
    requires due[n] == Row(back.entries[due[n].sequence].visibleAt, due[n].sequence)
    ensures Row(back.entries[x].visibleAt, x) in due
  {
    RowOf(back, x, now);
    var row := Row(back.entries[x].visibleAt, x);
    assert row == due[n] || row.Before(due[n]);
  }

  /** What one fixed limit keeps: no pending entry is used up. */
  ghost predicate NoneUsedUp(q: Queue, maxAttempts: nat) {
    forall s :: s in q.entries && q.entries[s].status.Pending? ==> q.entries[s].attempts < maxAttempts
  }

  /** Then a claim that takes nothing had nothing to take. */
  lemma NeverMisses(back: Queue, due: seq<Row>, maxAttempts: nat, now: Millis)
    requires Valid(back) && FirstRows(due, back.pending, now) && NoneUsedUp(back, maxAttempts)
    requires AllUsedUp(back, due, |due|, maxAttempts)
    ensures due == [] && forall x :: x in back.entries ==> !Takeable(back.entries[x], maxAttempts, now)
  {
    FirstRowIn(due, back.pending, now);
    if due != [] {
      PendingRow(back, due[0]);
    }
    forall x | x in back.entries ensures !Takeable(back.entries[x], maxAttempts, now) {
      if Takeable(back.entries[x], maxAttempts, now) { RowOf(back, x, now); }
    }
  }

  lemma OfferLeavesNone(q: Queue, id: Id, element: Element, now: Millis, maxAttempts: nat)
    requires NoneUsedUp(q, maxAttempts) && maxAttempts >= 1
    ensures NoneUsedUp(Offered(q, id, element, now), maxAttempts)
  {
  }

  lemma RefreshLeavesNone(q: Queue, s: Sequence, claimId: ClaimId, now: Millis, maxAttempts: nat)
    requires NoneUsedUp(q, maxAttempts)
    ensures NoneUsedUp(Refreshed(q, s, claimId, now), maxAttempts)
  {
    if Holds(q, s, claimId) {
      ReplaceFields(q, s, q.entries[s].(acquiredAt := Some(now)));
      hide Replaced;
    }
  }

  /** A holder settles with the attempts its own entry has. */
  lemma FinalizeLeavesNone(q: Queue, s: Sequence, claimId: ClaimId, maxAttempts: nat, exit: Exit, now: Millis)
    requires NoneUsedUp(q, maxAttempts) && Bounded(q, maxAttempts) && maxAttempts >= 1 && s in q.entries
    ensures NoneUsedUp(Finalized(q, s, claimId, q.entries[s].attempts, maxAttempts, exit, now), maxAttempts)
    ensures Bounded(Finalized(q, s, claimId, q.entries[s].attempts, maxAttempts, exit, now), maxAttempts)
  {
    FinalizeBounded(q, s, claimId, q.entries[s].attempts, maxAttempts, exit, now, maxAttempts);
    if Holds(q, s, claimId) {
      ReplaceFields(q, s, Settled(q.entries[s], q.entries[s].attempts, maxAttempts, exit, now));
      hide Replaced;
    }
  }

  lemma RecoverLeavesNone(was: Queue, back: Queue, expired: seq<Row>, maxAttempts: nat, now: Millis)
    requires NoneUsedUp(was, maxAttempts) && back.entries == RecoveredIn(was.entries, expired, maxAttempts, now)
    ensures NoneUsedUp(back, maxAttempts)
  {
    hide InRows;
  }

  /** A claim as a whole: what was there before it, what recovery left, and what it left. */
  lemma ClaimLeavesNone(was: Queue, back: Queue, q: Queue, expired: seq<Row>, due: seq<Row>, n: nat, r: ClaimResult,
                        claimId: ClaimId, maxAttempts: nat, now: Millis)
    requires NoneUsedUp(was, maxAttempts) && back.entries == RecoveredIn(was.entries, expired, maxAttempts, now)
    requires q.entries == GivenUpIn(back.entries, due, now) || (n < |due| && Takes(back, q, due, n, r, claimId, maxAttempts, now))
    ensures NoneUsedUp(q, maxAttempts)
  {
    RecoverLeavesNone(was, back, expired, maxAttempts, now);
    hide InRows, RecoveredIn;
  }

  lemma CleanupLeavesNone(q: Queue, r: Queue, status: Status, cutoff: int, maxAttempts: nat)
    requires NoneUsedUp(q, maxAttempts) && Bounded(q, maxAttempts) && r.entries == Remaining(q.entries, status, cutoff)
    ensures NoneUsedUp(r, maxAttempts) && Bounded(r, maxAttempts)
  {
  }

  // ---- Runs with one fixed limit ----

  datatype Action =
    | Offering(id: Id, element: Element, now: Millis)
    | Claiming(claimId: ClaimId, now: Millis, lockExpiration: nat)
    | Refreshing(sequence: Sequence, claimId: ClaimId, now: Millis)
    | Settling(sequence: Sequence, claimId: ClaimId, exit: Exit, now: Millis)
    | Discarding(status: Status, cutoff: int)

  /** One committed transaction. Whoever settles a lease knows the attempts of the entry it claimed. */
  ghost predicate Acts(q: Queue, r: Queue, action: Action, maxAttempts: nat) {
    match action
    case Offering(id, element, now) => r == Offered(q, id, element, now)
    case Claiming(claimId, now, lockExpiration) => Valid(r) && (r == q || ClaimActs(q, r, claimId, maxAttempts, now, lockExpiration))
    case Refreshing(s, claimId, now) => r == Refreshed(q, s, claimId, now)
    case Settling(s, claimId, exit, now) =>
      r == if s in q.entries then Finalized(q, s, claimId, q.entries[s].attempts, maxAttempts, exit, now) else q
    case Discarding(status, cutoff) => Valid(r) && r.entries == Remaining(q.entries, status, cutoff)
  }

  ghost predicate ClaimActs(q: Queue, r: Queue, claimId: ClaimId, maxAttempts: nat, now: Millis, lockExpiration: nat) {
    exists back, expired, due, n, result :: ClaimStep(q, back, r, expired, due, n, result, claimId, maxAttempts, now, lockExpiration)
  }

  ghost predicate Run(queues: seq<Queue>, actions: seq<Action>, maxAttempts: nat) {
    && |queues| == |actions| + 1 && queues[0] == EMPTY
    && forall i :: 0 <= i < |actions| ==> Acts(queues[i], queues[i + 1], actions[i], maxAttempts)
  }

  ghost predicate InLimit(q: Queue, maxAttempts: nat) {
    Valid(q) && Bounded(q, maxAttempts) && NoneUsedUp(q, maxAttempts)
  }

  /** Every state of every run has its entries, indexes, claims and ids in step, no entry over the limit and no
      pending entry at it. */
  lemma {:induction false} LimitOverRuns(queues: seq<Queue>, actions: seq<Action>, maxAttempts: nat, k: nat)
    requires Run(queues, actions, maxAttempts) && maxAttempts >= 1 && k < |queues|
    ensures InLimit(queues[k], maxAttempts)
  {
    if k > 0 {
      LimitOverRuns(queues, actions, maxAttempts, k - 1);
      assert Acts(queues[k - 1], queues[k], actions[k - 1], maxAttempts);
      hide *;
      ActKeepsLimit(queues[k - 1], queues[k], actions[k - 1], maxAttempts);
    }
  }

  lemma ActKeepsLimit(q: Queue, r: Queue, action: Action, maxAttempts: nat)
    requires InLimit(q, maxAttempts) && maxAttempts >= 1 && Acts(q, r, action, maxAttempts)
    ensures InLimit(r, maxAttempts)
  {
    hide Valid, Bounded, NoneUsedUp, ClaimStep, Offered, Refreshed, Finalized, Remaining;
    match action {
      case Offering(id, element, now) =>
        OfferKeeps(q, id, element, now);
        OfferLeavesNone(q, id, element, now, maxAttempts);
      case Claiming(claimId, now, lockExpiration) =>
        if r != q {
          var back, expired, due, n, result :|
            ClaimStep(q, back, r, expired, due, n, result, claimId, maxAttempts, now, lockExpiration);
          ClaimInLimit(q, back, r, expired, due, n, result, claimId, maxAttempts, now, lockExpiration);
        }
      case Refreshing(s, claimId, now) =>
        RefreshKeeps(q, s, claimId, now);
        RefreshLeavesNone(q, s, claimId, now, maxAttempts);
      case Settling(s, claimId, exit, now) =>
        if s in q.entries {
          FinalizeKeeps(q, s, claimId, q.entries[s].attempts, maxAttempts, exit, now);
          FinalizeLeavesNone(q, s, claimId, maxAttempts, exit, now);
        }
      case Discarding(status, cutoff) =>
        CleanupLeavesNone(q, r, status, cutoff, maxAttempts);
    }
  }

  /** No transaction changes what was offered, or under which id. */
  lemma ElementKept(q: Queue, r: Queue, action: Action, maxAttempts: nat, s: Sequence)
    requires Valid(q) && Acts(q, r, action, maxAttempts) && s in q.entries && s in r.entries
    ensures r.entries[s].id == q.entries[s].id && r.entries[s].element == q.entries[s].element
  {
    hide Valid, FirstRows, AllUsedUp, AttemptsLeft, InRows;
    match action {
      case Offering(_, _, _) => NewSequence(q);
      case Claiming(_, _, _) =>
      case Refreshing(t, claimId, now) =>
        if Holds(q, t, claimId) { ReplaceFields(q, t, q.entries[t].(acquiredAt := Some(now))); }
        hide Replaced;
      case Settling(t, claimId, exit, now) =>
        if Holds(q, t, claimId) { ReplaceFields(q, t, Settled(q.entries[t], q.entries[t].attempts, maxAttempts, exit, now)); }
        hide Replaced;
      case Discarding(_, _) =>
    }
  }

  lemma NewSequence(q: Queue)
    requires Valid(q)
    ensures q.counter !in q.entries
  {
    hide Sorted;
  }

  /** Whatever makes an entry pending wakes those who wait for one. */
  lemma PendingWakes(q: Queue, r: Queue, action: Action, maxAttempts: nat, s: Sequence)
    requires Valid(q) && Acts(q, r, action, maxAttempts)
    ensures IsPending(r, s) && !IsPending(q, s) ==> r.signal > q.signal
  {
    hide Valid, ClaimStep;
    match action {
      case Offering(_, _, _) =>
      case Claiming(claimId, now, lockExpiration) =>
        if r != q {
          var back, expired, due, n, result :|
            ClaimStep(q, back, r, expired, due, n, result, claimId, maxAttempts, now, lockExpiration);
          RecoveryWakes(q, back, r, expired, due, n, result, claimId, maxAttempts, now, lockExpiration, s);
        }
      case Refreshing(t, claimId, now) =>
        if Holds(q, t, claimId) { ReplaceFields(q, t, q.entries[t].(acquiredAt := Some(now))); }
        hide Replaced;
      case Settling(t, claimId, exit, now) =>
        if t in q.entries { SettlingWakes(q, t, claimId, maxAttempts, exit, now, s); }
        hide Finalized;
      case Discarding(_, _) =>
    }
  }

  predicate IsPending(q: Queue, s: Sequence) {
    s in q.entries && q.entries[s].status.Pending?
  }

  lemma SettlingWakes(q: Queue, t: Sequence, claimId: ClaimId, maxAttempts: nat, exit: Exit, now: Millis, s: Sequence)
    requires t in q.entries
    ensures var r := Finalized(q, t, claimId, q.entries[t].attempts, maxAttempts, exit, now);
            IsPending(r, s) && !IsPending(q, s) ==> r.signal > q.signal
  {
    if Holds(q, t, claimId) {
      var e := Settled(q.entries[t], q.entries[t].attempts, maxAttempts, exit, now);
      ReplaceFields(q, t, e);
      hide Replaced, Settled;
    }
  }

  lemma RecoveryWakes(was: Queue, back: Queue, q: Queue, expired: seq<Row>, due: seq<Row>, n: nat, r: ClaimResult,
                      claimId: ClaimId, maxAttempts: nat, now: Millis, lockExpiration: nat, s: Sequence)
    requires ClaimStep(was, back, q, expired, due, n, r, claimId, maxAttempts, now, lockExpiration)
    ensures IsPending(q, s) && !IsPending(was, s) ==> q.signal > was.signal
  {
    hide Valid, FirstRows, AllUsedUp;
    if IsPending(q, s) && !IsPending(was, s) {
      assert r.Waits? ==> q == was;
      assert IsPending(back, s);
      var i :| 0 <= i < |expired| && expired[i].sequence == s;
      assert !UsedUp(was, expired[i], maxAttempts);
    }
  }

  lemma ClaimInLimit(was: Queue, back: Queue, q: Queue, expired: seq<Row>, due: seq<Row>, n: nat, r: ClaimResult,
                     claimId: ClaimId, maxAttempts: nat, now: Millis, lockExpiration: nat)
    requires ClaimStep(was, back, q, expired, due, n, r, claimId, maxAttempts, now, lockExpiration)
    requires Bounded(was, maxAttempts) && NoneUsedUp(was, maxAttempts)
    ensures Bounded(q, maxAttempts) && NoneUsedUp(q, maxAttempts)
  {
    hide Valid, FirstRows, AllUsedUp, Bounded, NoneUsedUp, Takes, RecoveredIn;
    if !r.Waits? {
      ClaimBounded(was, back, q, expired, due, n, r, claimId, maxAttempts, now);
      ClaimLeavesNone(was, back, q, expired, due, n, r, claimId, maxAttempts, now);
    }
  }

  /** So with one fixed limit a claim that takes nothing, at any point of any run, had nothing to take. */
  lemma NeverMissesInRuns(queues: seq<Queue>, actions: seq<Action>, maxAttempts: nat, k: nat,
                          back: Queue, q: Queue, expired: seq<Row>, due: seq<Row>, n: nat, r: ClaimResult,
                          claimId: ClaimId, now: Millis, lockExpiration: nat)
    requires Run(queues, actions, maxAttempts) && maxAttempts >= 1 && k < |queues|
    requires ClaimStep(queues[k], back, q, expired, due, n, r, claimId, maxAttempts, now, lockExpiration) && !r.Taken?
    ensures due == [] && forall x :: x in back.entries ==> !Takeable(back.entries[x], maxAttempts, now)
  {
    LimitOverRuns(queues, actions, maxAttempts, k);
    RecoverLeavesNone(queues[k], back, expired, maxAttempts, now);
    hide Valid, FirstRows, AllUsedUp, NoneUsedUp, Takes, RecoveredIn, Run;
    NeverMisses(back, due, maxAttempts, now);
  }

  // ---- A queue a claim misses in ----

  /** A different name for each number: its length tells which. */
  function Name(s: nat): Id {
    seq(s, i => 'x')
  }

  function Below(n: nat): (r: set<nat>)
    ensures forall s: nat :: s in r <==> s < n
  {
    if n == 0 then {} else Below(n - 1) + {n - 1}
  }

  function Waiting(s: nat, attempts: nat): Entry {
    Entry(Name(s), "", attempts, Pending, 0, None, None, 0)
  }

  /** A batch of entries with one attempt behind them, and one with none after them. */
  function Jam(): Queue {
    var all := Below(BATCH + 1);
    Queue(map s | s in all :: Waiting(s, if s < BATCH then 1 else 0), map i | i in (set s | s in all :: Name(s)) :: |i|, map[],
          set s | s in all :: Row(0, s), {}, {}, {}, BATCH + 1, 0)
  }

  lemma JamEntry(s: nat)
    ensures s in Jam().entries <==> s <= BATCH
    ensures s <= BATCH ==> Jam().entries[s] == Waiting(s, if s < BATCH then 1 else 0)
    ensures s <= BATCH ==> Name(s) in Jam().ids && Jam().ids[Name(s)] == s
  {
    assert |Name(s)| == s;
    if s in Below(BATCH + 1) { assert Name(s) in (set t | t in Below(BATCH + 1) :: Name(t)); }
  }

  lemma JamIsValid()
    ensures Valid(Jam())
  {
    var q := Jam();
    forall s: nat ensures s in q.entries <==> s <= BATCH { JamEntry(s); }
    forall s | s in q.entries
      ensures q.entries[s] == Waiting(s, if s < BATCH then 1 else 0) && Name(s) in q.ids && q.ids[Name(s)] == s
    {
      JamEntry(s);
    }
    forall i | i in q.ids ensures q.ids[i] in q.entries && q.entries[q.ids[i]].id == i {
      JamEntry(|i|);
    }
    hide Jam, Name;
    assert Named(q);
    JamSorted();
  }

  lemma JamSorted()
    ensures Sorted(Jam())
  {
    var q := Jam();
    forall status, row ensures row in Index(q, status) <==> Indexed(q, status, row) { JamEntry(row.sequence); }
  }

  /** With the limit lowered to one attempt, all rows a claim reads are of used-up entries, though the last
      entry could be taken. */
  lemma JamMissed(back: Queue, due: seq<Row>, now: Millis)
    requires Valid(back) && back.entries == Jam().entries && FirstRows(due, back.pending, now)
    ensures FirstTakeable(back, 1, now, BATCH) && AllUsedUp(back, due, |due|, 1)
  {
    JamEntry(BATCH);
    forall y | y in back.entries && Takeable(back.entries[y], 1, now) ensures y == BATCH { JamEntry(y); }
    var way := InTheWay(back, 1, BATCH);
    var rows := seq(BATCH, i requires 0 <= i < BATCH => Row(0, i));
    SequencesOf(rows);
    forall s | s in set r | r in rows :: r.sequence ensures s in way { JamEntry(s); }
    Fewer(set r | r in rows :: r.sequence, way);
    hide Jam, Valid, FirstRows;
    MissesExactly(back, due, 1, now, BATCH);
  }

  /** The claim itself: it reports progress and takes nothing. */
  method JamClaimed(p: PersistedQueue, claimId: ClaimId, now: Millis, lockExpiration: nat) returns (r: ClaimResult)
    requires p.q == Jam()
    modifies p
    ensures r == Progressed
    ensures Valid(Jam()) && FirstTakeable(Jam(), 1, now, BATCH)
  {
    JamIsValid();
    ghost var back, expired, due, n;
    JamUnclaimed(claimId);
    hide *;
    r, back, expired, due, n := p.Claim(claimId, 1, now, lockExpiration);
    JamUntaken(p.q, back, expired, due, n, r, claimId, now, lockExpiration);
  }

  lemma JamUnclaimed(claimId: ClaimId)
    ensures claimId !in Jam().claims && Jam().locks == {}
  {
  }

  lemma FirstRowIn(rows: seq<Row>, index: set<Row>, upTo: int)
    requires FirstRows(rows, index, upTo)
    ensures rows == [] || rows[0] in index
  {
    if rows != [] { assert rows[0] in rows; }
  }

  lemma JamUntaken(q: Queue, back: Queue, expired: seq<Row>, due: seq<Row>, n: nat, r: ClaimResult, claimId: ClaimId,
                   now: Millis, lockExpiration: nat)
    requires ClaimStep(Jam(), back, q, expired, due, n, r, claimId, 1, now, lockExpiration)
    ensures FirstTakeable(Jam(), 1, now, BATCH) && r == Progressed
  {
    JamUnclaimed(claimId);
    FirstRowIn(expired, Jam().locks, now - lockExpiration);
    hide Jam;
    JamMissed(back, due, now);
    RowOf(back, BATCH, now);
    hide FirstRows, Valid;
    assert forall k :: 0 <= k < |due| ==> UsedUp(back, due[k], 1);
  }

  /** With one fixed limit attempts never exceed it: recovering and giving up add none, taking adds one
      to an entry below the limit. */
  lemma ClaimBounded(was: Queue, back: Queue, q: Queue, expired: seq<Row>, due: seq<Row>, n: nat, r: ClaimResult,
                     claimId: ClaimId, maxAttempts: nat, now: Millis)
    requires Bounded(was, maxAttempts) && back.entries == RecoveredIn(was.entries, expired, maxAttempts, now)
    requires q.entries == GivenUpIn(back.entries, due, now) || (n < |due| && Takes(back, q, due, n, r, claimId, maxAttempts, now))
    ensures Bounded(q, maxAttempts)
  {
    hide InRows;
    assert Bounded(back, maxAttempts);
  }

  // ---- Cleaning up ----

  function Dropped(q: Queue, s: Sequence, status: Status): Queue
    requires s in q.entries
  {
    SetIndex(q, status, Index(q, status) - {Row(KeyTime(q.entries[s]), s)})
      .(entries := q.entries - {s}, ids := q.ids - {q.entries[s].id})
  }

  lemma DropKeeps(q: Queue, s: Sequence)
    requires Valid(q) && s in q.entries && !q.entries[s].status.Processing?
    ensures Valid(Dropped(q, s, q.entries[s].status))
  {
    var r := Dropped(q, s, q.entries[s].status);
    forall status, row ensures row in Index(r, status) <==> Indexed(r, status, row) {
      assert row in Index(q, status) <==> Indexed(q, status, row);
    }
    DropNamed(q, s);
    hide Dropped;
  }

  lemma DropNamed(q: Queue, s: Sequence)
    requires Named(q) && s in q.entries && !q.entries[s].status.Processing?
    ensures Named(Dropped(q, s, q.entries[s].status))
  {
    hide KeyTime;
    var r := Dropped(q, s, q.entries[s].status);
    SetIndexFields(q, q.entries[s].status, Index(q, q.entries[s].status) - {Row(KeyTime(q.entries[s]), s)});
    assert r.entries == q.entries - {s} && r.ids == q.ids - {q.entries[s].id} && r.claims == q.claims && r.counter == q.counter;
    hide Dropped, SetIndex, Index;
  }

  /** Replaying a claim that took an entry, however much later, takes the same entry and changes nothing. */
  method ClaimReplayed(p: PersistedQueue, claimId: ClaimId, maxAttempts: nat, now: Millis, later: Millis,
                       lockExpiration: nat)
    returns (first: ClaimResult, second: ClaimResult, ghost committed: Queue)
    requires Valid(p.q)
    modifies p
    ensures Valid(p.q) && Valid(committed)
    ensures first.Taken? ==> second == first && p.q == committed
  {
    hide Valid, FirstRows, AllUsedUp, Acquired, GivenUpIn, RecoveredIn;
    ghost var back, expired, due, n;
    first, back, expired, due, n := p.Claim(claimId, maxAttempts, now, lockExpiration);
    committed := p.q;
    second, back, expired, due, n := p.Claim(claimId, maxAttempts, later, lockExpiration);
  }
}
