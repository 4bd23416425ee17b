/** The event journal's outgoing cursor: entries in commit order, acknowledgements per remote, and
    transactions that run on a snapshot while other writers commit. */
module Journal {
  import opened Wrappers

  type Id = nat
  type Remote = nat

  // ---- The store ----

  datatype Stamp = Stamp(version: nat, ordinal: nat) {
    predicate Before(other: Stamp) {
      version < other.version || (version == other.version && ordinal < other.ordinal)
    }
  }

  /** An entry in the inserted index. */
  datatype Row = Row(stamp: Stamp, id: Id)

  datatype Db = Db(rows: seq<Row>, entries: set<Id>, acks: set<(Remote, Id)>, sentAfter: map<Remote, Stamp>)

  datatype Op =
    | Append(ordinal: nat, id: Id)
    | Enter(id: Id)
    | Ack(remote: Remote, id: Id)
    | Advance(remote: Remote, cursor: Stamp)
    | Destroy

  /** A mutation applied at a version; an appended row takes that version in its stamp. */
  function Apply(op: Op, db: Db, v: nat): Db {
    match op
    case Append(ordinal, id) => db.(rows := db.rows + [Row(Stamp(v, ordinal), id)])
    case Enter(id) => db.(entries := db.entries + {id})
    case Ack(remote, id) => db.(acks := db.acks + {(remote, id)})
    case Advance(remote, cursor) => db.(sentAfter := db.sentAfter[remote := cursor])
    case Destroy => Db([], {}, {}, map[])
  }

  function ApplyAll(log: seq<Op>, db: Db, v: nat): Db {
    if log == [] then db else Apply(log[|log| - 1], ApplyAll(log[..|log| - 1], db, v), v)
  }

  lemma ApplySnoc(log: seq<Op>, op: Op, db: Db, v: nat)
    ensures ApplyAll(log + [op], db, v) == Apply(op, ApplyAll(log, db, v), v)
  {
    assert (log + [op])[..|log|] == log;
  }

  function Ids(rows: seq<Row>): seq<Id> {
    seq(|rows|, i requires 0 <= i < |rows| => rows[i].id)
  }

  ghost predicate Distinct<T>(s: seq<T>) {
    forall i, j :: 0 <= i < j < |s| ==> s[i] != s[j]
  }

  ghost predicate Sorted(rows: seq<Row>) {
    forall i, j :: 0 <= i < j < |rows| ==> rows[i].stamp.Before(rows[j].stamp)
  }

  /** Everything at or below a cursor is acknowledged for the remote. */
  ghost predicate Acked(rows: seq<Row>, acks: set<(Remote, Id)>, remote: Remote, cursor: Stamp) {
    forall row :: row in rows && !cursor.Before(row.stamp) ==> (remote, row.id) in acks
  }

  /** Rows in commit order, one for each entry; cursors no later than a version, and nothing at or
      below a cursor left unacknowledged. */
  ghost predicate Sound(db: Db, rowsUpTo: nat, cursorsUpTo: nat) {
    && Sorted(db.rows) && Distinct(Ids(db.rows))
    && (forall row :: row in db.rows ==> row.stamp.version <= rowsUpTo && row.id in db.entries)
    && (forall id :: id in db.entries ==> id in Ids(db.rows))
    && forall r :: r in db.sentAfter ==>
         db.sentAfter[r].version <= cursorsUpTo && Acked(db.rows, db.acks, r, db.sentAfter[r])
  }

  // ---- Reading what was not sent ----

  /** The rows after a cursor that were committed by a version. */
  function Between(rows: seq<Row>, after: Option<Stamp>, upTo: nat): seq<Row> {
    if rows == [] then []
    else (if (after.Some? ==> after.value.Before(rows[0].stamp)) && rows[0].stamp.version <= upTo then [rows[0]] else [])
         + Between(rows[1..], after, upTo)
  }

  function Page(rows: seq<Row>, after: Option<Stamp>, upTo: nat, size: nat): seq<Row> {
    var all := Between(rows, after, upTo);
    if |all| <= size then all else all[..size]
  }

  lemma {:induction false} BetweenIn(rows: seq<Row>, after: Option<Stamp>, upTo: nat)
    ensures forall row :: row in Between(rows, after, upTo) <==>
              row in rows && (after.Some? ==> after.value.Before(row.stamp)) && row.stamp.version <= upTo
    ensures Sorted(rows) ==> Sorted(Between(rows, after, upTo))
  {
    if rows != [] {
      BetweenIn(rows[1..], after, upTo);
      assert rows == [rows[0]] + rows[1..];
      if Sorted(rows) { SortedFirst(rows, Between(rows[1..], after, upTo)); }
    }
  }

  lemma SortedFirst(rows: seq<Row>, some: seq<Row>)
    requires rows != [] && Sorted(rows) && (forall row :: row in some ==> row in rows[1..])
    ensures Sorted(rows[1..]) && (Sorted(some) ==> Sorted([rows[0]] + some) && Sorted([] + some))
  {
    assert forall i :: 0 <= i < |rows[1..]| ==> rows[1..][i] == rows[i + 1];
    forall i | 0 <= i < |some| ensures rows[0].stamp.Before(some[i].stamp) {
      assert some[i] in rows[1..];
    }
    assert [] + some == some;
  }

  /** Rows after a row already read are the rest of what was to be read. */
  lemma {:induction false} BetweenLater(rows: seq<Row>, after: Option<Stamp>, upTo: nat, k: nat)
    requires Sorted(rows) && 0 < k <= |Between(rows, after, upTo)|
    ensures Between(rows, Some(Between(rows, after, upTo)[k - 1].stamp), upTo) == Between(rows, after, upTo)[k..]
  {
    BetweenIn(rows, after, upTo);
    BetweenCut(rows, after, Between(rows, after, upTo)[k - 1].stamp, upTo);
    var all := Between(rows, after, upTo);
    CutAt(all, k);
  }

  /** Those of the rows that come after a stamp. */
  function Cut(rows: seq<Row>, stamp: Stamp): seq<Row> {
    if rows == [] then [] else (if stamp.Before(rows[0].stamp) then [rows[0]] else []) + Cut(rows[1..], stamp)
  }

  lemma {:induction false} BetweenCut(rows: seq<Row>, after: Option<Stamp>, stamp: Stamp, upTo: nat)
    requires after.Some? ==> after.value.Before(stamp)
    ensures Between(rows, Some(stamp), upTo) == Cut(Between(rows, after, upTo), stamp)
  {
    if rows != [] {
      BetweenCut(rows[1..], after, stamp, upTo);
      var rest := Between(rows[1..], after, upTo);
      assert ([rows[0]] + rest)[1..] == rest;
      assert [] + rest == rest;
    }
  }

  lemma {:induction false} CutAt(all: seq<Row>, k: nat)
    requires Sorted(all) && 0 < k <= |all|
    ensures Cut(all, all[k - 1].stamp) == all[k..]
  {
    if k == 1 {
      CutNone(all[1..], all[0].stamp);
      assert [] + Cut(all[1..], all[0].stamp) == Cut(all[1..], all[0].stamp);
    } else {
      CutAt(all[1..], k - 1);
      assert all[1..][k - 2] == all[k - 1];
      assert all[1..][k - 1..] == all[k..];
      assert [] + Cut(all[1..], all[k - 1].stamp) == Cut(all[1..], all[k - 1].stamp);
    }
  }

  lemma {:induction false} CutNone(rows: seq<Row>, stamp: Stamp)
    requires forall row :: row in rows ==> stamp.Before(row.stamp)
    ensures Cut(rows, stamp) == rows
  {
    if rows != [] {
      CutNone(rows[1..], stamp);
      assert rows == [rows[0]] + rows[1..];
    }
  }

  /** Reads the committed rows after a cursor page by page; the new cursor is the last row read. */
  method Unsent(rows: seq<Row>, after: Option<Stamp>, upTo: nat, pageSize: nat)
    returns (read: seq<Row>, cursor: Option<Stamp>)
    requires Sorted(rows) && pageSize > 0
    ensures read == Between(rows, after, upTo)
    ensures cursor == if read == [] then None else Some(read[|read| - 1].stamp)
  {
    hide *;
    ghost var all := Between(rows, after, upTo);
    var begin := after;
    read, cursor := [], None;
    assert all[0..] == all && all[..0] == [];
    while true
      invariant |read| <= |all| && read == all[..|read|] && Between(rows, begin, upTo) == all[|read|..]
      invariant cursor == if read == [] then None else Some(read[|read| - 1].stamp)
      decreases |all| - |read|
    {
      var page := Page(rows, begin, upTo, pageSize);
      PageReads(rows, after, begin, upTo, pageSize, |read|);
      read := read + page;
      if page != [] { cursor := Some(page[|page| - 1].stamp); }
      if |page| < pageSize { return; }
      begin := cursor;
    }
  }

  /** The last of the committed rows after a stored cursor, if there is one. */
  ghost predicate LastCommitted(rows: seq<Row>, after: Option<Stamp>, upTo: nat, cursor: Option<Stamp>) {
    && (forall row :: row in rows && row.stamp.version <= upTo && (after.Some? ==> after.value.Before(row.stamp)) ==>
          cursor.Some? && !cursor.value.Before(row.stamp))
    && (cursor.Some? && after.Some? ==> after.value.Before(cursor.value))
    && (cursor.Some? ==> exists row :: row in rows && row.stamp == cursor.value && row.stamp.version <= upTo)
  }

  lemma LastOfRead(rows: seq<Row>, after: Option<Stamp>, upTo: nat)
    requires Sorted(rows)
    ensures var read := Between(rows, after, upTo);
            LastCommitted(rows, after, upTo, if read == [] then None else Some(read[|read| - 1].stamp))
  {
    BetweenIn(rows, after, upTo);
    hide Between;
    var read := Between(rows, after, upTo);
    if read != [] {
      var last := read[|read| - 1];
      assert last in read;
      forall row | row in read ensures !last.stamp.Before(row.stamp) {
        var i :| 0 <= i < |read| && read[i] == row;
      }
    }
  }

  /** Once the cursor has moved there, no scan reads any of those rows again. */
  lemma NotReadAgain(rows: seq<Row>, after: Option<Stamp>, upTo: nat, cursor: Option<Stamp>)
    requires LastCommitted(rows, after, upTo, cursor)
    ensures Between(rows, if cursor.Some? then cursor else after, upTo) == []
  {
    var next := if cursor.Some? then cursor else after;
    BetweenIn(rows, next, upTo);
    hide Between;
    var left := Between(rows, next, upTo);
    assert forall row :: row !in left;
    SomeIn(left);
  }

  lemma SomeIn<T(!new)>(s: seq<T>)
    ensures s == [] || exists x :: x in s
  {
    if s != [] { assert s[0] in s; }
  }

  lemma PageReads(rows: seq<Row>, after: Option<Stamp>, begin: Option<Stamp>, upTo: nat, pageSize: nat, n: nat)
    requires Sorted(rows) && pageSize > 0
    requires n <= |Between(rows, after, upTo)| && Between(rows, begin, upTo) == Between(rows, after, upTo)[n..]
    ensures var all, page := Between(rows, after, upTo), Page(rows, begin, upTo, pageSize);
            && n + |page| <= |all| && all[..n] + page == all[..n + |page|]
            && (page != [] ==> page[|page| - 1] == all[n + |page| - 1]
                               && Between(rows, Some(page[|page| - 1].stamp), upTo) == all[n + |page|..])
            && (|page| < pageSize ==> n + |page| == |all| && all[..|all|] == all)
  {
    var all, page := Between(rows, after, upTo), Page(rows, begin, upTo, pageSize);
    if page != [] { BetweenLater(rows, after, upTo, n + |page|); }
  }

  // ---- One transaction ----

  datatype Key = SentKey(remote: Remote) | AckKey(remote: Remote, id: Id) | EntryKey(id: Id)

  predicate Touches(op: Op, key: Key) {
    match op
    case Append(_, _) => false
    case Enter(id) => key == EntryKey(id)
    case Ack(remote, id) => key == AckKey(remote, id)
    case Advance(remote, _) => key == SentKey(remote)
    case Destroy => true
  }

  predicate Wrote(log: seq<Op>, key: Key) {
    exists k :: 0 <= k < |log| && Touches(log[k], key)
  }

  function Destroys(log: seq<Op>): nat {
    if log == [] then 0 else Destroys(log[..|log| - 1]) + if log[|log| - 1].Destroy? then 1 else 0
  }

  lemma DestroysSnoc(log: seq<Op>, op: Op)
    ensures Destroys(log + [op]) == Destroys(log) + if op.Destroy? then 1 else 0
  {
    assert (log + [op])[..|log|] == log;
  }

  /** What a callback is being shown, and the cursor to store once it returns. */
  datatype Collected = Collected(remote: Remote, ids: seq<Id>, cursor: Option<Stamp>, destroyed: nat)

  /** An entry shown to a callback that returned, after so many destroys of the same transaction. */
  datatype Delivery = Delivery(remote: Remote, id: Id, destroyed: nat)

  /** A transaction's own reads, writes and bookkeeping. Own ids are those it made itself; reentered
      tells whether a callback asked again for the remote it was called for. */
  datatype Body = Body(view: Db, log: seq<Op>, readKeys: set<Key>, pending: seq<Id>, next: nat,
                       open: seq<Collected>, delivered: seq<Delivery>, received: set<(Remote, Id)>,
                       own: set<Id>, reentered: bool)

  function Do(b: Body, op: Op, v: nat): Body {
    b.(view := Apply(op, b.view, v), log := b.log + [op])
  }

  /** A read conflicts unless the transaction wrote the key itself. */
  function Noted(b: Body, key: Key): Body {
    if Wrote(b.log, key) then b else b.(readKeys := b.readKeys + {key})
  }

  /** Reads see the snapshot and the transaction's own writes; its own rows come last. */
  ghost predicate Viewed(b: Body, snapshot: Db, seen: nat) {
    && Sound(snapshot, seen, seen) && b.view == ApplyAll(b.log, snapshot, seen + 1)
    && Sound(b.view, seen + 1, seen)
    && OwnLast(b.view.rows, if Destroys(b.log) == 0 then snapshot.rows else [], b.pending, seen + 1, b.next)
  }

  /** Rows read from the snapshot, then the transaction's own at its version to be. */
  ghost predicate OwnLast(rows: seq<Row>, base: seq<Row>, pending: seq<Id>, v: nat, next: nat) {
    && |rows| == |base| + |pending| && rows[..|base|] == base
    && forall i :: 0 <= i < |pending| ==>
         var row := rows[|base| + i];
         row.id == pending[i] && row.stamp.version == v && row.stamp.ordinal < next
  }

  /** Every write that depends on a read is protected by a read conflict. */
  ghost predicate Guarded(b: Body, snapshot: Db) {
    && (forall r: Remote, c: Stamp :: Advance(r, c) in b.log && Destroys(b.log) == 0 ==> SentKey(r) in b.readKeys)
    && (forall id: Id :: Enter(id) in b.log && Destroys(b.log) == 0 ==>
          id !in snapshot.entries && (EntryKey(id) in b.readKeys || id in b.own))
    && (forall x :: x in b.delivered && x.destroyed == 0 ==> FirstTime(b, snapshot, x.remote, x.id))
  }

  ghost predicate FirstTime(b: Body, snapshot: Db, remote: Remote, id: Id) {
    SentKey(remote) in b.readKeys && AckKey(remote, id) in b.readKeys && (remote, id) !in snapshot.acks
  }

  /** Acknowledged means delivered to the remote or received from it; nothing is delivered twice. */
  ghost predicate Delivering(b: Body) {
    && (forall x :: x in b.delivered ==> x.destroyed <= Destroys(b.log) && Ack(x.remote, x.id) in b.log)
    && (forall x :: x in b.delivered && x.destroyed == Destroys(b.log) ==> (x.remote, x.id) in b.view.acks)
    && (forall r: Remote, id: Id :: Ack(r, id) in b.log ==>
          (r, id) in b.received || exists d :: Delivery(r, id, d) in b.delivered)
    && (!b.reentered ==> Distinct(b.delivered))
  }

  ghost predicate Showing(b: Body, snapshot: Db, seen: nat) {
    && (forall i :: 0 <= i < |b.open| ==> Shown(b, snapshot, seen, b.open[i]))
    && (!b.reentered ==> forall i, j :: 0 <= i < j < |b.open| ==> b.open[i].remote != b.open[j].remote)
  }

  ghost predicate Shown(b: Body, snapshot: Db, seen: nat, c: Collected) {
    && c.destroyed <= Destroys(b.log) && Distinct(c.ids)
    && (c.cursor.Some? ==> c.cursor.value.version <= seen && (c.destroyed == 0 ==> SentKey(c.remote) in b.readKeys))
    && (c.cursor.Some? && c.destroyed == Destroys(b.log) ==> Covered(b.view, c.remote, c.cursor.value, c.ids))
    && forall id :: id in c.ids ==>
         && (c.destroyed == 0 ==> FirstTime(b, snapshot, c.remote, id))
         && (!b.reentered ==> Delivery(c.remote, id, c.destroyed) !in b.delivered)
  }

  /** What is at or below a cursor is acknowledged or about to be. */
  ghost predicate Covered(view: Db, remote: Remote, cursor: Stamp, ids: seq<Id>) {
    forall row :: row in view.rows && !cursor.Before(row.stamp) ==> (remote, row.id) in view.acks || row.id in ids
  }

  ghost predicate RunOn(b: Body, snapshot: Db, seen: nat) {
    Viewed(b, snapshot, seen) && Guarded(b, snapshot) && Delivering(b) && Showing(b, snapshot, seen)
  }

  function Started(snapshot: Db): Body {
    Body(snapshot, [], {}, [], 0, [], [], {}, {}, false)
  }

  lemma StartsRunning(snapshot: Db, seen: nat)
    requires Sound(snapshot, seen, seen)
    ensures RunOn(Started(snapshot), snapshot, seen)
  {
    assert snapshot.rows[..|snapshot.rows|] == snapshot.rows;
    SoundLater(snapshot, seen);
  }

  lemma SoundLater(db: Db, seen: nat)
    requires Sound(db, seen, seen)
    ensures Sound(db, seen + 1, seen)
  {
  }

  // ---- Inserting ----

  /** The indexes an entry goes into, its position being known only at commit. */
  function Inserted(b: Body, id: Id, v: nat): Body {
    var c := Do(Do(b, Enter(id), v), Append(b.next, id), v);
    c.(pending := b.pending + [id], next := b.next + 1)
  }

  lemma SoundInsert(db: Db, id: Id, v: nat, ordinal: nat, upTo: nat)
    requires Sound(db, v, upTo) && upTo < v && id !in db.entries
    requires forall row :: row in db.rows && row.stamp.version == v ==> row.stamp.ordinal < ordinal
    ensures Sound(Apply(Append(ordinal, id), Apply(Enter(id), db, v), v), v, upTo)
  {
    var after := Apply(Append(ordinal, id), Apply(Enter(id), db, v), v);
    var row := Row(Stamp(v, ordinal), id);
    assert after.rows == db.rows + [row];
    assert Ids(after.rows) == Ids(db.rows) + [id];
    assert forall i :: 0 <= i < |db.rows| ==> db.rows[i] in db.rows && Ids(db.rows)[i] in db.entries;
    forall r | r in after.sentAfter ensures Acked(after.rows, after.acks, r, after.sentAfter[r]) {
      assert Acked(db.rows, db.acks, r, db.sentAfter[r]);
    }
  }

  lemma InsertViewed(b: Body, snapshot: Db, seen: nat, id: Id)
    requires Viewed(b, snapshot, seen) && id !in b.view.entries
    ensures Viewed(Inserted(b, id, seen + 1), snapshot, seen)
  {
    hide ApplyAll, Sound, Destroys;
    var base := if Destroys(b.log) == 0 then snapshot.rows else [];
    ApplySnoc(b.log, Enter(id), snapshot, seen + 1);
    ApplySnoc(b.log + [Enter(id)], Append(b.next, id), snapshot, seen + 1);
    DestroysSnoc(b.log, Enter(id));
    DestroysSnoc(b.log + [Enter(id)], Append(b.next, id));
    SnapshotRows(snapshot, seen);
    OwnOrdinals(b.view.rows, base, b.pending, seen + 1, b.next);
    SoundInsert(b.view, id, seen + 1, b.next, seen);
    OneMore(b.view.rows, base, b.pending, seen + 1, b.next, id);
    hide OwnLast;
  }

  lemma SnapshotRows(snapshot: Db, seen: nat)
    requires Sound(snapshot, seen, seen)
    ensures forall row :: row in snapshot.rows ==> row.stamp.version <= seen
  {
  }

  lemma OneMore(rows: seq<Row>, base: seq<Row>, pending: seq<Id>, v: nat, next: nat, id: Id)
    requires OwnLast(rows, base, pending, v, next)
    ensures OwnLast(rows + [Row(Stamp(v, next), id)], base, pending + [id], v, next + 1)
  {
  }

  lemma OwnOrdinals(rows: seq<Row>, base: seq<Row>, pending: seq<Id>, v: nat, next: nat)
    requires OwnLast(rows, base, pending, v, next)
    requires forall row :: row in base ==> row.stamp.version < v
    ensures forall row :: row in rows && row.stamp.version == v ==> row.stamp.ordinal < next
  {
    assert forall i :: 0 <= i < |base| ==> rows[..|base|][i] == rows[i] && base[i] in base;
    forall i | |base| <= i < |rows| ensures rows[i].stamp.ordinal < next {
      assert rows[i].id == pending[i - |base|];
    }
  }

  /** A mutation that is no destroy, no new row and no new acknowledgement of the remotes shown. */
  lemma InsertRest(b: Body, snapshot: Db, seen: nat, id: Id)
    requires Guarded(b, snapshot) && Delivering(b) && Showing(b, snapshot, seen)
    requires Destroys(b.log) == 0 ==> id !in snapshot.entries && (EntryKey(id) in b.readKeys || id in b.own)
    ensures Guarded(Inserted(b, id, seen + 1), snapshot)
    ensures Delivering(Inserted(b, id, seen + 1))
    ensures Showing(Inserted(b, id, seen + 1), snapshot, seen)
  {
    var c := Inserted(b, id, seen + 1);
    DestroysSnoc(b.log, Enter(id));
    DestroysSnoc(b.log + [Enter(id)], Append(b.next, id));
    hide Destroys;
    forall i | 0 <= i < |c.open| ensures Shown(c, snapshot, seen, c.open[i]) {
      InsertShown(b, snapshot, seen, id, b.open[i]);
    }
    hide Shown;
    InsertGuarded(b, snapshot, seen, id);
    hide Guarded;
  }

  lemma InsertGuarded(b: Body, snapshot: Db, seen: nat, id: Id)
    requires Guarded(b, snapshot)
    requires Destroys(b.log) == 0 ==> id !in snapshot.entries && (EntryKey(id) in b.readKeys || id in b.own)
    ensures Guarded(Inserted(b, id, seen + 1), snapshot)
  {
    DestroysSnoc(b.log, Enter(id));
    DestroysSnoc(b.log + [Enter(id)], Append(b.next, id));
    hide Destroys;
  }

  lemma InsertShown(b: Body, snapshot: Db, seen: nat, id: Id, shown: Collected)
    requires Shown(b, snapshot, seen, shown)
    ensures Shown(Inserted(b, id, seen + 1), snapshot, seen, shown)
  {
    var row := Row(Stamp(seen + 1, b.next), id);
    DestroysSnoc(b.log, Enter(id));
    DestroysSnoc(b.log + [Enter(id)], Append(b.next, id));
    hide Destroys, Distinct;
    assert shown.cursor.Some? ==> shown.cursor.value.Before(row.stamp);
  }

  /** A snapshot's entries and acknowledgements are in view until the transaction destroys the journal. */
  lemma {:induction false} StillThere(log: seq<Op>, db: Db, v: nat)
    requires Destroys(log) == 0
    ensures db.entries <= ApplyAll(log, db, v).entries && db.acks <= ApplyAll(log, db, v).acks
  {
    if log != [] { StillThere(log[..|log| - 1], db, v); }
  }

  lemma InsertKeeps(b: Body, snapshot: Db, seen: nat, id: Id)
    requires RunOn(b, snapshot, seen) && id !in b.view.entries
    requires Destroys(b.log) == 0 ==> EntryKey(id) in b.readKeys || id in b.own
    ensures RunOn(Inserted(b, id, seen + 1), snapshot, seen)
    ensures var c := Inserted(b, id, seen + 1);
            && c.view.entries == b.view.entries + {id} && c.view.acks == b.view.acks
            && Destroys(c.log) == Destroys(b.log)
  {
    if Destroys(b.log) == 0 { StillThere(b.log, snapshot, seen + 1); }
    assert b.view == ApplyAll(b.log, snapshot, seen + 1);
    hide Viewed, Guarded, Delivering, Showing, Destroys, ApplyAll;
    DestroysSnoc(b.log, Enter(id));
    DestroysSnoc(b.log + [Enter(id)], Append(b.next, id));
    InsertViewed(b, snapshot, seen, id);
    InsertRest(b, snapshot, seen, id);
  }

  // ---- Acknowledging ----

  lemma SoundAck(db: Db, remote: Remote, id: Id, v: nat, upTo: nat)
    requires Sound(db, v, upTo)
    ensures Sound(Apply(Ack(remote, id), db, v), v, upTo)
  {
  }

  lemma AckViewed(b: Body, snapshot: Db, seen: nat, remote: Remote, id: Id)
    requires Viewed(b, snapshot, seen)
    ensures Viewed(Do(b, Ack(remote, id), seen + 1), snapshot, seen)
  {
    hide ApplyAll, Sound, Destroys, OwnLast;
    ApplySnoc(b.log, Ack(remote, id), snapshot, seen + 1);
    DestroysSnoc(b.log, Ack(remote, id));
    SoundAck(b.view, remote, id, seen + 1, seen);
  }

  /** An entry that came from the remote itself. */
  function Received(b: Body, remote: Remote, id: Id, v: nat): Body {
    Do(b, Ack(remote, id), v).(received := b.received + {(remote, id)})
  }

  lemma ReceiveKeeps(b: Body, snapshot: Db, seen: nat, remote: Remote, id: Id)
    requires RunOn(b, snapshot, seen)
    ensures RunOn(Received(b, remote, id, seen + 1), snapshot, seen)
    ensures Destroys(Received(b, remote, id, seen + 1).log) == Destroys(b.log)
  {
    var c := Received(b, remote, id, seen + 1);
    AckViewed(b, snapshot, seen, remote, id);
    DestroysSnoc(b.log, Ack(remote, id));
    ReceiveRest(b, snapshot, seen, remote, id);
    hide Guarded, Delivering, Showing, Destroys, Sound, ApplyAll;
  }

  lemma ReceiveRest(b: Body, snapshot: Db, seen: nat, remote: Remote, id: Id)
    requires Guarded(b, snapshot) && Delivering(b) && Showing(b, snapshot, seen)
    ensures Guarded(Received(b, remote, id, seen + 1), snapshot)
    ensures Delivering(Received(b, remote, id, seen + 1))
    ensures Showing(Received(b, remote, id, seen + 1), snapshot, seen)
  {
    DestroysSnoc(b.log, Ack(remote, id));
    hide Destroys, Shown, Guarded, Delivering;
    var c := Received(b, remote, id, seen + 1);
    forall i | 0 <= i < |c.open| ensures Shown(c, snapshot, seen, c.open[i]) {
      ReceiveShown(b, snapshot, seen, remote, id, b.open[i]);
    }
    ReceiveGuarded(b, snapshot, seen, remote, id);
  }

  lemma ReceiveShown(b: Body, snapshot: Db, seen: nat, remote: Remote, id: Id, shown: Collected)
    requires Shown(b, snapshot, seen, shown)
    ensures Shown(Received(b, remote, id, seen + 1), snapshot, seen, shown)
  {
    DestroysSnoc(b.log, Ack(remote, id));
    hide Destroys, Distinct;
  }

  lemma ReceiveGuarded(b: Body, snapshot: Db, seen: nat, remote: Remote, id: Id)
    requires Guarded(b, snapshot) && Delivering(b)
    ensures Guarded(Received(b, remote, id, seen + 1), snapshot) && Delivering(Received(b, remote, id, seen + 1))
  {
    DestroysSnoc(b.log, Ack(remote, id));
    hide Destroys, Distinct;
  }

  /** An entry whose callback has returned. */
  function Delivered(b: Body, remote: Remote, id: Id, destroyed: nat, v: nat): Body {
    Do(b, Ack(remote, id), v).(delivered := b.delivered + [Delivery(remote, id, destroyed)])
  }

  /** An entry shown to a callback of this remote, which nobody else in the transaction is serving. */
  ghost predicate Owed(b: Body, snapshot: Db, remote: Remote, id: Id, destroyed: nat) {
    && destroyed <= Destroys(b.log)
    && (destroyed == 0 ==> FirstTime(b, snapshot, remote, id))
    && (!b.reentered ==> Delivery(remote, id, destroyed) !in b.delivered
                         && forall i :: 0 <= i < |b.open| ==> b.open[i].remote != remote)
  }

  lemma DeliverKeeps(b: Body, snapshot: Db, seen: nat, remote: Remote, id: Id, destroyed: nat)
    requires RunOn(b, snapshot, seen) && Owed(b, snapshot, remote, id, destroyed)
    ensures RunOn(Delivered(b, remote, id, destroyed, seen + 1), snapshot, seen)
    ensures Destroys(Delivered(b, remote, id, destroyed, seen + 1).log) == Destroys(b.log)
  {
    AckViewed(b, snapshot, seen, remote, id);
    DestroysSnoc(b.log, Ack(remote, id));
    DeliverRest(b, snapshot, seen, remote, id, destroyed);
    hide Guarded, Delivering, Showing, Destroys, Sound, ApplyAll;
  }

  lemma DeliverRest(b: Body, snapshot: Db, seen: nat, remote: Remote, id: Id, destroyed: nat)
    requires Guarded(b, snapshot) && Delivering(b) && Showing(b, snapshot, seen)
    requires Owed(b, snapshot, remote, id, destroyed)
    ensures Guarded(Delivered(b, remote, id, destroyed, seen + 1), snapshot)
    ensures Delivering(Delivered(b, remote, id, destroyed, seen + 1))
    ensures Showing(Delivered(b, remote, id, destroyed, seen + 1), snapshot, seen)
  {
    DestroysSnoc(b.log, Ack(remote, id));
    hide Destroys, Shown, Guarded, Delivering;
    var c := Delivered(b, remote, id, destroyed, seen + 1);
    forall i | 0 <= i < |c.open| ensures Shown(c, snapshot, seen, c.open[i]) {
      DeliverShown(b, snapshot, seen, remote, id, destroyed, b.open[i]);
    }
    DeliverGuarded(b, snapshot, seen, remote, id, destroyed);
  }

  lemma DeliverShown(b: Body, snapshot: Db, seen: nat, remote: Remote, id: Id, destroyed: nat, shown: Collected)
    requires Shown(b, snapshot, seen, shown)
    requires !b.reentered ==> shown.remote != remote
    ensures Shown(Delivered(b, remote, id, destroyed, seen + 1), snapshot, seen, shown)
  {
    DestroysSnoc(b.log, Ack(remote, id));
    hide Destroys, Distinct;
  }

  lemma DeliverGuarded(b: Body, snapshot: Db, seen: nat, remote: Remote, id: Id, destroyed: nat)
    requires Guarded(b, snapshot) && Delivering(b) && Owed(b, snapshot, remote, id, destroyed)
    ensures Guarded(Delivered(b, remote, id, destroyed, seen + 1), snapshot)
    ensures Delivering(Delivered(b, remote, id, destroyed, seen + 1))
  {
    DestroysSnoc(b.log, Ack(remote, id));
    DeliveredGuarded(b, snapshot, seen, remote, id, destroyed);
    DeliveredDelivering(b, snapshot, seen, remote, id, destroyed);
    hide *;
  }

  lemma DeliveredGuarded(b: Body, snapshot: Db, seen: nat, remote: Remote, id: Id, destroyed: nat)
    requires Guarded(b, snapshot) && (destroyed == 0 ==> FirstTime(b, snapshot, remote, id))
    requires Destroys(b.log + [Ack(remote, id)]) == Destroys(b.log)
    ensures Guarded(Delivered(b, remote, id, destroyed, seen + 1), snapshot)
  {
    hide Destroys;
  }

  lemma DeliveredDelivering(b: Body, snapshot: Db, seen: nat, remote: Remote, id: Id, destroyed: nat)
    requires Delivering(b) && Owed(b, snapshot, remote, id, destroyed)
    requires Destroys(b.log + [Ack(remote, id)]) == Destroys(b.log)
    ensures Delivering(Delivered(b, remote, id, destroyed, seen + 1))
  {
    var c := Delivered(b, remote, id, destroyed, seen + 1);
    hide Destroys, FirstTime;
    assert Delivery(remote, id, destroyed) in c.delivered;
    assert forall x :: x in b.delivered ==> x in c.delivered;
    if !b.reentered { DistinctMore(b.delivered, Delivery(remote, id, destroyed)); }
    hide Distinct;
  }

  lemma DistinctMore<T>(s: seq<T>, x: T)
    requires Distinct(s) && x !in s
    ensures Distinct(s + [x])
  {
  }

  // ---- Storing the cursor ----

  lemma AdvanceKeeps(b: Body, snapshot: Db, seen: nat, remote: Remote, cursor: Stamp)
    requires RunOn(b, snapshot, seen) && cursor.version <= seen
    requires Acked(b.view.rows, b.view.acks, remote, cursor)
    requires Destroys(b.log) == 0 ==> SentKey(remote) in b.readKeys
    ensures RunOn(Do(b, Advance(remote, cursor), seen + 1), snapshot, seen)
  {
    hide Destroys, ApplyAll, OwnLast, Sound, Guarded, Delivering, Showing;
    ApplySnoc(b.log, Advance(remote, cursor), snapshot, seen + 1);
    DestroysSnoc(b.log, Advance(remote, cursor));
    SoundAdvance(b.view, remote, cursor, seen + 1, seen);
    AdvanceRest(b, snapshot, seen, remote, cursor);
  }

  lemma SoundAdvance(db: Db, remote: Remote, cursor: Stamp, v: nat, upTo: nat)
    requires Sound(db, v, upTo) && cursor.version <= upTo && Acked(db.rows, db.acks, remote, cursor)
    ensures Sound(Apply(Advance(remote, cursor), db, v), v, upTo)
  {
  }

  lemma AdvanceRest(b: Body, snapshot: Db, seen: nat, remote: Remote, cursor: Stamp)
    requires Guarded(b, snapshot) && Delivering(b) && Showing(b, snapshot, seen)
    requires Destroys(b.log) == 0 ==> SentKey(remote) in b.readKeys
    ensures var c := Do(b, Advance(remote, cursor), seen + 1);
            Guarded(c, snapshot) && Delivering(c) && Showing(c, snapshot, seen)
  {
    DestroysSnoc(b.log, Advance(remote, cursor));
    hide Destroys, Shown, Guarded, Delivering;
    var c := Do(b, Advance(remote, cursor), seen + 1);
    forall i | 0 <= i < |c.open| ensures Shown(c, snapshot, seen, c.open[i]) {
      AdvanceShown(b, snapshot, seen, remote, cursor, b.open[i]);
    }
    AdvanceGuarded(b, snapshot, seen, remote, cursor);
  }

  lemma AdvanceShown(b: Body, snapshot: Db, seen: nat, remote: Remote, cursor: Stamp, shown: Collected)
    requires Shown(b, snapshot, seen, shown)
    ensures Shown(Do(b, Advance(remote, cursor), seen + 1), snapshot, seen, shown)
  {
    DestroysSnoc(b.log, Advance(remote, cursor));
    hide Destroys, Distinct;
  }

  lemma AdvanceGuarded(b: Body, snapshot: Db, seen: nat, remote: Remote, cursor: Stamp)
    requires Guarded(b, snapshot) && Delivering(b)
    requires Destroys(b.log) == 0 ==> SentKey(remote) in b.readKeys
    ensures Guarded(Do(b, Advance(remote, cursor), seen + 1), snapshot) && Delivering(Do(b, Advance(remote, cursor), seen + 1))
  {
    DestroysSnoc(b.log, Advance(remote, cursor));
    hide Destroys, Distinct;
  }

  // ---- Destroying ----

  /** Both indexes and all values cleared; nothing of this transaction is pending any more. */
  function Destroyed(b: Body, v: nat): Body {
    Do(b, Destroy, v).(pending := [])
  }

  lemma DestroyKeeps(b: Body, snapshot: Db, seen: nat)
    requires RunOn(b, snapshot, seen)
    ensures RunOn(Destroyed(b, seen + 1), snapshot, seen)
  {
    hide Destroys, ApplyAll, Showing, Delivering, Guarded;
    ApplySnoc(b.log, Destroy, snapshot, seen + 1);
    DestroysSnoc(b.log, Destroy);
    DestroyRest(b, snapshot, seen);
  }

  lemma DestroyRest(b: Body, snapshot: Db, seen: nat)
    requires Guarded(b, snapshot) && Delivering(b) && Showing(b, snapshot, seen)
    ensures var c := Destroyed(b, seen + 1);
            Guarded(c, snapshot) && Delivering(c) && Showing(c, snapshot, seen)
  {
    DestroysSnoc(b.log, Destroy);
    hide Destroys, Shown, Guarded, Delivering;
    var c := Destroyed(b, seen + 1);
    forall i | 0 <= i < |c.open| ensures Shown(c, snapshot, seen, c.open[i]) {
      DestroyShown(b, snapshot, seen, b.open[i]);
    }
    DestroyGuarded(b, snapshot, seen);
  }

  lemma DestroyShown(b: Body, snapshot: Db, seen: nat, shown: Collected)
    requires Shown(b, snapshot, seen, shown)
    ensures Shown(Destroyed(b, seen + 1), snapshot, seen, shown)
  {
    DestroysSnoc(b.log, Destroy);
    hide Destroys, Distinct;
  }

  lemma DestroyGuarded(b: Body, snapshot: Db, seen: nat)
    requires Guarded(b, snapshot) && Delivering(b)
    ensures Guarded(Destroyed(b, seen + 1), snapshot) && Delivering(Destroyed(b, seen + 1))
  {
    DestroysSnoc(b.log, Destroy);
    hide Destroys, Distinct;
  }

  // ---- Reading ----

  /** A key the transaction has not written is read under a conflict; one it has is in its view. */
  lemma {:induction false} WroteShows(log: seq<Op>, db: Db, v: nat, key: Key)
    requires Destroys(log) == 0 && Wrote(log, key)
    ensures match key
            case EntryKey(id) => id in ApplyAll(log, db, v).entries
            case AckKey(r, id) => (r, id) in ApplyAll(log, db, v).acks
            case SentKey(r) => exists c :: Advance(r, c) in log
  {
    var front := log[..|log| - 1];
    var k :| 0 <= k < |log| && Touches(log[k], key);
    if k < |front| {
      assert front[k] == log[k];
      WroteShows(front, db, v, key);
    }
  }

  ghost predicate Unseen(b: Body, key: Key) {
    (key.EntryKey? ==> key.id !in b.view.entries) && (key.AckKey? ==> (key.remote, key.id) !in b.view.acks)
  }

  lemma NotedKeeps(b: Body, snapshot: Db, seen: nat, key: Key)
    requires RunOn(b, snapshot, seen)
    ensures var c := Noted(b, key);
            && RunOn(c, snapshot, seen) && c == b.(readKeys := c.readKeys) && b.readKeys <= c.readKeys
            && (Destroys(b.log) == 0 && Unseen(b, key) ==> key in c.readKeys)
  {
    var c := Noted(b, key);
    if Destroys(b.log) == 0 && Wrote(b.log, key) { WroteShows(b.log, snapshot, seen + 1, key); }
    MoreKeys(b, c, snapshot, seen);
  }

  lemma MoreKeys(b: Body, c: Body, snapshot: Db, seen: nat)
    requires RunOn(b, snapshot, seen) && c == b.(readKeys := c.readKeys, own := c.own)
    requires b.readKeys <= c.readKeys && b.own <= c.own
    ensures RunOn(c, snapshot, seen)
  {
    hide ApplyAll, Sound, OwnLast, Destroys;
    forall i | 0 <= i < |c.open| ensures Shown(c, snapshot, seen, c.open[i]) {
      assert Shown(b, snapshot, seen, b.open[i]);
    }
  }

  /** The entries of a scan that the remote has not acknowledged. */
  function Unacked(ids: seq<Id>, acks: set<(Remote, Id)>, remote: Remote): seq<Id> {
    if ids == [] then []
    else Unacked(ids[..|ids| - 1], acks, remote) + if (remote, ids[|ids| - 1]) in acks then [] else [ids[|ids| - 1]]
  }

  lemma {:induction false} UnackedIn(ids: seq<Id>, acks: set<(Remote, Id)>, remote: Remote)
    ensures forall id :: id in Unacked(ids, acks, remote) <==> id in ids && (remote, id) !in acks
    ensures Distinct(ids) ==> Distinct(Unacked(ids, acks, remote))
  {
    if ids != [] {
      var front := ids[..|ids| - 1];
      UnackedIn(front, acks, remote);
      assert ids == front + [ids[|ids| - 1]];
      assert Distinct(ids) ==> ids[|ids| - 1] !in front;
    }
  }

  /** Everything a scan for the remote finds: committed rows after its cursor, then pending entries. */
  function Scanned(b: Body, seen: nat, remote: Remote): seq<Id> {
    Ids(Between(b.view.rows, Cursor(b.view, remote), seen)) + b.pending
  }

  function Cursor(view: Db, remote: Remote): Option<Stamp> {
    if remote in view.sentAfter then Some(view.sentAfter[remote]) else None
  }

  function Outstanding(b: Body, seen: nat, remote: Remote): seq<Id> {
    Unacked(Scanned(b, seen, remote), b.view.acks, remote)
  }

  lemma OneRowEach(rows: seq<Row>)
    requires Distinct(Ids(rows))
    ensures forall r, s :: r in rows && s in rows && r.id == s.id ==> r == s
  {
    assert forall i :: 0 <= i < |rows| ==> Ids(rows)[i] == rows[i].id;
  }

  lemma OwnRows(rows: seq<Row>, base: seq<Row>, pending: seq<Id>, v: nat, next: nat)
    requires OwnLast(rows, base, pending, v, next)
    ensures forall id :: id in pending <==> exists row :: row in rows[|base|..] && row.id == id
    ensures forall row :: row in rows <==> row in base || row in rows[|base|..]
    ensures forall row :: row in rows[|base|..] ==> row.stamp.version == v
    ensures Distinct(Ids(rows)) ==> Distinct(pending)
  {
    var own := rows[|base|..];
    assert rows == base + own;
    assert forall i :: 0 <= i < |pending| ==> own[i] == rows[|base| + i] && own[i].id == pending[i] && own[i] in own;
    assert forall i :: 0 <= i < |pending| ==> Ids(rows)[|base| + i] == pending[i];
  }

  /** The scan from the cursor finds exactly what the remote has not acknowledged: what it skips is
      acknowledged, and what it skips at the transaction's own version is pending. */
  lemma OutstandingIsUnacked(b: Body, snapshot: Db, seen: nat, remote: Remote)
    requires Viewed(b, snapshot, seen)
    ensures forall id :: id in Outstanding(b, seen, remote) <==> id in b.view.entries && (remote, id) !in b.view.acks
    ensures Distinct(Outstanding(b, seen, remote))
  {
    var base := if Destroys(b.log) == 0 then snapshot.rows else [];
    var rows, after := b.view.rows, Cursor(b.view, remote);
    var read := Between(rows, after, seen);
    hide Destroys, ApplyAll;
    SnapshotRows(snapshot, seen);
    BetweenIn(rows, after, seen);
    OwnRows(rows, base, b.pending, seen + 1, b.next);
    OneRowEach(rows);
    UnackedIn(Scanned(b, seen, remote), b.view.acks, remote);
    SoundFacts(b.view, seen + 1, seen);
    hide OwnLast, Between, Unacked, Sound;
    ScannedDistinct(read, b.pending, rows, rows[|base|..], seen);
    forall id ensures id in Outstanding(b, seen, remote) <==> id in b.view.entries && (remote, id) !in b.view.acks {
      if id in b.view.entries && (remote, id) !in b.view.acks {
        var row :| row in rows && row.id == id;
        if row.stamp.version <= seen {
          assert row in read;
          InIds(read, row);
        }
      }
      if id in Ids(read) { FromIds(read, id); }
    }
  }

  lemma SoundFacts(db: Db, v: nat, upTo: nat)
    requires Sound(db, v, upTo)
    ensures Sorted(db.rows) && Distinct(Ids(db.rows))
    ensures forall id :: id in db.entries <==> exists row :: row in db.rows && row.id == id
    ensures forall r :: r in db.sentAfter ==> Acked(db.rows, db.acks, r, db.sentAfter[r])
    ensures forall row :: row in db.rows ==> row.stamp.version <= v
  {
    forall id | id in db.entries ensures exists row :: row in db.rows && row.id == id { FromIds(db.rows, id); }
  }

  lemma InIds(rows: seq<Row>, row: Row)
    requires row in rows
    ensures row.id in Ids(rows)
  {
    var i :| 0 <= i < |rows| && rows[i] == row;
    assert Ids(rows)[i] == row.id;
  }

  lemma FromIds(rows: seq<Row>, id: Id)
    requires id in Ids(rows)
    ensures exists row :: row in rows && row.id == id
  {
    var i :| 0 <= i < |rows| && Ids(rows)[i] == id;
    assert rows[i] in rows;
  }

  lemma ScannedDistinct(read: seq<Row>, pending: seq<Id>, rows: seq<Row>, own: seq<Row>, seen: nat)
    requires Sorted(read) && Distinct(pending)
    requires forall r, s :: r in rows && s in rows && r.id == s.id ==> r == s
    requires forall row :: row in read ==> row in rows && row.stamp.version <= seen
    requires forall row :: row in own ==> row in rows && row.stamp.version == seen + 1
    requires forall id :: id in pending ==> exists row :: row in own && row.id == id
    ensures Distinct(Ids(read) + pending)
  {
    var all := Ids(read) + pending;
    forall i, j | 0 <= i < j < |all| ensures all[i] != all[j] {
      if j < |read| {
        assert read[i] in rows && read[j] in rows;
      } else if i < |read| {
        assert read[i] in read && pending[j - |read|] in pending;
      }
    }
  }

  // ---- The operations ----

  /** First occurrences that are not entered yet, and all the rest. */
  function Novel(ids: seq<Id>, entries: set<Id>): seq<Id> {
    if ids == [] then []
    else
      var front, last := ids[..|ids| - 1], ids[|ids| - 1];
      Novel(front, entries) + if last in entries || last in front then [] else [last]
  }

  function Repeated(ids: seq<Id>, entries: set<Id>): seq<Id> {
    if ids == [] then []
    else
      var front, last := ids[..|ids| - 1], ids[|ids| - 1];
      Repeated(front, entries) + if last in entries || last in front then [last] else []
  }

  lemma {:induction false} NovelIn(ids: seq<Id>, entries: set<Id>)
    ensures Distinct(Novel(ids, entries))
    ensures forall id :: id in Novel(ids, entries) <==> id in ids && id !in entries
  {
    if ids != [] {
      var front := ids[..|ids| - 1];
      NovelIn(front, entries);
      assert ids == front + [ids[|ids| - 1]];
    }
  }

  ghost predicate Twice(ids: seq<Id>, id: Id) {
    exists i, j :: 0 <= i < j < |ids| && ids[i] == ids[j] == id
  }

  lemma TwiceNow(front: seq<Id>, last: Id, id: Id)
    ensures Twice(front + [last], id) <==> Twice(front, id) || (id == last && last in front)
  {
    var ids := front + [last];
    if Twice(front, id) {
      var i, j :| 0 <= i < j < |front| && front[i] == front[j] == id;
      assert ids[i] == ids[j] == id;
    }
    if id == last && last in front {
      var i :| 0 <= i < |front| && front[i] == last;
      assert ids[i] == ids[|front|] == id;
    }
    if Twice(ids, id) {
      var i, j :| 0 <= i < j < |ids| && ids[i] == ids[j] == id;
      assert front[i] == ids[i];
      assert j < |front| ==> front[i] == front[j] == id;
    }
  }

  /** What is reported as a duplicate was entered before or comes more than once, each time but the first. */
  lemma {:induction false} RepeatedIn(ids: seq<Id>, entries: set<Id>)
    ensures forall id :: id in Repeated(ids, entries) <==> id in ids && (id in entries || Twice(ids, id))
    ensures |Novel(ids, entries)| + |Repeated(ids, entries)| == |ids|
  {
    if ids != [] {
      var front, last := ids[..|ids| - 1], ids[|ids| - 1];
      RepeatedIn(front, entries);
      assert ids == front + [last];
      forall id ensures Twice(ids, id) <==> Twice(front, id) || (id == last && last in front) {
        TwiceNow(front, last, id);
      }
      assert forall id :: id in ids <==> id in front || id == last;
    }
  }

  lemma NovelStep(ids: seq<Id>, i: nat, entries: set<Id>)
    requires i < |ids|
    ensures Novel(ids[..i + 1], entries) == Novel(ids[..i], entries) + if ids[i] in entries || ids[i] in ids[..i] then [] else [ids[i]]
    ensures Repeated(ids[..i + 1], entries) == Repeated(ids[..i], entries) + if ids[i] in entries || ids[i] in ids[..i] then [ids[i]] else []
  {
    assert ids[..i + 1][..i] == ids[..i];
  }

  function Pairs(remote: Remote, ids: seq<Id>): set<(Remote, Id)> {
    set id | id in ids :: (remote, id)
  }

  lemma PairsStep(remote: Remote, ids: seq<Id>, i: nat)
    requires i < |ids|
    ensures Pairs(remote, ids[..i + 1]) == Pairs(remote, ids[..i]) + {(remote, ids[i])}
  {
    assert ids[..i + 1] == ids[..i] + [ids[i]];
  }

  lemma ReceiveNone(remote: Remote, ids: seq<Id>, existing: set<Id>, acks: set<(Remote, Id)>)
    ensures ids[..|ids|] == ids && ids[..0] == [] && acks + Pairs(remote, ids[..0]) == acks
    ensures Novel(ids[..0], existing) == [] && Repeated(ids[..0], existing) == []
  {
  }

  lemma ReceiveOne(remote: Remote, ids: seq<Id>, i: nat, existing: set<Id>, acks: set<(Remote, Id)>)
    requires i < |ids|
    ensures ids[..i + 1] == ids[..i] + [ids[i]]
    ensures acks + Pairs(remote, ids[..i]) + {(remote, ids[i])} == acks + Pairs(remote, ids[..i + 1])
    ensures Novel(ids[..i + 1], existing) == Novel(ids[..i], existing) + if ids[i] in existing || ids[i] in ids[..i] then [] else [ids[i]]
    ensures Repeated(ids[..i + 1], existing) == Repeated(ids[..i], existing) + if ids[i] in existing || ids[i] in ids[..i] then [ids[i]] else []
  {
    NovelStep(ids, i, existing);
    PairsStep(remote, ids, i);
  }

  lemma ReceivedFields(b: Body, remote: Remote, id: Id, v: nat)
    ensures var c := Received(b, remote, id, v);
            c == b.(view := b.view.(acks := b.view.acks + {(remote, id)}), log := c.log, received := c.received)
  {
  }

  // ---- The order entries are shown in ----

  /** The same ids, each once, by rank. */
  ghost predicate Arranged(sorted: seq<Id>, ids: seq<Id>, rank: Id -> int) {
    && |sorted| == |ids| && Distinct(sorted) && (forall id :: id in sorted <==> id in ids)
    && forall i, j :: 0 <= i < j < |sorted| ==> rank(sorted[i]) <= rank(sorted[j])
  }

  lemma PlacedIds(sorted: seq<Id>, k: nat, id: Id)
    requires Distinct(sorted) && id !in sorted && k <= |sorted|
    ensures var r := sorted[..k] + [id] + sorted[k..];
            && |r| == |sorted| + 1 && Distinct(r) && forall x :: x in r <==> x in sorted || x == id
  {
    assert sorted == sorted[..k] + sorted[k..];
    assert forall i :: 0 <= i < |sorted| ==> sorted[i] in sorted;
  }

  lemma PlacedRanks(sorted: seq<Id>, k: nat, id: Id, rank: Id -> int)
    requires k <= |sorted| && forall i, j :: 0 <= i < j < |sorted| ==> rank(sorted[i]) <= rank(sorted[j])
    requires forall i :: 0 <= i < k ==> rank(sorted[i]) <= rank(id)
    requires forall i :: k <= i < |sorted| ==> rank(id) <= rank(sorted[i])
    ensures var r := sorted[..k] + [id] + sorted[k..];
            forall i, j :: 0 <= i < j < |r| ==> rank(r[i]) <= rank(r[j])
  {
  }

  method Arrange(ids: seq<Id>, rank: Id -> int) returns (sorted: seq<Id>)
    requires Distinct(ids)
    ensures Arranged(sorted, ids, rank)
  {
    sorted := [];
    assert ids[..|ids|] == ids;
    for n := 0 to |ids|
      invariant Arranged(sorted, ids[..n], rank)
    {
      var k := |sorted|;
      while k > 0 && rank(sorted[k - 1]) > rank(ids[n])
        invariant 0 <= k <= |sorted| && forall i :: k <= i < |sorted| ==> rank(ids[n]) <= rank(sorted[i])
      {
        k := k - 1;
      }
      NextOne(ids, n);
      PlacedIds(sorted, k, ids[n]);
      PlacedRanks(sorted, k, ids[n], rank);
      sorted := sorted[..k] + [ids[n]] + sorted[k..];
    }
  }

  lemma ArrangedSame(sorted: seq<Id>, ids: seq<Id>, rank: Id -> int)
    requires Arranged(sorted, ids, rank)
    ensures Distinct(sorted) && forall id :: id in sorted <==> id in ids
  {
  }

  lemma NextOne(ids: seq<Id>, n: nat)
    requires Distinct(ids) && n < |ids|
    ensures ids[n] !in ids[..n] && forall x :: x in ids[..n + 1] <==> x in ids[..n] || x == ids[n]
  {
    assert ids[..n + 1] == ids[..n] + [ids[n]];
  }

  class Transaction {
    const seen: nat
    const snapshot: Db
    const pageSize: nat
    var b: Body

    constructor (snapshot: Db, seen: nat, pageSize: nat)
      requires Sound(snapshot, seen, seen) && pageSize > 0
      ensures this.seen == seen && this.snapshot == snapshot && this.pageSize == pageSize
      ensures b == Started(snapshot) && RunOn(b, snapshot, seen)
    {
      this.seen, this.snapshot, this.pageSize := seen, snapshot, pageSize;
      b := Started(snapshot);
      StartsRunning(snapshot, seen);
    }

    /** Enters and appends an entry that is not there. */
    method Insert(id: Id)
      requires RunOn(b, snapshot, seen) && id !in b.view.entries
      requires Destroys(b.log) == 0 ==> EntryKey(id) in b.readKeys || id in b.own
      modifies this
      ensures b == Inserted(old(b), id, seen + 1) && RunOn(b, snapshot, seen)
    {
      InsertKeeps(b, snapshot, seen, id);
      hide *;
      b := Inserted(b, id, seen + 1);
    }

    /** A local write; its id is fresh. */
    method Write(id: Id)
      requires RunOn(b, snapshot, seen) && id !in b.view.entries
      modifies this
      ensures RunOn(b, snapshot, seen) && b.view.entries == old(b.view.entries) + {id} && b.view.acks == old(b.view.acks)
      ensures b.pending == old(b.pending) + [id] && b.delivered == old(b.delivered) && b.open == old(b.open)
    {
      MoreKeys(b, b.(own := b.own + {id}), snapshot, seen);
      InsertKeeps(b.(own := b.own + {id}), snapshot, seen, id);
      hide RunOn, Destroys;
      b := b.(own := b.own + {id});
      Insert(id);
    }

    /** Entries from a remote: new ones are inserted, all of them count as acknowledged by it. */
    method WriteFromRemote(remote: Remote, ids: seq<Id>) returns (duplicates: seq<Id>)
      requires RunOn(b, snapshot, seen)
      modifies this
      ensures RunOn(b, snapshot, seen)
      ensures duplicates == Repeated(ids, old(b.view.entries))
      ensures forall id :: id in duplicates <==> id in ids && (id in old(b.view.entries) || Twice(ids, id))
      ensures b.pending == old(b.pending) + Novel(ids, old(b.view.entries))
      ensures b.view.entries == old(b.view.entries) + (set id | id in ids)
      ensures b.view.acks == old(b.view.acks) + Pairs(remote, ids)
      ensures b.delivered == old(b.delivered) && b.open == old(b.open) && Destroys(b.log) == Destroys(old(b.log))
    {
      ghost var was := b;
      RepeatedIn(ids, b.view.entries);
      hide Twice, RunOn;
      CheckExisting(ids);
      var uncommitted: seq<Id>;
      duplicates, uncommitted := Receive(remote, ids);
      NovelIn(ids, was.view.entries);
      InsertAll(uncommitted);
    }

    /** Reads whether each id is there, under a read conflict. */
    method CheckExisting(ids: seq<Id>)
      requires RunOn(b, snapshot, seen)
      modifies this
      ensures RunOn(b, snapshot, seen) && b == old(b).(readKeys := b.readKeys)
      ensures forall id :: id in ids && id !in b.view.entries && Destroys(b.log) == 0 ==> EntryKey(id) in b.readKeys
    {
      hide RunOn, Destroys;
      for i := 0 to |ids|
        invariant RunOn(b, snapshot, seen) && b == old(b).(readKeys := b.readKeys)
        invariant forall k :: 0 <= k < i && ids[k] !in b.view.entries && Destroys(b.log) == 0 ==> EntryKey(ids[k]) in b.readKeys
      {
        NotedKeeps(b, snapshot, seen, EntryKey(ids[i]));
        b := Noted(b, EntryKey(ids[i]));
      }
    }

    method Receive(remote: Remote, ids: seq<Id>) returns (duplicates: seq<Id>, uncommitted: seq<Id>)
      requires RunOn(b, snapshot, seen)
      modifies this
      ensures RunOn(b, snapshot, seen) && Destroys(b.log) == Destroys(old(b.log))
      ensures duplicates == Repeated(ids, old(b.view.entries)) && uncommitted == Novel(ids, old(b.view.entries))
      ensures b == old(b).(view := old(b.view).(acks := old(b.view.acks) + Pairs(remote, ids)), log := b.log, received := b.received)
    {
      hide *;
      var existing := b.view.entries;
      var met: seq<Id> := [];
      duplicates, uncommitted := [], [];
      ReceiveNone(remote, ids, existing, b.view.acks);
      for i := 0 to |ids|
        invariant RunOn(b, snapshot, seen) && Destroys(b.log) == Destroys(old(b.log)) && met == ids[..i]
        invariant duplicates == Repeated(ids[..i], existing) && uncommitted == Novel(ids[..i], existing)
        invariant b == old(b).(view := old(b.view).(acks := old(b.view.acks) + Pairs(remote, ids[..i])), log := b.log, received := b.received)
      {
        ReceiveOne(remote, ids, i, existing, old(b.view.acks));
        if ids[i] in met || ids[i] in existing {
          duplicates := duplicates + [ids[i]];
        } else {
          uncommitted := uncommitted + [ids[i]];
        }
        met := met + [ids[i]];
        ReceiveKeeps(b, snapshot, seen, remote, ids[i]);
        ReceivedFields(b, remote, ids[i], seen + 1);
        b := Received(b, remote, ids[i], seen + 1);
      }
    }

    method InsertAll(ids: seq<Id>)
      requires RunOn(b, snapshot, seen) && Distinct(ids)
      requires forall id :: id in ids ==> id !in b.view.entries
      requires forall id :: id in ids && Destroys(b.log) == 0 ==> EntryKey(id) in b.readKeys || id in b.own
      modifies this
      ensures RunOn(b, snapshot, seen)
      ensures b.pending == old(b.pending) + ids && b.view.acks == old(b.view.acks)
      ensures b.view.entries == old(b.view.entries) + set id | id in ids
      ensures b.delivered == old(b.delivered) && b.open == old(b.open) && Destroys(b.log) == Destroys(old(b.log))
    {
      ghost var was := b;
      hide RunOn, Destroys;
      assert ids[..|ids|] == ids;
      for i := 0 to |ids|
        invariant RunOn(b, snapshot, seen) && Destroys(b.log) == Destroys(was.log)
        invariant b.readKeys == was.readKeys && b.own == was.own && b.view.acks == was.view.acks
        invariant b.delivered == was.delivered && b.open == was.open
        invariant b.pending == was.pending + ids[..i]
        invariant b.view.entries == was.view.entries + set id | id in ids[..i]
        invariant forall k :: i <= k < |ids| ==> ids[k] !in b.view.entries
      {
        InsertKeeps(b, snapshot, seen, ids[i]);
        assert ids[i] in ids && ids[..i + 1] == ids[..i] + [ids[i]];
        Insert(ids[i]);
      }
    }

    /** Collects what the remote has not acknowledged and shows it to a callback, in the order of the entries
        themselves. The scan from the stored cursor finds all of it, entries of this very transaction included. */
    method Begin(remote: Remote, rank: Id -> int) returns (ids: seq<Id>)
      requires RunOn(b, snapshot, seen) && pageSize > 0
      modifies this
      ensures RunOn(b, snapshot, seen) && Arranged(ids, Outstanding(old(b), seen, remote), rank)
      ensures Distinct(ids) && forall id :: id in ids <==> id in b.view.entries && (remote, id) !in b.view.acks
      ensures b.view == old(b.view) && b.pending == old(b.pending) && b.delivered == old(b.delivered) && b.log == old(b.log)
      ensures |b.open| == |old(b.open)| + 1 && b.open[..|old(b.open)|] == old(b.open)
      ensures var c := b.open[|old(b.open)|]; c.remote == remote && c.ids == ids && c.destroyed == Destroys(b.log)
      ensures LastCommitted(b.view.rows, Cursor(b.view, remote), seen, b.open[|old(b.open)|].cursor)
      ensures b.reentered == (old(b.reentered) || Serving(old(b.open), remote))
    {
      hide *;
      ghost var was := b;
      NotedKeeps(b, snapshot, seen, SentKey(remote));
      BeginFacts(b, Noted(b, SentKey(remote)), snapshot, seen, remote);
      b := Noted(b, SentKey(remote));
      var read, cursor := Unsent(b.view.rows, Cursor(b.view, remote), seen, pageSize);
      var scanned := CheckAcknowledged(remote, Ids(read) + b.pending);
      BeginEnds(was, b, snapshot, seen, remote, read, cursor);
      ids := Arrange(scanned, rank);
      ArrangedSame(ids, scanned, rank);
      var c := Collected(remote, ids, cursor, Destroys(b.log));
      ShowKeeps(b, snapshot, seen, c);
      b := b.(open := b.open + [c], reentered := b.reentered || Serving(b.open, remote));
    }

    /** Reads the acknowledgements of a scan, under read conflicts. */
    method CheckAcknowledged(remote: Remote, scanned: seq<Id>) returns (ids: seq<Id>)
      requires RunOn(b, snapshot, seen)
      modifies this
      ensures RunOn(b, snapshot, seen) && b == old(b).(readKeys := b.readKeys) && old(b.readKeys) <= b.readKeys
      ensures ids == Unacked(scanned, b.view.acks, remote)
      ensures forall id :: id in ids && Destroys(b.log) == 0 ==> AckKey(remote, id) in b.readKeys
    {
      ids := [];
      hide RunOn, Destroys;
      assert scanned[..|scanned|] == scanned;
      for i := 0 to |scanned|
        invariant RunOn(b, snapshot, seen) && b == old(b).(readKeys := b.readKeys) && old(b.readKeys) <= b.readKeys
        invariant ids == Unacked(scanned[..i], b.view.acks, remote)
        invariant forall id :: id in ids && Destroys(b.log) == 0 ==> AckKey(remote, id) in b.readKeys
      {
        NotedKeeps(b, snapshot, seen, AckKey(remote, scanned[i]));
        b := Noted(b, AckKey(remote, scanned[i]));
        assert scanned[..i + 1][..i] == scanned[..i];
        if (remote, scanned[i]) !in b.view.acks { ids := ids + [scanned[i]]; }
      }
    }

    /** The callback has returned: its entries are acknowledged and the cursor moves to the last
        committed row that was read, never to a pending one. */
    method Finish() returns (c: Collected)
      requires RunOn(b, snapshot, seen) && b.open != []
      modifies this
      ensures RunOn(b, snapshot, seen) && c == old(b.open)[|old(b.open)| - 1]
      ensures b.view == old(b.view).(acks := old(b.view.acks) + Pairs(c.remote, c.ids),
                                     sentAfter := if c.cursor.None? then old(b.view.sentAfter)
                                                  else old(b.view.sentAfter)[c.remote := c.cursor.value])
      ensures b.delivered == old(b.delivered) + Deliveries(c)
      ensures b.open == old(b.open)[..|old(b.open)| - 1] && b.pending == old(b.pending)
    {
      hide *;
      c := b.open[|b.open| - 1];
      FinishStarts(b, snapshot, seen);
      b := b.(open := b.open[..|b.open| - 1]);
      ghost var was := b;
      NoneYet(c, was.view.acks, was.delivered);
      for i := 0 to |c.ids|
        invariant RunOn(b, snapshot, seen) && Owing(b, snapshot, seen, c, i)
        invariant b.view == was.view.(acks := was.view.acks + Pairs(c.remote, c.ids[..i]))
        invariant b.delivered == was.delivered + Deliveries(c)[..i]
        invariant b.open == was.open && b.pending == was.pending
      {
        OwingStep(b, snapshot, seen, c, i);
        OneYet(c, was.view.acks, was.delivered, i);
        b := Delivered(b, c.remote, c.ids[i], c.destroyed, seen + 1);
      }
      if c.cursor.Some? {
        OwingEnds(b, snapshot, seen, c);
        Advanced(b, c.remote, c.cursor.value, seen + 1);
        b := Do(b, Advance(c.remote, c.cursor.value), seen + 1);
      }
    }

    /** Everything gone, at once and for every remote. */
    method DestroyAll()
      requires RunOn(b, snapshot, seen)
      modifies this
      ensures RunOn(b, snapshot, seen) && b.view == Db([], {}, {}, map[]) && b.pending == [] && b.delivered == old(b.delivered)
    {
      DestroyKeeps(b, snapshot, seen);
      hide RunOn;
      b := Destroyed(b, seen + 1);
    }
  }

  predicate Serving(open: seq<Collected>, remote: Remote) {
    exists i :: 0 <= i < |open| && open[i].remote == remote
  }

  function Deliveries(c: Collected): seq<Delivery> {
    seq(|c.ids|, i requires 0 <= i < |c.ids| => Delivery(c.remote, c.ids[i], c.destroyed))
  }

  lemma BeginFacts(was: Body, b: Body, snapshot: Db, seen: nat, remote: Remote)
    requires RunOn(b, snapshot, seen) && b == was.(readKeys := b.readKeys)
    requires Destroys(was.log) == 0 && Unseen(was, SentKey(remote)) ==> SentKey(remote) in b.readKeys
    ensures Sorted(b.view.rows) && Cursor(b.view, remote) == Cursor(was.view, remote)
    ensures Destroys(b.log) == 0 ==> SentKey(remote) in b.readKeys
  {
    hide Destroys, ApplyAll, OwnLast, Guarded, Delivering, Showing;
  }

  lemma BeginEnds(was: Body, b: Body, snapshot: Db, seen: nat, remote: Remote, read: seq<Row>, cursor: Option<Stamp>)
    requires RunOn(b, snapshot, seen) && b == was.(readKeys := b.readKeys)
    requires read == Between(b.view.rows, Cursor(b.view, remote), seen)
    requires cursor == if read == [] then None else Some(read[|read| - 1].stamp)
    ensures var ids := Unacked(Ids(read) + b.pending, b.view.acks, remote);
            && ids == Outstanding(was, seen, remote) && Distinct(ids)
            && forall id :: id in ids <==> id in b.view.entries && (remote, id) !in b.view.acks
    ensures cursor.Some? ==> cursor.value.version <= seen
    ensures LastCommitted(b.view.rows, Cursor(b.view, remote), seen, cursor)
  {
    hide LastCommitted;
    OutstandingIsUnacked(b, snapshot, seen, remote);
    LastOfRead(b.view.rows, Cursor(b.view, remote), seen);
    BetweenIn(b.view.rows, Cursor(b.view, remote), seen);
    hide Viewed, Guarded, Delivering, Showing, Between, Unacked;
  }

  lemma ShowsNew(b: Body, snapshot: Db, seen: nat, c: Collected)
    requires Viewed(b, snapshot, seen) && Delivering(b) && c.destroyed == Destroys(b.log) && Distinct(c.ids)
    requires forall id :: id in c.ids <==> id in b.view.entries && (c.remote, id) !in b.view.acks
    requires c.cursor.Some? ==> c.cursor.value.version <= seen
    requires Destroys(b.log) == 0 ==> SentKey(c.remote) in b.readKeys
    requires forall id :: id in c.ids && Destroys(b.log) == 0 ==> AckKey(c.remote, id) in b.readKeys
    ensures Shown(b.(open := b.open + [c], reentered := b.reentered || Serving(b.open, c.remote)), snapshot, seen, c)
  {
    if Destroys(b.log) == 0 { StillThere(b.log, snapshot, seen + 1); }
    SoundFacts(b.view, seen + 1, seen);
    hide Destroys, ApplyAll, Sound, OwnLast, Distinct, Serving, Sorted, Ids, Acked;
  }

  /** What is shown to a callback is owed to its remote. */
  lemma ShowKeeps(b: Body, snapshot: Db, seen: nat, c: Collected)
    requires RunOn(b, snapshot, seen) && c.destroyed == Destroys(b.log) && Distinct(c.ids)
    requires forall id :: id in c.ids <==> id in b.view.entries && (c.remote, id) !in b.view.acks
    requires c.cursor.Some? ==> c.cursor.value.version <= seen
    requires Destroys(b.log) == 0 ==> SentKey(c.remote) in b.readKeys
    requires forall id :: id in c.ids && Destroys(b.log) == 0 ==> AckKey(c.remote, id) in b.readKeys
    ensures RunOn(b.(open := b.open + [c], reentered := b.reentered || Serving(b.open, c.remote)), snapshot, seen)
  {
    var after := b.(open := b.open + [c], reentered := b.reentered || Serving(b.open, c.remote));
    hide Destroys, ApplyAll, Sound, OwnLast;
    ShowsNew(b, snapshot, seen, c);
    hide Guarded, Delivering, Viewed;
    forall i | 0 <= i < |b.open| ensures Shown(after, snapshot, seen, b.open[i]) {
      assert Shown(b, snapshot, seen, b.open[i]);
    }
  }

  /** Halfway through acknowledging: the rest is still owed, and what the cursor passes is covered. */
  ghost predicate Owing(b: Body, snapshot: Db, seen: nat, c: Collected, i: nat) {
    && i <= |c.ids| && Distinct(c.ids) && c.destroyed <= Destroys(b.log)
    && (forall k :: i <= k < |c.ids| ==> Owed(b, snapshot, c.remote, c.ids[k], c.destroyed))
    && (c.cursor.Some? ==> c.cursor.value.version <= seen && (c.destroyed == 0 ==> SentKey(c.remote) in b.readKeys))
    && (c.cursor.Some? && c.destroyed == Destroys(b.log) ==> Covered(b.view, c.remote, c.cursor.value, c.ids))
    && forall k :: 0 <= k < i ==> (c.remote, c.ids[k]) in b.view.acks
  }

  lemma FinishStarts(b: Body, snapshot: Db, seen: nat)
    requires RunOn(b, snapshot, seen) && b.open != []
    ensures var c, after := b.open[|b.open| - 1], b.(open := b.open[..|b.open| - 1]);
            RunOn(after, snapshot, seen) && Owing(after, snapshot, seen, c, 0)
  {
    FewerOpen(b, snapshot, seen);
    assert Shown(b, snapshot, seen, b.open[|b.open| - 1]);
    hide Viewed, Guarded, Delivering, Shown;
    ShownIsOwing(b, snapshot, seen, b.open[|b.open| - 1]);
  }

  lemma FewerOpen(b: Body, snapshot: Db, seen: nat)
    requires RunOn(b, snapshot, seen) && b.open != []
    ensures RunOn(b.(open := b.open[..|b.open| - 1]), snapshot, seen)
  {
    var after := b.(open := b.open[..|b.open| - 1]);
    hide Destroys, ApplyAll, Sound, OwnLast, Distinct, FirstTime, Covered;
    assert Viewed(after, snapshot, seen) && Delivering(after);
    assert Guarded(after, snapshot) by {
      FirstSame(b, after, snapshot);
    }
    hide Viewed, Guarded, Delivering;
    forall i | 0 <= i < |after.open| ensures Shown(after, snapshot, seen, after.open[i]) {
      assert Shown(b, snapshot, seen, b.open[i]);
      FirstSame(b, after, snapshot);
    }
  }

  lemma FirstSame(b: Body, after: Body, snapshot: Db)
    requires after == b.(open := after.open)
    ensures forall remote, id :: FirstTime(after, snapshot, remote, id) == FirstTime(b, snapshot, remote, id)
  {
  }

  lemma ShownIsOwing(b: Body, snapshot: Db, seen: nat, c: Collected)
    requires Shown(b, snapshot, seen, c) && b.open != []
    requires !b.reentered ==> forall i :: 0 <= i < |b.open| - 1 ==> b.open[i].remote != c.remote
    ensures Owing(b.(open := b.open[..|b.open| - 1]), snapshot, seen, c, 0)
  {
    hide Destroys, Covered;
    assert forall k :: 0 <= k < |c.ids| ==> c.ids[k] in c.ids;
  }

  lemma Advanced(b: Body, remote: Remote, cursor: Stamp, v: nat)
    ensures var after := Do(b, Advance(remote, cursor), v);
            && after.view == b.view.(sentAfter := b.view.sentAfter[remote := cursor])
            && after.delivered == b.delivered && after.open == b.open && after.pending == b.pending
  {
  }

  lemma NoneYet(c: Collected, acks: set<(Remote, Id)>, delivered: seq<Delivery>)
    ensures acks + Pairs(c.remote, c.ids[..0]) == acks && delivered + Deliveries(c)[..0] == delivered
    ensures c.ids[..|c.ids|] == c.ids && |Deliveries(c)| == |c.ids| && Deliveries(c)[..|c.ids|] == Deliveries(c)
  {
  }

  lemma OneYet(c: Collected, acks: set<(Remote, Id)>, delivered: seq<Delivery>, i: nat)
    requires i < |c.ids| == |Deliveries(c)|
    ensures acks + Pairs(c.remote, c.ids[..i]) + {(c.remote, c.ids[i])} == acks + Pairs(c.remote, c.ids[..i + 1])
    ensures delivered + Deliveries(c)[..i] + [Delivery(c.remote, c.ids[i], c.destroyed)] == delivered + Deliveries(c)[..i + 1]
  {
    PairsStep(c.remote, c.ids, i);
  }

  lemma OwingStep(b: Body, snapshot: Db, seen: nat, c: Collected, i: nat)
    requires RunOn(b, snapshot, seen) && Owing(b, snapshot, seen, c, i) && i < |c.ids|
    ensures var after := Delivered(b, c.remote, c.ids[i], c.destroyed, seen + 1);
            && RunOn(after, snapshot, seen) && Owing(after, snapshot, seen, c, i + 1)
            && after.delivered == b.delivered + [Delivery(c.remote, c.ids[i], c.destroyed)]
            && after.view == b.view.(acks := b.view.acks + {(c.remote, c.ids[i])})
            && after.open == b.open && after.pending == b.pending
  {
    DeliverKeeps(b, snapshot, seen, c.remote, c.ids[i], c.destroyed);
    hide RunOn, Destroys;
    var after := Delivered(b, c.remote, c.ids[i], c.destroyed, seen + 1);
    forall k | i + 1 <= k < |c.ids| ensures Owed(after, snapshot, c.remote, c.ids[k], c.destroyed) {
      assert Owed(b, snapshot, c.remote, c.ids[k], c.destroyed);
      assert c.ids[i] != c.ids[k];
    }
  }

  lemma OwingEnds(b: Body, snapshot: Db, seen: nat, c: Collected)
    requires RunOn(b, snapshot, seen) && Owing(b, snapshot, seen, c, |c.ids|) && c.cursor.Some?
    ensures RunOn(Do(b, Advance(c.remote, c.cursor.value), seen + 1), snapshot, seen)
  {
    var base := if Destroys(b.log) == 0 then snapshot.rows else [];
    OwnRows(b.view.rows, base, b.pending, seen + 1, b.next);
    hide Guarded, Delivering, Showing, Sound, ApplyAll, OwnLast;
    assert Acked(b.view.rows, b.view.acks, c.remote, c.cursor.value);
    hide Destroys;
    AdvanceKeeps(b, snapshot, seen, c.remote, c.cursor.value);
  }
}
