/** Enqueue order of mailbox messages: index rows stamped at commit, edited while the final stamp
    is still unknown. One transaction attempt is an object; its mutation log is replayed by the
    store on whatever other writers have committed in the meantime. */
module MessageOrder {
  import opened Wrappers
  import opened MessageKeys

  type Space = Key

  const MAX_USER_VERSION := 0xffff

  // ---- Stamps ----

  /** Commit version, batch order within it, and the writer's ordinal. */
  datatype Stamp = Stamp(version: nat, batch: nat, user: nat) {
    predicate Before(that: Stamp) {
      || version < that.version
      || (version == that.version && batch < that.batch)
      || (version == that.version && batch == that.batch && user < that.user)
    }
  }

  /** Everything visible at a read version is below this stamp. */
  function Boundary(readVersion: nat): Stamp {
    Stamp(readVersion + 1, 0, 0)
  }

  // ---- The store ----

  datatype Row = Row(space: Space, stamp: Stamp, id: Id)
  datatype Db = Db(rows: set<Row>, orders: map<Id, Stamp>)

  datatype Mutation =
    | SetStampedRow(space: Space, user: nat, id: Id)
    | SetRow(row: Row)
    | ClearRow(row: Row)
    | ClearTail(space: Space, begin: Stamp)
    | SetStampedOrder(id: Id, user: nat)
    | ClearOrder(id: Id)

  function Apply(m: Mutation, db: Db, at: Stamp): Db {
    match m
    case SetStampedRow(s, u, id) => db.(rows := db.rows + {Row(s, at.(user := u), id)})
    case SetRow(row) => db.(rows := db.rows + {row})
    case ClearRow(row) => db.(rows := db.rows - {row})
    case ClearTail(s, begin) => db.(rows := set r | r in db.rows && (r.space != s || r.stamp.Before(begin)))
    case SetStampedOrder(id, u) => db.(orders := db.orders[id := at.(user := u)])
    case ClearOrder(id) => db.(orders := db.orders - {id})
  }

  /** The store applies the log in order, filling in the commit stamp. */
  function Replay(log: seq<Mutation>, db: Db, at: Stamp): Db {
    if log == [] then db else Apply(log[|log| - 1], Replay(log[..|log| - 1], db, at), at)
  }

  // ---- What a log means ----

  /** The committed rows with only the point edits of the log applied. */
  function Edited(log: seq<Mutation>, rows: set<Row>): set<Row> {
    if log == [] then rows else
      var before := Edited(log[..|log| - 1], rows);
      match log[|log| - 1]
      case SetRow(row) => before + {row}
      case ClearRow(row) => before - {row}
      case _ => before
  }

  /** The rows the log leaves to be stamped. */
  function Written(log: seq<Mutation>): set<(Space, nat, Id)> {
    if log == [] then {} else
      var before := Written(log[..|log| - 1]);
      match log[|log| - 1]
      case SetStampedRow(s, u, id) => before + {(s, u, id)}
      case ClearTail(s, _) => set w | w in before && w.0 != s
      case _ => before
  }

  function Stamped(written: set<(Space, nat, Id)>, at: Stamp): set<Row> {
    set w | w in written :: Row(w.0, at.(user := w.1), w.2)
  }

  /** Point edits stay below the boundary, tails are cleared from it and under a read conflict. */
  ghost predicate WellShaped(log: seq<Mutation>, readVersion: nat, conflicts: set<Space>) {
    forall i :: 0 <= i < |log| ==>
      match log[i]
      case SetRow(row) => row.stamp.Before(Boundary(readVersion))
      case ClearRow(row) => row.stamp.Before(Boundary(readVersion))
      case ClearTail(s, begin) => begin == Boundary(readVersion) && s in conflicts
      case _ => true
  }

  /** The store at commit: newer than the snapshot, everything in it stamped earlier than this
      commit, and nothing new inside the tails the attempt holds a read conflict on. */
  ghost predicate CanCommit(readVersion: nat, snapshot: Db, conflicts: set<Space>, db: Db, at: Stamp) {
    && at.version > readVersion
    && (forall r :: r in db.rows ==> r.stamp.Before(at.(user := 0)))
    && (forall r :: r in snapshot.rows ==> r.stamp.Before(Boundary(readVersion)))
    && (forall r :: r in db.rows && r.space in conflicts && !r.stamp.Before(Boundary(readVersion))
                    ==> r in snapshot.rows)
  }

  lemma {:induction false} EditedStaysBelow(log: seq<Mutation>, readVersion: nat, conflicts: set<Space>, rows: set<Row>)
    requires WellShaped(log, readVersion, conflicts)
    ensures forall r :: r in Edited(log, rows) && r !in rows ==> r.stamp.Before(Boundary(readVersion))
  {
    if log != [] {
      EditedStaysBelow(log[..|log| - 1], readVersion, conflicts, rows);
    }
  }

  /** Replaying a log leaves the committed rows as point-edited, foreign ones included, plus the
      pending rows at this commit's stamp. */
  lemma {:induction false} ReplayedRows(log: seq<Mutation>, readVersion: nat, snapshot: Db,
                                        conflicts: set<Space>, db: Db, at: Stamp)
    requires WellShaped(log, readVersion, conflicts)
    requires CanCommit(readVersion, snapshot, conflicts, db, at)
    ensures Replay(log, db, at).rows == Edited(log, db.rows) + Stamped(Written(log), at)
  {
    if log != [] {
      var init, m := log[..|log| - 1], log[|log| - 1];
      ReplayedRows(init, readVersion, snapshot, conflicts, db, at);
      EditedStaysBelow(init, readVersion, conflicts, db.rows);
      var was := Edited(init, db.rows) + Stamped(Written(init), at);
      match m {
        case SetStampedRow(s, u, id) =>
          assert (s, u, id) in Written(log);
          assert forall w :: w in Written(log) ==> w in Written(init) || w == (s, u, id);
        case ClearRow(row) =>
          assert row !in Stamped(Written(init), at);
        case ClearTail(s, begin) =>
          TailIsPending(init, readVersion, snapshot, conflicts, db, at, s);
        case _ =>
      }
    }
  }

  lemma TailIsPending(init: seq<Mutation>, readVersion: nat, snapshot: Db,
                      conflicts: set<Space>, db: Db, at: Stamp, s: Space)
    requires WellShaped(init, readVersion, conflicts) && s in conflicts
    requires CanCommit(readVersion, snapshot, conflicts, db, at)
    ensures var was, written := Edited(init, db.rows), Written(init);
            (set r | r in was + Stamped(written, at) && (r.space != s || r.stamp.Before(Boundary(readVersion))))
            == was + Stamped((set w | w in written && w.0 != s), at)
  {
    var was, written := Edited(init, db.rows), Written(init);
    var kept := set w | w in written && w.0 != s;
    EditedStaysBelow(init, readVersion, conflicts, db.rows);
    assert forall r :: r in was && r.space == s ==> r.stamp.Before(Boundary(readVersion));
    forall r | r in Stamped(written, at)
      ensures (r.space != s || r.stamp.Before(Boundary(readVersion))) <==> r in Stamped(kept, at)
    {
      var w :| w in written && r == Row(w.0, at.(user := w.1), w.2);
      if r.space != s { assert w in kept; }
    }
  }

  // ---- One transaction attempt ----

  datatype Pending = Pending(id: Id, user: nat, spaces: seq<Space>, indexed: bool)

  datatype Outcome = Done | MissingOrder(id: Id) | UserVersionsExhausted

  /** The rows that the entries still marked indexed ask for. */
  ghost function Wanted(pending: seq<Pending>): (w: set<(Space, nat, Id)>) {
    set e, s | e in pending && e.indexed && s in e.spaces :: (s, e.user, e.id)
  }

  /** Position of an id among the pending entries, or their number. */
  function Find(pending: seq<Pending>, id: Id): (i: nat)
    ensures i <= |pending|
    ensures i < |pending| ==> pending[i].id == id
    ensures i == |pending| <==> forall e :: e in pending ==> e.id != id
    ensures forall j :: 0 <= j < i ==> pending[j].id != id
  {
    if pending == [] || pending[0].id == id then 0 else 1 + Find(pending[1..], id)
  }

  /** The order record of an id as the attempt itself sees it. */
  function OrderView(log: seq<Mutation>, orders: map<Id, Stamp>, id: Id): (stamp: seq<Stamp>)
    ensures |stamp| <= 1
  {
    if log == [] then (if id in orders then [orders[id]] else []) else
      match log[|log| - 1]
      case ClearOrder(other) => if other == id then [] else OrderView(log[..|log| - 1], orders, id)
      case SetStampedOrder(other, _) => if other == id then [] else OrderView(log[..|log| - 1], orders, id)
      case _ => OrderView(log[..|log| - 1], orders, id)
  }

  lemma {:induction false} OrderViewVisible(log: seq<Mutation>, orders: map<Id, Stamp>, id: Id)
    ensures |OrderView(log, orders, id)| == 1 ==> id in orders && OrderView(log, orders, id)[0] == orders[id]
  {
    if log != [] { OrderViewVisible(log[..|log| - 1], orders, id); }
  }

  function StampedWrites(indexes: seq<Space>, user: nat, id: Id): seq<Mutation> {
    seq(|indexes|, i requires 0 <= i < |indexes| => SetStampedRow(indexes[i], user, id))
  }

  function PointEdits(indexes: seq<Space>, stamp: Stamp, id: Id, indexed: bool): seq<Mutation> {
    seq(|indexes|, i requires 0 <= i < |indexes| =>
      var row := Row(indexes[i], stamp, id);
      if indexed then SetRow(row) else ClearRow(row))
  }

  /** Pending entries are distinct ids with rising ordinals. */
  ghost predicate InOrder(pending: seq<Pending>, next: nat) {
    && (forall i :: 0 <= i < |pending| ==> pending[i].user < next)
    && (forall i, j :: 0 <= i < j < |pending| ==> pending[i].user < pending[j].user)
    && (forall i, j :: 0 <= i < j < |pending| ==> pending[i].id != pending[j].id)
  }

  /** The log stamps the order record of every pending entry with its ordinal. */
  ghost predicate Recorded(log: seq<Mutation>, pending: seq<Pending>) {
    forall e :: e in pending ==> PendingOrder(log, e.id) == [e.user]
  }

  lemma InOrderAppend(pending: seq<Pending>, entry: Pending, next: nat)
    requires InOrder(pending, next) && entry.user < next
    requires forall e :: e in pending ==> e.user < entry.user && e.id != entry.id
    ensures InOrder(pending + [entry], next)
  {
    var after := pending + [entry];
    forall i, j | 0 <= i < j < |after|
      ensures after[i].user < after[j].user && after[i].id != after[j].id
    {
      assert after[i] in pending;
    }
  }

  /** The entries left when an id is deleted. */
  function Dropped(pending: seq<Pending>, id: Id): seq<Pending> {
    if pending == [] then []
    else (if pending[0].id == id then [] else [pending[0]]) + Dropped(pending[1..], id)
  }

  lemma {:induction false} DroppedEntries(pending: seq<Pending>, id: Id)
    ensures forall e :: e in Dropped(pending, id) <==> e in pending && e.id != id
  {
    if pending != [] {
      DroppedEntries(pending[1..], id);
      assert pending == [pending[0]] + pending[1..];
    }
  }

  lemma {:induction false} DroppedInOrder(pending: seq<Pending>, id: Id, next: nat)
    requires InOrder(pending, next)
    ensures InOrder(Dropped(pending, id), next)
  {
    if pending != [] {
      var rest := Dropped(pending[1..], id);
      assert InOrder(pending[1..], next);
      DroppedInOrder(pending[1..], id, next);
      DroppedEntries(pending[1..], id);
      if pending[0].id != id { InOrderPrepend(pending, rest, next); } else { assert [] + rest == rest; }
    }
  }

  lemma InOrderPrepend(pending: seq<Pending>, rest: seq<Pending>, next: nat)
    requires InOrder(pending, next) && pending != [] && InOrder(rest, next)
    requires forall e :: e in rest ==> e in pending[1..]
    ensures InOrder([pending[0]] + rest, next)
  {
    forall e | e in rest ensures pending[0].user < e.user && pending[0].id != e.id {
      var i :| 0 <= i < |pending[1..]| && pending[1..][i] == e;
      assert pending[i + 1] == e;
    }
    var after := [pending[0]] + rest;
    assert forall i :: 0 < i < |after| ==> after[i] == rest[i - 1] && after[i] in rest;
  }

  lemma EnlistStep(log: seq<Mutation>, pending: seq<Pending>, entry: Pending, readVersion: nat, conflicts: set<Space>)
    requires WellShaped(log, readVersion, conflicts) && Recorded(log, pending)
    requires forall e :: e in pending ==> e.id != entry.id
    ensures var after := log + [SetStampedOrder(entry.id, entry.user)];
            && WellShaped(after, readVersion, conflicts)
            && Recorded(after, pending + [entry])
            && Written(after) == Written(log)
  {
    assert (log + [SetStampedOrder(entry.id, entry.user)])[..|log|] == log;
  }

  lemma StampedRowStep(log: seq<Mutation>, pending: seq<Pending>, readVersion: nat, conflicts: set<Space>,
                       space: Space, user: nat, id: Id)
    requires WellShaped(log, readVersion, conflicts) && Recorded(log, pending)
    ensures var after := log + [SetStampedRow(space, user, id)];
            && WellShaped(after, readVersion, conflicts) && Recorded(after, pending)
            && Written(after) == Written(log) + {(space, user, id)}
  {
    assert (log + [SetStampedRow(space, user, id)])[..|log|] == log;
  }

  lemma ClearTailStep(log: seq<Mutation>, pending: seq<Pending>, readVersion: nat, conflicts: set<Space>, space: Space)
    requires WellShaped(log, readVersion, conflicts) && Recorded(log, pending)
    ensures var after := log + [ClearTail(space, Boundary(readVersion))];
            && WellShaped(after, readVersion, conflicts + {space}) && Recorded(after, pending)
            && (forall w :: w in Written(after) <==> w in Written(log) && w.0 != space)
  {
    assert (log + [ClearTail(space, Boundary(readVersion))])[..|log|] == log;
  }

  lemma ForgetStep(log: seq<Mutation>, pending: seq<Pending>, id: Id, next: nat,
                   readVersion: nat, conflicts: set<Space>)
    requires WellShaped(log, readVersion, conflicts) && Recorded(log, pending) && InOrder(pending, next)
    requires forall e :: e in pending && e.id == id ==> !e.indexed
    ensures var after, rest := log + [ClearOrder(id)], Dropped(pending, id);
            && WellShaped(after, readVersion, conflicts)
            && InOrder(rest, next) && Recorded(after, rest)
            && Written(after) == Written(log) && Wanted(rest) == Wanted(pending)
  {
    assert (log + [ClearOrder(id)])[..|log|] == log;
    DroppedEntries(pending, id);
    DroppedInOrder(pending, id, next);
  }

  /** Deleting an id does not depend on its flag. */
  lemma {:induction false} DroppedSame(was: seq<Pending>, id: Id, now: seq<Pending>)
    requires |was| == |now|
    requires forall j :: 0 <= j < |was| ==> now[j] == was[j] || (was[j].id == id && now[j].id == id)
    ensures Dropped(was, id) == Dropped(now, id)
  {
    if was != [] { DroppedSame(was[1..], id, now[1..]); }
  }

  lemma WantedUpdate(pending: seq<Pending>, i: nat, entry: Pending)
    requires i < |pending| && entry == pending[i].(indexed := !pending[i].indexed)
    requires forall j :: 0 <= j < |pending| && j != i ==> pending[j].id != pending[i].id
    ensures forall w :: w in Wanted(pending[i := entry]) <==>
              if w.2 == entry.id && w.1 == entry.user && w.0 in entry.spaces then entry.indexed else w in Wanted(pending)
  {
    var after := pending[i := entry];
    assert entry in after by { assert after[i] == entry; }
    assert forall j :: 0 <= j < |pending| && j != i ==> after[j] == pending[j];
    assert forall e :: e in pending && e.id != entry.id ==> e in after;
    assert forall e :: e in after && e.id != entry.id ==> e in pending;
    assert forall e :: e in after && e.id == entry.id ==> e == entry;
    assert forall e :: e in pending && e.id == entry.id ==> e == pending[i];
  }

  lemma WantedAppend(pending: seq<Pending>, entry: Pending)
    ensures Wanted(pending + [entry]) == Wanted(pending) +
              if entry.indexed then set s | s in entry.spaces :: (s, entry.user, entry.id) else {}
  {
  }

  /** The part of `Wanted` that belongs to one index. */
  ghost function WantedIn(pending: seq<Pending>, space: Space): set<(Space, nat, Id)> {
    set e | e in pending && e.indexed && space in e.spaces :: (space, e.user, e.id)
  }

  /** The ordinal the log last gave an id, if its order record is to be stamped. */
  function PendingOrder(log: seq<Mutation>, id: Id): seq<nat> {
    if log == [] then [] else
      match log[|log| - 1]
      case ClearOrder(other) => if other == id then [] else PendingOrder(log[..|log| - 1], id)
      case SetStampedOrder(other, u) => if other == id then [u] else PendingOrder(log[..|log| - 1], id)
      case _ => PendingOrder(log[..|log| - 1], id)
  }

  /** Nothing but rows at stamps still to come was written or cleared since. */
  ghost predicate PendingOnly(before: seq<Mutation>, after: seq<Mutation>) {
    && |before| <= |after| && after[..|before|] == before
    && forall k :: |before| <= k < |after| ==> after[k].SetStampedRow? || after[k].ClearTail?
  }

  /** Such a log leaves committed rows and every order record as they were. */
  lemma {:induction false} PendingOnlyKeeps(before: seq<Mutation>, after: seq<Mutation>)
    requires PendingOnly(before, after)
    ensures forall rows :: Edited(after, rows) == Edited(before, rows)
    ensures forall id :: PendingOrder(after, id) == PendingOrder(before, id)
    ensures forall orders, id :: OrderView(after, orders, id) == OrderView(before, orders, id)
  {
    if after != before {
      var front := after[..|after| - 1];
      assert front[..|before|] == before;
      PendingOnlyKeeps(before, front);
    }
  }

  /** Enqueuing an id touches no committed row and no other order record. */
  lemma EnlistKeeps(before: seq<Mutation>, log: seq<Mutation>, entry: Pending)
    requires PendingOnly(before, log)
    ensures var after := log + [SetStampedOrder(entry.id, entry.user)];
            && (forall rows :: Edited(after, rows) == Edited(before, rows))
            && (forall other :: other != entry.id ==> PendingOrder(after, other) == PendingOrder(before, other))
            && (forall orders, other :: other != entry.id ==> OrderView(after, orders, other) == OrderView(before, orders, other))
  {
    PendingOnlyKeeps(before, log);
    assert (log + [SetStampedOrder(entry.id, entry.user)])[..|log|] == log;
  }

  lemma PointEditStep(log: seq<Mutation>, pending: seq<Pending>, readVersion: nat, conflicts: set<Space>, row: Row,
                      indexed: bool)
    requires WellShaped(log, readVersion, conflicts) && Recorded(log, pending) && row.stamp.Before(Boundary(readVersion))
    ensures var after := log + [if indexed then SetRow(row) else ClearRow(row)];
            WellShaped(after, readVersion, conflicts) && Recorded(after, pending) && Written(after) == Written(log)
  {
    var edit := if indexed then SetRow(row) else ClearRow(row);
    assert (log + [edit])[..|log|] == log;
  }

  lemma PointEditsNone(indexes: seq<Space>, stamp: Stamp, id: Id, indexed: bool)
    ensures PointEdits(indexes[..0], stamp, id, indexed) == [] && indexes[..|indexes|] == indexes
  {
  }

  lemma PointEditsMore(indexes: seq<Space>, k: nat, stamp: Stamp, id: Id, indexed: bool)
    requires k < |indexes|
    ensures var row := Row(indexes[k], stamp, id);
            PointEdits(indexes[..k + 1], stamp, id, indexed)
            == PointEdits(indexes[..k], stamp, id, indexed) + [if indexed then SetRow(row) else ClearRow(row)]
  {
  }

  lemma WantedInMore(pending: seq<Pending>, k: nat, space: Space)
    requires k < |pending|
    ensures WantedIn(pending[..k + 1], space) == WantedIn(pending[..k], space) +
              if pending[k].indexed && space in pending[k].spaces then {(space, pending[k].user, pending[k].id)} else {}
  {
    assert pending[..k + 1] == pending[..k] + [pending[k]];
  }

  lemma WantedInAll(pending: seq<Pending>, space: Space)
    ensures WantedIn(pending[..0], space) == {} && pending[..|pending|] == pending
    ensures forall w :: w in WantedIn(pending, space) <==> w in Wanted(pending) && w.0 == space
  {
  }

  /** To index an entry takes its own indexes; to unindex it all of them have to be among those rebuilt. */
  ghost predicate Serves(indexes: seq<Space>, e: Pending, indexed: bool) {
    e.indexed == indexed || if indexed then (forall s :: s in e.spaces <==> s in indexes) else forall s :: s in e.spaces ==> s in indexes
  }

  lemma Reindexed(was: seq<Pending>, i: nat, entry: Pending, indexes: seq<Space>, before: set<(Space, nat, Id)>,
                  after: set<(Space, nat, Id)>, next: nat)
    requires InOrder(was, next) && i < |was| && !was[i].indexed && entry == was[i].(indexed := true)
    requires before == Wanted(was) && after == before + set s | s in indexes :: (s, entry.user, entry.id)
    ensures after == Wanted(was[i := entry]) <==> Serves(indexes, was[i], true)
  {
    WantedUpdate(was, i, entry);
    forall s ensures (s, entry.user, entry.id) !in before { }
    forall s ensures (s, entry.user, entry.id) in after <==> s in indexes { }
    forall s ensures (s, entry.user, entry.id) in Wanted(was[i := entry]) <==> s in entry.spaces { }
    hide Wanted, InOrder;
    if Serves(indexes, was[i], true) {
      forall w ensures w in after <==> w in Wanted(was[i := entry]) {
        if w.1 == entry.user && w.2 == entry.id { assert w == (w.0, entry.user, entry.id); }
      }
    }
  }

  lemma Unindexed(was: seq<Pending>, i: nat, entry: Pending, indexes: seq<Space>, after: set<(Space, nat, Id)>)
    requires i < |was| && was[i].indexed && entry == was[i].(indexed := false)
    requires forall j :: 0 <= j < |was| && j != i ==> was[j].id != was[i].id
    requires forall w :: w in after <==> if w.0 in indexes then w in Wanted(was[i := entry]) else w in Wanted(was)
    ensures after == Wanted(was[i := entry]) <==> Serves(indexes, was[i], false)
  {
    WantedUpdate(was, i, entry);
    assert was[i] in was;
    forall s | s in entry.spaces && s !in indexes ensures (s, entry.user, entry.id) in after { }
    hide Wanted;
  }

  lemma NextOrdinal(pending: seq<Pending>, next: nat)
    requires InOrder(pending, next)
    ensures InOrder(pending, next + 1) && forall e :: e in pending ==> e.user < next
  {
  }

  lemma UnmarkedNow(was: seq<Pending>, i: nat, now: seq<Pending>, id: Id, next: nat)
    requires InOrder(was, next) && i == Find(was, id)
    requires now == if i < |was| then was[i := was[i].(indexed := false)] else was
    ensures |now| == |was|
    ensures forall e :: e in now && e.id == id ==> !e.indexed
    ensures forall j :: 0 <= j < |was| ==> now[j] == was[j] || (was[j].id == id && now[j].id == id)
  {
  }

  lemma NotFound(pending: seq<Pending>, id: Id)
    requires Find(pending, id) == |pending|
    ensures forall e :: e in pending ==> e.id != id
  {
  }

  function OwnRows(indexes: seq<Space>, stamp: Stamp, id: Id): set<Row> {
    set s | s in indexes :: Row(s, stamp, id)
  }

  /** Clearing an order record touches no row and no other record. */
  lemma ForgetsOnly(log: seq<Mutation>, id: Id)
    ensures var after := log + [ClearOrder(id)];
            && (forall rows :: Edited(after, rows) == Edited(log, rows))
            && PendingOrder(after, id) == []
            && (forall orders :: OrderView(after, orders, id) == [])
            && (forall other :: other != id ==> PendingOrder(after, other) == PendingOrder(log, other))
            && (forall orders, other :: other != id ==> OrderView(after, orders, other) == OrderView(log, orders, other))
  {
    assert (log + [ClearOrder(id)])[..|log|] == log;
  }

  /** Point edits touch no order record. */
  lemma {:induction false} PointEditsKeepOrders(log: seq<Mutation>, indexes: seq<Space>, stamp: Stamp, id: Id,
                              indexed: bool)
    ensures var after := log + PointEdits(indexes, stamp, id, indexed);
            && (forall other :: PendingOrder(after, other) == PendingOrder(log, other))
            && (forall orders, other :: OrderView(after, orders, other) == OrderView(log, orders, other))
  {
    var edits := PointEdits(indexes, stamp, id, indexed);
    if indexes == [] {
      assert log + edits == log;
    } else {
      var n := |indexes| - 1;
      PointEditsKeepOrders(log, indexes[..n], stamp, id, indexed);
      assert (log + edits)[..|log| + n] == log + PointEdits(indexes[..n], stamp, id, indexed);
    }
  }

  lemma ForgetsCommitted(log: seq<Mutation>, indexes: seq<Space>, stamp: Stamp, id: Id)
    ensures var after := log + PointEdits(indexes, stamp, id, false);
            && (forall other :: PendingOrder(after, other) == PendingOrder(log, other))
            && (forall orders, other :: OrderView(after, orders, other) == OrderView(log, orders, other))
            && (forall rows :: Edited(after, rows) == Edited(log, rows) - OwnRows(indexes, stamp, id))
  {
    PointEditsKeepOrders(log, indexes, stamp, id, false);
    forall rows ensures Edited(log + PointEdits(indexes, stamp, id, false), rows) == Edited(log, rows) - OwnRows(indexes, stamp, id) {
      EditedByPoints(log, indexes, stamp, id, false, rows);
    }
  }

  class Attempt {
    const readVersion: nat
    const snapshot: Db
    var log: seq<Mutation>
    var conflicts: set<Space>
    var next: nat
    var pending: seq<Pending>
    var committed: map<Id, Stamp>

    ghost predicate Valid()
      reads this
    {
      && WellShaped(log, readVersion, conflicts)
      && (forall r :: r in snapshot.rows ==> r.stamp.Before(Boundary(readVersion)))
      && (forall id :: id in snapshot.orders ==> snapshot.orders[id].Before(Boundary(readVersion)))
      && (forall id :: id in committed ==> committed[id].Before(Boundary(readVersion)))
      && InOrder(pending, next)
      && Recorded(log, pending)
    }

    /** What is left to be stamped is what the indexed entries ask for. */
    ghost predicate InStep()
      reads this
    {
      Valid() && Written(log) == Wanted(pending)
    }

    constructor (readVersion: nat, snapshot: Db)
      requires forall r :: r in snapshot.rows ==> r.stamp.Before(Boundary(readVersion))
      requires forall id :: id in snapshot.orders ==> snapshot.orders[id].Before(Boundary(readVersion))
      ensures InStep()
      ensures this.readVersion == readVersion && this.snapshot == snapshot
      ensures log == [] && pending == [] && conflicts == {} && committed == map[] && next == 0
    {
      this.readVersion, this.snapshot := readVersion, snapshot;
      log, conflicts, next, pending, committed := [], {}, 0, [], map[];
    }

    /** One more mutation at the end of the log. */
    method Append(m: Mutation)
      modifies this`log
      ensures log == old(log) + [m] && log[..|log| - 1] == old(log)
    {
      log := log + [m];
    }

    method WriteIndex(space: Space, entry: Pending)
      requires Valid()
      modifies this`log
      ensures Valid() && log == old(log) + [SetStampedRow(space, entry.user, entry.id)]
      ensures Written(log) == old(Written(log)) + {(space, entry.user, entry.id)}
    {
      StampedRowStep(log, pending, readVersion, conflicts, space, entry.user, entry.id);
      hide WellShaped, InOrder, Recorded, Written, Edited, PendingOrder;
      Append(SetStampedRow(space, entry.user, entry.id));
    }

    method WriteIndexes(indexes: seq<Space>, entry: Pending)
      requires Valid()
      modifies this`log
      ensures Valid() && log == old(log) + StampedWrites(indexes, entry.user, entry.id)
      ensures Written(log) == old(Written(log)) + set s | s in indexes :: (s, entry.user, entry.id)
    {
      hide WellShaped, InOrder, Recorded, Written, Edited, PendingOrder;
      for k := 0 to |indexes|
        invariant Valid() && log == old(log) + StampedWrites(indexes[..k], entry.user, entry.id)
        invariant Written(log) == old(Written(log)) + set s | s in indexes[..k] :: (s, entry.user, entry.id)
      {
        WriteIndex(indexes[k], entry);
        assert indexes[..k + 1] == indexes[..k] + [indexes[k]];
      }
      assert indexes[..|indexes|] == indexes;
    }

    /** Enqueues an id at the next ordinal of this transaction. */
    method InsertMessageOrder(id: Id, indexes: seq<Space>, indexed: bool) returns (outcome: Outcome)
      requires InStep() && Find(pending, id) == |pending|
      modifies this`log, this`next, this`pending
      ensures InStep()
      ensures next == old(next) + 1
      ensures outcome == if old(next) > MAX_USER_VERSION then UserVersionsExhausted else Done
      ensures outcome.Done? ==> pending == old(pending) + [Pending(id, old(next), indexes, indexed)]
      ensures outcome.Done? ==>
                log == old(log) + (if indexed then StampedWrites(indexes, old(next), id) else [])
                       + [SetStampedOrder(id, old(next))]
      ensures !outcome.Done? ==> pending == old(pending) && log == old(log)
      ensures forall rows :: Edited(log, rows) == old(Edited(log, rows))
      ensures forall other :: other != id ==> PendingOrder(log, other) == old(PendingOrder(log, other))
      ensures forall other :: other != id ==> OrderView(log, snapshot.orders, other) == OrderView(old(log), snapshot.orders, other)
    {
      ghost var before := log;
      hide WellShaped, InOrder, Recorded, Wanted, Written, Edited, OrderView, PendingOrder;
      var user := next;
      next := next + 1;
      NextOrdinal(pending, user);
      if user > MAX_USER_VERSION { return UserVersionsExhausted; }
      var entry := Pending(id, user, indexes, indexed);
      NotFound(pending, id);
      if indexed {
        WriteIndexes(indexes, entry);
      }
      WantedAppend(pending, entry);
      EnlistKeeps(before, log, entry);
      Enlist(entry);
      return Done;
    }

    method Enlist(entry: Pending)
      requires Valid() && Find(pending, entry.id) == |pending| && entry.user < next
      requires forall e :: e in pending ==> e.user < entry.user
      requires Written(log) == Wanted(pending + [entry])
      modifies this`log, this`pending
      ensures InStep()
      ensures log == old(log) + [SetStampedOrder(entry.id, entry.user)]
      ensures pending == old(pending) + [entry]
    {
      hide WellShaped, InOrder, Recorded, Wanted, Written;
      InOrderAppend(pending, entry, next);
      EnlistStep(log, pending, entry, readVersion, conflicts);
      Append(SetStampedOrder(entry.id, entry.user));
      pending := pending + [entry];
    }

    /** Where an id stands: its ordinal in this attempt, or its committed stamp. */
    method MessageOrder(id: Id) returns (stamp: Option<Stamp>, user: Option<nat>)
      requires Valid()
      ensures var i := Find(pending, id);
              if i < |pending| then stamp == None && user == Some(pending[i].user)
              else user == None && stamp == ObservedOrder(id)
      ensures stamp.Some? ==> stamp.value.Before(Boundary(readVersion))
    {
      var i := Find(pending, id);
      if i < |pending| { return None, Some(pending[i].user); }
      if id in committed { return Some(committed[id]), None; }
      var value := OrderView(log, snapshot.orders, id);
      OrderViewVisible(log, snapshot.orders, id);
      if |value| == 0 { return None, None; }
      return Some(value[0]), None;
    }

    ghost function ObservedOrder(id: Id): Option<Stamp>
      reads this
    {
      if id in committed then Some(committed[id])
      else
        var value := OrderView(log, snapshot.orders, id);
        if |value| == 0 then None else Some(value[0])
    }

    /** A visited row has already supplied the stamp: its order record need not be read again. */
    method Observe(id: Id, stamp: Stamp)
      requires InStep() && stamp.Before(Boundary(readVersion))
      modifies this`committed
      ensures InStep() && committed == old(committed)[id := stamp]
    {
      committed := committed[id := stamp];
    }

    /** Changes index membership and keeps the position. Unindexing a pending id cannot name its
        key, so the whole uncommitted tail of each index is cleared and the survivors reissued. The log stays
        in step exactly when the indexes given are those the pending entry needs. */
    method SetMessageOrderIndexed(id: Id, indexes: seq<Space>, indexed: bool) returns (outcome: Outcome)
      requires InStep()
      modifies this`log, this`conflicts, this`pending
      ensures Valid() && old(conflicts) <= conflicts
      ensures var i := Find(old(pending), id);
              InStep() <==> (i < |old(pending)| ==> Serves(indexes, old(pending)[i], indexed))
      ensures var i := Find(old(pending), id);
              if i < |old(pending)| then
                && outcome == Done
                && pending == old(pending)[i := old(pending)[i].(indexed := indexed)]
                && PendingOnly(old(log), log)
                && (forall rows :: Edited(log, rows) == old(Edited(log, rows)))
                && (forall other :: PendingOrder(log, other) == old(PendingOrder(log, other)))
                && (forall other :: OrderView(log, snapshot.orders, other) == OrderView(old(log), snapshot.orders, other))
              else
                && pending == old(pending)
                && (old(ObservedOrder(id)) == None ==> outcome == MissingOrder(id) && log == old(log))
                && (old(ObservedOrder(id)) != None ==>
                      outcome == Done && log == old(log) + PointEdits(indexes, old(ObservedOrder(id)).value, id, indexed))
    {
      var i := Find(pending, id);
      if i < |pending| {
        if pending[i].indexed == indexed { return Done; }
        ghost var before := log;
        if indexed {
          Reindex(i, indexes);
        } else {
          Unindex(i, indexes);
        }
        PendingOnlyKeeps(before, log);
        return Done;
      }
      var stamp, _ := MessageOrder(id);
      if stamp == None { return MissingOrder(id); }
      EditPoints(indexes, stamp.value, id, indexed);
      return Done;
    }

    method EditPoints(indexes: seq<Space>, stamp: Stamp, id: Id, indexed: bool)
      requires InStep() && stamp.Before(Boundary(readVersion))
      modifies this`log
      ensures InStep() && log == old(log) + PointEdits(indexes, stamp, id, indexed)
    {
      PointEditsNone(indexes, stamp, id, indexed);
      hide WellShaped, InOrder, Recorded, Written, Wanted, PointEdits;
      for k := 0 to |indexes|
        invariant InStep() && log == old(log) + PointEdits(indexes[..k], stamp, id, indexed)
      {
        var row := Row(indexes[k], stamp, id);
        PointEditStep(log, pending, readVersion, conflicts, row, indexed);
        PointEditsMore(indexes, k, stamp, id, indexed);
        Append(if indexed then SetRow(row) else ClearRow(row));
      }
    }

    method Reindex(i: nat, indexes: seq<Space>)
      requires InStep() && i < |pending| && !pending[i].indexed
      modifies this`log, this`pending
      ensures Valid() && (InStep() <==> Serves(indexes, old(pending)[i], true))
      ensures pending == old(pending)[i := old(pending)[i].(indexed := true)]
      ensures PendingOnly(old(log), log)
    {
      var entry := pending[i].(indexed := true);
      ghost var was := pending;
      pending := pending[i := entry];
      ghost var before := Written(log);
      WriteIndexes(indexes, entry);
      WantedUpdate(was, i, entry);
      Reindexed(was, i, entry, indexes, before, Written(log), next);
    }

    method Unindex(i: nat, indexes: seq<Space>)
      requires InStep() && i < |pending| && pending[i].indexed
      modifies this`log, this`conflicts, this`pending
      ensures Valid() && old(conflicts) <= conflicts
      ensures InStep() <==> Serves(indexes, old(pending)[i], false)
      ensures pending == old(pending)[i := old(pending)[i].(indexed := false)]
      ensures PendingOnly(old(log), log)
    {
      ghost var was := pending;
      var entry := pending[i].(indexed := false);
      pending := pending[i := entry];
      WantedUpdate(was, i, entry);
      for k := 0 to |indexes|
        invariant Valid() && pending == was[i := entry] && old(conflicts) <= conflicts
        invariant forall w :: w in Written(log) <==> if w.0 in indexes[..k] then w in Wanted(pending) else w in Wanted(was)
        invariant PendingOnly(old(log), log)
      {
        RebuildTail(indexes[k]);
        assert indexes[..k + 1] == indexes[..k] + [indexes[k]];
      }
      assert indexes[..|indexes|] == indexes;
      Unindexed(was, i, entry, indexes, Written(log));
    }

    /** Clears one index above the boundary, under a read conflict, and writes back every entry
        still marked indexed. */
    method RebuildTail(space: Space)
      requires Valid()
      modifies this`log, this`conflicts
      ensures Valid() && old(conflicts) <= conflicts
      ensures forall w :: w in Written(log) <==> if w.0 == space then w in Wanted(pending) else w in old(Written(log))
      ensures PendingOnly(old(log), log)
    {
      ClearTailStep(log, pending, readVersion, conflicts, space);
      WantedInAll(pending, space);
      hide WellShaped, InOrder, Recorded, Written, Wanted, WantedIn;
      conflicts := conflicts + {space};
      Append(ClearTail(space, Boundary(readVersion)));
      ghost var others := Written(log);
      for k := 0 to |pending|
        invariant Valid() && old(conflicts) <= conflicts && PendingOnly(old(log), log)
        invariant Written(log) == others + WantedIn(pending[..k], space)
      {
        WantedInMore(pending, k, space);
        if pending[k].indexed && space in pending[k].spaces {
          WriteIndex(space, pending[k]);
        }
      }
    }

    /** Forgets an id: its index rows, pending entry, cached stamp and order record, and no other's. */
    method RemoveMessageOrder(id: Id, indexes: seq<Space>) returns (outcome: Outcome)
      requires InStep()
      requires forall e :: e in pending && e.id == id ==> Serves(indexes, e, false)
      modifies this`log, this`conflicts, this`pending, this`committed
      ensures InStep() && old(conflicts) <= conflicts
      ensures outcome == if Find(old(pending), id) < |old(pending)| || old(ObservedOrder(id)) != None then Done else MissingOrder(id)
      ensures !outcome.Done? ==> log == old(log) && pending == old(pending) && committed == old(committed)
      ensures outcome.Done? ==>
                && pending == Dropped(old(pending), id) && committed == old(committed) - {id}
                && PendingOrder(log, id) == [] && OrderView(log, snapshot.orders, id) == []
                && (forall other :: other != id ==> PendingOrder(log, other) == old(PendingOrder(log, other)))
                && (forall other :: other != id ==>
                      OrderView(log, snapshot.orders, other) == OrderView(old(log), snapshot.orders, other))
      ensures outcome.Done? && Find(old(pending), id) < |old(pending)| ==>
                forall rows :: Edited(log, rows) == old(Edited(log, rows))
      ensures outcome.Done? && Find(old(pending), id) == |old(pending)| ==>
                var stamp := old(ObservedOrder(id)).value;
                && log == old(log) + PointEdits(indexes, stamp, id, false) + [ClearOrder(id)]
                && forall rows :: Edited(log, rows) == old(Edited(log, rows)) - OwnRows(indexes, stamp, id)
    {
      hide WellShaped, InOrder, Recorded, Wanted, Written, PendingOnly, Edited, OrderView, PendingOrder, PointEdits, OwnRows, Dropped;
      ghost var was, before := pending, log;
      ghost var i := Find(was, id);
      ghost var observed := ObservedOrder(id);
      outcome := SetMessageOrderIndexed(id, indexes, false);
      if !outcome.Done? { return; }
      ghost var middle := log;
      UnmarkedNow(was, i, pending, id, next);
      DroppedSame(was, id, pending);
      Forget(id);
      ForgetsOnly(middle, id);
      if i == |was| {
        ForgetsCommitted(before, indexes, observed.value, id);
      }
    }

    method Forget(id: Id)
      requires InStep()
      requires forall e :: e in pending && e.id == id ==> !e.indexed
      modifies this`log, this`pending, this`committed
      ensures InStep() && committed == old(committed) - {id}
      ensures log == old(log) + [ClearOrder(id)] && log[..|log| - 1] == old(log)
      ensures pending == Dropped(old(pending), id)
    {
      hide WellShaped, InOrder, Recorded, Wanted, Written;
      ForgetStep(log, pending, id, next, readVersion, conflicts);
      pending := Dropped(pending, id);
      committed := committed - {id};
      Append(ClearOrder(id));
    }
  }

  /** The entries of an attempt get the ordinals 0, 1, 2, ... in the order of their insertion, 65536 of them; the
      next insertion of the same attempt, and every one after it, fails. */
  method InsertInTurn(readVersion: nat, snapshot: Db, ids: seq<Id>, indexes: seq<Space>) returns (a: Attempt, failed: nat)
    requires forall r :: r in snapshot.rows ==> r.stamp.Before(Boundary(readVersion))
    requires forall id :: id in snapshot.orders ==> snapshot.orders[id].Before(Boundary(readVersion))
    requires forall i, j :: 0 <= i < j < |ids| ==> ids[i] != ids[j]
    ensures a.InStep() && a.next == |ids|
    ensures |a.pending| == (if |ids| <= 65_536 then |ids| else 65_536) && failed == |ids| - |a.pending|
    ensures forall k :: 0 <= k < |a.pending| ==> a.pending[k] == Pending(ids[k], k, indexes, true)
  {
    hide WellShaped, InOrder, Recorded, Wanted, Written, Edited, OrderView, PendingOrder, StampedWrites;
    a := new Attempt(readVersion, snapshot);
    failed := 0;
    for i := 0 to |ids|
      invariant fresh(a) && a.InStep() && a.next == i
      invariant |a.pending| == (if i <= 65_536 then i else 65_536) && failed == i - |a.pending|
      invariant forall k :: 0 <= k < |a.pending| ==> a.pending[k] == Pending(ids[k], k, indexes, true)
    {
      var outcome := a.InsertMessageOrder(ids[i], indexes, true);
      if outcome != Done { failed := failed + 1; }
    }
  }

  // ---- Commit ----

  lemma OwnRowsMore(indexes: seq<Space>, n: nat, stamp: Stamp, id: Id)
    requires n < |indexes|
    ensures OwnRows(indexes[..n + 1], stamp, id) == OwnRows(indexes[..n], stamp, id) + {Row(indexes[n], stamp, id)}
  {
    assert indexes[..n + 1] == indexes[..n] + [indexes[n]];
  }

  lemma EditedMore(log: seq<Mutation>, row: Row, indexed: bool, rows: set<Row>)
    ensures Edited(log + [if indexed then SetRow(row) else ClearRow(row)], rows)
            == if indexed then Edited(log, rows) + {row} else Edited(log, rows) - {row}
  {
    var edit := if indexed then SetRow(row) else ClearRow(row);
    assert (log + [edit])[..|log|] == log;
  }

  /** A point edit adds or removes exactly the id's own rows. */
  lemma {:induction false} EditedByPoints(log: seq<Mutation>, indexes: seq<Space>, stamp: Stamp, id: Id,
                                          indexed: bool, rows: set<Row>)
    ensures var own := OwnRows(indexes, stamp, id);
            Edited(log + PointEdits(indexes, stamp, id, indexed), rows)
            == if indexed then Edited(log, rows) + own else Edited(log, rows) - own
  {
    var edits := PointEdits(indexes, stamp, id, indexed);
    if indexes == [] {
      assert log + edits == log;
    } else {
      var n := |indexes| - 1;
      var row, before := Row(indexes[n], stamp, id), log + PointEdits(indexes[..n], stamp, id, indexed);
      EditedByPoints(log, indexes[..n], stamp, id, indexed, rows);
      OwnRowsMore(indexes, n, stamp, id);
      EditedMore(before, row, indexed, rows);
      assert indexes[..n + 1] == indexes;
      assert log + edits == before + [if indexed then SetRow(row) else ClearRow(row)];
      hide *;
    }
  }

  /** Replaying sets an order record to the pending ordinal, or to what the point view says. */
  lemma {:induction false} ReplayedOrder(log: seq<Mutation>, db: Db, at: Stamp, id: Id)
    ensures var after := Replay(log, db, at).orders;
            (if id in after then [after[id]] else []) ==
            (if PendingOrder(log, id) != [] then [at.(user := PendingOrder(log, id)[0])]
             else OrderView(log, db.orders, id))
  {
    if log != [] { ReplayedOrder(log[..|log| - 1], db, at, id); }
  }

  /** Where an attempt sees an id before commit. */
  datatype Place = AtStamp(stamp: Stamp) | AtOrdinal(user: nat) {
    predicate Before(that: Place) {
      match this
      case AtStamp(s) => that.AtOrdinal? || s.Before(that.stamp)
      case AtOrdinal(u) => that.AtOrdinal? && u < that.user
    }

    function Final(at: Stamp): Stamp {
      match this
      case AtStamp(s) => s
      case AtOrdinal(u) => at.(user := u)
    }
  }

  /** The places an attempt sees in one index: its point-edited snapshot, then its own entries. */
  ghost predicate Sees(a: Attempt, space: Space, place: Place, id: Id)
    reads a
  {
    match place
    case AtStamp(s) => Row(space, s, id) in Edited(a.log, a.snapshot.rows)
    case AtOrdinal(u) => (space, u, id) in Wanted(a.pending)
  }

  /** Commit keeps exactly the edited committed rows and the entries still marked indexed, erases
      no row another writer committed meanwhile, and records the pending orders. */
  lemma {:induction false} CommitKeepsIndexes(a: Attempt, db: Db, at: Stamp)
    requires a.InStep() && CanCommit(a.readVersion, a.snapshot, a.conflicts, db, at)
    ensures Replay(a.log, db, at).rows == Edited(a.log, db.rows) + Stamped(Wanted(a.pending), at)
    ensures forall r :: r in db.rows && !r.stamp.Before(Boundary(a.readVersion)) ==> r in Replay(a.log, db, at).rows
    ensures forall e :: e in a.pending ==>
              e.id in Replay(a.log, db, at).orders && Replay(a.log, db, at).orders[e.id] == at.(user := e.user)
  {
    ReplayedRows(a.log, a.readVersion, a.snapshot, a.conflicts, db, at);
    EditedKeepsAbove(a.log, a.readVersion, a.conflicts, db.rows);
    forall e | e in a.pending
      ensures e.id in Replay(a.log, db, at).orders && Replay(a.log, db, at).orders[e.id] == at.(user := e.user)
    {
      ReplayedOrder(a.log, db, at, e.id);
    }
  }

  lemma {:induction false} EditedKeepsAbove(log: seq<Mutation>, readVersion: nat, conflicts: set<Space>, rows: set<Row>)
    requires WellShaped(log, readVersion, conflicts)
    ensures forall r :: r in rows && !r.stamp.Before(Boundary(readVersion)) ==> r in Edited(log, rows)
  {
    if log != [] { EditedKeepsAbove(log[..|log| - 1], readVersion, conflicts, rows); }
  }

  /** The order an attempt sees before commit is the order its rows have afterwards. */
  lemma {:induction false} CommitKeepsOrder(a: Attempt, db: Db, at: Stamp, space: Space, p: Place, x: Id, q: Place, y: Id)
    requires a.InStep() && CanCommit(a.readVersion, a.snapshot, a.conflicts, db, at)
    requires Sees(a, space, p, x) && Sees(a, space, q, y)
    ensures p.Before(q) ==> p.Final(at).Before(q.Final(at))
    ensures p.AtOrdinal? ==> Row(space, p.Final(at), x) in Replay(a.log, db, at).rows
    ensures p.AtStamp? && (Row(space, p.stamp, x) in a.snapshot.rows ==> Row(space, p.stamp, x) in db.rows)
            ==> Row(space, p.stamp, x) in Replay(a.log, db, at).rows
  {
    CommitKeepsIndexes(a, db, at);
    EditedStaysBelow(a.log, a.readVersion, a.conflicts, a.snapshot.rows);
    if p.AtOrdinal? {
      assert (space, p.user, x) in Wanted(a.pending);
    } else if Row(space, p.stamp, x) in a.snapshot.rows ==> Row(space, p.stamp, x) in db.rows {
      EditedDependsOnRow(a.log, a.snapshot.rows, db.rows, Row(space, p.stamp, x));
    }
  }

  lemma {:induction false} EditedDependsOnRow(log: seq<Mutation>, rows: set<Row>, others: set<Row>, r: Row)
    requires r in Edited(log, rows) && (r in rows ==> r in others)
    ensures r in Edited(log, others)
  {
    if log != [] {
      var init := log[..|log| - 1];
      match log[|log| - 1] {
        case SetRow(row) => if row != r { EditedDependsOnRow(init, rows, others, r); }
        case _ => EditedDependsOnRow(init, rows, others, r);
      }
    }
  }
}
