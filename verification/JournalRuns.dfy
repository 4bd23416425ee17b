/** Runs of committing journal transactions: nothing at or below a cursor is unacknowledged, and
    nothing reaches a remote's callbacks twice. */
module JournalRuns {
  import opened Wrappers
  import opened Journal

  /** A committed transaction, the number of commits its snapshot had seen, and its body at commit. */
  datatype Commit = Commit(seen: nat, body: Body)

  function Log(c: Commit): seq<Op> {
    c.body.log
  }

  /** The store after so many commits; the n-th commit has version n. */
  function After(history: seq<Commit>, n: nat): Db
    requires n <= |history|
  {
    if n == 0 then Db([], {}, {}, map[]) else ApplyAll(Log(history[n - 1]), After(history, n - 1), n)
  }

  /** Destroys committed so far. */
  function Epoch(history: seq<Commit>, n: nat): nat
    requires n <= |history|
  {
    if n == 0 then 0 else Epoch(history, n - 1) + Destroys(Log(history[n - 1]))
  }

  /** Nothing committed since the snapshot has written what the transaction read. */
  ghost predicate NoConflict(history: seq<Commit>, i: nat)
    requires i < |history|
  {
    forall k, key :: history[i].seen <= k < i && key in history[i].body.readKeys ==> !Wrote(Log(history[k]), key)
  }

  /** The commit ran on its snapshot, its callbacks have returned, and ids it made are new. */
  ghost predicate Ran(history: seq<Commit>, i: nat)
    requires i < |history|
  {
    && history[i].seen <= i
    && RunOn(history[i].body, After(history, history[i].seen), history[i].seen)
    && history[i].body.open == []
    && NoConflict(history, i)
    && forall id :: id in history[i].body.own ==> id !in After(history, i).entries
  }

  ghost predicate Committed(history: seq<Commit>) {
    forall i :: 0 <= i < |history| ==> Ran(history, i)
  }

  lemma {:induction false} RanParts(history: seq<Commit>, j: nat)
    requires j < |history| && Ran(history, j)
    ensures history[j].seen <= j
    ensures var b, snapshot := history[j].body, After(history, history[j].seen);
            && Sound(snapshot, history[j].seen, history[j].seen) && Sound(b.view, history[j].seen + 1, history[j].seen)
            && b.view == ApplyAll(b.log, snapshot, history[j].seen + 1)
            && Guarded(b, snapshot) && Delivering(b)
    ensures NoConflict(history, j)
    ensures After(history, j + 1) == ApplyAll(history[j].body.log, After(history, j), j + 1)
  {
    hide Sound, ApplyAll, Guarded, Delivering, Showing, NoConflict, OwnLast, Destroys;
  }

  // ---- One log on two stores ----

  /** The same rows but for the version in their stamps. */
  ghost predicate SameBut(a: seq<Row>, b: seq<Row>, v: nat, w: nat) {
    |a| == |b| && forall i :: 0 <= i < |a| ==>
      a[i].id == b[i].id && a[i].stamp == Stamp(v, a[i].stamp.ordinal) && b[i].stamp == Stamp(w, a[i].stamp.ordinal)
  }

  /** A log without a destroy adds the same to both stores. */
  lemma {:induction false} Adds(log: seq<Op>, a: Db, v: nat, b: Db, w: nat) returns (s: seq<Row>, t: seq<Row>)
    requires Destroys(log) == 0
    ensures ApplyAll(log, a, v).rows == a.rows + s && ApplyAll(log, b, w).rows == b.rows + t && SameBut(s, t, v, w)
  {
    if log == [] {
      s, t := [], [];
    } else {
      var op := log[|log| - 1];
      s, t := Adds(log[..|log| - 1], a, v, b, w);
      if op.Append? {
        s, t := s + [Row(Stamp(v, op.ordinal), op.id)], t + [Row(Stamp(w, op.ordinal), op.id)];
      }
    }
  }

  lemma {:induction false} AddsEntries(log: seq<Op>, db: Db, v: nat)
    requires Destroys(log) == 0
    ensures forall id :: id in ApplyAll(log, db, v).entries <==> id in db.entries || Enter(id) in log
    ensures forall r: Remote, id: Id :: (r, id) in ApplyAll(log, db, v).acks <==> (r, id) in db.acks || Ack(r, id) in log
  {
    if log != [] {
      AddsEntries(log[..|log| - 1], db, v);
      assert log == log[..|log| - 1] + [log[|log| - 1]];
    }
  }

  /** A cursor after such a log is the last one stored by it, or the old one. */
  lemma {:induction false} AddsCursor(log: seq<Op>, a: Db, v: nat, b: Db, w: nat, r: Remote)
    requires Destroys(log) == 0 && r in ApplyAll(log, b, w).sentAfter
    ensures var c := ApplyAll(log, b, w).sentAfter[r];
            || (r in ApplyAll(log, a, v).sentAfter && ApplyAll(log, a, v).sentAfter[r] == c && Advance(r, c) in log)
            || (r in b.sentAfter && b.sentAfter[r] == c)
  {
    if log != [] {
      var front, op := log[..|log| - 1], log[|log| - 1];
      assert log == front + [op];
      if !(op.Advance? && op.remote == r) { AddsCursor(front, a, v, b, w, r); }
    }
  }

  /** After a destroy the two stores differ only in the versions of their rows. */
  lemma {:induction false} ForgetsAll(log: seq<Op>, a: Db, v: nat, b: Db, w: nat)
    requires Destroys(log) > 0
    ensures var c, d := ApplyAll(log, a, v), ApplyAll(log, b, w);
            SameBut(c.rows, d.rows, v, w) && c == d.(rows := c.rows)
  {
    var front, op := log[..|log| - 1], log[|log| - 1];
    if !op.Destroy? { ForgetsAll(front, a, v, b, w); }
  }

  // ---- What commits since a snapshot have not touched ----

  lemma {:induction false} NotDestroyed(log: seq<Op>, key: Key)
    requires !Wrote(log, key)
    ensures Destroys(log) == 0
    decreases |log|
  {
    if log != [] {
      var front := log[..|log| - 1];
      assert !Touches(log[|log| - 1], key);
      assert forall k :: 0 <= k < |front| ==> front[k] == log[k];
      NotDestroyed(front, key);
    }
  }

  lemma {:induction false} NotEntered(log: seq<Op>, id: Id)
    requires !Wrote(log, EntryKey(id))
    ensures Enter(id) !in log
  {
  }

  /** While nobody writes a cursor, nobody destroys: the snapshot's rows are still the first ones. */
  lemma {:induction false} Undestroyed(history: seq<Commit>, from: nat, upTo: nat, key: Key) returns (more: seq<Row>)
    requires from <= upTo <= |history|
    requires forall k :: from <= k < upTo ==> !Wrote(Log(history[k]), key)
    ensures After(history, upTo).rows == After(history, from).rows + more
    ensures forall row :: row in more ==> row.stamp.version > from
    ensures After(history, from).acks <= After(history, upTo).acks
    ensures Epoch(history, upTo) == Epoch(history, from)
  {
    if from == upTo {
      more := [];
    } else {
      more := Undestroyed(history, from, upTo - 1, key);
      var log, db := Log(history[upTo - 1]), After(history, upTo - 1);
      NotDestroyed(log, key);
      StillThere(log, db, upTo);
      var s, t := Adds(log, db, upTo, db, upTo);
      assert forall row :: row in t ==> row.stamp.version == upTo by {
        forall i | 0 <= i < |t| ensures t[i].stamp.version == upTo { assert s[i].id == t[i].id; }
      }
      more := more + t;
    }
  }

  lemma {:induction false} Unentered(history: seq<Commit>, from: nat, upTo: nat, id: Id)
    requires from <= upTo <= |history| && id !in After(history, from).entries
    requires forall k :: from <= k < upTo ==> !Wrote(Log(history[k]), EntryKey(id))
    ensures id !in After(history, upTo).entries
  {
    if from < upTo {
      Unentered(history, from, upTo - 1, id);
      var log := Log(history[upTo - 1]);
      NotDestroyed(log, EntryKey(id));
      NotEntered(log, id);
      AddsEntries(log, After(history, upTo - 1), upTo);
    }
  }

  // ---- Soundness over whole runs ----

  /** A row in the view that came from the log itself belongs to an entry nobody else has committed. */
  lemma {:induction false} EntersNew(history: seq<Commit>, j: nat, id: Id)
    requires j < |history| && Ran(history, j) && Destroys(Log(history[j])) == 0 && Enter(id) in Log(history[j])
    ensures id !in After(history, j).entries
  {
    hide ApplyAll, Destroys, Delivering, After, Sound, Wrote, Showing, OwnLast;
    var b, seen := history[j].body, history[j].seen;
    RanParts(history, j);
    if id !in b.own {
      assert EntryKey(id) in b.readKeys;
      assert forall k :: seen <= k < j ==> !Wrote(Log(history[k]), EntryKey(id));
      Unentered(history, seen, j, id);
    }
  }

  lemma {:induction false} SoundAlways(history: seq<Commit>, n: nat)
    requires Committed(history) && n <= |history|
    ensures Sound(After(history, n), n, n)
  {
    if n > 0 {
      var j := n - 1;
      SoundAlways(history, j);
      assert Ran(history, j);
      hide Committed;
      if Destroys(Log(history[j])) > 0 {
        SoundAfterDestroy(history, j);
      } else {
        SoundCommit(history, j);
      }
    }
  }

  lemma {:induction false} SoundAfterDestroy(history: seq<Commit>, j: nat)
    requires j < |history| && Ran(history, j) && Destroys(Log(history[j])) > 0
    ensures Sound(After(history, j + 1), j + 1, j + 1)
  {
    hide *;
    var b, seen := history[j].body, history[j].seen;
    RanParts(history, j);
    LogOf(history, j);
    ForgetsAll(b.log, After(history, seen), seen + 1, After(history, j), j + 1);
    SoundRenamed(b.view, After(history, j + 1), seen, j + 1);
  }

  /** Soundness does not depend on which version the rows have, as long as it is above the cursors. */
  lemma {:induction false} SoundRenamed(view: Db, db: Db, seen: nat, w: nat)
    requires Sound(view, seen + 1, seen) && SameBut(view.rows, db.rows, seen + 1, w) && view == db.(rows := view.rows)
    requires seen < w
    ensures Sound(db, w, w)
  {
    hide Acked;
    assert Ids(db.rows) == Ids(view.rows);
    forall row | row in db.rows ensures row.stamp.version == w && row.id in db.entries {
      var i :| 0 <= i < |db.rows| && db.rows[i] == row;
      assert view.rows[i] in view.rows && view.rows[i].id == row.id;
    }
    assert forall i :: 0 <= i < |db.rows| ==> view.rows[i].stamp.ordinal == db.rows[i].stamp.ordinal && db.rows[i].stamp.version == w;
    RenamedCursors(view, db, seen, w);
  }

  lemma {:induction false} RenamedCursors(view: Db, db: Db, seen: nat, w: nat)
    requires Sound(view, seen + 1, seen) && view == db.(rows := view.rows) && seen < w
    requires forall row :: row in db.rows ==> row.stamp.version == w
    ensures forall r :: r in db.sentAfter ==> db.sentAfter[r].version <= w && Acked(db.rows, db.acks, r, db.sentAfter[r])
  {
  }

  lemma {:induction false} SoundCommit(history: seq<Commit>, j: nat)
    requires j < |history| && Ran(history, j) && Destroys(Log(history[j])) == 0
    requires Sound(After(history, j), j, j)
    ensures Sound(After(history, j + 1), j + 1, j + 1)
  {
    hide *;
    var b, seen := history[j].body, history[j].seen;
    RanParts(history, j);
    LogOf(history, j);
    var was, snapshot, db := After(history, j), After(history, seen), After(history, j + 1);
    var s, t := Adds(b.log, snapshot, seen + 1, was, j + 1);
    AddsEntries(b.log, was, j + 1);
    forall row | row in t ensures row.id !in was.entries && row.id in db.entries {
      AppendsNew(history, j, s, t, row);
    }
    forall r | r in db.sentAfter
      ensures db.sentAfter[r].version <= j && Acked(db.rows, db.acks, r, db.sentAfter[r])
    {
      CursorCommit(history, j, s, t, r);
    }
    forall id | id in db.entries && id !in was.entries ensures id in Ids(t) {
      EnteredAppears(history, j, s, t, id);
    }
    SuffixSound(b.view, snapshot.rows, s, seen + 1, seen);
    SoundJoined(was, db, s, t, seen + 1, j);
  }

  lemma {:induction false} LogOf(history: seq<Commit>, j: nat)
    requires j < |history|
    ensures Log(history[j]) == history[j].body.log
  {
  }

  lemma {:induction false} AppendsNew(history: seq<Commit>, j: nat, s: seq<Row>, t: seq<Row>, row: Row)
    requires j < |history| && Ran(history, j) && Destroys(Log(history[j])) == 0
    requires var b, seen := history[j].body, history[j].seen;
             b.view.rows == After(history, seen).rows + s && SameBut(s, t, seen + 1, j + 1)
    requires row in t
    ensures row.id !in After(history, j).entries && Enter(row.id) in history[j].body.log
  {
    hide Ran, ApplyAll, Destroys, Guarded, Delivering, After, NoConflict;
    var b, seen := history[j].body, history[j].seen;
    RanParts(history, j);
    var snapshot := After(history, seen);
    AddsEntries(b.log, snapshot, seen + 1);
    NewInSuffix(b.view, snapshot, s, t, seen, j, row);
    EntersNew(history, j, row.id);
  }

  /** A view's own row is of an entry that the snapshot does not have. */
  lemma {:induction false} NewInSuffix(view: Db, snapshot: Db, s: seq<Row>, t: seq<Row>, seen: nat, j: nat, row: Row)
    requires Sound(view, seen + 1, seen) && Sound(snapshot, seen, seen)
    requires view.rows == snapshot.rows + s && SameBut(s, t, seen + 1, j + 1) && row in t
    ensures row.id in view.entries && row.id !in snapshot.entries
  {
    var i :| 0 <= i < |t| && t[i] == row;
    var n := |snapshot.rows|;
    assert view.rows[n + i] == s[i] && s[i].id == row.id && s[i] in view.rows;
    forall k | 0 <= k < |Ids(snapshot.rows)| ensures Ids(snapshot.rows)[k] != row.id {
      assert Ids(view.rows)[k] != Ids(view.rows)[n + i];
    }
  }

  /** What a log enters it also appends. */
  lemma {:induction false} EnteredAppears(history: seq<Commit>, j: nat, s: seq<Row>, t: seq<Row>, id: Id)
    requires j < |history| && Ran(history, j) && Destroys(Log(history[j])) == 0 && Enter(id) in history[j].body.log
    requires var b, seen := history[j].body, history[j].seen;
             b.view.rows == After(history, seen).rows + s && SameBut(s, t, seen + 1, j + 1)
    ensures id in Ids(t)
  {
    hide Ran, ApplyAll, Destroys, Delivering, After, NoConflict, Sound;
    var b, seen := history[j].body, history[j].seen;
    RanParts(history, j);
    var snapshot := After(history, seen);
    AddsEntries(b.log, snapshot, seen + 1);
    InSuffix(b.view, snapshot, s, t, seen, j, id);
  }

  lemma {:induction false} InSuffix(view: Db, snapshot: Db, s: seq<Row>, t: seq<Row>, seen: nat, j: nat, id: Id)
    requires Sound(view, seen + 1, seen) && Sound(snapshot, seen, seen)
    requires view.rows == snapshot.rows + s && SameBut(s, t, seen + 1, j + 1)
    requires id in view.entries && id !in snapshot.entries
    ensures id in Ids(t)
  {
    var n := |snapshot.rows|;
    var k :| 0 <= k < |Ids(view.rows)| && Ids(view.rows)[k] == id;
    assert forall i :: 0 <= i < n ==> view.rows[i] == snapshot.rows[i] && snapshot.rows[i] in snapshot.rows;
    assert view.rows[k] == s[k - n] && s[k - n].id == t[k - n].id;
    assert Ids(t)[k - n] == id;
  }

  lemma {:induction false} CursorCommit(history: seq<Commit>, j: nat, s: seq<Row>, t: seq<Row>, r: Remote)
    requires j < |history| && Ran(history, j) && Destroys(Log(history[j])) == 0
    requires Sound(After(history, j), j, j)
    requires var b, seen := history[j].body, history[j].seen;
             && b.view.rows == After(history, seen).rows + s && SameBut(s, t, seen + 1, j + 1)
             && After(history, j + 1).rows == After(history, j).rows + t
    requires r in After(history, j + 1).sentAfter
    ensures var db := After(history, j + 1); db.sentAfter[r].version <= j && Acked(db.rows, db.acks, r, db.sentAfter[r])
  {
    hide Ran, ApplyAll, Destroys, Delivering, After, Sound, Acked, Guarded, NoConflict, Wrote;
    var b, seen := history[j].body, history[j].seen;
    RanParts(history, j);
    var was, snapshot, db := After(history, j), After(history, seen), After(history, j + 1);
    var c := db.sentAfter[r];
    AddsCursor(b.log, snapshot, seen + 1, was, j + 1, r);
    StillThere(b.log, was, j + 1);
    AddedVersions(s, t, seen + 1, j + 1);
    if Advance(r, c) in b.log && r in b.view.sentAfter && b.view.sentAfter[r] == c {
      CursorGuarded(history, j, r, c);
      var more := Undestroyed(history, seen, j, SentKey(r));
      AckedSurvive(b.log, b.view, snapshot, was, db, seen, j, r, c, more, s, t);
    } else {
      AckedStays(was, db, j, r, t);
    }
  }

  lemma {:induction false} AddedVersions(s: seq<Row>, t: seq<Row>, v: nat, w: nat)
    requires SameBut(s, t, v, w)
    ensures forall row :: row in t ==> row.stamp.version == w
  {
    assert forall i :: 0 <= i < |t| ==> s[i].id == t[i].id;
  }

  lemma {:induction false} CursorGuarded(history: seq<Commit>, j: nat, r: Remote, c: Stamp)
    requires j < |history| && history[j].seen <= j
    requires Guarded(history[j].body, After(history, history[j].seen)) && NoConflict(history, j)
    requires Destroys(history[j].body.log) == 0 && Advance(r, c) in history[j].body.log
    ensures forall k :: history[j].seen <= k < j ==> !Wrote(Log(history[k]), SentKey(r))
  {
    hide Destroys, Wrote, After;
  }

  lemma {:induction false} AckedStays(was: Db, db: Db, j: nat, r: Remote, t: seq<Row>)
    requires Sound(was, j, j) && r in was.sentAfter && r in db.sentAfter && db.sentAfter[r] == was.sentAfter[r]
    requires db.rows == was.rows + t && was.acks <= db.acks && forall row :: row in t ==> row.stamp.version == j + 1
    ensures db.sentAfter[r].version <= j && Acked(db.rows, db.acks, r, db.sentAfter[r])
  {
    assert Acked(was.rows, was.acks, r, was.sentAfter[r]);
  }

  lemma {:induction false} AckedSurvive(log: seq<Op>, view: Db, snapshot: Db, was: Db, db: Db, seen: nat, j: nat,
                              r: Remote, c: Stamp,
                     more: seq<Row>, s: seq<Row>, t: seq<Row>)
    requires Sound(view, seen + 1, seen) && Destroys(log) == 0 && seen <= j
    requires view == ApplyAll(log, snapshot, seen + 1) && db == ApplyAll(log, was, j + 1)
    requires r in view.sentAfter && view.sentAfter[r] == c && view.rows == snapshot.rows + s
    requires was.rows == snapshot.rows + more && db.rows == was.rows + t && snapshot.acks <= was.acks
    requires forall row :: row in more ==> row.stamp.version > seen
    requires forall row :: row in t ==> row.stamp.version == j + 1
    ensures c.version <= j && Acked(db.rows, db.acks, r, c)
  {
    hide ApplyAll, Destroys;
    AddsEntries(log, snapshot, seen + 1);
    AddsEntries(log, was, j + 1);
    assert Acked(view.rows, view.acks, r, c);
    forall row | row in db.rows && !c.Before(row.stamp) ensures (r, row.id) in db.acks {
      assert row in snapshot.rows;
      assert row in view.rows;
      assert (r, row.id) in view.acks;
    }
  }

  lemma {:induction false} SoundJoined(was: Db, db: Db, s: seq<Row>, t: seq<Row>, v: nat, w: nat)
    requires Sound(was, w, w) && db.rows == was.rows + t && SameBut(s, t, v, w + 1) && Sorted(s) && Distinct(Ids(s))
    requires forall row :: row in t ==> row.id !in was.entries && row.id in db.entries
    requires forall id :: id in db.entries ==> id in was.entries || id in Ids(t)
    requires forall id :: id in was.entries ==> id in db.entries
    requires forall r :: r in db.sentAfter ==> db.sentAfter[r].version <= w && Acked(db.rows, db.acks, r, db.sentAfter[r])
    ensures Sound(db, w + 1, w + 1)
  {
    hide Acked;
    assert Ids(db.rows) == Ids(was.rows) + Ids(t);
    assert Ids(t) == Ids(s);
    assert forall i :: 0 <= i < |t| ==> s[i].id == t[i].id && t[i].stamp == Stamp(w + 1, s[i].stamp.ordinal);
    JoinedSorted(was.rows, s, t, v, w);
    JoinedDistinct(was.rows, t, was.entries);
  }

  lemma {:induction false} JoinedSorted(rows: seq<Row>, s: seq<Row>, t: seq<Row>, v: nat, w: nat)
    requires Sorted(rows) && Sorted(s) && SameBut(s, t, v, w + 1)
    requires forall row :: row in rows ==> row.stamp.version <= w
    ensures Sorted(rows + t)
  {
    var all := rows + t;
    forall i, j | 0 <= i < j < |all| ensures all[i].stamp.Before(all[j].stamp) {
      if i >= |rows| {
        assert s[i - |rows|].id == t[i - |rows|].id && s[j - |rows|].id == t[j - |rows|].id;
      } else if j >= |rows| {
        assert s[j - |rows|].id == t[j - |rows|].id;
        assert rows[i] in rows;
      }
    }
  }

  lemma {:induction false} JoinedDistinct(rows: seq<Row>, t: seq<Row>, entries: set<Id>)
    requires Distinct(Ids(rows)) && Distinct(Ids(t))
    requires forall row :: row in rows ==> row.id in entries
    requires forall row :: row in t ==> row.id !in entries
    ensures Distinct(Ids(rows + t))
  {
    var all := Ids(rows + t);
    assert forall i :: 0 <= i < |rows| ==> all[i] == Ids(rows)[i] && rows[i] in rows;
    assert forall i :: |rows| <= i < |all| ==> all[i] == Ids(t)[i - |rows|] && t[i - |rows|] in t;
  }

  lemma {:induction false} SuffixSound(view: Db, base: seq<Row>, s: seq<Row>, v: nat, upTo: nat)
    requires Sound(view, v, upTo) && view.rows == base + s
    ensures Sorted(s) && Distinct(Ids(s))
  {
    assert forall i :: 0 <= i < |s| ==> view.rows[|base| + i] == s[i] && Ids(view.rows)[|base| + i] == Ids(s)[i];
    forall i, j | 0 <= i < j < |s| ensures s[i].stamp.Before(s[j].stamp) && Ids(s)[i] != Ids(s)[j] {
      assert view.rows[|base| + i].stamp.Before(view.rows[|base| + j].stamp);
      assert Ids(view.rows)[|base| + i] != Ids(view.rows)[|base| + j];
    }
  }

  // ---- None skipped ----

  /** The entry was shown to a returned callback of this remote, or came from the remote. */
  ghost predicate Handled(c: Commit, remote: Remote, id: Id) {
    (remote, id) in c.body.received || exists d :: Delivery(remote, id, d) in c.body.delivered
  }

  lemma {:induction false} AckedBySomeone(log: seq<Op>, db: Db, v: nat, remote: Remote, id: Id)
    requires (remote, id) in ApplyAll(log, db, v).acks
    ensures (remote, id) in db.acks || Ack(remote, id) in log
  {
    if log != [] {
      var front, op := log[..|log| - 1], log[|log| - 1];
      assert log == front + [op];
      if op != Ack(remote, id) { AckedBySomeone(front, db, v, remote, id); }
    }
  }

  lemma {:induction false} AcksAreHandled(history: seq<Commit>, n: nat, remote: Remote, id: Id)
    requires Committed(history) && n <= |history| && (remote, id) in After(history, n).acks
    ensures exists i :: 0 <= i < n && Handled(history[i], remote, id)
  {
    hide RunOn, ApplyAll, NoConflict;
    var j := n - 1;
    assert Ran(history, j);
    AckedBySomeone(Log(history[j]), After(history, j), n, remote, id);
    if (remote, id) in After(history, j).acks {
      AcksAreHandled(history, j, remote, id);
    } else {
      RanParts(history, j);
      assert Handled(history[j], remote, id);
    }
  }

  /** Every entry at or below a remote's cursor was shown to a committed callback for the remote, or came
      from it: the cursor skips none, whatever was committed between its readers' snapshots and commits. */
  lemma {:induction false} NoneSkipped(history: seq<Commit>, n: nat, remote: Remote, row: Row)
    requires Committed(history) && n <= |history| && remote in After(history, n).sentAfter
    requires row in After(history, n).rows && !After(history, n).sentAfter[remote].Before(row.stamp)
    ensures exists i :: 0 <= i < n && Handled(history[i], remote, row.id)
  {
    SoundAlways(history, n);
    assert Acked(After(history, n).rows, After(history, n).acks, remote, After(history, n).sentAfter[remote]);
    hide Committed, After, Sound;
    AcksAreHandled(history, n, remote, row.id);
  }

  // ---- None twice ----

  lemma {:induction false} EpochGrows(history: seq<Commit>, from: nat, upTo: nat)
    requires from <= upTo <= |history|
    ensures Epoch(history, from) <= Epoch(history, upTo)
  {
    if from < upTo { EpochGrows(history, from, upTo - 1); }
  }

  /** The journal the entry was delivered from: how often it had been destroyed by then. */
  function Era(history: seq<Commit>, i: nat, x: Delivery): nat
    requires i < |history|
  {
    Epoch(history, i) + x.destroyed
  }

  lemma {:induction false} EraEnds(history: seq<Commit>, i: nat, x: Delivery)
    requires i < |history| && Ran(history, i) && x in history[i].body.delivered
    ensures Era(history, i, x) <= Epoch(history, i + 1)
  {
    RanParts(history, i);
    hide Ran, RunOn, Destroys, After;
  }

  lemma {:induction false} AckedAtCommit(history: seq<Commit>, i: nat, x: Delivery)
    requires i < |history| && Ran(history, i) && x in history[i].body.delivered
    requires Era(history, i, x) == Epoch(history, i + 1)
    ensures (x.remote, x.id) in After(history, i + 1).acks
  {
    hide Ran, RunOn, ApplyAll, Sound, Destroys, After, NoConflict, Guarded, Viewed, Showing;
    var b, seen := history[i].body, history[i].seen;
    RanParts(history, i);
    EpochStep(history, i);
    hide Epoch;
    if x.destroyed == 0 {
      AddsEntries(b.log, After(history, i), i + 1);
    } else {
      ForgetsAll(b.log, After(history, seen), seen + 1, After(history, i), i + 1);
    }
  }

  lemma {:induction false} EpochStep(history: seq<Commit>, i: nat)
    requires i < |history|
    ensures Epoch(history, i + 1) == Epoch(history, i) + Destroys(history[i].body.log)
  {
  }

  /** Until the journal is destroyed again a delivery stays acknowledged. */
  lemma {:induction false} DeliveryStays(history: seq<Commit>, i: nat, n: nat, x: Delivery)
    requires Committed(history) && i < n <= |history| && x in history[i].body.delivered
    requires Era(history, i, x) == Epoch(history, n)
    ensures (x.remote, x.id) in After(history, n).acks
  {
    assert Ran(history, i);
    hide Ran, RunOn, ApplyAll, Sound, Destroys, NoConflict, Log, Epoch;
    EraEnds(history, i, x);
    EpochGrows(history, i + 1, n);
    if n == i + 1 {
      AckedAtCommit(history, i, x);
    } else {
      EpochGrows(history, i + 1, n - 1);
      DeliveryStays(history, i, n - 1, x);
      StillThere(Log(history[n - 1]), After(history, n - 1), n);
    }
  }

  /** No entry of one journal reaches a remote's committed callbacks in two transactions. */
  lemma {:induction false} NoneTwice(history: seq<Commit>, i: nat, j: nat, x: Delivery, y: Delivery)
    requires Committed(history) && i < j < |history|
    requires x in history[i].body.delivered && y in history[j].body.delivered && x.remote == y.remote && x.id == y.id
    ensures Era(history, i, x) != Era(history, j, y)
  {
    hide RunOn, After, Epoch, Sound, ApplyAll, Ran;
    assert Ran(history, i) && Ran(history, j);
    EraEnds(history, i, x);
    EpochGrows(history, i + 1, j);
    if Era(history, i, x) == Era(history, j, y) {
      FirstOfEra(history, j, y);
      if i < history[j].seen {
        EpochGrows(history, i + 1, history[j].seen);
        EpochGrows(history, history[j].seen, j);
        DeliveryStays(history, i, history[j].seen, x);
      } else {
        RanParts(history, i);
        WroteAck(history[i].body.log, x.remote, x.id);
        LogOf(history, i);
      }
    }
  }

  /** A delivery before any destroy of its transaction was of an entry not acknowledged in the snapshot. */
  lemma {:induction false} FirstOfEra(history: seq<Commit>, j: nat, y: Delivery)
    requires j < |history| && Ran(history, j) && y in history[j].body.delivered
    ensures history[j].seen <= j
    ensures y.destroyed == 0 ==> (y.remote, y.id) !in After(history, history[j].seen).acks
    ensures y.destroyed == 0 ==>
              forall k :: history[j].seen <= k < j ==> !Wrote(Log(history[k]), AckKey(y.remote, y.id))
  {
    RanParts(history, j);
    hide RunOn, After, Epoch, Sound, ApplyAll, Ran, Wrote, Destroys;
    if y.destroyed == 0 {
      assert FirstTime(history[j].body, After(history, history[j].seen), y.remote, y.id);
    }
  }

  lemma {:induction false} WroteAck(log: seq<Op>, remote: Remote, id: Id)
    requires Ack(remote, id) in log
    ensures Wrote(log, AckKey(remote, id))
  {
    var k :| 0 <= k < |log| && log[k] == Ack(remote, id);
    assert Touches(log[k], AckKey(remote, id));
  }

  /** Nor twice in one transaction, unless a callback asked again for the remote it was serving. */
  lemma {:induction false} NoneTwiceInside(history: seq<Commit>, i: nat)
    requires Committed(history) && i < |history| && !history[i].body.reentered
    ensures Distinct(history[i].body.delivered)
  {
    assert Ran(history, i);
    RanParts(history, i);
    hide Ran;
  }

  /** A callback takes in entries from its own remote and then asks again for it. What it was shown is delivered
      twice, except for those entries it took in itself: nothing is delivered twice exactly when it took in all
      that it was shown. */
  method CallbackAsksAgain(t: Transaction, remote: Remote, received: seq<Id>, rank: Id -> int) returns (ids: seq<Id>)
    requires RunOn(t.b, t.snapshot, t.seen) && t.pageSize > 0 && t.b.delivered == []
    modifies t
    ensures RunOn(t.b, t.snapshot, t.seen)
    ensures forall id :: id in ids <==> id in old(t.b.view.entries) && (remote, id) !in old(t.b.view.acks)
    ensures Distinct(t.b.delivered) <==> forall id :: id in ids ==> id in received
  {
    hide *;
    ids := t.Begin(remote, rank);
    ghost var open := t.b.open;
    var _ := t.WriteFromRemote(remote, received);
    PairsAre(remote, received);
    var again := t.Begin(remote, rank);
    assert t.b.open[..|open|] == open;
    var inner := t.Finish();
    var outer := t.Finish();
    TwiceIfShared(inner, outer);
    NothingBefore(inner, outer);
  }

  lemma NothingBefore(a: Collected, b: Collected)
    ensures [] + Deliveries(a) + Deliveries(b) == Deliveries(a) + Deliveries(b)
  {
  }

  lemma PairsAre(remote: Remote, ids: seq<Id>)
    ensures forall id :: (remote, id) in Pairs(remote, ids) <==> id in ids
  {
  }

  /** Two deliveries to one remote repeat something exactly when they share an entry. */
  lemma TwiceIfShared(a: Collected, b: Collected)
    requires a.remote == b.remote && a.destroyed == b.destroyed && Distinct(a.ids) && Distinct(b.ids)
    ensures Distinct(Deliveries(a) + Deliveries(b)) <==> forall id :: id in b.ids ==> id !in a.ids
  {
    var all := Deliveries(a) + Deliveries(b);
    assert forall i :: 0 <= i < |a.ids| ==> all[i] == Delivery(a.remote, a.ids[i], a.destroyed);
    assert forall j :: 0 <= j < |b.ids| ==> all[|a.ids| + j] == Delivery(a.remote, b.ids[j], a.destroyed);
    hide Deliveries;
    if id :| id in b.ids && id in a.ids {
      var i :| 0 <= i < |a.ids| && a.ids[i] == id;
      var j :| 0 <= j < |b.ids| && b.ids[j] == id;
      assert all[i] == all[|a.ids| + j];
    } else {
      NoneShared(a, b, all);
    }
  }

  lemma NoneShared(a: Collected, b: Collected, all: seq<Delivery>)
    requires Distinct(a.ids) && Distinct(b.ids) && forall id :: id in b.ids ==> id !in a.ids
    requires |all| == |a.ids| + |b.ids|
    requires forall i :: 0 <= i < |a.ids| ==> all[i].id == a.ids[i]
    requires forall j :: 0 <= j < |b.ids| ==> all[|a.ids| + j].id == b.ids[j]
    ensures Distinct(all)
  {
    forall i, j | 0 <= i < j < |all| ensures all[i].id != all[j].id {
      if j >= |a.ids| {
        assert all[|a.ids| + (j - |a.ids|)].id == b.ids[j - |a.ids|];
        if i >= |a.ids| { assert all[|a.ids| + (i - |a.ids|)].id == b.ids[i - |a.ids|]; } else { assert a.ids[i] in a.ids; }
      }
    }
  }
}
