/** The high-contention allocator: numbers handed out by optimistic transactions that read the
    window counters without read conflicts, and clear old windows without write conflicts. */
module Allocator {
  import opened Wrappers

  // ---- The store and a transaction's mutations ----

  /** Counters by window start, and the candidates marked as taken. */
  datatype Db = Db(counters: map<nat, int>, recent: set<nat>)

  datatype Op = ClearCounters(start: nat) | ClearRecent(start: nat) | Bump(start: nat) | Mark(n: nat)

  function Apply(op: Op, db: Db): Db {
    match op
    case ClearCounters(start) => db.(counters := map s | s in db.counters && s >= start :: db.counters[s])
    case ClearRecent(start) => db.(recent := set n | n in db.recent && n >= start)
    case Bump(start) => db.(counters := db.counters[start := Count(db, start) + 1])
    case Mark(n) => db.(recent := db.recent + {n})
  }

  function Count(db: Db, start: nat): int {
    if start in db.counters then db.counters[start] else 0
  }

  function ApplyAll(log: seq<Op>, db: Db): Db {
    if log == [] then db else ApplyAll(log[1..], Apply(log[0], db))
  }

  lemma {:induction false} ApplyConcat(a: seq<Op>, b: seq<Op>, db: Db)
    ensures ApplyAll(a + b, db) == ApplyAll(b, ApplyAll(a, db))
  {
    if a == [] {
      assert a + b == b;
    } else {
      assert (a + b)[1..] == a[1..] + b;
      ApplyConcat(a[1..], b, Apply(a[0], db));
    }
  }

  lemma ApplySnoc(log: seq<Op>, op: Op, db: Db)
    ensures ApplyAll(log + [op], db) == Apply(op, ApplyAll(log, db))
  {
    ApplyConcat(log, [op], db);
    assert [op][1..] == [];
  }

  // ---- The highest window ----

  ghost predicate ReachesFrom(db: Db, s: nat) {
    s == 0 || exists k :: k in db.counters && k >= s
  }

  /** The highest window start: what a reverse read of one counter row finds, or zero. */
  function Latest(db: Db): (r: nat)
    ensures db.counters == map[] ==> r == 0
    ensures db.counters != map[] ==> r in db.counters
    ensures forall k :: k in db.counters ==> k <= r
    ensures forall s: nat :: ReachesFrom(db, s) <==> s <= r
  {
    Largest(db.counters.Keys)
  }

  function Largest(keys: set<nat>): (r: nat)
    ensures keys == {} ==> r == 0
    ensures keys != {} ==> r in keys
    ensures forall k :: k in keys ==> k <= r
  {
    if keys == {} then 0
    else
      LeastExists(keys, (x: nat, y: nat) => x >= y);
      var r :| r in keys && forall k :: k in keys ==> k <= r;
      r
  }

  /** Every clear of counters or candidates below a start is followed by a bump of that start. */
  ghost predicate Followed(log: seq<Op>) {
    forall k :: 0 <= k < |log| && (log[k].ClearCounters? || log[k].ClearRecent?) ==> Bump(log[k].start) in log[k..]
  }

  lemma FollowedRest(log: seq<Op>)
    requires Followed(log) && log != []
    ensures Followed(log[1..])
    ensures log[0].ClearCounters? || log[0].ClearRecent? ==> Bump(log[0].start) in log[1..]
  {
    forall k | 0 <= k < |log[1..]| && (log[1..][k].ClearCounters? || log[1..][k].ClearRecent?)
      ensures Bump(log[1..][k].start) in log[1..][k..]
    {
      assert log[1..][k] == log[k + 1];
      assert log[1..][k..] == log[k + 1..];
    }
    assert log == [log[0]] + log[1..];
    assert log[0..] == log;
  }

  /** A window start once bumped, or there before, is never fallen below, whatever is cleared blindly. */
  lemma {:induction false} NeverBelow(log: seq<Op>, db: Db, s: nat)
    requires Followed(log)
    requires ReachesFrom(db, s) || Bump(s) in log
    ensures ReachesFrom(ApplyAll(log, db), s)
  {
    if log != [] {
      FollowedRest(log);
      var next := Apply(log[0], db);
      assert log == [log[0]] + log[1..];
      if ReachesFrom(next, s) || Bump(s) in log[1..] {
        NeverBelow(log[1..], next, s);
      } else if log[0].ClearCounters? {
        NeverBelow(log[1..], next, log[0].start);
        ClearedAbove(db, log[0].start, s);
        ReachesLower(ApplyAll(log[1..], next), log[0].start, s);
      } else {
        StillReaches(log[0], db, s);
      }
    }
  }

  lemma ReachesLower(db: Db, high: nat, low: nat)
    requires ReachesFrom(db, high) && low <= high
    ensures ReachesFrom(db, low)
  {
  }

  lemma ClearedAbove(db: Db, start: nat, s: nat)
    requires ReachesFrom(db, s) && !ReachesFrom(Apply(ClearCounters(start), db), s)
    ensures s <= start
  {
    var k :| k in db.counters && k >= s;
    assert k >= start ==> k in Apply(ClearCounters(start), db).counters;
  }

  lemma StillReaches(op: Op, db: Db, s: nat)
    requires !op.ClearCounters? && (ReachesFrom(db, s) || op == Bump(s))
    ensures ReachesFrom(Apply(op, db), s)
  {
    var next := Apply(op, db);
    if op == Bump(s) {
      assert s in next.counters;
    } else if s != 0 {
      var k :| k in db.counters && k >= s;
      assert k in next.counters;
    }
  }

  /** A candidate marked, or there before, stays marked or falls below the highest window. */
  lemma {:induction false} MarkKept(log: seq<Op>, db: Db, n: nat)
    requires Followed(log)
    requires Accounted(db, n) || Mark(n) in log
    ensures Accounted(ApplyAll(log, db), n)
  {
    if log != [] {
      FollowedRest(log);
      var next := Apply(log[0], db);
      assert log == [log[0]] + log[1..];
      if n < Latest(db) {
        NeverBelow(log, db, n + 1);
      } else if log[0].ClearRecent? && n in db.recent && n !in next.recent {
        NeverBelow(log[1..], next, log[0].start);
      } else {
        MarkKept(log[1..], next, n);
      }
    }
  }

  /** Nobody can be given this number: it is marked, or below the highest window. */
  ghost predicate Accounted(db: Db, n: nat) {
    n in db.recent || n < Latest(db)
  }

  // ---- One allocating transaction ----

  function WindowSize(start: nat): nat {
    if start < 255 then 64 else if start < 65_535 then 1_024 else 8_192
  }

  function Candidate(start: nat, draw: nat): (n: nat)
    ensures start <= n < start + WindowSize(start)
  {
    start + draw % WindowSize(start)
  }

  /** Every number of a window can be drawn. */
  lemma CandidateReaches(start: nat, n: nat)
    requires start <= n < start + WindowSize(start)
    ensures Candidate(start, n - start) == n
  {
  }

  /** The window an allocation looks in. It leaves the highest window exactly when it would make it half used. */
  ghost function WindowFor(db: Db): (start: nat)
    ensures (Count(db, Latest(db)) + 1) * 2 < WindowSize(Latest(db)) ==> start == Latest(db)
    ensures (Count(db, Latest(db)) + 1) * 2 >= WindowSize(Latest(db)) ==> start == Latest(db) + WindowSize(Latest(db))
  {
    if (Count(db, Latest(db)) + 1) * 2 < WindowSize(Latest(db)) then Latest(db)
    else Latest(db) + WindowSize(Latest(db))
  }

  /** The windows in order: each begins where the one before it ends. */
  function NthWindow(k: nat): nat {
    if k == 0 then 0 else NthWindow(k - 1) + WindowSize(NthWindow(k - 1))
  }

  /** Four windows of 64 numbers, then 64 of 1024, then windows of 8192. */
  lemma {:induction false} WindowStarts(k: nat)
    ensures NthWindow(k) == if k <= 4 then 64 * k
                            else if k <= 68 then 256 + 1_024 * (k - 4)
                            else 65_792 + 8_192 * (k - 68)
  {
    if k > 0 { WindowStarts(k - 1); }
  }

  /** What a transaction leaves for its commit: its log, the candidates it read with a read conflict,
      those it wrote with a write conflict, and the numbers it gave out. */
  datatype Attempt = Attempt(log: seq<Op>, readKeys: set<nat>, writtenKeys: set<nat>, given: seq<nat>)

  ghost predicate Distinct(s: seq<nat>) {
    forall i, j :: 0 <= i < j < |s| ==> s[i] != s[j]
  }

  /** A transaction's body, run on the store as it was at its read version. */
  ghost predicate RunOn(a: Attempt, snapshot: Db) {
    && Followed(a.log) && Distinct(a.given)
    && forall n :: n in a.given ==> Fresh(a, snapshot, n)
  }

  ghost predicate Fresh(a: Attempt, snapshot: Db, n: nat) {
    n in a.readKeys && n in a.writtenKeys && Mark(n) in a.log && !Accounted(snapshot, n)
  }

  /** A read of a key the transaction itself has written or cleared touches no other transaction. */
  predicate OwnWrite(log: seq<Op>, n: nat) {
    exists k :: 0 <= k < |log| && (log[k] == Mark(n) || (log[k].ClearRecent? && n < log[k].start))
  }

  /** What is not accounted for in the transaction's view was not in its snapshot either, and was
      neither written nor given out by it. */
  lemma NotSeen(log: seq<Op>, snapshot: Db, n: nat)
    requires Followed(log) && !Accounted(ApplyAll(log, snapshot), n)
    ensures !Accounted(snapshot, n) && !OwnWrite(log, n)
  {
    if Accounted(snapshot, n) || Mark(n) in log { MarkKept(log, snapshot, n); }
    if k :| 0 <= k < |log| && log[k].ClearRecent? && n < log[k].start {
      assert log == log[..k] + log[k..];
      NeverBelow(log, snapshot, log[k].start);
    }
  }

  lemma FollowedMore(log: seq<Op>, op: Op)
    requires Followed(log) && (op.Bump? || op.Mark?)
    ensures Followed(log + [op])
  {
    forall k | 0 <= k < |log + [op]| && ((log + [op])[k].ClearCounters? || (log + [op])[k].ClearRecent?)
      ensures Bump((log + [op])[k].start) in (log + [op])[k..]
    {
      assert (log + [op])[k..] == log[k..] + [op];
    }
  }

  lemma FollowedClears(log: seq<Op>, start: nat)
    requires Followed(log)
    ensures Followed(log + [ClearCounters(start)] + [ClearRecent(start)] + [Bump(start)])
  {
    var clears := [ClearCounters(start), ClearRecent(start), Bump(start)];
    var all := log + [ClearCounters(start)] + [ClearRecent(start)] + [Bump(start)];
    assert all == log + clears;
    forall k | 0 <= k < |all| && (all[k].ClearCounters? || all[k].ClearRecent?)
      ensures Bump(all[k].start) in all[k..]
    {
      if k < |log| {
        assert all[k..] == log[k..] + clears;
      } else {
        assert all[k..][|all| - 1 - k] == Bump(start);
      }
    }
  }

  lemma ClearedLatest(db: Db, start: nat)
    requires start > Latest(db)
    ensures var next := Apply(Bump(start), Apply(ClearRecent(start), Apply(ClearCounters(start), db)));
            Latest(next) == start && start in next.counters && next.counters[start] == 1
  {
    var next := Apply(Bump(start), Apply(ClearRecent(start), Apply(ClearCounters(start), db)));
    assert Latest(next) in next.counters;
  }

  lemma BumpedLatest(db: Db)
    ensures Latest(Apply(Bump(Latest(db)), db)) == Latest(db)
  {
    var next := Apply(Bump(Latest(db)), db);
    assert Latest(db) in next.counters;
    assert Latest(next) in next.counters;
  }

  /** Reads see the snapshot under the transaction's own writes. */
  class Transaction {
    const snapshot: Db
    var view: Db
    var attempt: Attempt

    ghost predicate Valid()
      reads this
    {
      view == ApplyAll(attempt.log, snapshot) && RunOn(attempt, snapshot)
    }

    constructor (snapshot: Db)
      ensures this.snapshot == snapshot && view == snapshot && attempt == Attempt([], {}, {}, [])
      ensures Valid()
    {
      this.snapshot := snapshot;
      view := snapshot;
      attempt := Attempt([], {}, {}, []);
    }

    /** One mutation, seen at once by the transaction's own reads. */
    method Mutate(op: Op)
      requires view == ApplyAll(attempt.log, snapshot)
      modifies this
      ensures view == Apply(op, old(view)) && view == ApplyAll(attempt.log, snapshot)
      ensures attempt == old(attempt).(log := old(attempt.log) + [op])
    {
      ApplySnoc(attempt.log, op, snapshot);
      attempt := attempt.(log := attempt.log + [op]);
      view := Apply(op, view);
    }

    /** Counts this allocation in its window; an advanced window first has everything behind it cleared. */
    method CountAllocation(start: nat, advanced: bool) returns (count: int)
      requires Valid() && (if advanced then start > Latest(view) else start == Latest(view))
      modifies this
      ensures Valid() && attempt.given == old(attempt.given)
      ensures Latest(view) == start && start in view.counters && count == view.counters[start]
      ensures count == if advanced then 1 else Count(old(view), start) + 1
      ensures view.counters == (if advanced then map[] else old(view.counters))[start := count]
      ensures forall n :: n in view.recent <==> n in old(view.recent) && (advanced ==> n >= start)
    {
      ghost var log := attempt.log;
      if advanced {
        FollowedClears(log, start);
        ClearedLatest(view, start);
        Mutate(ClearCounters(start));
        Mutate(ClearRecent(start));
      } else {
        FollowedMore(log, Bump(start));
        BumpedLatest(view);
      }
      Mutate(Bump(start));
      count := view.counters[start];
    }

    /** Finds a window that is less than half used: the highest one, unless this allocation makes it half
        used, and then the one right after it. That one starts empty but for marks already in it, and all
        that is behind it is cleared. */
    method FindWindow() returns (start: nat)
      requires Valid()
      modifies this
      ensures Valid() && attempt.given == old(attempt.given)
      ensures Latest(view) == start
      ensures start in view.counters && view.counters[start] * 2 < WindowSize(start)
      ensures start == WindowFor(old(view))
      ensures if start == Latest(old(view)) then
                view.counters == old(view.counters)[start := Count(old(view), start) + 1] && view.recent == old(view.recent)
              else
                view.counters == map[start := 1] && forall n :: n in view.recent <==> n in old(view.recent) && n >= start
    {
      hide Followed, Accounted, ApplyAll, RunOn, Latest, ReachesFrom;
      start := Latest(view);
      var advanced := false;
      while true
        invariant Valid() && attempt.given == old(attempt.given)
        invariant if advanced then start > Latest(view) else start == Latest(view) && view == old(view)
        invariant advanced ==> Latest(old(view)) < start == WindowFor(old(view)) && view.recent == old(view.recent)
        decreases !advanced
      {
        var count := CountAllocation(start, advanced);
        if count * 2 < WindowSize(start) { return; }
        start := start + WindowSize(start);
        advanced := true;
      }
    }

    /** Marks a candidate, having read whether it was marked and whether the window is still the highest:
        it is, if it was when the window was found. */
    method TryCandidate(start: nat, candidate: nat) returns (free: bool, stale: bool)
      requires Valid() && start <= candidate
      modifies this
      ensures Valid() && attempt.given == old(attempt.given) && view.counters == old(view.counters)
      ensures Mark(candidate) in attempt.log && Latest(view) == Latest(old(view))
      ensures stale == (start < Latest(old(view)))
      ensures free == (candidate !in old(view.recent)) && view.recent == old(view.recent) + {candidate}
      ensures free && !stale ==> candidate in attempt.readKeys && !Accounted(snapshot, candidate) && candidate !in attempt.given
    {
      var latest := Latest(view);
      free := candidate !in view.recent;
      if !Accounted(view, candidate) { NotSeen(attempt.log, snapshot, candidate); }
      if !OwnWrite(attempt.log, candidate) {
        attempt := attempt.(readKeys := attempt.readKeys + {candidate});
      }
      FollowedMore(attempt.log, Mark(candidate));
      Mutate(Mark(candidate));
      stale := latest > start;
    }

    /** Claims a candidate: a write conflict on its key alone. */
    method Give(n: nat)
      requires Valid() && n in attempt.readKeys && Mark(n) in attempt.log && !Accounted(snapshot, n) && n !in attempt.given
      modifies this`attempt
      ensures Valid() && attempt.given == old(attempt.given) + [n]
    {
      hide Followed, Accounted, ApplyAll;
      attempt := attempt.(writtenKeys := attempt.writtenKeys + {n}, given := attempt.given + [n]);
    }

    /** Draws candidates until one is free; random draws may run out first. The number given is the first
        drawn candidate of the window that was not marked: one no transaction before the snapshot was given,
        from a window less than half used. */
    method AllocatePrefix(draws: seq<nat>) returns (r: Option<nat>)
      requires Valid()
      modifies this
      ensures Valid()
      ensures r.None? ==> attempt.given == old(attempt.given)
      ensures r.None? ==> AllMarked(old(view).recent, WindowFor(old(view)), draws, |draws|)
      ensures r.Some? ==> exists k :: 0 <= k < |draws| && r.value == Candidate(WindowFor(old(view)), draws[k])
                                      && r.value !in old(view).recent
                                      && AllMarked(old(view).recent, WindowFor(old(view)), draws, k)
      ensures r.Some? ==> attempt.given == old(attempt.given) + [r.value] && r.value !in old(attempt.given)
                          && !Accounted(snapshot, r.value) && HalfUsed(view, r.value)
    {
      hide Followed, Accounted, ApplyAll, RunOn, HalfUsed, Latest, WindowFor, WindowSize;
      var k := 0;
      while k < |draws|
        invariant k == |draws| || (k == 0 && view == old(view))
        invariant AllMarked(old(view).recent, WindowFor(old(view)), draws, k)
        invariant Valid() && attempt.given == old(attempt.given)
        decreases |draws| - k
      {
        var start := FindWindow();
        var stale := false;
        ghost var before := k;
        while k < |draws| && !stale
          invariant before <= k <= |draws| && !stale && Latest(view) == start == WindowFor(old(view))
          invariant forall n :: n >= start ==> (n in view.recent <==> n in old(view).recent)
          invariant AllMarked(old(view).recent, start, draws, k)
          invariant Valid() && attempt.given == old(attempt.given)
          invariant start in view.counters && view.counters[start] * 2 < WindowSize(start)
          decreases |draws| - k
        {
          var candidate := Candidate(start, draws[k]);
          k := k + 1;
          var free: bool;
          assert candidate >= start;
          free, stale := TryCandidate(start, candidate);
          if !stale && free {
            Give(candidate);
            InWindow(view, start, candidate);
            return Some(candidate);
          }
        }
      }
      return None;
    }
  }

  /** The first so many drawn candidates of a window were taken. */
  ghost predicate AllMarked(recent: set<nat>, start: nat, draws: seq<nat>, upto: nat)
    requires upto <= |draws|
  {
    forall j :: 0 <= j < upto ==> Candidate(start, draws[j]) in recent
  }

  ghost predicate HalfUsed(db: Db, n: nat) {
    exists start :: start in db.counters && start <= n < start + WindowSize(start) && db.counters[start] * 2 < WindowSize(start)
  }

  lemma InWindow(db: Db, start: nat, n: nat)
    requires start in db.counters && start <= n < start + WindowSize(start) && db.counters[start] * 2 < WindowSize(start)
    ensures HalfUsed(db, n)
  {
  }

  // ---- Runs of committing transactions ----

  /** A committed transaction and the number of commits its snapshot had seen. */
  datatype Commit = Commit(seen: nat, attempt: Attempt)

  function After(history: seq<Commit>, n: nat): Db
    requires n <= |history|
  {
    if n == 0 then Db(map[], {}) else ApplyAll(history[n - 1].attempt.log, After(history, n - 1))
  }

  /** Each transaction ran on a snapshot and committed because no commit since had written what it read. */
  ghost predicate Committed(history: seq<Commit>) {
    forall i :: 0 <= i < |history| ==>
      && history[i].seen <= i
      && RunOn(history[i].attempt, After(history, history[i].seen))
      && forall j :: history[i].seen <= j < i ==> history[j].attempt.writtenKeys !! history[i].attempt.readKeys
  }

  lemma CommitRan(history: seq<Commit>, i: nat)
    requires Committed(history) && i < |history|
    ensures Followed(history[i].attempt.log)
    ensures forall n :: n in history[i].attempt.given ==> Mark(n) in history[i].attempt.log
  {
    hide Followed, Accounted, After;
    assert RunOn(history[i].attempt, After(history, history[i].seen));
    assert forall n :: n in history[i].attempt.given ==> Fresh(history[i].attempt, After(history, history[i].seen), n);
  }

  /** A number once accounted for stays so. */
  lemma {:induction false} StaysAccounted(history: seq<Commit>, n: nat, from: nat, upto: nat)
    requires Committed(history) && from <= upto <= |history| && Accounted(After(history, from), n)
    ensures Accounted(After(history, upto), n)
  {
    hide Committed, RunOn, Accounted, ApplyAll, Followed, ReachesFrom;
    if from < upto {
      StaysAccounted(history, n, from, upto - 1);
      CommitRan(history, upto - 1);
      MarkKept(history[upto - 1].attempt.log, After(history, upto - 1), n);
    }
  }

  /** The highest window never moves back. */
  lemma {:induction false} LatestNeverFalls(history: seq<Commit>, from: nat, upto: nat)
    requires Committed(history) && from <= upto <= |history|
    ensures Latest(After(history, from)) <= Latest(After(history, upto))
  {
    hide Committed, RunOn, Accounted, ApplyAll, Followed, ReachesFrom;
    if from < upto {
      LatestNeverFalls(history, from, upto - 1);
      var db := After(history, upto - 1);
      CommitRan(history, upto - 1);
      NeverBelow(history[upto - 1].attempt.log, db, Latest(db));
    }
  }

  /** Every number given out by a commit is accounted for ever after. */
  lemma GivenIsAccounted(history: seq<Commit>, i: nat, upto: nat, n: nat)
    requires Committed(history) && i < upto <= |history| && n in history[i].attempt.given
    ensures Accounted(After(history, upto), n)
  {
    hide Committed, RunOn, Accounted, ApplyAll, Followed, ReachesFrom;
    CommitRan(history, i);
    MarkKept(history[i].attempt.log, After(history, i), n);
    StaysAccounted(history, n, i + 1, upto);
  }

  /** No number is given out twice, whatever the transactions' snapshots and order of commit. */
  lemma AllocatedOnce(history: seq<Commit>)
    requires Committed(history)
    ensures forall i :: 0 <= i < |history| ==> Distinct(history[i].attempt.given)
    ensures forall i, j, n :: 0 <= i < j < |history| && n in history[i].attempt.given ==> n !in history[j].attempt.given
  {
    forall i, j, n | 0 <= i < j < |history| && n in history[i].attempt.given
      ensures n !in history[j].attempt.given
    {
      if i < history[j].seen {
        GivenIsAccounted(history, i, history[j].seen, n);
      } else {
        assert history[i].attempt.writtenKeys !! history[j].attempt.readKeys;
      }
    }
  }
}
