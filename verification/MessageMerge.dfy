/** Visiting several ready indexes as one, in stamp order: paged cursors, a k-way merge, and a
    visitor that may remove what it has been shown from the very indexes being read. */
module MessageMerge {
  import opened Wrappers
  import opened MessageKeys
  import opened MessageOrder

  const PAGE_SIZE := 64

  datatype Entry = Entry(stamp: Stamp, id: Id)

  /** Rows of an index in key order. */
  ghost predicate Sorted(s: seq<Entry>) {
    forall i, j :: 0 <= i < j < |s| ==> s[i].stamp.Before(s[j].stamp)
  }

  /** An index after some ids were removed from it. */
  function Without(s: seq<Entry>, gone: set<Id>): seq<Entry> {
    if s == [] then []
    else (if s[0].id in gone then [] else [s[0]]) + Without(s[1..], gone)
  }

  /** The rows above a cursor key. */
  function After(s: seq<Entry>, begin: Option<Stamp>): seq<Entry> {
    if s == [] || begin == None || begin.value.Before(s[0].stamp) then s else After(s[1..], begin)
  }

  function Page(s: seq<Entry>): seq<Entry> {
    if |s| <= PAGE_SIZE then s else s[..PAGE_SIZE]
  }

  function Ids(s: seq<Entry>): seq<Id> {
    seq(|s|, i requires 0 <= i < |s| => s[i].id)
  }

  function Flat(batches: seq<seq<Id>>): seq<Id> {
    if batches == [] then [] else Flat(batches[..|batches| - 1]) + batches[|batches| - 1]
  }

  lemma {:induction false} AfterWithout(s: seq<Entry>, begin: Option<Stamp>, gone: set<Id>)
    requires Sorted(s)
    ensures After(Without(s, gone), begin) == Without(After(s, begin), gone)
  {
    if s != [] {
      AfterWithout(s[1..], begin, gone);
      assert ([s[0]] + Without(s[1..], gone))[1..] == Without(s[1..], gone);
      assert [] + Without(s[1..], gone) == Without(s[1..], gone);
      if begin != None && begin.value.Before(s[0].stamp) {
        WithoutAbove(s, begin.value, gone);
      }
    }
  }

  lemma {:induction false} WithoutAbove(s: seq<Entry>, begin: Stamp, gone: set<Id>)
    requires forall e :: e in s ==> begin.Before(e.stamp)
    ensures After(Without(s, gone), Some(begin)) == Without(s, gone)
    ensures forall e :: e in Without(s, gone) ==> e in s
  {
    if s != [] { WithoutAbove(s[1..], begin, gone); }
  }

  lemma {:induction false} WithoutUntouched(s: seq<Entry>, gone: set<Id>)
    requires forall e :: e in s ==> e.id !in gone
    ensures Without(s, gone) == s
  {
    if s != [] {
      WithoutUntouched(s[1..], gone);
      assert s == [s[0]] + s[1..];
    }
  }

  /** The rows above the last row of a page are the rows after that page. */
  lemma {:induction false} AfterAt(s: seq<Entry>, n: nat)
    requires Sorted(s) && 0 < n <= |s|
    ensures After(s, Some(s[n - 1].stamp)) == s[n..]
  {
    if n > 1 {
      assert s[1..][n - 2] == s[n - 1];
      AfterAt(s[1..], n - 1);
      assert s[1..][n - 1..] == s[n..];
    } else {
      assert After(s, Some(s[0].stamp)) == After(s[1..], Some(s[0].stamp));
    }
  }

  // ---- One cursor ----

  datatype Cursor = Cursor(space: Space, begin: Option<Stamp>, rows: seq<Entry>, position: nat,
                           done: bool, head: Option<Entry>) {

    /** What the cursor has still to deliver after its head, given the index as it was at the start. */
    ghost function Ahead(index: seq<Entry>): seq<Entry> {
      (if position <= |rows| then rows[position..] else []) + if done then [] else After(index, begin)
    }

    /** The cursor stands at row n of the index as it was at the start. */
    ghost predicate At(index: seq<Entry>, n: nat) {
      && n <= |index|
      && (head.None? ==> n == |index|)
      && (head.Some? ==> position <= |rows| && n < |index| && head.value == index[n] && Ahead(index) == index[n + 1..])
    }
  }

  /** Reads the page above the cursor key from the index as it is now. */
  method Load(c: Cursor, now: seq<Entry>, ghost index: seq<Entry>, ghost gone: set<Id>, ghost n: nat)
    returns (d: Cursor)
    requires Sorted(index) && now == Without(index, gone)
    requires n <= |index| && c.position == |c.rows| && !c.done && c.Ahead(index) == index[n..]
    requires forall e :: e in index[n..] ==> e.id !in gone
    ensures d.space == c.space && d.position == 0 && d.Ahead(index) == index[n..]
    ensures d.rows == [] ==> n == |index|
  {
    SameRest(c, now, index, gone, n);
    var batch := Page(After(now, c.begin));
    PageEnd(index, n, |batch|);
    d := c.(rows := batch, position := 0, done := |batch| < PAGE_SIZE);
    if |batch| > 0 {
      d := d.(begin := Some(batch[|batch| - 1].stamp));
    }
  }

  lemma SameRest(c: Cursor, now: seq<Entry>, index: seq<Entry>, gone: set<Id>, n: nat)
    requires Sorted(index) && now == Without(index, gone)
    requires n <= |index| && c.position == |c.rows| && !c.done && c.Ahead(index) == index[n..]
    requires forall e :: e in index[n..] ==> e.id !in gone
    ensures After(now, c.begin) == index[n..]
  {
    var rest := After(index, c.begin);
    assert c.rows[c.position..] == [] && [] + rest == rest;
    AfterWithout(index, c.begin, gone);
    WithoutUntouched(rest, gone);
  }

  lemma PageEnd(index: seq<Entry>, n: nat, k: nat)
    requires Sorted(index) && n + k <= |index| && k == |Page(index[n..])|
    ensures var batch := Page(index[n..]);
            && batch[0..] == batch
            && (k < PAGE_SIZE ==> batch + [] == index[n..])
            && (k > 0 ==> batch + After(index, Some(batch[k - 1].stamp)) == index[n..])
  {
    var batch := Page(index[n..]);
    if k > 0 {
      AfterAt(index, n + k);
      assert batch[k - 1] == index[n + k - 1];
      assert batch == index[n..][..k];
    }
  }

  /** The next row, from the page in memory or from a new page of the index as it is now. */
  method Next(c: Cursor, now: seq<Entry>, ghost index: seq<Entry>, ghost gone: set<Id>, ghost n: nat)
    returns (d: Cursor)
    requires Sorted(index) && now == Without(index, gone)
    requires n <= |index| && c.position <= |c.rows| && c.Ahead(index) == index[n..]
    requires forall e :: e in index[n..] ==> e.id !in gone
    ensures d.space == c.space && d.At(index, n)
  {
    d := c;
    if d.position == |d.rows| {
      if d.done { return d.(head := None); }
      d := Load(c, now, index, gone, n);
    }
    if d.position < |d.rows| {
      HeadIsNext(d, index, n);
      d := d.(head := Some(d.rows[d.position]), position := d.position + 1);
    } else {
      d := d.(head := None, position := d.position + 1);
    }
  }

  lemma HeadIsNext(d: Cursor, index: seq<Entry>, n: nat)
    requires n <= |index| && d.position < |d.rows| && d.Ahead(index) == index[n..]
    ensures d.(head := Some(d.rows[d.position]), position := d.position + 1).At(index, n)
  {
    var was, c := d.Ahead(index), d.(head := Some(d.rows[d.position]), position := d.position + 1);
    assert was[0] == d.rows[d.position];
    assert |was| == |index| - n && was[0] == index[n..][0];
    assert c.Ahead(index) == was[1..];
    assert was[1..] == index[n + 1..];
    hide After;
  }

  // ---- The merge ----

  /** A visitor sees what was shown before and the next batch; it answers which ids it takes out
      of the indexes and whether it wants more. */
  type Visitor = (seq<Id>, seq<Id>) -> (set<Id>, bool)

  ghost predicate Indexes(store: map<Space, seq<Entry>>, spaces: seq<Space>) {
    forall s :: s in spaces ==> s in store && Sorted(store[s])
  }

  ghost predicate HasRow(store: map<Space, seq<Entry>>, spaces: seq<Space>, id: Id)
    requires Indexes(store, spaces)
  {
    exists s, i :: s in spaces && 0 <= i < |store[s]| && store[s][i].id == id
  }

  /** Of the ids with a row to show, a visitor takes out only what it was shown. */
  ghost predicate RemovesShownOnly(visit: Visitor, store: map<Space, seq<Entry>>, spaces: seq<Space>)
    requires Indexes(store, spaces)
  {
    forall shown, batch, id :: id in visit(shown, batch).0 && HasRow(store, spaces, id) ==> id in shown || id in batch
  }

  /** An id and a stamp belong to one row: a message has one row in each family of indexes. */
  ghost predicate OneRowEach(store: map<Space, seq<Entry>>, spaces: seq<Space>)
    requires Indexes(store, spaces)
  {
    forall s, t :: s in spaces && t in spaces ==>
      forall i, j :: 0 <= i < |store[s]| && 0 <= j < |store[t]| ==>
        (store[s][i].id == store[t][j].id || store[s][i].stamp == store[t][j].stamp) ==> s == t && i == j
  }

  /** What the visitor took out over so many windows. */
  function TakenOut(visit: Visitor, batches: seq<seq<Id>>): set<Id> {
    if batches == [] then {}
    else
      var front := batches[..|batches| - 1];
      TakenOut(visit, front) + visit(Flat(front), batches[|batches| - 1]).0
  }

  predicate WantsMore(visit: Visitor, batches: seq<seq<Id>>, i: nat)
    requires i < |batches|
  {
    visit(Flat(batches[..i]), batches[i]).1
  }

  /** Ids gathered into windows of one page before the visitor is asked. */
  datatype Window = Window(batches: seq<seq<Id>>, batch: seq<Id>, gone: set<Id>) {
    function Shown(): seq<Id> {
      Flat(batches) + batch
    }

    ghost predicate Valid(visit: Visitor) {
      && |batch| < PAGE_SIZE
      && (forall i :: 0 <= i < |batches| ==> |batches[i]| == PAGE_SIZE)
      && gone == TakenOut(visit, batches)
    }

    /** So many windows were answered with a wish for more. */
    ghost predicate Wanted(visit: Visitor, n: nat) {
      n <= |batches| && forall i :: 0 <= i < n ==> WantsMore(visit, batches, i)
    }
  }

  /** The last window shown was a full one, and the visitor wanted no more. */
  ghost predicate Refused(w: Window, visit: Visitor) {
    && w.batch == [] && |w.batches| > 0 && w.Wanted(visit, |w.batches| - 1)
    && !WantsMore(visit, w.batches, |w.batches| - 1)
  }

  /** A full window handed to the visitor. */
  lemma WindowCloses(visit: Visitor, batches: seq<seq<Id>>, batch: seq<Id>)
    ensures var after := batches + [batch];
            && Flat(after) == Flat(batches) + batch
            && TakenOut(visit, after) == TakenOut(visit, batches) + visit(Flat(batches), batch).0
            && WantsMore(visit, after, |batches|) == visit(Flat(batches), batch).1
            && forall i :: 0 <= i < |batches| ==> WantsMore(visit, after, i) == WantsMore(visit, batches, i)
  {
    var after := batches + [batch];
    assert after[..|batches|] == batches;
    forall i | 0 <= i < |batches| ensures WantsMore(visit, after, i) == WantsMore(visit, batches, i) {
      assert after[..i] == batches[..i];
    }
  }

  method Append(w: Window, id: Id, visit: Visitor) returns (v: Window, more: bool)
    requires w.Valid(visit) && w.Wanted(visit, |w.batches|)
    ensures v.Valid(visit) && v.Shown() == w.Shown() + [id] && w.batches <= v.batches
    ensures if more then v.Wanted(visit, |v.batches|) else Refused(v, visit)
  {
    v := w.(batch := w.batch + [id]);
    assert v.Shown() == w.Shown() + [id];
    if |v.batch| < PAGE_SIZE { return v, true; }
    WindowCloses(visit, w.batches, v.batch);
    hide Flat, TakenOut, WantsMore;
    var answer := visit(Flat(v.batches), v.batch);
    v := Window(v.batches + [v.batch], [], v.gone + answer.0);
    more := answer.1;
  }

  /** The cursor with the least head, if any cursor has one. */
  method Select(cursors: seq<Cursor>) returns (selected: Option<nat>)
    ensures selected.None? <==> forall c :: c in cursors ==> c.head.None?
    ensures selected.Some? ==>
              && selected.value < |cursors| && cursors[selected.value].head.Some?
              && forall i :: 0 <= i < |cursors| && cursors[i].head.Some? ==>
                   !cursors[i].head.value.stamp.Before(cursors[selected.value].head.value.stamp)
  {
    selected := None;
    for i := 0 to |cursors|
      invariant selected.None? <==> forall k :: 0 <= k < i ==> cursors[k].head.None?
      invariant selected.Some? ==>
                  && selected.value < |cursors| && cursors[selected.value].head.Some?
                  && forall k :: 0 <= k < i && cursors[k].head.Some? ==>
                       !cursors[k].head.value.stamp.Before(cursors[selected.value].head.value.stamp)
    {
      if cursors[i].head.Some? &&
         (selected.None? || cursors[i].head.value.stamp.Before(cursors[selected.value].head.value.stamp)) {
        selected := Some(i);
      }
    }
  }

  /** Positions reached in the indexes, and the entries merged so far. */
  ghost predicate Merged(store: map<Space, seq<Entry>>, spaces: seq<Space>, at: seq<nat>, entries: seq<Entry>)
    requires Indexes(store, spaces)
  {
    && |at| == |spaces|
    && (forall i :: 0 <= i < |spaces| ==> at[i] <= |store[spaces[i]]|)
    && Sorted(entries)
    && (forall i, j :: 0 <= i < |spaces| && 0 <= j < at[i] ==> store[spaces[i]][j] in entries)
    && (forall e :: e in entries ==> Delivered(store, spaces, at, e))
    && (forall e, i :: e in entries && 0 <= i < |spaces| && at[i] < |store[spaces[i]]| ==>
          e.stamp.Before(store[spaces[i]][at[i]].stamp))
  }

  ghost predicate Delivered(store: map<Space, seq<Entry>>, spaces: seq<Space>, at: seq<nat>, e: Entry)
    requires Indexes(store, spaces) && |at| == |spaces|
    requires forall i :: 0 <= i < |spaces| ==> at[i] <= |store[spaces[i]]|
  {
    exists i, j :: 0 <= i < |spaces| && 0 <= j < at[i] && e == store[spaces[i]][j]
  }

  ghost function Remaining(store: map<Space, seq<Entry>>, spaces: seq<Space>, at: seq<nat>): int
    requires Indexes(store, spaces) && |at| == |spaces|
  {
    if spaces == [] then 0 else |store[spaces[0]]| - at[0] + Remaining(store, spaces[1..], at[1..])
  }

  lemma {:induction false} RemainingStep(store: map<Space, seq<Entry>>, spaces: seq<Space>, at: seq<nat>, i: nat)
    requires Indexes(store, spaces) && |at| == |spaces| && i < |spaces|
    ensures Remaining(store, spaces, at[i := at[i] + 1]) == Remaining(store, spaces, at) - 1
  {
    if i > 0 {
      RemainingStep(store, spaces[1..], at[1..], i - 1);
      assert at[i := at[i] + 1][1..] == at[1..][i - 1 := at[1..][i - 1] + 1];
    } else {
      assert at[0 := at[0] + 1][1..] == at[1..];
    }
  }

  lemma {:induction false} RemainingBound(store: map<Space, seq<Entry>>, spaces: seq<Space>, at: seq<nat>)
    requires Indexes(store, spaces) && |at| == |spaces|
    requires forall i :: 0 <= i < |spaces| ==> at[i] <= |store[spaces[i]]|
    ensures Remaining(store, spaces, at) >= 0
  {
    if spaces != [] { RemainingBound(store, spaces[1..], at[1..]); }
  }

  ghost predicate Distinct(spaces: seq<Space>) {
    forall i, j :: 0 <= i < j < |spaces| ==> spaces[i] != spaces[j]
  }

  /** Taking the least head keeps the merge sorted and exact. */
  lemma MergeStep(store: map<Space, seq<Entry>>, spaces: seq<Space>, at: seq<nat>, entries: seq<Entry>, i: nat)
    requires Indexes(store, spaces) && OneRowEach(store, spaces) && Distinct(spaces)
    requires Merged(store, spaces, at, entries)
    requires i < |spaces| && at[i] < |store[spaces[i]]|
    requires forall k :: 0 <= k < |spaces| && at[k] < |store[spaces[k]]| ==>
               !store[spaces[k]][at[k]].stamp.Before(store[spaces[i]][at[i]].stamp)
    ensures Merged(store, spaces, at[i := at[i] + 1], entries + [store[spaces[i]][at[i]]])
  {
    var e := store[spaces[i]][at[i]];
    var at', entries' := at[i := at[i] + 1], entries + [e];
    SortedMore(entries, e);
    DeliveredMore(store, spaces, at, entries, i);
    hide Sorted, Delivered;
    forall k | 0 <= k < |spaces| && at'[k] < |store[spaces[k]]|
      ensures e.stamp.Before(store[spaces[k]][at'[k]].stamp)
    {
      NextIsLater(store, spaces, at, i, k);
    }
    hide Indexes, OneRowEach, Distinct;
    LaterThanAll(store, spaces, at, at', entries, e, i);
  }

  lemma LaterThanAll(store: map<Space, seq<Entry>>, spaces: seq<Space>, at: seq<nat>, at': seq<nat>,
                     entries: seq<Entry>, e: Entry, i: nat)
    requires Indexes(store, spaces) && |at| == |spaces| == |at'| && i < |spaces| && at[i] < |store[spaces[i]]|
    requires at' == at[i := at[i] + 1] && e == store[spaces[i]][at[i]]
    requires forall d :: d in entries ==> d.stamp.Before(e.stamp)
    requires forall k :: 0 <= k < |spaces| && at'[k] < |store[spaces[k]]| ==> e.stamp.Before(store[spaces[k]][at'[k]].stamp)
    ensures forall d, k :: d in entries + [e] && 0 <= k < |spaces| && at'[k] < |store[spaces[k]]| ==>
              d.stamp.Before(store[spaces[k]][at'[k]].stamp)
  {
  }

  lemma DeliveredMore(store: map<Space, seq<Entry>>, spaces: seq<Space>, at: seq<nat>, entries: seq<Entry>, i: nat)
    requires Indexes(store, spaces) && |at| == |spaces| && i < |spaces| && at[i] < |store[spaces[i]]|
    requires forall k :: 0 <= k < |spaces| ==> at[k] <= |store[spaces[k]]|
    requires forall d :: d in entries ==> Delivered(store, spaces, at, d)
    requires forall k, j :: 0 <= k < |spaces| && 0 <= j < at[k] ==> store[spaces[k]][j] in entries
    ensures var at', entries' := at[i := at[i] + 1], entries + [store[spaces[i]][at[i]]];
            && (forall d :: d in entries' ==> Delivered(store, spaces, at', d))
            && (forall k, j :: 0 <= k < |spaces| && 0 <= j < at'[k] ==> store[spaces[k]][j] in entries')
  {
    hide Sorted;
    var at' := at[i := at[i] + 1];
    assert at[i] < at'[i];
    forall d | d in entries ensures Delivered(store, spaces, at', d) {
      var k, j :| 0 <= k < |spaces| && 0 <= j < at[k] && d == store[spaces[k]][j];
      assert j < at'[k];
    }
  }

  /** Whatever stands next at a cursor is after the least head that was taken. */
  lemma NextIsLater(store: map<Space, seq<Entry>>, spaces: seq<Space>, at: seq<nat>, i: nat, k: nat)
    requires Indexes(store, spaces) && OneRowEach(store, spaces) && Distinct(spaces)
    requires |at| == |spaces| && i < |spaces| && k < |spaces| && at[i] < |store[spaces[i]]|
    requires at[i := at[i] + 1][k] < |store[spaces[k]]|
    requires k != i ==> !store[spaces[k]][at[k]].stamp.Before(store[spaces[i]][at[i]].stamp)
    ensures store[spaces[i]][at[i]].stamp.Before(store[spaces[k]][at[i := at[i] + 1][k]].stamp)
  {
    if k == i {
      assert Sorted(store[spaces[i]]) by { assert spaces[i] in spaces; }
    } else {
      OtherRow(store, spaces, k, at[k], i, at[i]);
      BeforeTotal(store[spaces[i]][at[i]].stamp, store[spaces[k]][at[k]].stamp);
    }
  }

  lemma SortedMore(entries: seq<Entry>, e: Entry)
    requires Sorted(entries) && forall d :: d in entries ==> d.stamp.Before(e.stamp)
    ensures Sorted(entries + [e])
  {
    assert forall x :: 0 <= x < |entries| ==> entries[x] in entries;
  }

  lemma BeforeTotal(a: Stamp, b: Stamp)
    ensures a == b || a.Before(b) || b.Before(a)
  {
  }

  /** What has not been delivered has not been shown, so the visitor cannot have removed it. */
  lemma NotYetGone(store: map<Space, seq<Entry>>, spaces: seq<Space>, at: seq<nat>, entries: seq<Entry>,
                   i: nat, gone: set<Id>)
    requires Indexes(store, spaces) && OneRowEach(store, spaces) && Distinct(spaces)
    requires Merged(store, spaces, at, entries) && i < |spaces|
    requires forall id :: id in gone && HasRow(store, spaces, id) ==> id in Ids(entries)
    ensures forall e :: e in store[spaces[i]][at[i]..] ==> e.id !in gone
  {
    forall e | e in store[spaces[i]][at[i]..]
      ensures e.id !in Ids(entries) && HasRow(store, spaces, e.id)
    {
      var y :| 0 <= y < |store[spaces[i]]| - at[i] && store[spaces[i]][at[i]..][y] == e;
      assert store[spaces[i]][at[i] + y].id == e.id && spaces[i] in spaces;
      NotYetShown(store, spaces, at, entries, i, at[i] + y);
    }
  }

  lemma NotYetShown(store: map<Space, seq<Entry>>, spaces: seq<Space>, at: seq<nat>, entries: seq<Entry>, i: nat, n: nat)
    requires Indexes(store, spaces) && OneRowEach(store, spaces) && Distinct(spaces)
    requires Merged(store, spaces, at, entries) && i < |spaces| && at[i] <= n < |store[spaces[i]]|
    ensures store[spaces[i]][n].id !in Ids(entries)
  {
    forall x | 0 <= x < |entries| ensures store[spaces[i]][n].id != entries[x].id {
      assert entries[x] in entries;
      var k, j :| 0 <= k < |spaces| && 0 <= j < at[k] && entries[x] == store[spaces[k]][j];
      OtherRow(store, spaces, k, j, i, n);
    }
  }

  lemma OtherRow(store: map<Space, seq<Entry>>, spaces: seq<Space>, k: nat, j: nat, i: nat, x: nat)
    requires Indexes(store, spaces) && OneRowEach(store, spaces) && Distinct(spaces)
    requires k < |spaces| && i < |spaces| && j < |store[spaces[k]]| && x < |store[spaces[i]]|
    requires k != i || j != x
    ensures store[spaces[k]][j].id != store[spaces[i]][x].id
    ensures store[spaces[k]][j].stamp != store[spaces[i]][x].stamp
  {
    assert spaces[k] in spaces && spaces[i] in spaces;
  }

  /** Where the visit got to: entries are the committed rows shown, tail the pending ids shown. */
  ghost predicate Complete(store: map<Space, seq<Entry>>, indexes: seq<Space>, entries: seq<Entry>)
    requires Indexes(store, indexes)
  {
    forall s, e :: s in indexes && e in store[s] ==> e in entries
  }

  method DistinctSpaces(indexes: seq<Space>) returns (spaces: seq<Space>)
    ensures Distinct(spaces) && forall s :: s in spaces <==> s in indexes
  {
    spaces := [];
    for i := 0 to |indexes|
      invariant Distinct(spaces) && forall s :: s in spaces <==> s in indexes[..i]
    {
      if indexes[i] !in spaces { spaces := spaces + [indexes[i]]; }
      assert indexes[..i + 1] == indexes[..i] + [indexes[i]];
    }
    assert indexes[..|indexes|] == indexes;
  }

  method OpenCursors(spaces: seq<Space>, store: map<Space, seq<Entry>>) returns (cursors: seq<Cursor>)
    requires Indexes(store, spaces)
    ensures CursorsAt(store, spaces, seq(|spaces|, i => 0), cursors)
  {
    cursors := [];
    for i := 0 to |spaces|
      invariant |cursors| == i
      invariant forall k :: 0 <= k < i ==> cursors[k].space == spaces[k] && cursors[k].At(store[spaces[k]], 0)
    {
      var c := Open(spaces[i], store[spaces[i]]);
      cursors := cursors + [c];
    }
  }

  method Open(space: Space, index: seq<Entry>) returns (c: Cursor)
    requires Sorted(index)
    ensures c.space == space && c.At(index, 0)
  {
    c := Cursor(space, None, [], 0, false, None);
    WithoutUntouched(index, {});
    assert c.Ahead(index) == index[0..];
    c := Next(c, index, index, {}, 0);
  }

  ghost predicate CursorsAt(store: map<Space, seq<Entry>>, spaces: seq<Space>, at: seq<nat>, cursors: seq<Cursor>)
    requires Indexes(store, spaces)
  {
    && |cursors| == |spaces| == |at|
    && forall i :: 0 <= i < |spaces| ==> cursors[i].space == spaces[i] && cursors[i].At(store[spaces[i]], at[i])
  }

  /** Takes the selected head: one more entry, shown through the window, and its cursor moved on. */
  method Deliver(spaces: seq<Space>, cursors: seq<Cursor>, store: map<Space, seq<Entry>>, visit: Visitor,
                 w: Window, entries: seq<Entry>, i: nat, ghost at: seq<nat>)
    returns (moved: seq<Cursor>, v: Window, more: bool)
    requires Indexes(store, spaces) && OneRowEach(store, spaces) && Distinct(spaces) && RemovesShownOnly(visit, store, spaces)
    requires CursorsAt(store, spaces, at, cursors) && i < |cursors| && cursors[i].head.Some?
    requires w.Valid(visit) && w.Wanted(visit, |w.batches|) && w.Shown() == Ids(entries)
    requires Merged(store, spaces, at[i := at[i] + 1], entries + [cursors[i].head.value])
    ensures v.Valid(visit) && v.Shown() == Ids(entries + [cursors[i].head.value])
    ensures more ==> v.Wanted(visit, |v.batches|)
                     && CursorsAt(store, spaces, at[i := at[i] + 1], moved)
    ensures !more ==> Refused(v, visit)
  {
    var head := cursors[i].head.value;
    assert Ids(entries + [head]) == Ids(entries) + [head.id];
    v, more := Append(w, head.id, visit);
    moved := cursors;
    if !more { return; }
    ShownGone(v, visit, store, spaces, Ids(entries + [head]));
    var c := Move(spaces, cursors[i], store, entries + [head], v.gone, i, at);
    CursorMoved(store, spaces, at, cursors, i, c);
    moved := cursors[i := c];
  }

  /** What the visitor has taken out so far has no row left to show. */
  lemma {:induction false} TakenWereShown(visit: Visitor, batches: seq<seq<Id>>, store: map<Space, seq<Entry>>,
                              spaces: seq<Space>)
    requires Indexes(store, spaces) && RemovesShownOnly(visit, store, spaces)
    ensures forall id :: id in TakenOut(visit, batches) && HasRow(store, spaces, id) ==> id in Flat(batches)
  {
    if batches != [] { TakenWereShown(visit, batches[..|batches| - 1], store, spaces); }
  }

  lemma ShownGone(v: Window, visit: Visitor, store: map<Space, seq<Entry>>, spaces: seq<Space>, ids: seq<Id>)
    requires Indexes(store, spaces) && RemovesShownOnly(visit, store, spaces) && v.Valid(visit) && v.Shown() == ids
    ensures forall id :: id in v.gone && HasRow(store, spaces, id) ==> id in ids
  {
    TakenWereShown(visit, v.batches, store, spaces);
  }

  method Move(spaces: seq<Space>, c: Cursor, store: map<Space, seq<Entry>>, ghost entries: seq<Entry>, gone: set<Id>,
              i: nat, ghost at: seq<nat>)
    returns (d: Cursor)
    requires Indexes(store, spaces) && OneRowEach(store, spaces) && Distinct(spaces)
    requires i < |spaces| == |at| && c.space == spaces[i] && c.head.Some? && c.At(store[spaces[i]], at[i])
    requires Merged(store, spaces, at[i := at[i] + 1], entries)
    requires forall id :: id in gone && HasRow(store, spaces, id) ==> id in Ids(entries)
    ensures d.space == spaces[i] && d.At(store[spaces[i]], at[i] + 1)
  {
    NotYetGone(store, spaces, at[i := at[i] + 1], entries, i, gone);
    assert Sorted(store[spaces[i]]) by { assert spaces[i] in spaces; }
    hide Indexes, OneRowEach, Distinct, Merged, Sorted, Without, Ids, HasRow;
    d := Next(c, Without(store[spaces[i]], gone), store[spaces[i]], gone, at[i] + 1);
  }

  lemma CursorMoved(store: map<Space, seq<Entry>>, spaces: seq<Space>, at: seq<nat>, cursors: seq<Cursor>, i: nat,
                    c: Cursor)
    requires Indexes(store, spaces) && CursorsAt(store, spaces, at, cursors) && i < |spaces|
    requires c.space == spaces[i] && c.At(store[spaces[i]], at[i] + 1)
    ensures CursorsAt(store, spaces, at[i := at[i] + 1], cursors[i := c])
  {
  }

  lemma LeastHead(store: map<Space, seq<Entry>>, spaces: seq<Space>, at: seq<nat>, cursors: seq<Cursor>,
                  entries: seq<Entry>, i: nat)
    requires Indexes(store, spaces) && OneRowEach(store, spaces) && Distinct(spaces)
    requires CursorsAt(store, spaces, at, cursors) && Merged(store, spaces, at, entries)
    requires i < |cursors| && cursors[i].head.Some?
    requires forall k :: 0 <= k < |cursors| && cursors[k].head.Some? ==>
               !cursors[k].head.value.stamp.Before(cursors[i].head.value.stamp)
    ensures Merged(store, spaces, at[i := at[i] + 1], entries + [cursors[i].head.value])
    ensures 0 <= Remaining(store, spaces, at[i := at[i] + 1]) < Remaining(store, spaces, at)
  {
    forall k | 0 <= k < |spaces| && at[k] < |store[spaces[k]]|
      ensures !store[spaces[k]][at[k]].stamp.Before(store[spaces[i]][at[i]].stamp)
    {
      assert cursors[k].head.Some?;
    }
    MergeStep(store, spaces, at, entries, i);
    RemainingStep(store, spaces, at, i);
    RemainingBound(store, spaces, at[i := at[i] + 1]);
  }

  /** The merge loop over the committed rows. */
  method VisitCommitted(spaces: seq<Space>, start: seq<Cursor>, store: map<Space, seq<Entry>>, visit: Visitor)
    returns (w: Window, entries: seq<Entry>, stopped: bool, ghost at: seq<nat>)
    requires Indexes(store, spaces) && OneRowEach(store, spaces) && Distinct(spaces) && RemovesShownOnly(visit, store, spaces)
    requires CursorsAt(store, spaces, seq(|spaces|, i => 0), start)
    ensures Merged(store, spaces, at, entries) && w.Valid(visit) && w.Shown() == Ids(entries)
    ensures !stopped ==> w.Wanted(visit, |w.batches|)
                         && forall i :: 0 <= i < |spaces| ==> at[i] == |store[spaces[i]]|
    ensures stopped ==> Refused(w, visit)
  {
    var cursors := start;
    at := seq(|spaces|, i => 0);
    w, entries, stopped := Window([], [], {}), [], false;
    while true
      invariant CursorsAt(store, spaces, at, cursors) && Merged(store, spaces, at, entries)
      invariant w.Valid(visit) && w.Wanted(visit, |w.batches|) && w.Shown() == Ids(entries)
      decreases Remaining(store, spaces, at)
    {
      var selected := Select(cursors);
      if selected.None? {
        assert forall i :: 0 <= i < |spaces| ==> cursors[i] in cursors;
        return;
      }
      var i := selected.value;
      LeastHead(store, spaces, at, cursors, entries, i);
      var head := cursors[i].head.value;
      var more: bool;
      cursors, w, more := Deliver(spaces, cursors, store, visit, w, entries, i, at);
      entries := entries + [head];
      at := at[i := at[i] + 1];
      if !more { return w, entries, true, at; }
    }
  }

  // ---- The pending entries ----

  predicate Meets(e: Pending, indexes: seq<Space>) {
    exists s :: s in e.spaces && s in indexes
  }

  /** A pending entry to be visited: still indexed, and in one of the selected indexes. */
  predicate Due(e: Pending, indexes: seq<Space>, gone: set<Id>) {
    e.indexed && e.id !in gone && Meets(e, indexes)
  }

  ghost predicate Rising(list: seq<Pending>) {
    forall i, j :: 0 <= i < j < |list| ==> list[i].user < list[j].user
  }

  ghost predicate Apart(list: seq<Pending>) {
    forall i, j :: 0 <= i < j < |list| ==> list[i].user != list[j].user && list[i].id != list[j].id
  }

  function EntryIds(list: seq<Pending>): seq<Id> {
    seq(|list|, i requires 0 <= i < |list| => list[i].id)
  }

  /** The entries still to be visited, as the pending map lists them. */
  method StillDue(pending: seq<Pending>, indexes: seq<Space>, gone: set<Id>) returns (list: seq<Pending>)
    requires Apart(pending)
    ensures Apart(list) && forall e :: e in list <==> e in pending && Due(e, indexes, gone)
  {
    list := [];
    for k := 0 to |pending|
      invariant Apart(list) && forall e :: e in list <==> e in pending[..k] && Due(e, indexes, gone)
    {
      assert pending[..k + 1] == pending[..k] + [pending[k]];
      if Due(pending[k], indexes, gone) {
        assert forall i :: 0 <= i < |list| ==> list[i] in list;
        list := list + [pending[k]];
      }
    }
    assert pending[..|pending|] == pending;
  }

  lemma PlacedAt(sorted: seq<Pending>, k: nat, e: Pending)
    requires Rising(sorted) && k <= |sorted|
    requires forall i :: 0 <= i < k ==> sorted[i].user < e.user
    requires forall i :: k <= i < |sorted| ==> e.user < sorted[i].user
    ensures Rising(sorted[..k] + [e] + sorted[k..])
    ensures forall x :: x in sorted[..k] + [e] + sorted[k..] <==> x == e || x in sorted
  {
    var r := sorted[..k] + [e] + sorted[k..];
    assert forall i :: 0 <= i < |r| ==> r[i] == if i < k then sorted[i] else if i == k then e else sorted[i - 1];
    forall x | x in sorted ensures x in r {
      var i :| 0 <= i < |sorted| && sorted[i] == x;
      assert r[if i < k then i else i + 1] == x;
    }
    assert r[k] == e;
  }

  method Place(sorted: seq<Pending>, e: Pending) returns (r: seq<Pending>)
    requires Rising(sorted) && forall x :: x in sorted ==> x.user != e.user
    ensures Rising(r) && forall x :: x in r <==> x == e || x in sorted
  {
    var k := 0;
    while k < |sorted| && sorted[k].user < e.user
      invariant k <= |sorted| && forall i :: 0 <= i < k ==> sorted[i].user < e.user
    {
      k := k + 1;
    }
    assert forall i :: 0 <= i < |sorted| ==> sorted[i] in sorted;
    PlacedAt(sorted, k, e);
    r := sorted[..k] + [e] + sorted[k..];
  }

  /** Entries by their ordinals. */
  method ByOrdinal(list: seq<Pending>) returns (sorted: seq<Pending>)
    requires Apart(list)
    ensures Rising(sorted) && forall e :: e in sorted <==> e in list
  {
    sorted := [];
    for k := 0 to |list|
      invariant Rising(sorted) && forall e :: e in sorted <==> e in list[..k]
    {
      assert list[..k + 1] == list[..k] + [list[k]];
      sorted := Place(sorted, list[k]);
    }
    assert list[..|list|] == list;
  }

  method VisitPending(start: Window, list: seq<Pending>, visit: Visitor) returns (w: Window, tail: nat, stopped: bool)
    requires start.Valid(visit) && start.Wanted(visit, |start.batches|)
    ensures tail <= |list| && w.Valid(visit) && w.Shown() == start.Shown() + EntryIds(list[..tail])
    ensures start.batches <= w.batches
    ensures !stopped ==> tail == |list| && w.Wanted(visit, |w.batches|)
    ensures stopped ==> tail > 0 && Refused(w, visit)
  {
    w := start;
    assert w.Shown() == start.Shown() + EntryIds(list[..0]);
    for k := 0 to |list|
      invariant w.Valid(visit) && w.Wanted(visit, |w.batches|) && w.Shown() == start.Shown() + EntryIds(list[..k])
      invariant start.batches <= w.batches
    {
      var more: bool;
      assert EntryIds(list[..k + 1]) == EntryIds(list[..k]) + [list[k].id];
      w, more := Append(w, list[k].id, visit);
      if !more { return w, k + 1, true; }
    }
    return w, |list|, false;
  }

  // ---- The visit ----

  /** Full windows, and perhaps a last short one. Every window but the last was answered with a wish for
      more; a visit stops early exactly at a full window that was not. */
  ghost predicate Windows(visit: Visitor, batches: seq<seq<Id>>, stopped: bool) {
    && (forall i :: 0 <= i < |batches| ==> 0 < |batches[i]| <= PAGE_SIZE)
    && (forall i :: 0 <= i < |batches| - 1 ==> |batches[i]| == PAGE_SIZE && WantsMore(visit, batches, i))
    && (stopped ==> batches != [] && |batches[|batches| - 1]| == PAGE_SIZE && !WantsMore(visit, batches, |batches| - 1))
    && (!stopped && batches != [] && |batches[|batches| - 1]| == PAGE_SIZE ==> WantsMore(visit, batches, |batches| - 1))
  }

  /** What is left in the window is shown last; the answer no longer matters. */
  method Close(w: Window, visit: Visitor, ghost stopped: bool) returns (batches: seq<seq<Id>>)
    requires w.Valid(visit) && if stopped then Refused(w, visit) else w.Wanted(visit, |w.batches|)
    ensures Windows(visit, batches, stopped) && Flat(batches) == w.Shown() && w.batches <= batches
  {
    batches := w.batches;
    if |w.batch| > 0 {
      WindowCloses(visit, w.batches, w.batch);
      batches := w.batches + [w.batch];
    } else {
      assert Flat(w.batches) + [] == Flat(w.batches);
    }
    hide Flat, TakenOut, WantsMore;
  }

  lemma {:induction false} FlatLength(batches: seq<seq<Id>>)
    requires forall i :: 0 <= i < |batches| ==> |batches[i]| == PAGE_SIZE
    ensures |Flat(batches)| == PAGE_SIZE * |batches|
  {
    if batches != [] { FlatLength(batches[..|batches| - 1]); }
  }

  /** So many full windows the committed entries filled. */
  lemma WindowsFilled(w: Window, visit: Visitor, entries: seq<Entry>)
    requires w.Valid(visit) && w.Shown() == Ids(entries)
    ensures |entries| / PAGE_SIZE == |w.batches|
  {
    FlatLength(w.batches);
  }

  ghost predicate Once(ids: seq<Id>) {
    forall i, j :: 0 <= i < j < |ids| ==> ids[i] != ids[j]
  }

  ghost predicate NoneListed(store: map<Space, seq<Entry>>, spaces: seq<Space>, pending: seq<Pending>)
    requires Indexes(store, spaces)
  {
    forall e :: e in pending ==> !HasRow(store, spaces, e.id)
  }

  /** Whatever was shown was shown once. */
  lemma ShownOnce(store: map<Space, seq<Entry>>, indexes: seq<Space>, pending: seq<Pending>, entries: seq<Entry>,
                  list: seq<Pending>, tail: nat)
    requires Indexes(store, indexes) && OneRowEach(store, indexes) && Apart(pending) && NoneListed(store, indexes, pending)
    requires Sorted(entries) && forall e :: e in entries ==> exists s :: s in indexes && e in store[s]
    requires Rising(list) && (forall e :: e in list ==> e in pending) && tail <= |list|
    ensures Once(Ids(entries) + EntryIds(list[..tail]))
  {
    forall i | 0 <= i < |entries| ensures HasRow(store, indexes, entries[i].id) {
      assert entries[i] in entries;
    }
    forall i, j | 0 <= i < j < |entries| ensures entries[i].id != entries[j].id {
      SameRow(store, indexes, entries[i], entries[j]) by { assert entries[i] in entries && entries[j] in entries; }
    }
    forall i, j | 0 <= i < j < tail ensures list[i].id != list[j].id {
      assert list[i] in list && list[j] in list;
    }
    forall j | 0 <= j < tail ensures !HasRow(store, indexes, list[j].id) { assert list[j] in list; }
    hide HasRow, Indexes, OneRowEach, Sorted, Rising, NoneListed, Apart;
  }

  lemma SameRow(store: map<Space, seq<Entry>>, indexes: seq<Space>, e: Entry, d: Entry)
    requires Indexes(store, indexes) && OneRowEach(store, indexes)
    requires (exists s :: s in indexes && e in store[s]) && (exists s :: s in indexes && d in store[s])
    ensures e.id == d.id ==> e == d
  {
    var s :| s in indexes && e in store[s];
    var t :| t in indexes && d in store[t];
    var i :| 0 <= i < |store[s]| && store[s][i] == e;
    var j :| 0 <= j < |store[t]| && store[t][j] == d;
  }

  lemma SameIndexes(store: map<Space, seq<Entry>>, indexes: seq<Space>, spaces: seq<Space>, visit: Visitor)
    requires Indexes(store, indexes) && OneRowEach(store, indexes) && RemovesShownOnly(visit, store, indexes)
    requires forall s :: s in spaces <==> s in indexes
    ensures Indexes(store, spaces) && OneRowEach(store, spaces) && RemovesShownOnly(visit, store, spaces)
  {
    forall id ensures HasRow(store, spaces, id) <==> HasRow(store, indexes, id) {}
  }

  /** What a visit of some indexes has shown, with the pending entries that followed the committed rows. */
  ghost predicate Visited(indexes: seq<Space>, store: map<Space, seq<Entry>>, pending: seq<Pending>, visit: Visitor,
                          batches: seq<seq<Id>>, entries: seq<Entry>, list: seq<Pending>, tail: nat, stopped: bool)
    requires Indexes(store, indexes)
  {
    // the windows shown are committed rows, then pending entries, nothing twice
    && Windows(visit, batches, stopped) && tail <= |list|
    && Flat(batches) == Ids(entries) + EntryIds(list[..tail]) && Once(Flat(batches))
    // committed rows of the indexes in strictly increasing stamp order, none passed over
    && Sorted(entries) && (forall e :: e in entries ==> exists s :: s in indexes && e in store[s])
    && (forall e, s, d :: e in entries && s in indexes && d in store[s] && d !in entries ==> e.stamp.Before(d.stamp))
    && (tail > 0 || !stopped ==> Complete(store, indexes, entries))
    // then, by ordinal, the pending entries the visitor had left in these indexes
    && Rising(list) && |entries| / PAGE_SIZE <= |batches|
    && (forall e :: e in list <==> e in pending && Due(e, indexes, TakenOut(visit, batches[..|entries| / PAGE_SIZE])))
    && (!stopped ==> tail == |list|)
  }

  lemma VisitEnds(first: Window, w: Window, visit: Visitor, batches: seq<seq<Id>>, entries: seq<Entry>,
                  list: seq<Pending>, tail: nat)
    requires first.Valid(visit) && first.Shown() == Ids(entries) && tail <= |list|
    requires (w == first && tail == 0) || w.Shown() == first.Shown() + EntryIds(list[..tail])
    requires first.batches <= w.batches <= batches && Flat(batches) == w.Shown()
    ensures Flat(batches) == Ids(entries) + EntryIds(list[..tail])
    ensures |entries| / PAGE_SIZE <= |batches| && first.gone == TakenOut(visit, batches[..|entries| / PAGE_SIZE])
  {
    WindowsFilled(first, visit, entries);
    assert batches[..|first.batches|] == first.batches;
    if tail == 0 { assert Ids(entries) + EntryIds(list[..0]) == Ids(entries); }
  }

  lemma VisitedSo(indexes: seq<Space>, store: map<Space, seq<Entry>>, pending: seq<Pending>, visit: Visitor,
                  batches: seq<seq<Id>>, entries: seq<Entry>, list: seq<Pending>, tail: nat, stopped: bool, gone: set<Id>)
    requires Indexes(store, indexes) && Windows(visit, batches, stopped) && tail <= |list|
    requires Flat(batches) == Ids(entries) + EntryIds(list[..tail]) && Once(Ids(entries) + EntryIds(list[..tail]))
    requires Sorted(entries) && (forall e :: e in entries ==> exists s :: s in indexes && e in store[s])
    requires forall e, s, d :: e in entries && s in indexes && d in store[s] && d !in entries ==> e.stamp.Before(d.stamp)
    requires tail > 0 || !stopped ==> Complete(store, indexes, entries)
    requires Rising(list) && (forall e :: e in list <==> e in pending && Due(e, indexes, gone))
    requires |entries| / PAGE_SIZE <= |batches| && gone == TakenOut(visit, batches[..|entries| / PAGE_SIZE])
    requires !stopped ==> tail == |list|
    ensures Visited(indexes, store, pending, visit, batches, entries, list, tail, stopped)
  {
  }

  /** Visits what the selected indexes hold in one order: committed rows by stamp, then what this attempt
      has pending by ordinal, in windows of one page, until the visitor has enough. */
  method Visit(indexes: seq<Space>, store: map<Space, seq<Entry>>, pending: seq<Pending>, visit: Visitor)
    returns (batches: seq<seq<Id>>, entries: seq<Entry>, list: seq<Pending>, tail: nat, stopped: bool)
    requires Indexes(store, indexes) && OneRowEach(store, indexes) && RemovesShownOnly(visit, store, indexes)
    requires Apart(pending) && NoneListed(store, indexes, pending)
    ensures Visited(indexes, store, pending, visit, batches, entries, list, tail, stopped)
  {
    hide *;
    var spaces := DistinctSpaces(indexes);
    SameIndexes(store, indexes, spaces, visit);
    var cursors := OpenCursors(spaces, store);
    ghost var at;
    var w: Window;
    w, entries, stopped, at := VisitCommitted(spaces, cursors, store, visit);
    StopsInOrder(store, indexes, spaces, at, entries);
    WindowsFilled(w, visit, entries);
    var still := StillDue(pending, indexes, w.gone);
    list := ByOrdinal(still);
    ghost var first := w;
    tail := 0;
    if !stopped {
      w, tail, stopped := VisitPending(w, list, visit);
    }
    batches := Close(w, visit, stopped);
    ShownOnce(store, indexes, pending, entries, list, tail);
    VisitEnds(first, w, visit, batches, entries, list, tail);
    hide Indexes;
    VisitedSo(indexes, store, pending, visit, batches, entries, list, tail, stopped, first.gone);
  }

  lemma StopsInOrder(store: map<Space, seq<Entry>>, indexes: seq<Space>, spaces: seq<Space>, at: seq<nat>,
                     entries: seq<Entry>)
    requires Indexes(store, spaces) && Indexes(store, indexes) && forall s :: s in spaces <==> s in indexes
    requires Merged(store, spaces, at, entries)
    ensures forall e :: e in entries ==> exists s :: s in indexes && e in store[s]
    ensures forall e, s, d :: e in entries && s in indexes && d in store[s] && d !in entries ==> e.stamp.Before(d.stamp)
    ensures (forall i :: 0 <= i < |spaces| ==> at[i] == |store[spaces[i]]|) ==> Complete(store, indexes, entries)
    ensures Sorted(entries)
  {
    forall e | e in entries
      ensures exists s :: s in indexes && e in store[s]
    {
      var i, j :| 0 <= i < |spaces| && 0 <= j < at[i] && e == store[spaces[i]][j];
      assert spaces[i] in indexes;
    }
    forall e, s, d | e in entries && s in indexes && d in store[s] && d !in entries
      ensures e.stamp.Before(d.stamp)
    {
      var i :| 0 <= i < |spaces| && spaces[i] == s;
      var j :| 0 <= j < |store[s]| && store[s][j] == d;
      assert j >= at[i];
    }
    if forall i :: 0 <= i < |spaces| ==> at[i] == |store[spaces[i]]| {
      forall s, d | s in indexes && d in store[s]
        ensures d in entries
      {
        var i :| 0 <= i < |spaces| && spaces[i] == s;
        var j :| 0 <= j < |store[s]| && store[s][j] == d;
      }
    }
  }
  // ---- Visiting what an attempt sees ----

  /** Of the rows of some indexes, an id and a stamp belong to one. */
  ghost predicate OneEach(rows: set<Row>, indexes: seq<Space>) {
    forall r, q :: r in rows && q in rows && r.space in indexes && q.space in indexes ==>
      (r.id == q.id || r.stamp == q.stamp) ==> r == q
  }

  ghost predicate Among(rows: set<Row>, indexes: seq<Space>, id: Id) {
    exists r :: r in rows && r.space in indexes && r.id == id
  }

  /** An index holds exactly its rows, in key order. */
  ghost predicate Lists(index: seq<Entry>, rows: set<Row>, space: Space) {
    Sorted(index) && forall e :: e in index <==> Row(space, e.stamp, e.id) in rows
  }

  ghost predicate ListsAll(store: map<Space, seq<Entry>>, rows: set<Row>, indexes: seq<Space>) {
    forall s :: s in indexes ==> s in store && Lists(store[s], rows, s)
  }

  /** What range reads of one index give: its rows in key order. */
  method ReadIndex(rows: set<Row>, space: Space) returns (index: seq<Entry>)
    requires forall r, q :: r in rows && q in rows && r.space == space && q.space == space && r.stamp == q.stamp ==> r == q
    ensures Lists(index, rows, space)
  {
    index := [];
    var todo := set r | r in rows && r.space == space;
    while todo != {}
      invariant Sorted(index) && forall r :: r in todo ==> r in rows && r.space == space
      invariant forall e, r :: e in index && r in todo ==> e.stamp.Before(r.stamp)
      invariant forall e :: e in index || Row(space, e.stamp, e.id) in todo <==> Row(space, e.stamp, e.id) in rows
      decreases todo
    {
      var order := (x: Row, y: Row) => x == y || x.stamp.Before(y.stamp);
      LeastExists(todo, order);
      var r :| r in todo && forall q :: q in todo ==> r == q || r.stamp.Before(q.stamp);
      SortedMore(index, Entry(r.stamp, r.id));
      index := index + [Entry(r.stamp, r.id)];
      todo := todo - {r};
    }
  }

  method ReadIndexes(rows: set<Row>, indexes: seq<Space>) returns (store: map<Space, seq<Entry>>)
    requires OneEach(rows, indexes)
    ensures ListsAll(store, rows, indexes)
  {
    store := map[];
    for k := 0 to |indexes|
      invariant ListsAll(store, rows, indexes[..k])
    {
      assert indexes[..k + 1] == indexes[..k] + [indexes[k]];
      var index := ReadIndex(rows, indexes[k]);
      store := store[indexes[k] := index];
    }
    assert indexes[..|indexes|] == indexes;
  }

  lemma ListsFacts(store: map<Space, seq<Entry>>, rows: set<Row>, indexes: seq<Space>)
    requires OneEach(rows, indexes) && ListsAll(store, rows, indexes)
    ensures Indexes(store, indexes) && OneRowEach(store, indexes)
    ensures forall id :: HasRow(store, indexes, id) <==> Among(rows, indexes, id)
  {
    forall s, t, i, j | s in indexes && t in indexes && 0 <= i < |store[s]| && 0 <= j < |store[t]|
                        && (store[s][i].id == store[t][j].id || store[s][i].stamp == store[t][j].stamp)
      ensures s == t && i == j
    {
      var e, d := store[s][i], store[t][j];
      assert e in store[s] && d in store[t];
      assert Row(s, e.stamp, e.id) in rows && Row(t, d.stamp, d.id) in rows;
      assert !e.stamp.Before(d.stamp);
    }
    forall id | HasRow(store, indexes, id) ensures Among(rows, indexes, id) {
      var s, i :| s in indexes && 0 <= i < |store[s]| && store[s][i].id == id;
      assert store[s][i] in store[s];
      assert Row(s, store[s][i].stamp, id) in rows;
    }
    forall id | Among(rows, indexes, id) ensures HasRow(store, indexes, id) {
      var r :| r in rows && r.space in indexes && r.id == id;
      assert Entry(r.stamp, id) in store[r.space];
    }
  }

  /** Stamps a visit leaves behind: those its rows have shown. */
  function Remembered(committed: map<Id, Stamp>, entries: seq<Entry>): map<Id, Stamp> {
    if entries == [] then committed
    else
      var last := entries[|entries| - 1];
      Remembered(committed, entries[..|entries| - 1])[last.id := last.stamp]
  }

  function RowsOf(a: Attempt): set<Row>
    reads a
  {
    Edited(a.log, a.snapshot.rows)
  }

  lemma RowsBelow(a: Attempt)
    requires a.InStep()
    ensures forall r :: r in RowsOf(a) ==> r.stamp.Before(Boundary(a.readVersion))
    ensures Apart(a.pending)
  {
    EditedStaysBelow(a.log, a.readVersion, a.conflicts, a.snapshot.rows);
  }

  lemma VisitedBelow(store: map<Space, seq<Entry>>, rows: set<Row>, indexes: seq<Space>, entries: seq<Entry>, end: Stamp)
    requires ListsAll(store, rows, indexes) && forall r :: r in rows ==> r.stamp.Before(end)
    requires forall e :: e in entries ==> exists s :: s in indexes && e in store[s]
    ensures forall k :: 0 <= k < |entries| ==> entries[k].stamp.Before(end)
  {
    forall k | 0 <= k < |entries| ensures entries[k].stamp.Before(end) {
      assert entries[k] in entries;
      var s :| s in indexes && entries[k] in store[s];
      assert Row(s, entries[k].stamp, entries[k].id) in rows;
    }
  }

  lemma RememberedMore(committed: map<Id, Stamp>, entries: seq<Entry>, k: nat)
    requires k < |entries|
    ensures Remembered(committed, entries[..k + 1]) == Remembered(committed, entries[..k])[entries[k].id := entries[k].stamp]
  {
    assert entries[..k + 1][..k] == entries[..k];
  }

  /** A visit inside an attempt: the committed rows as the attempt has edited them, then its own pending
      entries. The stamps of the rows it was shown are remembered. */
  method VisitMessageOrder(a: Attempt, indexes: seq<Space>, visit: Visitor)
    returns (batches: seq<seq<Id>>, entries: seq<Entry>, list: seq<Pending>, tail: nat, stopped: bool,
             store: map<Space, seq<Entry>>)
    requires a.InStep() && OneEach(RowsOf(a), indexes)
    requires forall e :: e in a.pending ==> !Among(RowsOf(a), indexes, e.id)
    requires forall shown, batch, id :: id in visit(shown, batch).0 && Among(RowsOf(a), indexes, id) ==> id in shown || id in batch
    modifies a`committed
    ensures a.InStep() && ListsAll(store, RowsOf(a), indexes) && Indexes(store, indexes)
    ensures Visited(indexes, store, a.pending, visit, batches, entries, list, tail, stopped)
    ensures a.committed == Remembered(old(a.committed), entries)
  {
    RowsBelow(a);
    store := ReadIndexes(RowsOf(a), indexes);
    ListsFacts(store, RowsOf(a), indexes);
    assert RemovesShownOnly(visit, store, indexes);
    batches, entries, list, tail, stopped := Visit(indexes, store, a.pending, visit);
    VisitedBelow(store, RowsOf(a), indexes, entries, Boundary(a.readVersion));
    assert entries[..|entries|] == entries && entries[..0] == [];
    assert Remembered(a.committed, []) == a.committed;
    hide *;
    for k := 0 to |entries|
      invariant a.InStep() && a.committed == Remembered(old(a.committed), entries[..k])
    {
      RememberedMore(old(a.committed), entries, k);
      a.Observe(entries[k].id, entries[k].stamp);
    }
  }
}
