/** The backing persistence store: values in chunks under fresh identities, manifests that point at
    them, multi-transaction staging guarded by an epoch and by garbage markers. Every transaction is one
    atomic step; any number of writers may be part-way through. */
module BackingPersistence {
  import opened Wrappers

  type Key = string
  type Identity = nat
  type Epoch = nat
  type Chunk = string
  type Millis = int

  const STAGING_GARBAGE_DELAY := 86_400_000
  const CLEANUP_BATCH := 100

  datatype Manifest = Manifest(identity: Identity, expires: Option<Millis>)

  datatype Store = Store(manifests: map<Key, Manifest>, chunks: map<(Identity, nat), Chunk>,
                         expirations: map<(Millis, Key), Identity>, garbage: set<(Millis, Identity)>, epoch: Option<Epoch>)

  /** What each identity was made for; identities are fresh, so this is written once. */
  type Contents = map<Identity, seq<Chunk>>

  /** An entry of a write, with the value split into its chunks. */
  datatype Prepared = Prepared(key: Key, identity: Identity, expires: Option<Millis>, garbageAt: Millis, chunks: seq<Chunk>)

  /** A write that is being staged: entries before the current one are staged whole, of the current one
      its marker and so many of its chunks, fewer by one than steps; expected is the epoch of its first batch. */
  datatype Writer = Writer(entries: seq<Prepared>, current: nat, steps: nat, expected: Option<Option<Epoch>>)

  // ---- What holds between transactions ----

  ghost predicate Complete(s: Store, contents: Contents, id: Identity) {
    id in contents && contents[id] != [] && forall k: nat :: (id, k) in s.chunks <==> k < |contents[id]|
  }

  ghost predicate Unmarked(s: Store, id: Identity) {
    forall t :: (t, id) !in s.garbage
  }

  /** A chunk is what its identity was made for. */
  ghost predicate Faithful(s: Store, contents: Contents) {
    forall x :: x in s.chunks ==> x.0 in contents && x.1 < |contents[x.0]| && s.chunks[x] == contents[x.0][x.1]
  }

  /** Every live manifest has all its chunks, and its identity is in no garbage record. */
  ghost predicate Live(s: Store, contents: Contents) {
    && (forall key :: key in s.manifests ==>
          Complete(s, contents, s.manifests[key].identity) && Unmarked(s, s.manifests[key].identity))
    && (forall k, l :: k in s.manifests && l in s.manifests && s.manifests[k].identity == s.manifests[l].identity ==> k == l)
  }

  /** The expiration index has exactly the manifests that expire, at their time. */
  ghost predicate Expiring(s: Store) {
    && (forall x :: x in s.expirations <==> x.1 in s.manifests && s.manifests[x.1].expires == Some(x.0))
    && (forall x :: x in s.expirations ==> s.expirations[x] == s.manifests[x.1].identity)
  }

  /** Mutations of an entry that have been staged: its marker first, then its chunks. */
  function StepsOf(w: Writer, j: nat): nat
    requires j < |w.entries|
  {
    if j < w.current then 1 + |w.entries[j].chunks| else if j == w.current then w.steps else 0
  }

  ghost predicate Owned(s: Store, contents: Contents, e: Prepared) {
    && e.identity in contents && contents[e.identity] == e.chunks && e.chunks != []
    && (forall key :: key in s.manifests ==> s.manifests[key].identity != e.identity)
    && (forall t :: (t, e.identity) in s.garbage ==> t == e.garbageAt)
  }

  /** While its marker is there and the epoch is the expected one, nothing staged has been lost. */
  ghost predicate Staged(s: Store, e: Prepared, steps: nat, expected: Option<Option<Epoch>>) {
    && (steps == 0 ==> Unmarked(s, e.identity) && forall k: nat :: (e.identity, k) !in s.chunks)
    && (expected == Some(s.epoch) && (e.garbageAt, e.identity) in s.garbage ==>
          forall k: nat :: k + 1 < steps ==> (e.identity, k) in s.chunks)
  }

  ghost predicate WriterOk(s: Store, contents: Contents, w: Writer) {
    && w.current <= |w.entries|
    && (if w.current < |w.entries| then w.steps <= |w.entries[w.current].chunks| else w.steps == 0)
    && (w.expected.None? ==> w.current == 0 && w.steps == 0)
    && (forall i, j :: 0 <= i < j < |w.entries| ==> w.entries[i].key != w.entries[j].key && w.entries[i].identity != w.entries[j].identity)
    && forall j :: 0 <= j < |w.entries| ==>
         Owned(s, contents, w.entries[j]) && Staged(s, w.entries[j], StepsOf(w, j), w.expected)
  }

  ghost predicate Apart(a: seq<Prepared>, b: seq<Prepared>) {
    forall x, y :: x in a && y in b ==> x.identity != y.identity
  }

  ghost predicate WritersOk(s: Store, contents: Contents, writers: map<nat, Writer>) {
    && (forall w :: w in writers ==> WriterOk(s, contents, writers[w]))
    && (forall w, v :: w in writers && v in writers && w != v ==> Apart(writers[w].entries, writers[v].entries))
  }

  ghost predicate Inv(s: Store, contents: Contents, writers: map<nat, Writer>) {
    Faithful(s, contents) && Live(s, contents) && Expiring(s) && WritersOk(s, contents, writers)
  }

  const EMPTY := Store(map[], map[], map[], {}, None)

  // ---- Staging one mutation ----

  /** The next staging mutation of a writer and the writer after it. */
  function StagedOne(s: Store, w: Writer): Store
    requires w.current < |w.entries| && w.steps <= |w.entries[w.current].chunks|
  {
    var e := w.entries[w.current];
    if w.steps == 0 then s.(garbage := s.garbage + {(e.garbageAt, e.identity)})
    else s.(chunks := s.chunks[(e.identity, w.steps - 1) := e.chunks[w.steps - 1]])
  }

  function Advanced(w: Writer): Writer
    requires w.current < |w.entries|
  {
    if w.steps == |w.entries[w.current].chunks| then w.(current := w.current + 1, steps := 0) else w.(steps := w.steps + 1)
  }

  /** A writer after so many more of its mutations, and the store it has left by then. */
  function WriterAfter(w: Writer, n: nat): Writer {
    if n == 0 then w
    else
      var v := WriterAfter(w, n - 1);
      if v.current < |v.entries| then Advanced(v) else v
  }

  function StoreAfter(s: Store, w: Writer, n: nat): Store {
    if n == 0 then s
    else
      var t, v := StoreAfter(s, w, n - 1), WriterAfter(w, n - 1);
      if v.current < |v.entries| && v.steps <= |v.entries[v.current].chunks| then StagedOne(t, v) else t
  }

  lemma {:induction false} AfterMore(s: Store, w: Writer, n: nat, m: nat)
    ensures WriterAfter(WriterAfter(w, n), m) == WriterAfter(w, n + m)
    ensures StoreAfter(StoreAfter(s, w, n), WriterAfter(w, n), m) == StoreAfter(s, w, n + m)
  {
    if m > 0 { AfterMore(s, w, n, m - 1); }
  }

  /** The staging mutations of some entries: a marker and the chunks of each. */
  function Total(entries: seq<Prepared>): nat {
    if entries == [] then 0 else Total(entries[..|entries| - 1]) + 1 + |entries[|entries| - 1].chunks|
  }

  predicate InRange(w: Writer) {
    w.current <= |w.entries| && if w.current < |w.entries| then w.steps <= |w.entries[w.current].chunks| else w.steps == 0
  }

  /** How many mutations a writer has staged. */
  function Stored(w: Writer): nat
    requires InRange(w)
  {
    Total(w.entries[..w.current]) + w.steps
  }

  lemma {:induction false} TotalFront(entries: seq<Prepared>, n: nat)
    requires n < |entries|
    ensures Total(entries[..n]) + 1 + |entries[n].chunks| == Total(entries[..n + 1]) <= Total(entries)
    decreases |entries| - n
  {
    assert entries[..n + 1][..n] == entries[..n];
    if n + 1 < |entries| { TotalFront(entries, n + 1); } else { assert entries[..n + 1] == entries; }
  }

  /** Staging so many mutations stages so many, or all that are left; all are staged when the last entry is. */
  lemma {:induction false} StoredAfter(w: Writer, n: nat)
    requires InRange(w)
    ensures InRange(WriterAfter(w, n)) && WriterAfter(w, n).entries == w.entries && WriterAfter(w, n).expected == w.expected
    ensures Stored(WriterAfter(w, n)) == if Stored(w) + n <= Total(w.entries) then Stored(w) + n else Total(w.entries)
    ensures Stored(w) <= Total(w.entries) && (Stored(w) == Total(w.entries) <==> w.current == |w.entries|)
  {
    StoredWhole(w);
    if n > 0 {
      StoredAfter(w, n - 1);
      var v := WriterAfter(w, n - 1);
      StoredWhole(v);
      if v.current < |v.entries| { TotalFront(v.entries, v.current); }
    }
  }

  lemma StoredWhole(w: Writer)
    requires InRange(w)
    ensures Stored(w) <= Total(w.entries) && (Stored(w) == Total(w.entries) <==> w.current == |w.entries|)
  {
    if w.current < |w.entries| { TotalFront(w.entries, w.current); } else { assert w.entries[..w.current] == w.entries; }
  }

  /** Markers of all entries that were begun. */
  ghost predicate MarkedBehind(s: Store, w: Writer) {
    forall j :: 0 <= j < |w.entries| && (j < w.current || (j == w.current && w.steps > 0)) ==>
      (w.entries[j].garbageAt, w.entries[j].identity) in s.garbage
  }

  lemma {:induction false} MarkedAfter(s: Store, w: Writer, n: nat)
    requires InRange(w) && MarkedBehind(s, w)
    ensures MarkedBehind(StoreAfter(s, w, n), WriterAfter(w, n))
  {
    if n > 0 {
      MarkedAfter(s, w, n - 1);
      StoredAfter(w, n - 1);
      hide Stored, Total;
    }
  }

  lemma StageLive(s: Store, contents: Contents, w: Writer)
    requires Faithful(s, contents) && Live(s, contents) && Expiring(s) && WriterOk(s, contents, w) && w.current < |w.entries|
    ensures var t := StagedOne(s, w); Faithful(t, contents) && Live(t, contents) && Expiring(t)
  {
    var e, t := w.entries[w.current], StagedOne(s, w);
    assert Owned(s, contents, e);
    forall key | key in t.manifests
      ensures Complete(t, contents, t.manifests[key].identity) && Unmarked(t, t.manifests[key].identity)
    {
      assert s.manifests[key].identity != e.identity;
      assert Complete(s, contents, s.manifests[key].identity);
    }
  }

  /** A mutation of one entry is none of another identity's. */
  lemma StageElsewhere(s: Store, contents: Contents, w: Writer, e: Prepared, steps: nat, expected: Option<Option<Epoch>>)
    requires w.current < |w.entries| && w.steps <= |w.entries[w.current].chunks|
    requires e.identity != w.entries[w.current].identity
    requires Owned(s, contents, e) && Staged(s, e, steps, expected)
    ensures Owned(StagedOne(s, w), contents, e) && Staged(StagedOne(s, w), e, steps, expected)
  {
  }

  lemma StageHere(s: Store, contents: Contents, w: Writer)
    requires w.current < |w.entries| && w.steps <= |w.entries[w.current].chunks|
    requires var e := w.entries[w.current]; Owned(s, contents, e) && Staged(s, e, w.steps, w.expected)
    ensures var e := w.entries[w.current]; Owned(StagedOne(s, w), contents, e) && Staged(StagedOne(s, w), e, w.steps + 1, w.expected)
  {
  }

  lemma StageWriter(s: Store, contents: Contents, w: Writer)
    requires WriterOk(s, contents, w) && w.current < |w.entries| && w.expected.Some?
    ensures WriterOk(StagedOne(s, w), contents, Advanced(w))
  {
    var t, v := StagedOne(s, w), Advanced(w);
    forall j | 0 <= j < |v.entries|
      ensures Owned(t, contents, v.entries[j]) && Staged(t, v.entries[j], StepsOf(v, j), v.expected)
    {
      assert Owned(s, contents, w.entries[j]) && Staged(s, w.entries[j], StepsOf(w, j), w.expected);
      if j == w.current { StageHere(s, contents, w); } else { StageElsewhere(s, contents, w, w.entries[j], StepsOf(w, j), w.expected); }
    }
    assert v.current < |v.entries| ==> v.entries[v.current].chunks != [] by {
      if v.current < |v.entries| { assert Owned(t, contents, v.entries[v.current]); }
    }
    hide Owned, Staged, StagedOne;
  }

  lemma StageOther(s: Store, contents: Contents, w: Writer, other: Writer)
    requires WriterOk(s, contents, other) && w.current < |w.entries| && w.steps <= |w.entries[w.current].chunks|
    requires Apart(w.entries, other.entries)
    ensures WriterOk(StagedOne(s, w), contents, other)
  {
    var t := StagedOne(s, w);
    forall j | 0 <= j < |other.entries|
      ensures Owned(t, contents, other.entries[j]) && Staged(t, other.entries[j], StepsOf(other, j), other.expected)
    {
      assert w.entries[w.current] in w.entries && other.entries[j] in other.entries;
      StageElsewhere(s, contents, w, other.entries[j], StepsOf(other, j), other.expected);
    }
    hide Owned, Staged, StagedOne;
  }

  lemma StageKeeps(s: Store, contents: Contents, writers: map<nat, Writer>, id: nat)
    requires Inv(s, contents, writers) && id in writers
    requires writers[id].current < |writers[id].entries| && writers[id].expected.Some?
    ensures Inv(StagedOne(s, writers[id]), contents, writers[id := Advanced(writers[id])])
  {
    var w := writers[id];
    hide Live, Faithful, Expiring, StagedOne, Apart;
    assert w.steps <= |w.entries[w.current].chunks|;
    StageLive(s, contents, w);
    StageWriter(s, contents, w);
    hide WriterOk;
    forall v | v in writers && v != id ensures WriterOk(StagedOne(s, w), contents, writers[v]) {
      StageOther(s, contents, w, writers[v]);
    }
    WritersChanged(s, StagedOne(s, w), contents, writers, id, Advanced(w));
  }

  lemma WritersChanged(s: Store, t: Store, contents: Contents, writers: map<nat, Writer>, id: nat, w: Writer)
    requires WritersOk(s, contents, writers) && id in writers && w.entries == writers[id].entries && WriterOk(t, contents, w)
    requires forall v :: v in writers && v != id ==> WriterOk(t, contents, writers[v])
    ensures WritersOk(t, contents, writers[id := w])
  {
    hide WriterOk, Apart;
    assert forall v :: v in writers ==> writers[id := w][v].entries == writers[v].entries;
  }

  // ---- Staging in batches ----

  function Sum(sizes: seq<nat>): nat {
    if sizes == [] then 0 else Sum(sizes[..|sizes| - 1]) + sizes[|sizes| - 1]
  }

  /** Where batches end: each within a budget that also pays for reading the epoch, none empty. */
  ghost predicate Batches(ends: seq<nat>, sizes: seq<nat>, upTo: nat, base: nat, budget: nat) {
    && upTo <= |sizes|
    && forall i :: 0 <= i < |ends| ==> ends[i] <= upTo && Batch(sizes, Start(ends, i), ends[i], base, budget)
  }

  ghost predicate Batch(sizes: seq<nat>, start: nat, end: nat, base: nat, budget: nat) {
    start < end <= |sizes| && base + Sum(sizes[start..end]) <= budget
  }

  function Start(ends: seq<nat>, i: nat): nat
    requires i <= |ends|
  {
    if i == 0 then 0 else ends[i - 1]
  }

  lemma SumSnoc(sizes: seq<nat>, start: nat, i: nat)
    requires start <= i < |sizes|
    ensures Sum(sizes[start..i + 1]) == Sum(sizes[start..i]) + sizes[i]
  {
    assert sizes[start..i + 1][..i - start] == sizes[start..i];
  }

  lemma OneBatch(sizes: seq<nat>, start: nat, end: nat, base: nat, budget: nat)
    requires start < end <= |sizes| && base + Sum(sizes[start..end]) <= budget
    ensures Batch(sizes, start, end, base, budget)
  {
  }

  lemma Flushed(ends: seq<nat>, sizes: seq<nat>, i: nat, base: nat, budget: nat)
    requires Batches(ends, sizes, i, base, budget) && Batch(sizes, Start(ends, |ends|), i, base, budget)
    ensures Batches(ends + [i], sizes, i, base, budget) && Start(ends + [i], |ends + [i]|) == i
  {
    hide Batch, Sum;
    var more := ends + [i];
    forall k | 0 <= k < |more|
      ensures more[k] <= i && Batch(sizes, Start(more, k), more[k], base, budget)
    {
      assert Start(more, k) == Start(ends, k);
    }
  }

  lemma Later(ends: seq<nat>, sizes: seq<nat>, i: nat, base: nat, budget: nat)
    requires Batches(ends, sizes, i, base, budget) && i < |sizes|
    ensures Batches(ends, sizes, i + 1, base, budget)
  {
  }

  lemma NoneFlushed(sizes: seq<nat>, base: nat, budget: nat)
    ensures Batches([], sizes, 0, base, budget) && Start([], 0) == 0
    ensures forall i :: 0 <= i <= |sizes| ==> Sum(sizes[i..i]) == 0
  {
    assert forall i :: 0 <= i <= |sizes| ==> sizes[i..i] == [];
  }

  // ---- Publishing one entry ----

  /** An entry that can go live: all its chunks are there, and no marker outlives publication. */
  ghost predicate Ready(s: Store, contents: Contents, e: Prepared, staged: bool) {
    Owned(s, contents, e) && Complete(s, contents, e.identity) && (!staged ==> Unmarked(s, e.identity))
  }

  /** The manifest replaced and what it replaces put into the garbage. */
  function PublishedOne(s: Store, e: Prepared, staged: bool, replacedAt: Millis): Store {
    var overwrites := e.key in s.manifests;
    var expirations := if overwrites && s.manifests[e.key].expires.Some?
                       then s.expirations - {(s.manifests[e.key].expires.value, e.key)} else s.expirations;
    var garbage := if overwrites && s.manifests[e.key].identity != e.identity
                   then s.garbage + {(replacedAt, s.manifests[e.key].identity)} else s.garbage;
    s.(manifests := s.manifests[e.key := Manifest(e.identity, e.expires)],
       garbage := if staged then garbage - {(e.garbageAt, e.identity)} else garbage,
       expirations := if e.expires.Some? then expirations[(e.expires.value, e.key) := e.identity] else expirations)
  }

  lemma PublishLive(s: Store, contents: Contents, e: Prepared, staged: bool, replacedAt: Millis)
    requires Live(s, contents) && Ready(s, contents, e, staged)
    ensures Live(PublishedOne(s, e, staged, replacedAt), contents)
  {
    var t := PublishedOne(s, e, staged, replacedAt);
    forall key | key in t.manifests
      ensures Complete(t, contents, t.manifests[key].identity) && Unmarked(t, t.manifests[key].identity)
    {
      if key != e.key {
        assert Complete(s, contents, s.manifests[key].identity) && Unmarked(s, s.manifests[key].identity);
      }
    }
  }

  lemma PublishExpiring(s: Store, e: Prepared, staged: bool, replacedAt: Millis)
    requires Expiring(s)
    ensures Expiring(PublishedOne(s, e, staged, replacedAt))
  {
  }

  lemma PublishElsewhere(s: Store, contents: Contents, e: Prepared, staged: bool, replacedAt: Millis, other: Prepared,
                         steps: nat, expected: Option<Option<Epoch>>)
    requires Owned(s, contents, other) && other.identity != e.identity
    ensures var t := PublishedOne(s, e, staged, replacedAt);
            && Owned(t, contents, other)
            && (Staged(s, other, steps, expected) ==> Staged(t, other, steps, expected))
            && (Ready(s, contents, other, staged) ==> Ready(t, contents, other, staged))
  {
  }

  lemma PublishWriter(s: Store, contents: Contents, e: Prepared, staged: bool, replacedAt: Millis, w: Writer)
    requires WriterOk(s, contents, w) && Apart([e], w.entries)
    ensures WriterOk(PublishedOne(s, e, staged, replacedAt), contents, w)
  {
    assert e in [e];
    forall j | 0 <= j < |w.entries|
      ensures Owned(PublishedOne(s, e, staged, replacedAt), contents, w.entries[j])
      ensures Staged(PublishedOne(s, e, staged, replacedAt), w.entries[j], StepsOf(w, j), w.expected)
    {
      assert w.entries[j] in w.entries;
      PublishElsewhere(s, contents, e, staged, replacedAt, w.entries[j], StepsOf(w, j), w.expected);
    }
    hide Owned, Staged, PublishedOne;
  }

  ghost predicate ApartFromAll(entries: seq<Prepared>, writers: map<nat, Writer>) {
    forall w :: w in writers ==> Apart(entries, writers[w].entries)
  }

  lemma PublishKeeps(s: Store, contents: Contents, writers: map<nat, Writer>, e: Prepared, staged: bool,
                     replacedAt: Millis)
    requires Inv(s, contents, writers) && Ready(s, contents, e, staged) && ApartFromAll([e], writers)
    ensures Inv(PublishedOne(s, e, staged, replacedAt), contents, writers)
  {
    PublishLive(s, contents, e, staged, replacedAt);
    PublishExpiring(s, e, staged, replacedAt);
    assert Faithful(PublishedOne(s, e, staged, replacedAt), contents);
    forall w | w in writers ensures WriterOk(PublishedOne(s, e, staged, replacedAt), contents, writers[w]) {
      PublishWriter(s, contents, e, staged, replacedAt, writers[w]);
    }
    hide WriterOk, Live, Faithful, Expiring, PublishedOne, Apart;
  }

  // ---- Publishing a whole write ----

  /** Part-way through a publication: entries before i are live, the others are ready. */
  ghost predicate Publishing(was: Store, s: Store, contents: Contents, entries: seq<Prepared>, i: nat, staged: bool) {
    && i <= |entries|
    && (forall j, k :: 0 <= j < k < |entries| ==> entries[j].key != entries[k].key && entries[j].identity != entries[k].identity)
    && (forall j :: i <= j < |entries| ==> Ready(s, contents, entries[j], staged))
    && (forall j :: 0 <= j < i ==> entries[j].key in s.manifests && s.manifests[entries[j].key] == Manifest(entries[j].identity, entries[j].expires))
    && (forall key :: !KeyIn(entries, i, key) ==> (key in s.manifests <==> key in was.manifests) && (key in s.manifests ==> s.manifests[key] == was.manifests[key]))
    && s.epoch == was.epoch && s.chunks == was.chunks
  }

  predicate KeyIn(entries: seq<Prepared>, n: nat, key: Key)
    requires n <= |entries|
  {
    exists j :: 0 <= j < n && entries[j].key == key
  }

  lemma PublishNext(was: Store, s: Store, contents: Contents, entries: seq<Prepared>, i: nat, staged: bool,
                    replacedAt: Millis)
    requires Publishing(was, s, contents, entries, i, staged) && i < |entries|
    ensures Publishing(was, PublishedOne(s, entries[i], staged, replacedAt), contents, entries, i + 1, staged)
  {
    var t := PublishedOne(s, entries[i], staged, replacedAt);
    forall j | i + 1 <= j < |entries| ensures Ready(t, contents, entries[j], staged) {
      assert Ready(s, contents, entries[j], staged);
      PublishElsewhere(s, contents, entries[i], staged, replacedAt, entries[j], 0, None);
    }
    assert t.manifests == s.manifests[entries[i].key := Manifest(entries[i].identity, entries[i].expires)];
    hide Ready, PublishedOne, Owned, Staged;
    forall key | !KeyIn(entries, i + 1, key) ensures key != entries[i].key && !KeyIn(entries, i, key) {
    }
  }

  /** What the first so many entries replace is garbage to be cleaned up from that time on. */
  ghost predicate Replaced(was: Store, s: Store, entries: seq<Prepared>, n: nat, replacedAt: Millis) {
    && n <= |entries|
    && (forall e, key :: e in entries && key in was.manifests ==> was.manifests[key].identity != e.identity)
    && forall j :: 0 <= j < n && entries[j].key in was.manifests ==>
         (replacedAt, was.manifests[entries[j].key].identity) in s.garbage
  }

  lemma ReplacesNone(s: Store, contents: Contents, entries: seq<Prepared>, staged: bool, replacedAt: Millis)
    requires Publishing(s, s, contents, entries, 0, staged)
    ensures Replaced(s, s, entries, 0, replacedAt)
  {
    forall e | e in entries ensures Owned(s, contents, e) {
      var j :| 0 <= j < |entries| && entries[j] == e;
      assert Ready(s, contents, entries[j], staged);
    }
    hide Ready, Publishing;
  }

  lemma ReplacesNext(was: Store, s: Store, contents: Contents, entries: seq<Prepared>, i: nat, staged: bool,
                     replacedAt: Millis)
    requires Publishing(was, s, contents, entries, i, staged) && Replaced(was, s, entries, i, replacedAt) && i < |entries|
    ensures Replaced(was, PublishedOne(s, entries[i], staged, replacedAt), entries, i + 1, replacedAt)
  {
    var e, t := entries[i], PublishedOne(s, entries[i], staged, replacedAt);
    assert !KeyIn(entries, i, e.key);
    assert e in entries;
    hide Ready, Publishing;
    forall j | 0 <= j < i + 1 && entries[j].key in was.manifests
      ensures (replacedAt, was.manifests[entries[j].key].identity) in t.garbage
    {
      assert was.manifests[entries[j].key].identity != e.identity;
    }
  }

  // ---- Erasing ----

  /** Manifests of some keys, chunks of some identities and some garbage rows removed together. */
  function Erased(s: Store, keys: set<Key>, ids: set<Identity>, rows: set<(Millis, Identity)>): Store {
    s.(manifests := s.manifests - keys,
       chunks := map x | x in s.chunks && x.0 !in ids :: s.chunks[x],
       expirations := map x | x in s.expirations && x.1 !in keys :: s.expirations[x],
       garbage := s.garbage - rows)
  }

  /** Chunks go only with their manifest or with their marker. */
  ghost predicate CanErase(s: Store, keys: set<Key>, ids: set<Identity>, rows: set<(Millis, Identity)>) {
    && (forall key :: key in s.manifests && key !in keys ==> s.manifests[key].identity !in ids)
    && (forall id :: id in ids ==>
          (exists t :: (t, id) in rows && (t, id) in s.garbage) || exists key :: key in keys && key in s.manifests && s.manifests[key].identity == id)
  }

  lemma EraseWriter(s: Store, contents: Contents, keys: set<Key>, ids: set<Identity>, rows: set<(Millis, Identity)>,
                    e: Prepared, steps: nat, expected: Option<Option<Epoch>>)
    requires CanErase(s, keys, ids, rows) && Owned(s, contents, e) && Staged(s, e, steps, expected)
    ensures Owned(Erased(s, keys, ids, rows), contents, e) && Staged(Erased(s, keys, ids, rows), e, steps, expected)
  {
    if e.identity in ids {
      assert exists t :: (t, e.identity) in rows && (t, e.identity) in s.garbage;
    }
  }

  lemma EraseLive(s: Store, contents: Contents, keys: set<Key>, ids: set<Identity>, rows: set<(Millis, Identity)>)
    requires Live(s, contents) && Faithful(s, contents) && Expiring(s) && CanErase(s, keys, ids, rows)
    ensures var t := Erased(s, keys, ids, rows); Live(t, contents) && Faithful(t, contents) && Expiring(t)
  {
    var t := Erased(s, keys, ids, rows);
    forall key | key in t.manifests
      ensures Complete(t, contents, t.manifests[key].identity) && Unmarked(t, t.manifests[key].identity)
    {
      assert Complete(s, contents, s.manifests[key].identity) && Unmarked(s, s.manifests[key].identity);
    }
  }

  lemma EraseKeeps(s: Store, contents: Contents, writers: map<nat, Writer>, keys: set<Key>, ids: set<Identity>,
                   rows: set<(Millis, Identity)>)
    requires Inv(s, contents, writers) && CanErase(s, keys, ids, rows)
    ensures Inv(Erased(s, keys, ids, rows), contents, writers)
  {
    var t := Erased(s, keys, ids, rows);
    hide Live, Faithful, Expiring;
    EraseLive(s, contents, keys, ids, rows);
    forall w | w in writers ensures WriterOk(t, contents, writers[w]) {
      forall j | 0 <= j < |writers[w].entries|
        ensures Owned(t, contents, writers[w].entries[j]) && Staged(t, writers[w].entries[j], StepsOf(writers[w], j), writers[w].expected)
      {
        assert WriterOk(s, contents, writers[w]);
        EraseWriter(s, contents, keys, ids, rows, writers[w].entries[j], StepsOf(writers[w], j), writers[w].expected);
      }
      hide Owned, Staged, CanErase, Erased;
    }
    hide WriterOk, CanErase, Erased;
  }

  // ---- Writing chunks directly ----

  function WithChunks(s: Store, e: Prepared, n: nat): Store
    requires n <= |e.chunks|
  {
    if n == 0 then s
    else
      var t := WithChunks(s, e, n - 1);
      t.(chunks := t.chunks[(e.identity, n - 1) := e.chunks[n - 1]])
  }

  lemma {:induction false} ChunksAt(s: Store, e: Prepared, n: nat)
    requires n <= |e.chunks|
    ensures var t := WithChunks(s, e, n);
            && t == s.(chunks := t.chunks)
            && (forall x: (Identity, nat) :: x in t.chunks <==> x in s.chunks || (x.0 == e.identity && x.1 < n))
            && (forall x: (Identity, nat) :: x in t.chunks ==> t.chunks[x] == if x.0 == e.identity && x.1 < n then e.chunks[x.1] else s.chunks[x])
  {
    if n > 0 { ChunksAt(s, e, n - 1); }
  }

  lemma ChunksHere(s: Store, contents: Contents, e: Prepared)
    requires Owned(s, contents, e) && Staged(s, e, 0, None)
    ensures Ready(WithChunks(s, e, |e.chunks|), contents, e, false)
  {
    ChunksAt(s, e, |e.chunks|);
    hide WithChunks;
  }

  lemma ChunksElsewhere(s: Store, contents: Contents, e: Prepared, other: Prepared, steps: nat,
                        expected: Option<Option<Epoch>>)
    requires Owned(s, contents, other) && other.identity != e.identity
    ensures var t := WithChunks(s, e, |e.chunks|);
            && Owned(t, contents, other)
            && (Staged(s, other, steps, expected) ==> Staged(t, other, steps, expected))
            && (Ready(s, contents, other, false) ==> Ready(t, contents, other, false))
  {
    ChunksAt(s, e, |e.chunks|);
    hide WithChunks;
  }

  lemma ChunksLive(s: Store, contents: Contents, e: Prepared)
    requires Faithful(s, contents) && Live(s, contents) && Expiring(s) && Owned(s, contents, e)
    ensures var t := WithChunks(s, e, |e.chunks|); Faithful(t, contents) && Live(t, contents) && Expiring(t)
  {
    ChunksAt(s, e, |e.chunks|);
    hide WithChunks;
    var t := WithChunks(s, e, |e.chunks|);
    forall key | key in t.manifests
      ensures Complete(t, contents, t.manifests[key].identity) && Unmarked(t, t.manifests[key].identity)
    {
      assert Complete(s, contents, s.manifests[key].identity) && Unmarked(s, s.manifests[key].identity);
    }
  }

  lemma ChunksWriter(s: Store, contents: Contents, e: Prepared, w: Writer)
    requires WriterOk(s, contents, w) && Apart([e], w.entries)
    ensures WriterOk(WithChunks(s, e, |e.chunks|), contents, w)
  {
    assert e in [e];
    forall j | 0 <= j < |w.entries|
      ensures Owned(WithChunks(s, e, |e.chunks|), contents, w.entries[j])
      ensures Staged(WithChunks(s, e, |e.chunks|), w.entries[j], StepsOf(w, j), w.expected)
    {
      assert w.entries[j] in w.entries;
      ChunksElsewhere(s, contents, e, w.entries[j], StepsOf(w, j), w.expected);
    }
    hide Owned, Staged, WithChunks;
  }

  lemma ChunksKeep(s: Store, contents: Contents, writers: map<nat, Writer>, e: Prepared)
    requires Inv(s, contents, writers) && Owned(s, contents, e) && ApartFromAll([e], writers)
    ensures Inv(WithChunks(s, e, |e.chunks|), contents, writers)
  {
    hide WriterOk, WithChunks, Live, Faithful, Expiring, Owned, Apart;
    ChunksLive(s, contents, e);
    forall w | w in writers ensures WriterOk(WithChunks(s, e, |e.chunks|), contents, writers[w]) {
      ChunksWriter(s, contents, e, writers[w]);
    }
  }

  // ---- Preparing a write ----

  datatype Write = Write(key: Key, chunks: seq<Chunk>, ttl: Option<int>)

  const MAX_SAFE_INTEGER := 9_007_199_254_740_991

  function ExpirationFor(ttl: Option<int>, now: Millis): (r: Option<Millis>)
    ensures r.None? <==> ttl.None?
    ensures ttl.Some? && 0 <= ttl.value && now + ttl.value <= MAX_SAFE_INTEGER ==> r == Some(now + ttl.value)
    ensures ttl.Some? && ttl.value < 0 && now <= MAX_SAFE_INTEGER ==> r == Some(now)
    ensures ttl.Some? && (now > MAX_SAFE_INTEGER || now + ttl.value > MAX_SAFE_INTEGER) ==> r == Some(MAX_SAFE_INTEGER)
  {
    if ttl.None? then None
    else
      var at := now + if ttl.value < 0 then 0 else ttl.value;
      Some(if at > MAX_SAFE_INTEGER then MAX_SAFE_INTEGER else at)
  }

  function KeyAt(writes: seq<Write>, key: Key): nat {
    if writes == [] || writes[0].key == key then 0 else 1 + KeyAt(writes[1..], key)
  }

  lemma {:induction false} KeyAtFinds(writes: seq<Write>, key: Key)
    ensures KeyAt(writes, key) <= |writes|
    ensures KeyAt(writes, key) < |writes| ==> writes[KeyAt(writes, key)].key == key
    ensures KeyAt(writes, key) == |writes| ==> forall i :: 0 <= i < |writes| ==> writes[i].key != key
  {
    if writes != [] && writes[0].key != key {
      KeyAtFinds(writes[1..], key);
      assert forall i :: 1 <= i < |writes| ==> writes[i] == writes[1..][i - 1];
    }
  }

  /** Of the writes to one key only the last counts. */
  method LatestEntries(writes: seq<Write>) returns (latest: seq<Write>)
    ensures LatestOf(writes, latest)
  {
    latest := [];
    for n := 0 to |writes|
      invariant forall i, j :: 0 <= i < j < |latest| ==> latest[i].key != latest[j].key
      invariant forall i :: 0 <= i < n ==> exists j :: 0 <= j < |latest| && latest[j].key == writes[i].key
      invariant forall w :: w in latest ==> IsLast(writes[..n], w)
    {
      ghost var was := latest;
      var at := KeyAt(latest, writes[n].key);
      KeyAtFinds(latest, writes[n].key);
      latest := if at < |latest| then latest[at := writes[n]] else latest + [writes[n]];
      assert forall j :: 0 <= j < |was| ==> latest[j].key == was[j].key;
      assert latest[at].key == writes[n].key;
      forall w | w in latest ensures IsLast(writes[..n + 1], w) {
        if w == writes[n] {
          assert writes[..n + 1][n] == w;
        } else {
          assert w in was && w.key != writes[n].key;
          LastStays(writes, n, w);
        }
      }
    }
    assert writes[..|writes|] == writes;
  }

  /** The last write to each key, one for each key that is written. */
  ghost predicate LatestOf(writes: seq<Write>, latest: seq<Write>) {
    && (forall i, j :: 0 <= i < j < |latest| ==> latest[i].key != latest[j].key)
    && (forall i :: 0 <= i < |writes| ==> exists j :: 0 <= j < |latest| && latest[j].key == writes[i].key)
    && (forall w :: w in latest ==> IsLast(writes, w))
  }

  /** The last write to its key. */
  ghost predicate IsLast(writes: seq<Write>, w: Write) {
    exists i :: 0 <= i < |writes| && writes[i] == w && forall j :: i < j < |writes| ==> writes[j].key != w.key
  }

  lemma LastStays(writes: seq<Write>, n: nat, w: Write)
    requires n < |writes| && IsLast(writes[..n], w) && w.key != writes[n].key
    ensures IsLast(writes[..n + 1], w)
  {
    var i :| 0 <= i < n && writes[..n][i] == w && forall j :: i < j < n ==> writes[..n][j].key != w.key;
    var all := writes[..n + 1];
    assert all[i] == w;
    forall j | i < j < |all| ensures all[j].key != w.key {
      if j < n { assert writes[..n][j] == all[j]; }
    }
  }

  /** The entries of a write, each under a fresh identity. */
  function Prepare(writes: seq<Write>, identities: seq<Identity>, now: Millis): seq<Prepared>
    requires |writes| == |identities|
  {
    seq(|writes|, i requires 0 <= i < |writes| =>
      Prepared(writes[i].key, identities[i], ExpirationFor(writes[i].ttl, now), now + STAGING_GARBAGE_DELAY, writes[i].chunks))
  }

  function ContentsOf(entries: seq<Prepared>): Contents {
    if entries == [] then map[] else ContentsOf(entries[1..])[entries[0].identity := entries[0].chunks]
  }

  lemma {:induction false} ContentsAt(entries: seq<Prepared>)
    requires forall i, j :: 0 <= i < j < |entries| ==> entries[i].identity != entries[j].identity
    ensures forall e :: e in entries ==> e.identity in ContentsOf(entries) && ContentsOf(entries)[e.identity] == e.chunks
    ensures forall id :: id in ContentsOf(entries) ==> exists e :: e in entries && e.identity == id
  {
    if entries != [] {
      var rest, all := entries[1..], ContentsOf(entries);
      ContentsAt(rest);
      assert forall e :: e in rest ==> e in entries && e.identity != entries[0].identity;
      forall e | e in entries ensures e.identity in all && all[e.identity] == e.chunks {
        assert e == entries[0] || e in rest;
      }
      forall id | id in all ensures exists e :: e in entries && e.identity == id {
        assert id == entries[0].identity || id in ContentsOf(rest);
        assert entries[0] in entries;
      }
    }
  }

  /** Identities nobody has used: in no record, of no chunk, no garbage row, no writer. */
  ghost predicate Unused(s: Store, contents: Contents, writers: map<nat, Writer>, entries: seq<Prepared>) {
    && (forall i, j :: 0 <= i < j < |entries| ==> entries[i].key != entries[j].key && entries[i].identity != entries[j].identity)
    && (forall e :: e in entries ==> e.chunks != [] && e.identity !in contents && Unmarked(s, e.identity))
  }

  lemma BeginKeeps(s: Store, contents: Contents, writers: map<nat, Writer>, id: nat, entries: seq<Prepared>)
    requires Inv(s, contents, writers) && id !in writers && Unused(s, contents, writers, entries)
    ensures Inv(s, contents + ContentsOf(entries), writers[id := Writer(entries, 0, 0, None)])
  {
    hide WriterOk, Live, Faithful, Expiring, Apart;
    var more := contents + ContentsOf(entries);
    NewContents(s, contents, writers, entries);
    MoreContents(s, contents, more, writers);
    BeginWriter(s, contents, more, entries);
    hide Unused;
    forall v | v in writers ensures Apart(entries, writers[v].entries) && Apart(writers[v].entries, entries) {
      BeginApart(s, contents, writers[v], entries);
    }
  }

  lemma NewContents(s: Store, contents: Contents, writers: map<nat, Writer>, entries: seq<Prepared>)
    requires Unused(s, contents, writers, entries)
    ensures var more := contents + ContentsOf(entries);
            && (forall x :: x in contents ==> x in more && more[x] == contents[x])
            && (forall e :: e in entries ==> e.identity in more && more[e.identity] == e.chunks && e.identity !in contents)
  {
    ContentsAt(entries);
  }

  lemma BeginApart(s: Store, contents: Contents, w: Writer, entries: seq<Prepared>)
    requires WriterOk(s, contents, w) && forall e :: e in entries ==> e.identity !in contents
    ensures Apart(entries, w.entries) && Apart(w.entries, entries)
  {
    forall x, y | x in entries && y in w.entries ensures x.identity != y.identity {
      var j :| 0 <= j < |w.entries| && w.entries[j] == y;
      assert Owned(s, contents, w.entries[j]);
    }
  }

  lemma BeginWriter(s: Store, contents: Contents, more: Contents, entries: seq<Prepared>)
    requires Faithful(s, contents) && Live(s, contents)
    requires forall i, j :: 0 <= i < j < |entries| ==> entries[i].key != entries[j].key && entries[i].identity != entries[j].identity
    requires forall e :: e in entries ==> e.chunks != [] && e.identity !in contents && Unmarked(s, e.identity)
    requires forall e :: e in entries ==> e.identity in more && more[e.identity] == e.chunks
    ensures WriterOk(s, more, Writer(entries, 0, 0, None))
  {
    var w := Writer(entries, 0, 0, None);
    forall j | 0 <= j < |entries| ensures Owned(s, more, entries[j]) && Staged(s, entries[j], StepsOf(w, j), None) {
      assert entries[j] in entries;
      forall key | key in s.manifests ensures s.manifests[key].identity != entries[j].identity {
        assert Complete(s, contents, s.manifests[key].identity);
      }
    }
  }

  lemma MoreContents(s: Store, contents: Contents, more: Contents, writers: map<nat, Writer>)
    requires Inv(s, contents, writers) && forall x :: x in contents ==> x in more && more[x] == contents[x]
    ensures Inv(s, more, writers)
  {
    forall key | key in s.manifests ensures Complete(s, more, s.manifests[key].identity) {
      assert Complete(s, contents, s.manifests[key].identity);
    }
    assert Live(s, more) && Faithful(s, more);
    hide Live, Faithful, Expiring, Staged, Apart;
    forall w | w in writers ensures WriterOk(s, more, writers[w]) {
      assert WriterOk(s, contents, writers[w]);
      forall j | 0 <= j < |writers[w].entries| ensures Owned(s, more, writers[w].entries[j]) {
        assert Owned(s, contents, writers[w].entries[j]);
      }
      hide Owned;
    }
    hide WriterOk;
  }

  /** A batch of the first transaction tells the epoch the others have to find. */
  lemma ExpectKeeps(s: Store, contents: Contents, writers: map<nat, Writer>, id: nat)
    requires Inv(s, contents, writers) && id in writers && writers[id].expected.None?
    ensures Inv(s, contents, writers[id := writers[id].(expected := Some(s.epoch))])
  {
    var w, v := writers[id], writers[id].(expected := Some(s.epoch));
    forall j | 0 <= j < |v.entries| ensures Owned(s, contents, v.entries[j]) && Staged(s, v.entries[j], StepsOf(v, j), v.expected) {
      assert Owned(s, contents, w.entries[j]) && Staged(s, w.entries[j], StepsOf(w, j), w.expected);
      assert StepsOf(w, j) == 0;
    }
    assert WriterOk(s, contents, v);
    hide WriterOk, Live, Faithful, Expiring;
    WritersChanged(s, s, contents, writers, id, v);
  }

  lemma DropKeeps(s: Store, contents: Contents, writers: map<nat, Writer>, id: nat)
    requires Inv(s, contents, writers)
    ensures Inv(s, contents, writers - {id})
  {
    hide WriterOk, Live, Faithful, Expiring, Apart;
  }

  /** Everything cleared under a new epoch: whatever is being staged can no more be published. */
  lemma ClearKeeps(s: Store, contents: Contents, writers: map<nat, Writer>, epoch: Epoch)
    requires Inv(s, contents, writers) && forall w :: w in writers ==> writers[w].expected != Some(Some(epoch))
    ensures Inv(Store(map[], map[], map[], {}, Some(epoch)), contents, writers)
  {
    var t := Store(map[], map[], map[], {}, Some(epoch));
    assert Live(t, contents) && Faithful(t, contents) && Expiring(t);
    hide Live, Faithful, Expiring, Apart;
    forall w | w in writers ensures WriterOk(t, contents, writers[w]) {
      assert WriterOk(s, contents, writers[w]);
      forall j | 0 <= j < |writers[w].entries|
        ensures Owned(t, contents, writers[w].entries[j]) && Staged(t, writers[w].entries[j], StepsOf(writers[w], j), writers[w].expected)
      {
        assert Owned(s, contents, writers[w].entries[j]);
      }
      hide Owned, Staged;
    }
    hide WriterOk;
  }

  lemma StartsInRange(w: Writer)
    requires w == Writer(w.entries, 0, 0, w.expected)
    ensures InRange(w)
  {
  }

  lemma BackAgain(before: map<nat, Writer>, id: nat, writers: map<nat, Writer>)
    requires id !in before && id in writers && writers == before[id := writers[id]]
    ensures writers - {id} == before
  {
  }

  lemma PreparedAll(writes: seq<Write>, identities: seq<Identity>, now: Millis)
    requires |writes| == |identities|
    ensures |Prepare(writes, identities, now)| == |writes|
  {
  }

  /** Once all mutations are staged, all markers are there and the last entry is done. */
  lemma AllStaged(s: Store, entries: seq<Prepared>, n: nat, epoch: Option<Epoch>)
    requires n == Total(entries) && s.epoch == epoch
    ensures var w := Writer(entries, 0, 0, Some(epoch));
            && WriterAfter(w, n).current == |entries| && WriterAfter(w, n).entries == entries && WriterAfter(w, n).expected == Some(epoch)
            && Marked(StoreAfter(s, w, n), entries)
    ensures entries != [] ==> n > 0
  {
    var w := Writer(entries, 0, 0, Some(epoch));
    StoredAfter(w, n);
    StoredWhole(WriterAfter(w, n));
    MarkedAfter(s, w, n);
  }

  lemma AfterNone(s: Store, w: Writer)
    ensures WriterAfter(w, 0) == w && StoreAfter(s, w, 0) == s
  {
  }

  lemma AfterOne(s: Store, w: Writer, n: nat)
    ensures var v, t := WriterAfter(w, n), StoreAfter(s, w, n);
            && WriterAfter(w, n + 1) == (if v.current < |v.entries| then Advanced(v) else v)
            && StoreAfter(s, w, n + 1) ==
               (if v.current < |v.entries| && v.steps <= |v.entries[v.current].chunks| then StagedOne(t, v) else t)
  {
  }

  lemma WriterInRange(s: Store, contents: Contents, writers: map<nat, Writer>, id: nat)
    requires Inv(s, contents, writers) && id in writers
    ensures InRange(writers[id])
  {
    assert WriterOk(s, contents, writers[id]);
    hide Live, Faithful, Expiring, Owned, Staged, Apart;
  }

  // ---- The operations ----

  datatype WriteResult = Done | EpochChanged | TransactionLimit

  class Persistence {
    var s: Store
    var writers: map<nat, Writer>
    ghost var contents: Contents

    constructor ()
      ensures s == EMPTY && writers == map[] && Inv(s, contents, writers)
    {
      s, writers, contents := EMPTY, map[], map[];
    }

    /** A write starts: its entries under fresh identities, nothing stored yet. */
    method Begin(id: nat, writes: seq<Write>, identities: seq<Identity>, now: Millis) returns (entries: seq<Prepared>)
      requires Inv(s, contents, writers) && id !in writers && |writes| == |identities|
      requires Unused(s, contents, writers, Prepare(writes, identities, now))
      modifies this
      ensures Inv(s, contents, writers) && s == old(s) && entries == Prepare(writes, identities, now)
      ensures writers == old(writers)[id := Writer(entries, 0, 0, None)] && contents == old(contents) + ContentsOf(entries)
    {
      entries := Prepare(writes, identities, now);
      BeginKeeps(s, contents, writers, id, entries);
      hide *;
      writers := writers[id := Writer(entries, 0, 0, None)];
      contents := contents + ContentsOf(entries);
    }

    /** One staging transaction: so many mutations, all or none; it fails when the epoch is not the one
        the write's first transaction saw. */
    method StageBatch(id: nat, count: nat) returns (r: WriteResult)
      requires Inv(s, contents, writers) && id in writers
      modifies this
      ensures Inv(s, contents, writers) && s.manifests == old(s).manifests && s.epoch == old(s).epoch && contents == old(contents)
      ensures r == (if old(writers)[id].expected.None? || old(writers)[id].expected == Some(old(s).epoch) then Done else EpochChanged)
      ensures r.EpochChanged? ==> s == old(s) && writers == old(writers) - {id}
      ensures r.Done? ==> var w := old(writers)[id].(expected := Some(old(s).epoch));
                          s == StoreAfter(old(s), w, count) && writers == old(writers)[id := WriterAfter(w, count)]
    {
      hide *;
      var current := s.epoch;
      if writers[id].expected.Some? && writers[id].expected.value != current {
        DropKeeps(s, contents, writers, id);
        writers := writers - {id};
        return EpochChanged;
      }
      ghost var w := writers[id].(expected := Some(current));
      if writers[id].expected.None? {
        ExpectKeeps(s, contents, writers, id);
        writers := writers[id := writers[id].(expected := Some(current))];
      }
      AfterNone(s, w);
      WriterInRange(s, contents, writers, id);
      for n := 0 to count
        invariant Inv(s, contents, writers) && s.manifests == old(s).manifests && s.epoch == current && contents == old(contents)
        invariant writers == old(writers)[id := WriterAfter(w, n)] && s == StoreAfter(old(s), w, n)
      {
        StoredAfter(w, n);
        AfterOne(old(s), w, n);
        if writers[id].current < |writers[id].entries| { StageNext(id); }
      }
      return Done;
    }

    method StageNext(id: nat)
      requires Inv(s, contents, writers) && id in writers && writers[id].current < |writers[id].entries| && writers[id].expected.Some?
      modifies this
      ensures Inv(s, contents, writers) && writers == old(writers)[id := Advanced(old(writers)[id])]
      ensures old(writers)[id].steps <= |old(writers)[id].entries[old(writers)[id].current].chunks|
      ensures s == StagedOne(old(s), old(writers)[id]) && s.manifests == old(s).manifests && s.epoch == old(s).epoch
      ensures contents == old(contents)
      ensures writers[id].entries == old(writers)[id].entries && writers[id].expected == old(writers)[id].expected
    {
      hide Inv;
      var w := writers[id];
      StageKeeps(s, contents, writers, id);
      StageFields(s, contents, w, writers);
      var e := w.entries[w.current];
      if w.steps == 0 {
        s := s.(garbage := s.garbage + {(e.garbageAt, e.identity)});
      } else {
        s := s.(chunks := s.chunks[(e.identity, w.steps - 1) := e.chunks[w.steps - 1]]);
      }
      writers := writers[id := Advanced(w)];
    }

    /** Stages a write in transactions within the byte budget, its mutations having these sizes. It fails exactly
        when one mutation alone is over the budget; what was flushed by then is garbage under its markers. */
    method StageEntries(id: nat, sizes: seq<nat>, base: nat, budget: nat) returns (r: WriteResult, ghost ends: seq<nat>)
      requires Inv(s, contents, writers) && id in writers && writers[id] == Writer(writers[id].entries, 0, 0, None)
      requires |sizes| == Total(writers[id].entries)
      modifies this
      ensures Inv(s, contents, writers) && s.manifests == old(s).manifests && s.epoch == old(s).epoch && contents == old(contents)
      ensures r == if exists i :: 0 <= i < |sizes| && base + sizes[i] > budget then TransactionLimit else Done
      ensures r.TransactionLimit? ==> writers == old(writers) - {id}
      ensures r.Done? ==> Batches(ends, sizes, |sizes|, base, budget) && Start(ends, |ends|) == |sizes|
      ensures r.Done? ==> var w := old(writers)[id].(expected := Some(s.epoch));
                          s == StoreAfter(old(s), w, |sizes|)
                          && (sizes != [] ==> writers == old(writers)[id := WriterAfter(w, |sizes|)])
    {
      hide *;
      ends := [];
      var start, batchBytes := 0, base;
      ghost var w := writers[id].(expected := Some(s.epoch));
      NoneFlushed(sizes, base, budget);
      AfterNone(s, w);
      for i := 0 to |sizes|
        invariant Inv(s, contents, writers) && s.manifests == old(s).manifests && s.epoch == old(s).epoch && contents == old(contents)
        invariant Batches(ends, sizes, i, base, budget) && start == Start(ends, |ends|) <= i && (i > 0 ==> start < i)
        invariant s == StoreAfter(old(s), w, start)
        invariant writers == if start == 0 then old(writers) else old(writers)[id := WriterAfter(w, start)]
        invariant batchBytes == base + Sum(sizes[start..i]) && (start < i ==> batchBytes <= budget)
        invariant forall k :: 0 <= k < i ==> base + sizes[k] <= budget
      {
        if i > start && batchBytes + sizes[i] > budget {
          OneBatch(sizes, start, i, base, budget);
          Flushed(ends, sizes, i, base, budget);
          Flush(id, start, i, old(s), old(writers), w);
          ends := ends + [i];
          start, batchBytes := i, base;
        }
        if batchBytes + sizes[i] > budget {
          DropKeeps(s, contents, writers, id);
          writers := writers - {id};
          return TransactionLimit, ends;
        }
        SumSnoc(sizes, start, i);
        Later(ends, sizes, i, base, budget);
        batchBytes := batchBytes + sizes[i];
      }
      if |sizes| > start {
        OneBatch(sizes, start, |sizes|, base, budget);
        Flushed(ends, sizes, |sizes|, base, budget);
        Flush(id, start, |sizes|, old(s), old(writers), w);
        ends := ends + [|sizes|];
      }
      return Done, ends;
    }

    /** One batch of a write nobody interferes with. */
    method Flush(id: nat, start: nat, end: nat, ghost was: Store, ghost before: map<nat, Writer>, ghost w: Writer)
      requires Inv(s, contents, writers) && start < end && id in before && s == StoreAfter(was, w, start)
      requires before[id] == Writer(before[id].entries, 0, 0, None) && w == before[id].(expected := Some(s.epoch))
      requires writers == if start == 0 then before else before[id := WriterAfter(w, start)]
      modifies this
      ensures Inv(s, contents, writers) && s.manifests == old(s).manifests && s.epoch == old(s).epoch && contents == old(contents)
      ensures s == StoreAfter(was, w, end) && writers == before[id := WriterAfter(w, end)]
    {
      hide *;
      StartsInRange(w);
      StoredAfter(w, start);
      AfterNone(was, w);
      AfterMore(was, w, start, end - start);
      var r := StageBatch(id, end - start);
    }

    /** A whole write with no other transaction between its own: directly where it fits one transaction, else
        staged and then published. It ends with all entries live, or with none when it is too large. */
    method WriteOnce(id: nat, writes: seq<Write>, identities: seq<Identity>, now: Millis, directBytes: nat,
                     publicationBytes: nat, sizes: seq<nat>, base: nat, budget: nat,
                     replacedAt: Millis) returns (r: WriteResult)
      requires Inv(s, contents, writers) && id !in writers && |writes| == |identities|
      requires Unused(s, contents, writers, Prepare(writes, identities, now))
      requires |sizes| == Total(Prepare(writes, identities, now)) && (writes == [] ==> directBytes <= budget)
      modifies this
      ensures Inv(s, contents, writers) && writers == old(writers) && s.epoch == old(s).epoch
      ensures r == if directBytes > budget && (publicationBytes > budget || exists i :: 0 <= i < |sizes| && base + sizes[i] > budget)
                   then TransactionLimit else Done
      ensures if r.Done? then Went(old(s), s, Prepare(writes, identities, now)) else s.manifests == old(s).manifests
      ensures r.Done? ==> Replaced(old(s), s, Prepare(writes, identities, now), |writes|, replacedAt)
      ensures contents == old(contents) + ContentsOf(Prepare(writes, identities, now))
    {
      hide *;
      ghost var before := writers;
      var entries := Begin(id, writes, identities, now);
      BackAgain(before, id, writers);
      PreparedAll(writes, identities, now);
      if directBytes <= budget {
        PublishDirect(id, replacedAt);
        return Done;
      }
      if publicationBytes > budget {
        DropKeeps(s, contents, writers, id);
        writers := writers - {id};
        return TransactionLimit;
      }
      ghost var start := s;
      ghost var ends;
      r, ends := StageEntries(id, sizes, base, budget);
      if r.TransactionLimit? { return; }
      AllStaged(start, entries, |sizes|, s.epoch);
      BackAgain(before, id, writers);
      ghost var staged := s;
      r := PublishStaged(id, replacedAt);
      WentSince(start, staged, s, entries, replacedAt);
    }

    /** Publishes a write that was staged whole: one transaction that makes all its entries live, if the
        store was not cleared since staging began and no marker was cleaned up. */
    method PublishStaged(id: nat, replacedAt: Millis) returns (r: WriteResult)
      requires Inv(s, contents, writers) && id in writers
      requires writers[id].expected.Some? && writers[id].current == |writers[id].entries|
      modifies this
      ensures Inv(s, contents, writers) && writers == old(writers) - {id} && s.chunks == old(s).chunks && s.epoch == old(s).epoch
      ensures contents == old(contents)
      ensures r == (if old(writers)[id].expected == Some(old(s).epoch) && Marked(old(s), old(writers)[id].entries) then Done else EpochChanged)
      ensures r.EpochChanged? ==> s == old(s)
      ensures r.Done? ==> Went(old(s), s, old(writers)[id].entries)
      ensures r.Done? ==> Replaced(old(s), s, old(writers)[id].entries, |old(writers)[id].entries|, replacedAt)
    {
      hide *;
      var w := writers[id];
      ghost var was := s;
      DropKeeps(s, contents, writers, id);
      PublishStarts(s, contents, writers, id);
      writers := writers - {id};
      if w.expected.value != s.epoch { return EpochChanged; }
      if forall i :: 0 <= i < |w.entries| ==> SameManifest(s, w.entries[i]) {
        NothingToPublish(s, w.entries);
        s := s.(garbage := s.garbage - Markers(w.entries));
        return Done;
      }
      if exists i :: 0 <= i < |w.entries| && (w.entries[i].garbageAt, w.entries[i].identity) !in s.garbage {
        NotMarked(s, w.entries);
        return EpochChanged;
      }
      AllMarked(s, w.entries);
      PublishAll(w.entries, true, replacedAt);
      return Done;
    }

    /** A small write goes live in one transaction, chunks and all. */
    method PublishDirect(id: nat, replacedAt: Millis)
      requires Inv(s, contents, writers) && id in writers && writers[id].expected.None?
      modifies this
      ensures Inv(s, contents, writers) && writers == old(writers) - {id} && s.epoch == old(s).epoch && contents == old(contents)
      ensures Went(old(s), s, old(writers)[id].entries)
      ensures Replaced(old(s), s, old(writers)[id].entries, |old(writers)[id].entries|, replacedAt)
    {
      hide *;
      var entries := writers[id].entries;
      ghost var was := s;
      DropKeeps(s, contents, writers, id);
      DirectStarts(s, contents, writers, id);
      writers := writers - {id};
      for i := 0 to |entries|
        invariant Inv(s, contents, writers) && writers == old(writers) - {id} && contents == old(contents)
        invariant WritingChunks(was, s, contents, entries, i) && ApartFromAll(entries, writers)
      {
        ChunksNext(was, s, contents, writers, entries, i);
        WriteChunks(entries[i]);
      }
      ghost var written := s;
      ChunksDone(was, s, contents, entries);
      PublishAll(entries, false, replacedAt);
      WentSince(was, written, s, entries, replacedAt);
    }

    method WriteChunks(e: Prepared)
      modifies this`s
      ensures s == WithChunks(old(s), e, |e.chunks|)
    {
      ghost var was := s;
      for k := 0 to |e.chunks|
        invariant s == WithChunks(was, e, k)
      {
        s := s.(chunks := s.chunks[(e.identity, k) := e.chunks[k]]);
      }
    }

    /** Each manifest replaced, what it replaced put into the garbage, its marker cleared. */
    method PublishAll(entries: seq<Prepared>, staged: bool, replacedAt: Millis)
      requires Inv(s, contents, writers) && Publishing(s, s, contents, entries, 0, staged) && ApartFromAll(entries, writers)
      modifies this`s
      ensures Inv(s, contents, writers) && s.chunks == old(s).chunks && s.epoch == old(s).epoch
      ensures Went(old(s), s, entries) && Replaced(old(s), s, entries, |entries|, replacedAt)
    {
      hide *;
      ghost var was := s;
      ReplacesNone(s, contents, entries, staged, replacedAt);
      for i := 0 to |entries|
        invariant Inv(s, contents, writers) && Publishing(was, s, contents, entries, i, staged) && ApartFromAll(entries, writers)
        invariant Replaced(was, s, entries, i, replacedAt)
      {
        ReplacesNext(was, s, contents, entries, i, staged, replacedAt);
        PublishNext(was, s, contents, entries, i, staged, replacedAt);
        ReadyAt(was, s, contents, writers, entries, i, staged);
        PublishKeeps(s, contents, writers, entries[i], staged, replacedAt);
        PublishOne(entries[i], staged, replacedAt);
      }
      PublishEnds(was, s, contents, entries, staged);
    }

    method PublishOne(e: Prepared, staged: bool, replacedAt: Millis)
      modifies this`s
      ensures s == PublishedOne(old(s), e, staged, replacedAt)
    {
      if e.key in s.manifests {
        var previous := s.manifests[e.key];
        if previous.expires.Some? {
          s := s.(expirations := s.expirations - {(previous.expires.value, e.key)});
        }
        if previous.identity != e.identity {
          s := s.(garbage := s.garbage + {(replacedAt, previous.identity)});
        }
      }
      s := s.(manifests := s.manifests[e.key := Manifest(e.identity, e.expires)]);
      if staged { s := s.(garbage := s.garbage - {(e.garbageAt, e.identity)}); }
      if e.expires.Some? { s := s.(expirations := s.expirations[(e.expires.value, e.key) := e.identity]); }
    }

    // ---- Reading and removing ----

    /** Every row of an identity in the order of its index. */
    method ReadChunks(id: Identity) returns (value: Option<seq<Chunk>>)
      requires Faithful(s, contents) && id in contents && forall k: nat :: (id, k) in s.chunks <==> k < |contents[id]|
      ensures value == if contents[id] == [] then None else Some(contents[id])
    {
      ChunkValues(s, contents, id);
      hide Faithful;
      var todo := set x | x in s.chunks && x.0 == id :: x.1;
      AllIndexes(s, contents, id, todo);
      assert 0 in todo <==> 0 < |contents[id]|;
      if todo == {} { return None; }
      ghost var whole := contents[id];
      var read: seq<Chunk> := [];
      while todo != {}
        invariant |read| <= |whole| && read == whole[..|read|]
        invariant forall k: nat :: k in todo <==> |read| <= k < |whole|
        decreases todo
      {
        Somewhere(todo, |read|, |whole|);
        var k :| k in todo && forall j :: j in todo ==> k <= j;
        OneLonger(whole, read, k);
        read := read + [s.chunks[(id, k)]];
        todo := todo - {k};
      }
      assert |read| < |whole| ==> |read| in todo;
      assert whole[..|whole|] == whole;
      return Some(read);
    }

    /** A live entry's value, always whole; an expired one is removed on the way. */
    method Get(key: Key, now: Millis) returns (value: Option<seq<Chunk>>)
      requires Inv(s, contents, writers)
      modifies this`s
      ensures Inv(s, contents, writers)
      ensures var live := key in old(s).manifests && !Expired(old(s).manifests[key], now);
              && value == (if live then Some(contents[old(s).manifests[key].identity]) else None)
              && s == (if live then old(s) else RemovedKey(old(s), key))
    {
      ReadFacts(s, contents, key);
      RemoveKeeps(s, contents, writers, key);
      hide Inv, Faithful, Live, Complete, Expiring, WritersOk, RemovedKey;
      if key !in s.manifests { return None; }
      var manifest := s.manifests[key];
      if Expired(manifest, now) {
        RemoveKey(key);
        return None;
      }
      value := ReadChunks(manifest.identity);
    }

    method Remove(key: Key)
      requires Inv(s, contents, writers)
      modifies this`s
      ensures Inv(s, contents, writers) && s == RemovedKey(old(s), key)
      ensures s.manifests == old(s).manifests - {key} && forall at :: (at, key) !in s.expirations
    {
      RemoveKeeps(s, contents, writers, key);
      RemovedIsGone(s, key);
      hide *;
      RemoveKey(key);
    }

    /** The manifest, its expiration row and its chunks. */
    method RemoveKey(key: Key)
      requires Expiring(s)
      modifies this`s
      ensures s == RemovedKey(old(s), key)
    {
      if key !in s.manifests { return; }
      var manifest := s.manifests[key];
      OneExpiration(s, key);
      hide Expiring;
      if manifest.expires.Some? { s := s.(expirations := s.expirations - {(manifest.expires.value, key)}); }
      s := s.(chunks := map x | x in s.chunks && x.0 != manifest.identity :: s.chunks[x]);
      s := s.(manifests := s.manifests - {key});
    }

    /** Everything gone; the new epoch is one no writer has seen. */
    method Clear(epoch: Epoch)
      requires Inv(s, contents, writers) && forall w :: w in writers ==> writers[w].expected != Some(Some(epoch))
      modifies this`s
      ensures Inv(s, contents, writers) && s == Store(map[], map[], map[], {}, Some(epoch))
    {
      ClearKeeps(s, contents, writers, epoch);
      hide *;
      s := Store(map[], map[], map[], {}, Some(epoch));
    }

    // ---- Cleaning up ----

    /** One row of the expiration index: the entry goes if it is still the one the row was written for. */
    method CleanupExpired(row: (Millis, Key), identity: Identity, now: Millis)
      modifies this`s
      ensures s == CleanedExpired(old(s), row, identity, now)
    {
      if row.1 in s.manifests && s.manifests[row.1].identity == identity && Expired(s.manifests[row.1], now) {
        s := s.(manifests := s.manifests - {row.1});
        s := s.(chunks := map x | x in s.chunks && x.0 != identity :: s.chunks[x]);
      }
      s := s.(expirations := s.expirations - {row});
    }

    method CleanupGarbage(row: (Millis, Identity))
      modifies this`s
      ensures s == Erased(old(s), {}, {row.1}, {row})
    {
      assert s.manifests - {} == s.manifests;
      assert (map x | x in s.expirations && x.1 !in {} :: s.expirations[x]) == s.expirations;
      s := s.(chunks := map x | x in s.chunks && x.0 != row.1 :: s.chunks[x]);
      s := s.(garbage := s.garbage - {row});
    }

    /** One cleanup transaction: expired entries and due garbage, at most a batch of each. */
    method CleanupBatch(now: Millis) returns (count: nat)
      requires Inv(s, contents, writers)
      modifies this`s
      ensures Inv(s, contents, writers) && s.epoch == old(s).epoch
      ensures OnlyExpiredGone(old(s), s, now) && OnlyDueGone(old(s), s, now)
      ensures count < CLEANUP_BATCH ==> NothingDue(s, now)
    {
      hide *;
      ghost var was := s;
      var expired := FirstDue(s.expirations.Keys, now);
      var garbage := FirstDue(s.garbage, now);
      var identities := s.expirations;
      ExpiredStarts(s, contents, writers, expired, now);
      for i := 0 to |expired|
        invariant Inv(s, contents, writers) && ExpiredLoop(was, s, expired, i, now)
      {
        ExpiredNext(was, s, contents, writers, expired, i, now);
        CleanupExpired(expired[i], identities[expired[i]], now);
      }
      ghost var middle := s;
      GarbageStarts(was, s, expired, garbage, now);
      for i := 0 to |garbage|
        invariant Inv(s, contents, writers) && GarbageLoop(middle, s, garbage, i, now)
      {
        GarbageNext(middle, s, contents, writers, garbage, i, now);
        CleanupGarbage(garbage[i]);
      }
      CleanupEnds(was, middle, s, contents, writers, expired, garbage, now);
      return if |expired| >= |garbage| then |expired| else |garbage|;
    }
  }

  lemma OneLonger(whole: seq<Chunk>, read: seq<Chunk>, k: nat)
    requires |read| == k < |whole| && read == whole[..k]
    ensures read + [whole[k]] == whole[..k + 1] && (k + 1 == |whole| ==> whole[..k + 1] == whole)
  {
  }

  lemma Somewhere(todo: set<nat>, low: nat, high: nat)
    requires todo != {} && forall k: nat :: k in todo <==> low <= k < high
    ensures low in todo
  {
    var k :| k in todo;
  }

  predicate Expired(m: Manifest, now: Millis) {
    m.expires.Some? && m.expires.value <= now
  }

  /** A key gone with what it pointed at; a key that is not there leaves the store as it is. */
  function RemovedKey(s: Store, key: Key): Store {
    if key in s.manifests then Erased(s, {key}, {s.manifests[key].identity}, {}) else s
  }

  lemma RemoveKeeps(s: Store, contents: Contents, writers: map<nat, Writer>, key: Key)
    requires Inv(s, contents, writers)
    ensures Inv(RemovedKey(s, key), contents, writers) && Expiring(s)
  {
    if key in s.manifests {
      assert CanErase(s, {key}, {s.manifests[key].identity}, {});
      hide Inv;
      EraseKeeps(s, contents, writers, {key}, {s.manifests[key].identity}, {});
    }
  }

  lemma RemovedIsGone(s: Store, key: Key)
    requires Expiring(s)
    ensures RemovedKey(s, key).manifests == s.manifests - {key}
    ensures forall at :: (at, key) !in RemovedKey(s, key).expirations
    ensures key in s.manifests ==> forall x :: x in RemovedKey(s, key).chunks <==> x in s.chunks && x.0 != s.manifests[key].identity
  {
  }

  lemma OneExpiration(s: Store, key: Key)
    requires Expiring(s) && key in s.manifests
    ensures RemovedKey(s, key) ==
            s.(manifests := s.manifests - {key},
               chunks := map x | x in s.chunks && x.0 != s.manifests[key].identity :: s.chunks[x],
               expirations := if s.manifests[key].expires.Some? then s.expirations - {(s.manifests[key].expires.value, key)} else s.expirations)
  {
    var rows := if s.manifests[key].expires.Some? then s.expirations - {(s.manifests[key].expires.value, key)} else s.expirations;
    assert rows == RemovedKey(s, key).expirations;
    assert s.garbage - {} == s.garbage;
  }

  lemma ReadFacts(s: Store, contents: Contents, key: Key)
    requires Faithful(s, contents) && Live(s, contents)
    ensures key in s.manifests ==>
              var id := s.manifests[key].identity;
              id in contents && contents[id] != [] && forall k: nat :: (id, k) in s.chunks <==> k < |contents[id]|
  {
  }

  lemma ChunkValues(s: Store, contents: Contents, id: Identity)
    requires Faithful(s, contents) && id in contents && forall k: nat :: (id, k) in s.chunks <==> k < |contents[id]|
    ensures forall k: nat :: k < |contents[id]| ==> (id, k) in s.chunks && s.chunks[(id, k)] == contents[id][k]
  {
  }

  lemma AllIndexes(s: Store, contents: Contents, id: Identity, todo: set<nat>)
    requires id in contents && (forall k: nat :: (id, k) in s.chunks <==> k < |contents[id]|)
    requires todo == set x | x in s.chunks && x.0 == id :: x.1
    ensures forall k: nat :: k in todo <==> k < |contents[id]|
    ensures forall k: nat :: k in todo ==> (id, k) in s.chunks
  {
    forall k: nat | k < |contents[id]| ensures k in todo { assert (id, k) in s.chunks; }
  }

  /** The earliest due rows of an index, at most a batch of them. */
  method FirstDue<T(==, !new)>(rows: set<(Millis, T)>, now: Millis) returns (batch: seq<(Millis, T)>)
    ensures Due(batch, rows, now)
  {
    batch := [];
    var todo := set row | row in rows && row.0 <= now;
    while todo != {} && |batch| < CLEANUP_BATCH
      invariant todo <= rows && |batch| <= CLEANUP_BATCH
      invariant forall i, j :: 0 <= i < j < |batch| ==> batch[i] != batch[j] && batch[i].0 <= batch[j].0
      invariant forall row :: row in rows && row.0 <= now <==> row in batch || row in todo
      invariant forall row, i :: row in todo && 0 <= i < |batch| ==> batch[i].0 <= row.0 && batch[i] != row
      decreases todo
    {
      LeastExists(todo, (x: (Millis, T), y: (Millis, T)) => x.0 <= y.0);
      var row :| row in todo && forall y :: y in todo ==> row.0 <= y.0;
      batch := batch + [row];
      todo := todo - {row};
    }
  }

  ghost predicate Due<T(!new)>(batch: seq<(Millis, T)>, rows: set<(Millis, T)>, now: Millis) {
    && |batch| <= CLEANUP_BATCH
    && (forall i, j :: 0 <= i < j < |batch| ==> batch[i] != batch[j] && batch[i].0 <= batch[j].0)
    && (forall row :: row in batch ==> row in rows && row.0 <= now)
    && (forall row :: row in rows && row.0 <= now && row !in batch ==>
          |batch| == CLEANUP_BATCH && forall i :: 0 <= i < |batch| ==> batch[i].0 <= row.0)
  }

  function CleanedExpired(s: Store, row: (Millis, Key), identity: Identity, now: Millis): Store {
    var gone := row.1 in s.manifests && s.manifests[row.1].identity == identity && Expired(s.manifests[row.1], now);
    s.(manifests := if gone then s.manifests - {row.1} else s.manifests,
       chunks := if gone then map x | x in s.chunks && x.0 != identity :: s.chunks[x] else s.chunks,
       expirations := s.expirations - {row})
  }

  /** Live entries are kept as they were; what has gone had expired. */
  ghost predicate OnlyExpiredGone(was: Store, s: Store, now: Millis) {
    && (forall key :: key in s.manifests ==> key in was.manifests && s.manifests[key] == was.manifests[key])
    && (forall key :: key in was.manifests && key !in s.manifests ==> Expired(was.manifests[key], now))
  }

  ghost predicate OnlyDueGone(was: Store, s: Store, now: Millis) {
    s.garbage <= was.garbage && forall row :: row in was.garbage && row !in s.garbage ==> row.0 <= now
  }

  ghost predicate NothingDue(s: Store, now: Millis) {
    && (forall key :: key in s.manifests ==> !Expired(s.manifests[key], now))
    && (forall row :: row in s.garbage ==> row.0 > now)
  }

  ghost predicate ExpiredLoop(was: Store, s: Store, expired: seq<(Millis, Key)>, i: nat, now: Millis) {
    && i <= |expired| && Expiring(was) && Due(expired, was.expirations.Keys, now)
    && s.epoch == was.epoch && s.garbage == was.garbage && OnlyExpiredGone(was, s, now)
    && s.expirations.Keys == was.expirations.Keys - set j | 0 <= j < i :: expired[j]
  }

  lemma ExpiredStarts(s: Store, contents: Contents, writers: map<nat, Writer>, expired: seq<(Millis, Key)>, now: Millis)
    requires Inv(s, contents, writers) && Due(expired, s.expirations.Keys, now)
    ensures ExpiredLoop(s, s, expired, 0, now)
  {
  }

  /** A row of the expiration index is never stale: its entry goes with it. */
  lemma RowNotStale(s: Store, row: (Millis, Key), now: Millis)
    requires Expiring(s) && row in s.expirations && row.0 <= now
    ensures row.1 in s.manifests && Expired(s.manifests[row.1], now)
    ensures CleanedExpired(s, row, s.expirations[row], now) == RemovedKey(s, row.1)
  {
    var t := RemovedKey(s, row.1);
    assert t.expirations == s.expirations - {row};
    assert s.garbage - {} == s.garbage;
  }

  lemma ExpiredNext(was: Store, s: Store, contents: Contents, writers: map<nat, Writer>, expired: seq<(Millis, Key)>,
                    i: nat, now: Millis)
    requires Inv(s, contents, writers) && ExpiredLoop(was, s, expired, i, now) && i < |expired|
    ensures expired[i] in was.expirations
    ensures var t := CleanedExpired(s, expired[i], was.expirations[expired[i]], now);
            Inv(t, contents, writers) && ExpiredLoop(was, t, expired, i + 1, now)
  {
    var row := expired[i];
    NextRow(was, s, expired, i, now);
    hide Due, Expiring, Live, Faithful, WritersOk;
    RowNotStale(s, row, now);
    RowSame(was, s, row, now);
    RemoveKeeps(s, contents, writers, row.1);
    hide Inv, RemovedKey;
    ExpiredGone(was, s, expired, i, now);
  }

  lemma NextRow(was: Store, s: Store, expired: seq<(Millis, Key)>, i: nat, now: Millis)
    requires ExpiredLoop(was, s, expired, i, now) && i < |expired|
    ensures expired[i] in was.expirations && expired[i] in s.expirations && expired[i].0 <= now
  {
    assert expired[i] in expired;
  }

  lemma ExpiredGone(was: Store, s: Store, expired: seq<(Millis, Key)>, i: nat, now: Millis)
    requires ExpiredLoop(was, s, expired, i, now) && i < |expired| && expired[i] in was.expirations && expired[i] in s.expirations
    requires expired[i].1 in s.manifests && Expired(s.manifests[expired[i].1], now)
    ensures ExpiredLoop(was, CleanedExpired(s, expired[i], was.expirations[expired[i]], now), expired, i + 1, now)
  {
    hide Due, Expiring;
    var row := expired[i];
    var t := CleanedExpired(s, row, was.expirations[row], now);
    assert t.expirations.Keys == s.expirations.Keys - {row};
    assert (set j | 0 <= j < i + 1 :: expired[j]) == (set j | 0 <= j < i :: expired[j]) + {row};
    assert t.garbage == s.garbage && forall key :: key in s.manifests && key != row.1 ==> key in t.manifests;
  }

  lemma RowSame(was: Store, s: Store, row: (Millis, Key), now: Millis)
    requires Expiring(was) && Expiring(s) && OnlyExpiredGone(was, s, now) && row in was.expirations && row in s.expirations
    ensures was.expirations[row] == s.expirations[row]
  {
  }

  ghost predicate GarbageLoop(middle: Store, s: Store, garbage: seq<(Millis, Identity)>, i: nat, now: Millis) {
    && i <= |garbage| && Due(garbage, middle.garbage, now)
    && s.epoch == middle.epoch && s.manifests == middle.manifests && s.expirations == middle.expirations
    && s.garbage == middle.garbage - set j | 0 <= j < i :: garbage[j]
  }

  lemma GarbageStarts(was: Store, s: Store, expired: seq<(Millis, Key)>, garbage: seq<(Millis, Identity)>, now: Millis)
    requires ExpiredLoop(was, s, expired, |expired|, now) && Due(garbage, was.garbage, now)
    ensures GarbageLoop(s, s, garbage, 0, now)
  {
  }

  lemma GarbageNext(middle: Store, s: Store, contents: Contents, writers: map<nat, Writer>, garbage: seq<(Millis,
                    Identity)>, i: nat, now: Millis)
    requires Inv(s, contents, writers) && GarbageLoop(middle, s, garbage, i, now) && i < |garbage|
    ensures var t := Erased(s, {}, {garbage[i].1}, {garbage[i]});
            Inv(t, contents, writers) && GarbageLoop(middle, t, garbage, i + 1, now)
  {
    var row := garbage[i];
    assert row in garbage && row in s.garbage;
    GarbageErasable(s, contents, row);
    EraseKeeps(s, contents, writers, {}, {row.1}, {row});
    var t := Erased(s, {}, {row.1}, {row});
    hide Inv, Due;
    assert t.manifests == s.manifests && t.expirations == s.expirations && t.garbage == s.garbage - {row};
    assert (set j | 0 <= j < i + 1 :: garbage[j]) == (set j | 0 <= j < i :: garbage[j]) + {row};
    hide Erased;
  }

  lemma GarbageErasable(s: Store, contents: Contents, row: (Millis, Identity))
    requires Live(s, contents) && row in s.garbage
    ensures CanErase(s, {}, {row.1}, {row})
  {
    var t, id := row.0, row.1;
    assert (t, id) == row;
    forall key | key in s.manifests ensures s.manifests[key].identity != id {
      assert Unmarked(s, s.manifests[key].identity);
    }
  }

  lemma CleanupEnds(was: Store, middle: Store, s: Store, contents: Contents, writers: map<nat, Writer>,
                    expired: seq<(Millis, Key)>, garbage: seq<(Millis, Identity)>, now: Millis)
    requires Inv(s, contents, writers)
    requires ExpiredLoop(was, middle, expired, |expired|, now) && GarbageLoop(middle, s, garbage, |garbage|, now)
    ensures s.epoch == was.epoch && OnlyExpiredGone(was, s, now) && OnlyDueGone(was, s, now)
    ensures |expired| < CLEANUP_BATCH && |garbage| < CLEANUP_BATCH ==> NothingDue(s, now)
  {
    hide Live, Faithful, WritersOk;
    forall row | row in was.garbage && row !in s.garbage ensures row.0 <= now {
      var j :| 0 <= j < |garbage| && garbage[j] == row;
      assert row in garbage;
    }
    if |expired| < CLEANUP_BATCH && |garbage| < CLEANUP_BATCH {
      BatchCovers(expired, was.expirations.Keys, now);
      BatchCovers(garbage, middle.garbage, now);
      assert forall x :: x in s.expirations ==> x in middle.expirations.Keys;
      forall key | key in s.manifests && s.manifests[key].expires.Some? ensures s.manifests[key].expires.value > now {
        assert (s.manifests[key].expires.value, key) in s.expirations;
      }
    }
  }

  lemma BatchCovers<T(!new)>(batch: seq<(Millis, T)>, rows: set<(Millis, T)>, now: Millis)
    requires Due(batch, rows, now) && |batch| < CLEANUP_BATCH
    ensures forall row :: row in rows - (set j | 0 <= j < |batch| :: batch[j]) ==> row.0 > now
  {
    assert forall row :: row in batch ==> row in (set j | 0 <= j < |batch| :: batch[j]);
  }

  predicate SameManifest(s: Store, e: Prepared) {
    e.key in s.manifests && s.manifests[e.key] == Manifest(e.identity, e.expires)
  }

  predicate Marked(s: Store, entries: seq<Prepared>) {
    forall i :: 0 <= i < |entries| ==> (entries[i].garbageAt, entries[i].identity) in s.garbage
  }

  function Markers(entries: seq<Prepared>): set<(Millis, Identity)> {
    set i | 0 <= i < |entries| :: (entries[i].garbageAt, entries[i].identity)
  }

  /** All entries of a write are live, and every other key is as it was. */
  ghost predicate Went(was: Store, s: Store, entries: seq<Prepared>) {
    && (forall j :: 0 <= j < |entries| ==> SameManifest(s, entries[j]))
    && (forall key :: !KeyIn(entries, |entries|, key) ==>
          (key in s.manifests <==> key in was.manifests) && (key in s.manifests ==> s.manifests[key] == was.manifests[key]))
  }

  lemma NotMarked(s: Store, entries: seq<Prepared>)
    requires exists i :: 0 <= i < |entries| && (entries[i].garbageAt, entries[i].identity) !in s.garbage
    ensures !Marked(s, entries)
  {
  }

  lemma AllMarked(s: Store, entries: seq<Prepared>)
    requires forall i :: 0 <= i < |entries| ==> (entries[i].garbageAt, entries[i].identity) in s.garbage
    ensures Marked(s, entries)
  {
  }

  /** A staged write under the epoch it began with, all its markers there, has all its chunks. */
  lemma PublishStarts(s: Store, contents: Contents, writers: map<nat, Writer>, id: nat)
    requires Inv(s, contents, writers) && id in writers && writers[id].current == |writers[id].entries|
    ensures var w := writers[id];
            && ApartFromAll(w.entries, writers - {id})
            && (forall i :: 0 <= i < |w.entries| ==> !SameManifest(s, w.entries[i]))
            && (w.expected == Some(s.epoch) && Marked(s, w.entries) ==> Publishing(s, s, contents, w.entries, 0, true))
  {
    var w := writers[id];
    assert WriterOk(s, contents, w);
    hide Live, Faithful, Expiring;
    forall i | 0 <= i < |w.entries|
      ensures !SameManifest(s, w.entries[i])
      ensures w.expected == Some(s.epoch) && Marked(s, w.entries) ==> Ready(s, contents, w.entries[i], true)
    {
      assert Owned(s, contents, w.entries[i]) && Staged(s, w.entries[i], 1 + |w.entries[i].chunks|, w.expected);
      if w.expected == Some(s.epoch) && Marked(s, w.entries) { StagedComplete(s, contents, w.entries[i], w.expected); }
    }
    hide Owned, Staged, Ready, Apart;
  }

  lemma StagedComplete(s: Store, contents: Contents, e: Prepared, expected: Option<Option<Epoch>>)
    requires Faithful(s, contents) && Owned(s, contents, e) && Staged(s, e, 1 + |e.chunks|, expected)
    requires expected == Some(s.epoch) && (e.garbageAt, e.identity) in s.garbage
    ensures Ready(s, contents, e, true)
  {
  }

  lemma NothingToPublish(s: Store, entries: seq<Prepared>)
    requires forall i :: 0 <= i < |entries| ==> !SameManifest(s, entries[i])
    ensures (forall i :: 0 <= i < |entries| ==> SameManifest(s, entries[i])) ==> entries == []
    ensures entries == [] ==> s.(garbage := s.garbage - Markers(entries)) == s && Went(s, s, entries) && Marked(s, entries)
    ensures entries == [] ==> forall at :: Replaced(s, s, entries, 0, at)
  {
    if entries != [] { assert !SameManifest(s, entries[0]); }
    assert entries == [] ==> s.garbage - Markers(entries) == s.garbage;
  }

  lemma DirectStarts(s: Store, contents: Contents, writers: map<nat, Writer>, id: nat)
    requires Inv(s, contents, writers) && id in writers && writers[id].expected.None?
    ensures var w := writers[id];
            ApartFromAll(w.entries, writers - {id}) && WritingChunks(s, s, contents, w.entries, 0)
  {
    var w := writers[id];
    assert WriterOk(s, contents, w);
    hide Live, Faithful, Expiring;
    forall i | 0 <= i < |w.entries| ensures Owned(s, contents, w.entries[i]) && Staged(s, w.entries[i], 0, None) {
      assert Owned(s, contents, w.entries[i]) && Staged(s, w.entries[i], StepsOf(w, i), None);
    }
    hide Owned, Staged, Ready, Apart;
  }

  /** Part-way through writing chunks: entries before i have theirs, the others have none. */
  ghost predicate WritingChunks(was: Store, s: Store, contents: Contents, entries: seq<Prepared>, i: nat) {
    && i <= |entries| && s == was.(chunks := s.chunks)
    && (forall j, k :: 0 <= j < k < |entries| ==> entries[j].key != entries[k].key && entries[j].identity != entries[k].identity)
    && (forall j :: 0 <= j < i ==> Ready(s, contents, entries[j], false))
    && (forall j :: i <= j < |entries| ==> Owned(s, contents, entries[j]) && Staged(s, entries[j], 0, None))
  }

  lemma ChunksNext(was: Store, s: Store, contents: Contents, writers: map<nat, Writer>, entries: seq<Prepared>, i: nat)
    requires Inv(s, contents, writers) && WritingChunks(was, s, contents, entries, i) && i < |entries| && ApartFromAll(entries, writers)
    ensures var t := WithChunks(s, entries[i], |entries[i].chunks|);
            Inv(t, contents, writers) && WritingChunks(was, t, contents, entries, i + 1)
  {
    var e := entries[i];
    var t := WithChunks(s, e, |e.chunks|);
    hide Inv;
    ChunksAt(s, e, |e.chunks|);
    assert ApartFromAll([e], writers) by { assert e in entries; }
    ChunksKeep(s, contents, writers, e);
    ChunksHere(s, contents, e);
    forall j | 0 <= j < |entries| && j != i
      ensures j < i ==> Ready(t, contents, entries[j], false)
      ensures j > i ==> Owned(t, contents, entries[j]) && Staged(t, entries[j], 0, None)
    {
      ChunksElsewhere(s, contents, e, entries[j], 0, None);
      hide Owned, Staged, WithChunks;
    }
    hide Owned, Staged, Ready;
  }

  lemma ChunksDone(was: Store, s: Store, contents: Contents, entries: seq<Prepared>)
    requires WritingChunks(was, s, contents, entries, |entries|)
    ensures Publishing(s, s, contents, entries, 0, false) && s.manifests == was.manifests && s.epoch == was.epoch
  {
    hide Ready;
  }

  lemma WentSince(was: Store, written: Store, s: Store, entries: seq<Prepared>, replacedAt: Millis)
    requires Went(written, s, entries) && written.manifests == was.manifests
    requires Replaced(written, s, entries, |entries|, replacedAt)
    ensures Went(was, s, entries) && Replaced(was, s, entries, |entries|, replacedAt)
  {
  }

  lemma ReadyAt(was: Store, s: Store, contents: Contents, writers: map<nat, Writer>, entries: seq<Prepared>, i: nat,
                staged: bool)
    requires Publishing(was, s, contents, entries, i, staged) && i < |entries| && ApartFromAll(entries, writers)
    ensures Ready(s, contents, entries[i], staged) && ApartFromAll([entries[i]], writers)
  {
    hide Ready;
    assert entries[i] in entries;
  }

  lemma PublishEnds(was: Store, s: Store, contents: Contents, entries: seq<Prepared>, staged: bool)
    requires Publishing(was, s, contents, entries, |entries|, staged)
    ensures Went(was, s, entries) && s.chunks == was.chunks && s.epoch == was.epoch
  {
    hide Ready, KeyIn;
  }

  lemma StageFields(s: Store, contents: Contents, w: Writer, writers: map<nat, Writer>)
    requires Inv(s, contents, writers) && w in writers.Values && w.current < |w.entries|
    ensures w.steps <= |w.entries[w.current].chunks|
    ensures Advanced(w).entries == w.entries && Advanced(w).expected == w.expected
  {
    var id :| id in writers && writers[id] == w;
    assert WriterOk(s, contents, writers[id]);
    hide Live, Faithful, Expiring, Owned, Staged, Apart;
  }

  /** A write that is part-way through staging when the store is cleared stores nothing more and never goes live. */
  method ClearedMidway(p: Persistence, id: nat, epoch: Epoch, count: nat, publish: bool,
                       replacedAt: Millis) returns (r: WriteResult)
    requires Inv(p.s, p.contents, p.writers) && forall w :: w in p.writers ==> p.writers[w].expected != Some(Some(epoch))
    requires id in p.writers && p.writers[id].expected.Some?
    requires publish ==> p.writers[id].current == |p.writers[id].entries|
    modifies p
    ensures Inv(p.s, p.contents, p.writers) && p.writers == old(p.writers) - {id}
    ensures r == EpochChanged && p.s == Store(map[], map[], map[], {}, Some(epoch))
  {
    hide *;
    p.Clear(epoch);
    if publish {
      r := p.PublishStaged(id, replacedAt);
    } else {
      r := p.StageBatch(id, count);
    }
  }

  lemma LastWrite(writes: seq<Write>, latest: seq<Write>, i: nat)
    requires LatestOf(writes, latest) && i < |writes| && forall j :: i < j < |writes| ==> writes[j].key != writes[i].key
    ensures writes[i] in latest
  {
    var w := writes[i];
    var j :| 0 <= j < |latest| && latest[j].key == w.key;
    assert latest[j] in latest && IsLast(writes, latest[j]);
    var k :| 0 <= k < |writes| && writes[k] == latest[j] && forall m :: k < m < |writes| ==> writes[m].key != latest[j].key;
  }

  /** What a write leaves at the key of one of its entries. */
  lemma WrittenAt(was: Store, s: Store, contents: Contents, more: Contents, writers: map<nat, Writer>,
                  writes: seq<Write>, identities: seq<Identity>, now: Millis, w: Write)
    requires |writes| == |identities| && w in writes
    requires Unused(was, contents, writers, Prepare(writes, identities, now))
    requires Went(was, s, Prepare(writes, identities, now)) && more == contents + ContentsOf(Prepare(writes, identities, now))
    ensures w.key in s.manifests && s.manifests[w.key].expires == ExpirationFor(w.ttl, now)
    ensures s.manifests[w.key].identity in more && more[s.manifests[w.key].identity] == w.chunks
  {
    var j :| 0 <= j < |writes| && writes[j] == w;
    var entries := Prepare(writes, identities, now);
    NewContents(was, contents, writers, entries);
    hide Unused, ExpirationFor, KeyIn;
    assert entries[j] in entries && SameManifest(s, entries[j]);
  }

  /** After a write the last value written to a key is read back until its time to live is over, and from
      then on nothing is: a negative one is over at once, and none at all never is. */
  method WriteThenGet(p: Persistence, id: nat, writes: seq<Write>, latest: seq<Write>, identities: seq<Identity>,
                      now: Millis, directBytes: nat, publicationBytes: nat, sizes: seq<nat>, base: nat, budget: nat,
                      replacedAt: Millis, i: nat, at: Millis) returns (r: WriteResult, value: Option<seq<Chunk>>)
    requires Inv(p.s, p.contents, p.writers) && id !in p.writers
    requires LatestOf(writes, latest) && |latest| == |identities|
    requires Unused(p.s, p.contents, p.writers, Prepare(latest, identities, now))
    requires |sizes| == Total(Prepare(latest, identities, now)) && (latest == [] ==> directBytes <= budget)
    requires i < |writes| && forall j :: i < j < |writes| ==> writes[j].key != writes[i].key
    modifies p
    ensures var w := writes[i];
            r.Done? ==>
              && (w.ttl.None? ==> value == Some(w.chunks))
              && (w.ttl.Some? && 0 <= w.ttl.value && now + w.ttl.value <= MAX_SAFE_INTEGER ==>
                    value == if at < now + w.ttl.value then Some(w.chunks) else None)
              && (w.ttl.Some? && w.ttl.value < 0 && now <= MAX_SAFE_INTEGER ==>
                    value == if at < now then Some(w.chunks) else None)
  {
    LastWrite(writes, latest, i);
    hide Inv, LatestOf, Unused, Went, Prepare, Total, ContentsOf;
    r := p.WriteOnce(id, latest, identities, now, directBytes, publicationBytes, sizes, base, budget, replacedAt);
    if r.Done? {
      WrittenAt(old(p.s), p.s, old(p.contents), p.contents, old(p.writers), latest, identities, now, writes[i]);
    }
    value := p.Get(writes[i].key, at);
  }

  /** No cleanup before a marker is due keeps a write that is staged whole from going live. */
  method CleanedMidway(p: Persistence, id: nat, now: Millis, replacedAt: Millis) returns (r: WriteResult)
    requires Inv(p.s, p.contents, p.writers) && id in p.writers && p.writers[id].current == |p.writers[id].entries|
    requires p.writers[id].expected == Some(p.s.epoch) && Marked(p.s, p.writers[id].entries)
    requires forall e :: e in p.writers[id].entries ==> now < e.garbageAt
    modifies p
    ensures Inv(p.s, p.contents, p.writers) && r == Done
  {
    hide Inv;
    ghost var was := p.s;
    var entries := p.writers[id].entries;
    var count := p.CleanupBatch(now);
    forall i | 0 <= i < |entries| ensures (entries[i].garbageAt, entries[i].identity) in p.s.garbage {
      assert entries[i] in entries && (entries[i].garbageAt, entries[i].identity) in was.garbage;
    }
    r := p.PublishStaged(id, replacedAt);
  }

  /** What a write has staged can go live for a day, whatever is cleaned up meanwhile. */
  method StagedForADay(p: Persistence, id: nat, writes: seq<Write>, identities: seq<Identity>, now: Millis,
                       cleanedAt: Millis, replacedAt: Millis) returns (r: WriteResult)
    requires Inv(p.s, p.contents, p.writers) && id !in p.writers && |writes| == |identities|
    requires Unused(p.s, p.contents, p.writers, Prepare(writes, identities, now))
    requires cleanedAt < now + 86_400_000
    modifies p
    ensures Inv(p.s, p.contents, p.writers) && r == Done
  {
    MarkerTimes(writes, identities, now);
    hide *;
    var entries := p.Begin(id, writes, identities, now);
    AllStaged(p.s, entries, Total(entries), p.s.epoch);
    r := p.StageBatch(id, Total(entries));
    r := CleanedMidway(p, id, cleanedAt, replacedAt);
  }

  lemma MarkerTimes(writes: seq<Write>, identities: seq<Identity>, now: Millis)
    requires |writes| == |identities|
    ensures forall e :: e in Prepare(writes, identities, now) ==> e.garbageAt == now + 86_400_000
  {
  }
}
