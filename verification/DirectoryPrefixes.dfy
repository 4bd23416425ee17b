/** Directory prefixes: no live prefix may extend another, and one row before and one row after a
    candidate decide whether it can join them. */
module DirectoryPrefixes {
  import opened Bytes
  import opened Wrappers
  import opened TupleValues
  import opened TupleCodec
  import TupleOrder
  import TupleParser

  datatype FreeResult = Answer(free: bool) | InvalidPrefix

  /** One prefix extends the other. */
  predicate Related(p: bytes, q: bytes) {
    p <= q || q <= p
  }

  predicate Free(live: set<bytes>, candidate: bytes) {
    forall p :: p in live ==> !Related(p, candidate)
  }

  ghost predicate Antichain(live: set<bytes>) {
    forall p, q :: p in live && q in live && p <= q ==> p == q
  }

  lemma JoinAntichain(live: set<bytes>, candidate: bytes)
    requires Antichain(live) && Free(live, candidate)
    ensures Antichain(live + {candidate})
  {
  }

  /** Keys below one live prefix are below no other: their contents never meet. */
  lemma ContentsApart(live: set<bytes>, p: bytes, q: bytes, key: bytes)
    requires Antichain(live) && p in live && q in live && p <= key && q <= key
    ensures p == q
  {
    var n := if |p| <= |q| then |p| else |q|;
    assert p[..n] == key[..n] == q[..n];
    assert Related(p, q);
  }

  // ---- Allocated prefixes ----

  /** The encoding of an integer is no beginning of another's. */
  lemma IntegersApart(n: int, m: int)
    requires Packable(Int(n)) && Packable(Int(m)) && EncodeInt(n) <= EncodeInt(m)
    ensures n == m
  {
    hide EncodeInt, TupleParser.Integer, MagnitudeBytes;
    var r := EncodeInt(m)[|EncodeInt(n)|..];
    assert EncodeInt(n) + r == EncodeInt(m) + [];
    if n == 0 { TupleParser.ZeroInverts(r, EncodeInt(n) + r); } else { TupleParser.IntegerInverts(n, r); }
    if m == 0 { TupleParser.ZeroInverts([], EncodeInt(m) + []); } else { TupleParser.IntegerInverts(m, []); }
  }

  lemma PackedInteger(n: int)
    requires AllPackable([Int(n)])
    ensures Packable(Int(n)) && Packing([Int(n)]) == EncodeInt(n)
  {
    var t: Tuple := [Int(n)];
    assert t[0] == Int(n) && t[1..] == [];
    assert EncodeAll(t, false) == Encode(t[0], false) + EncodeAll(t[1..], false);
    assert EncodeInt(n) + [] == EncodeInt(n);
  }

  /** Numbers the allocator gives out, packed under one content prefix, are unrelated prefixes unless
      they are the same number. */
  lemma AllocatedUnrelated(content: bytes, n: nat, m: nat)
    requires AllPackable([Int(n)]) && AllPackable([Int(m)])
    requires Related(content + Packing([Int(n)]), content + Packing([Int(m)]))
    ensures n == m
  {
    var p, q := Packing([Int(n)]), Packing([Int(m)]);
    PackedInteger(n);
    PackedInteger(m);
    hide Packing, EncodeInt, AllPackable, Packable;
    assert (content + p)[|content|..] == p && (content + q)[|content|..] == q;
    if content + p <= content + q {
      assert p <= q by { assert (content + q)[..|content + p|][|content|..] == q[..|p|]; }
      IntegersApart(n, m);
    } else {
      assert q <= p by { assert (content + p)[..|content + q|][|content|..] == p[..|q|]; }
      IntegersApart(m, n);
    }
  }

  // ---- Metadata rows ----

  /** The rows of a node lie before or after a bound by its prefix alone. */
  lemma RowOrder(p: bytes, rest: Tuple, q: bytes)
    requires AllPackable([Blob(p)] + rest) && AllPackable([Blob(q)])
    ensures Before(Packing([Blob(p)] + rest), Packing([Blob(q)])) <==> Before(p, q)
  {
    var t, u: Tuple := [Blob(p)] + rest, [Blob(q)];
    TupleOrder.PackOrder(t, u);
    assert t[1..] == rest && u[1..] == [];
    assert CompareTuple(t, u) == (if Compare(p, q) != 0 then Compare(p, q) else CompareTuple(rest, []));
  }

  /** A metadata row of a node: the node's prefix and what the row is for. */
  ghost predicate IsRow(key: bytes, p: bytes, rest: Tuple) {
    AllPackable([Blob(p)] + rest) && key == Packing([Blob(p)] + rest)
  }

  /** Every row is of a live node, and every live node has a row. */
  ghost predicate Metadata(rows: set<bytes>, live: set<bytes>) {
    && (forall k :: k in rows ==> exists p, rest :: p in live && IsRow(k, p, rest))
    && (forall p :: p in live ==> exists k, rest :: k in rows && IsRow(k, p, rest))
  }

  /** Where the rows of nodes from a prefix on begin. */
  function Bound(p: bytes): (k: bytes)
    ensures AllPackable([Blob(p)]) && k == Packing([Blob(p)])
  {
    var t: Tuple := [Blob(p)];
    assert t[1..] == [];
    Packing(t)
  }

  /** The key of a node's row for one purpose. */
  function RowKey(p: bytes, purpose: bytes): (k: bytes)
    ensures IsRow(k, p, [Blob(purpose)])
  {
    var t: Tuple := [Blob(p)] + [Blob(purpose)];
    assert [Blob(purpose)] + [] == [Blob(purpose)];
    PackOne(Blob(purpose), [], false);
    PackOne(Blob(p), [Blob(purpose)], false);
    Packing(t)
  }

  lemma RowBound(k: bytes, p: bytes, rest: Tuple, q: bytes)
    requires IsRow(k, p, rest)
    ensures Before(k, Bound(q)) <==> Before(p, q)
  {
    var _ := Bound(q);
    RowOrder(p, rest, q);
  }

  lemma RowsKeepOrder(k: bytes, p: bytes, rest: Tuple, l: bytes, q: bytes, more: Tuple)
    requires IsRow(k, p, rest) && IsRow(l, q, more) && AtMost(k, l)
    ensures AtMost(p, q)
  {
    var t, u: Tuple := [Blob(p)] + rest, [Blob(q)] + more;
    TupleOrder.PackOrder(t, u);
    assert t[1..] == rest && u[1..] == more;
    assert CompareTuple(t, u) == (if Compare(p, q) != 0 then Compare(p, q) else CompareTuple(rest, more));
  }

  /** A reverse read of one row: the last one before a key. */
  method LastRow(rows: set<bytes>, end: bytes) returns (last: Option<bytes>)
    ensures last.None? ==> forall k :: k in rows ==> !Before(k, end)
    ensures last.Some? ==> last.value in rows && Before(last.value, end)
                           && forall k :: k in rows && Before(k, end) ==> AtMost(k, last.value)
  {
    last := None;
    var todo := rows;
    while todo != {}
      invariant todo <= rows
      invariant last.None? ==> forall k :: k in rows - todo ==> !Before(k, end)
      invariant last.Some? ==> last.value in rows && Before(last.value, end)
                               && forall k :: k in rows - todo && Before(k, end) ==> AtMost(k, last.value)
      decreases todo
    {
      var k :| k in todo;
      var below := CompareBytes(k, end);
      if below < 0 {
        CompareReflexive(k, k);
        if last.None? {
          last := Some(k);
        } else {
          var c := CompareBytes(last.value, k);
          if c < 0 {
            forall q | q in rows - todo && Before(q, end) ensures AtMost(q, k) { CompareTransitive(q, last.value, k); }
            last := Some(k);
          } else {
            CompareReflexive(last.value, k);
          }
        }
      }
      todo := todo - {k};
    }
  }

  /** A read of one row of a range. */
  method RowBetween(rows: set<bytes>, begin: bytes, end: bytes) returns (row: Option<bytes>)
    ensures row.Some? ==> row.value in rows && Within(row.value, begin, end)
    ensures row.None? ==> forall k :: k in rows ==> !Within(k, begin, end)
  {
    row := None;
    var todo := rows;
    while todo != {} && row.None?
      invariant todo <= rows
      invariant row.Some? ==> row.value in rows && Within(row.value, begin, end)
      invariant row.None? ==> forall k :: k in rows - todo ==> !Within(k, begin, end)
      decreases todo
    {
      var k :| k in todo;
      var low := CompareBytes(begin, k);
      var high := CompareBytes(k, end);
      if low <= 0 && high < 0 { row := Some(k); }
      todo := todo - {k};
    }
  }

  /** The last live prefix below a bound, read off the one row before the bound. */
  method LastBelow(rows: set<bytes>, ghost live: set<bytes>, end: bytes) returns (last: Option<bytes>)
    requires Metadata(rows, live)
    ensures last.None? ==> forall p :: p in live ==> !Before(p, end)
    ensures last.Some? ==> last.value in live && Before(last.value, end)
                           && forall p :: p in live && Before(p, end) ==> AtMost(p, last.value)
  {
    var row := LastRow(rows, Bound(end));
    if row.None? {
      forall p | p in live ensures !Before(p, end) {
        var k, rest :| k in rows && IsRow(k, p, rest);
        RowBound(k, p, rest, end);
      }
      return None;
    }
    ghost var p, rest :| p in live && IsRow(row.value, p, rest);
    TupleParser.UnpackPack([Blob(p)] + rest);
    RowBound(row.value, p, rest, end);
    forall q | q in live && Before(q, end) ensures AtMost(q, p) {
      var k, more :| k in rows && IsRow(k, q, more);
      RowBound(k, q, more, end);
      RowsKeepOrder(k, q, more, row.value, p, rest);
    }
    hide *;
    var t := TupleParser.UnpackBytes(row.value);
    return Some(t.value[0].blob);
  }

  ghost predicate Within(k: bytes, begin: bytes, end: bytes) {
    AtMost(begin, k) && Before(k, end)
  }

  lemma RowWithin(k: bytes, p: bytes, rest: Tuple, begin: bytes, end: bytes)
    requires IsRow(k, p, rest)
    ensures Within(k, Bound(begin), Bound(end)) <==> Within(p, begin, end)
  {
    RowBound(k, p, rest, begin);
    RowBound(k, p, rest, end);
    NotBefore(Bound(begin), k);
    NotBefore(begin, p);
    hide IsRow, Bound, AtMost, Before;
  }

  /** Rows lie between two bounds exactly where prefixes do. */
  lemma RowsWithin(rows: set<bytes>, live: set<bytes>, begin: bytes, end: bytes)
    requires Metadata(rows, live)
    ensures (exists k :: k in rows && Within(k, Bound(begin), Bound(end))) <==> exists p :: p in live && Within(p, begin, end)
  {
    hide Within, IsRow;
    if k :| k in rows && Within(k, Bound(begin), Bound(end)) {
      var p, rest :| p in live && IsRow(k, p, rest);
      RowWithin(k, p, rest, begin, end);
    }
    if p :| p in live && Within(p, begin, end) {
      var k, rest :| k in rows && IsRow(k, p, rest);
      RowWithin(k, p, rest, begin, end);
    }
  }

  /** Whether any node's prefix lies in a range, read off one row. */
  method AnyBetween(rows: set<bytes>, ghost live: set<bytes>, begin: bytes, end: bytes) returns (any: bool)
    requires Metadata(rows, live)
    ensures any <==> exists p :: p in live && Within(p, begin, end)
  {
    hide *;
    RowsWithin(rows, live, begin, end);
    var row := RowBetween(rows, Bound(begin), Bound(end));
    any := row.Some?;
  }

  lemma NotBefore(a: bytes, b: bytes)
    ensures AtMost(a, b) <==> !Before(b, a)
  {
    CompareReflexive(a, b);
  }

  // ---- Finding the node that contains a key ----

  /** The key with a zero byte is the next one after the key. */
  lemma NextKey(q: bytes, key: bytes)
    ensures Before(q, key + [0x00]) <==> AtMost(q, key)
  {
    var next := key + [0x00];
    PrefixIsAtMost(key, next);
    if AtMost(q, key) {
      CompareTransitive(q, key, next);
    } else {
      CompareReflexive(q, key);
      CompareReflexive(q, next);
      if key <= q {
        NothingBetween(key, q);
      } else if Before(q, next) {
        BetweenExtends(key, q, next);
      }
    }
  }

  lemma NothingBetween(key: bytes, q: bytes)
    requires key <= q && key != q
    ensures !Before(q, key + [0x00])
  {
    var rest := q[|key|..];
    assert q == key + rest && rest != [];
    CompareShift(key, rest, [0x00]);
  }

  /** An earlier prefix of the key, if there is one, is the last live prefix not after the key. */
  lemma ContainingIsLast(live: set<bytes>, key: bytes, last: bytes, p: bytes)
    requires Antichain(live) && last in live && AtMost(last, key)
    requires forall q :: q in live && AtMost(q, key) ==> AtMost(q, last)
    requires p in live && p <= key
    ensures p == last
  {
    PrefixIsAtMost(p, key);
    BetweenExtends(p, last, key);
  }

  method NodeContainingKey(rows: set<bytes>, ghost live: set<bytes>, root: bytes,
                           key: bytes) returns (node: Option<bytes>)
    requires Metadata(rows, live) && Antichain(live) && root in live
    ensures node.Some? ==> node.value in live && node.value <= key
    ensures node.None? ==> forall p :: p in live ==> !(p <= key)
  {
    hide Metadata;
    var inside := StartsWith(key, root);
    if inside { return Some(root); }
    forall q ensures Before(q, key + [0x00]) <==> AtMost(q, key) { NextKey(q, key); }
    var previous := LastBelow(rows, live, key + [0x00]);
    if previous.None? {
      forall p | p in live ensures !(p <= key) { if p <= key { PrefixIsAtMost(p, key); } }
      return None;
    }
    var contains := StartsWith(key, previous.value);
    if contains { return previous; }
    forall p | p in live ensures !(p <= key) {
      if p <= key { ContainingIsLast(live, key, previous.value, p); }
    }
    return None;
  }

  /** Looks at one row before a candidate and at one row from it on. True exactly when no live
      prefix extends the candidate or is extended by it; a candidate without a successor is refused. */
  method IsPrefixFree(rows: set<bytes>, ghost live: set<bytes>, root: bytes, prefix: bytes) returns (r: FreeResult)
    requires Metadata(rows, live) && Antichain(live) && root in live
    ensures r.Answer? ==> (r.free <==> Free(live, prefix))
    ensures r.InvalidPrefix? <==> prefix != [] && (forall i :: 0 <= i < |prefix| ==> prefix[i] == 0xff)
                                  && forall p :: p in live ==> !(p <= prefix)
    ensures r == Answer(true) ==> exists i :: 0 <= i < |prefix| && prefix[i] != 0xff
  {
    hide Metadata;
    if prefix == [] {
      assert Related(root, prefix);
      return Answer(false);
    }
    var node := NodeContainingKey(rows, live, root, prefix);
    if node.Some? {
      assert Related(node.value, prefix);
      return Answer(false);
    }
    var end := Strinc(prefix);
    if end == [] { return InvalidPrefix; }
    var any := AnyBetween(rows, live, prefix, end);
    assert any <==> exists p :: p in live && prefix <= p;
    return Answer(!any);
  }
}
