/** The byte order of packed tuples is the semantic order of the tuples. */
module TupleOrder {
  import opened Bytes
  import opened TupleValues
  import opened TupleCodec

  // ---- One kind of element at a time ----

  lemma {:induction false} EscapedOrder(a: bytes, b: bytes, r: bytes, s: bytes)
    requires a != b && Follows(r) && Follows(s)
    ensures Compare(Escaped(a) + r, Escaped(b) + s) == Compare(a, b) != 0
  {
    var x, y := Escaped(a) + r, Escaped(b) + s;
    if a == [] {
      assert x[1..] == r;
      if b[0] == NIL { assert y[1..][0] == ESCAPE; }
    } else if b == [] {
      assert y[1..] == s;
      if a[0] == NIL { assert x[1..][0] == ESCAPE; }
    } else if a[0] == b[0] {
      assert a == [a[0]] + a[1..] && b == [b[0]] + b[1..];
      EscapedOrder(a[1..], b[1..], r, s);
      var head := if a[0] == NIL then [NIL, ESCAPE] else [a[0]];
      assert x == head + (Escaped(a[1..]) + r) && y == head + (Escaped(b[1..]) + s);
      CompareShift(head, Escaped(a[1..]) + r, Escaped(b[1..]) + s);
    }
  }

  /** Equal lengths leave nothing to what follows. */
  lemma {:induction false} FixedOrder(head: bytes, a: bytes, b: bytes, r: bytes, s: bytes)
    requires |a| == |b|
    ensures Compare(a, b) == 0 <==> a == b
    ensures a != b ==> Compare(head + a + r, head + b + s) == Compare(a, b)
  {
    CompareReflexive(a, b);
    if a != b {
      CompareExtend(a, b, r, s);
      CompareShift(head, a + r, b + s);
      assert head + a + r == head + (a + r) && head + b + s == head + (b + s);
    }
  }

  lemma {:induction false} IntegerOrder(m: int, n: int, r: bytes, s: bytes)
    requires Packable(Int(m)) && Packable(Int(n)) && m != n
    ensures Compare(EncodeInt(m) + r, EncodeInt(n) + s) == Order(m, n)
  {
    var a, b := MagnitudeBytes(Abs(m)), MagnitudeBytes(Abs(n));
    var x, y := EncodeInt(m) + r, EncodeInt(n) + s;
    if |a| < |b| { ShorterIsSmaller(Abs(m), Abs(n)); }
    if |b| < |a| { ShorterIsSmaller(Abs(n), Abs(m)); }
    if (m < 0) == (n < 0) && |a| == |b| {
      var head := IntegerHead(m < 0, |a|);
      CompareMagnitude(a, b);
      CompareFlipped(a, b);
      if m < 0 {
        FixedOrder(head, Flip(a), Flip(b), r, s);
        CompareReflexive(Flip(a), Flip(b));
      } else {
        FixedOrder(head, a, b, r, s);
        CompareReflexive(a, b);
      }
    } else {
      IntegerFirstBytes(m);
      IntegerFirstBytes(n);
      IntegerHeads(EncodeInt(m), m < 0, |a|, EncodeInt(n), n < 0, |b|, Order(m, n));
      HeadOrder(EncodeInt(m), EncodeInt(n), r, s);
    }
  }

  ghost predicate StartsInteger(e: bytes, negative: bool, length: nat) {
    && (negative ==> length > 0)
    && length <= 255
    && |e| >= 1
    && (length <= 8 ==> e[0] == if negative then 0x14 - length else 0x14 + length)
    && (length > 8 ==> |e| >= 2 && e[0] == (if negative then 0x0b else 0x1d)
                       && e[1] == if negative then 255 - length else length)
  }

  lemma IntegerFirstBytes(n: int)
    requires Packable(Int(n))
    ensures StartsInteger(EncodeInt(n), n < 0, |MagnitudeBytes(Abs(n))|)
  {
  }

  /** Different signs or lengths already differ in the first or second byte. */
  lemma IntegerHeads(e: bytes, eNegative: bool, k: nat, f: bytes, fNegative: bool, l: nat, c: int)
    requires StartsInteger(e, eNegative, k) && StartsInteger(f, fNegative, l)
    requires eNegative != fNegative || k != l
    requires c == if eNegative != fNegative then (if eNegative then -1 else 1)
                  else if eNegative then Order(l, k) else Order(k, l)
    ensures HeadsDiffer(e, f, c)
  {
  }

  ghost predicate HeadsDiffer(a: bytes, b: bytes, c: int) {
    && |a| > 0 && |b| > 0
    && (a[0] != b[0] ==> c == Order(a[0], b[0]))
    && (a[0] == b[0] ==> |a| > 1 && |b| > 1 && a[1] != b[1] && c == Order(a[1], b[1]))
  }

  lemma HeadOrder(a: bytes, b: bytes, r: bytes, s: bytes)
    requires exists c :: HeadsDiffer(a, b, c)
    ensures HeadsDiffer(a, b, Compare(a + r, b + s))
  {
    if a[0] == b[0] {
      CompareSplitAt(a + r, b + s, 1);
    }
  }

  lemma FloatsPositive(a: bytes, b: bytes)
    requires |a| == |b| > 0 && a[0] < 0x80 && b[0] < 0x80
    ensures Compare(OrderedFloat(a), OrderedFloat(b)) == Order(Magnitude(a), Magnitude(b))
  {
    CompareMagnitude(a, b);
    hide Magnitude;
    assert OrderedFloat(a)[1..] == a[1..] && OrderedFloat(b)[1..] == b[1..];
  }

  lemma FloatsNegative(a: bytes, b: bytes)
    requires |a| == |b| > 0 && a[0] >= 0x80 && b[0] >= 0x80
    ensures Compare(OrderedFloat(a), OrderedFloat(b)) ==
            Order(Magnitude([b[0] - 0x80] + b[1..]), Magnitude([a[0] - 0x80] + a[1..]))
  {
    var c, d := [a[0] - 0x80] + a[1..], [b[0] - 0x80] + b[1..];
    CompareFlipped(a, b);
    CompareMagnitude(c, d);
    hide Magnitude, Flip;
    assert c[1..] == a[1..] && d[1..] == b[1..];
    assert Compare(a, b) == Compare(c, d);
  }

  lemma FloatsApart(a: bytes, b: bytes)
    requires |a| == |b| > 0 && a[0] < 0x80 <= b[0]
    ensures Compare(OrderedFloat(a), OrderedFloat(b)) == 1 && Compare(OrderedFloat(b), OrderedFloat(a)) == -1
  {
    assert Flip(b)[0] == 0xff - b[0];
  }

  lemma OrderedFloatKey(a: bytes, b: bytes)
    requires |a| == |b| > 0
    ensures Compare(OrderedFloat(a), OrderedFloat(b)) == Order(FloatKey(a), FloatKey(b))
  {
    hide Magnitude, Compare, OrderedFloat;
    if a[0] < 0x80 && b[0] < 0x80 {
      FloatsPositive(a, b);
    } else if a[0] >= 0x80 && b[0] >= 0x80 {
      FloatsNegative(a, b);
    } else if a[0] < 0x80 {
      FloatsApart(a, b);
    } else {
      FloatsApart(b, a);
    }
  }

  lemma {:induction false} FloatKeyInjective(a: bytes, b: bytes)
    requires |a| == |b| > 0 && FloatKey(a) == FloatKey(b)
    ensures a == b
  {
    OrderedFloatKey(a, b);
    CompareReflexive(OrderedFloat(a), OrderedFloat(b));
    assert a == [a[0]] + a[1..] && b == [b[0]] + b[1..];
    if a[0] >= 0x80 && b[0] >= 0x80 {
      forall i | 0 <= i < |a| ensures a[i] == b[i] {
        assert Flip(a)[i] == Flip(b)[i];
      }
    } else if a[0] < 0x80 && b[0] < 0x80 {
      assert OrderedFloat(a)[1..] == a[1..] && OrderedFloat(b)[1..] == b[1..];
      assert OrderedFloat(a)[0] == OrderedFloat(b)[0];
    }
  }

  /** The type rank a type code belongs to. */
  function CodeRank(code: byte): nat {
    if code < 0x01 then 0 else if code < 0x02 then 1 else if code < 0x05 then 2
    else if code < 0x0b then 3 else if code < 0x20 then 4 else if code < 0x21 then 5
    else if code < 0x26 then 6 else if code < 0x30 then 7 else if code < 0x33 then 8 else 9
  }

  lemma EncodeStart(v: Value, nested: bool)
    requires Packable(v)
    ensures |Encode(v, nested)| > 0
    ensures CodeRank(Encode(v, nested)[0]) == Rank(v)
    ensures Encode(v, nested)[0] < ESCAPE
    ensures Encode(v, nested)[0] == NIL <==> v.Null?
  {
    if v.Int? { IntegerFirstBytes(v.n); }
  }

  // ---- All values ----

  /** Two different elements compare as their values do, whatever legally follows them. */
  lemma {:induction false} ElementOrder(v: Value, w: Value, nested: bool, r: bytes, s: bytes)
    requires Packable(v) && Packable(w) && Follows(r) && Follows(s)
    ensures CompareValue(v, w) == 0 ==> v == w
    ensures CompareValue(v, w) != 0 ==>
              Compare(Encode(v, nested) + r, Encode(w, nested) + s) == CompareValue(v, w)
    decreases v, 1
  {
    if Rank(v) != Rank(w) {
      RanksOrder(v, w, nested, r, s);
    } else {
      match v {
        case Null =>
        case Bool(a) =>
        case Blob(a) => TextOrder([BYTES], a, w.blob, r, s);
        case Str(a) => TextOrder([STRING], a, w.text, r, s);
        case Int(a) => if a != w.n { IntegerOrder(a, w.n, r, s); }
        case Float(a) => FloatOrder([FLOAT], a, w.bits4, r, s);
        case Double(a) => FloatOrder([DOUBLE], a, w.bits8, r, s);
        case Uuid(a) => FixedOrder([UUID], a, w.id, r, s);
        case Versionstamp(a) => FixedOrder([VERSIONSTAMP], a, w.stamp, r, s);
        case Nested(a) => NestedOrder(a, w.items, r, s);
      }
    }
  }

  lemma RanksOrder(v: Value, w: Value, nested: bool, r: bytes, s: bytes)
    requires Packable(v) && Packable(w) && Rank(v) != Rank(w)
    ensures CompareValue(v, w) == Order(Rank(v), Rank(w))
    ensures Compare(Encode(v, nested) + r, Encode(w, nested) + s) == Order(Rank(v), Rank(w))
  {
    EncodeStart(v, nested);
    EncodeStart(w, nested);
    OtherRank(v, w);
    hide Encode, CompareValue, Rank, Packable;
    FirstByte(Encode(v, nested), Encode(w, nested), r, s);
  }

  lemma OtherRank(v: Value, w: Value)
    requires Rank(v) != Rank(w)
    ensures CompareValue(v, w) == Order(Rank(v), Rank(w))
  {
  }

  lemma FirstByte(e: bytes, f: bytes, r: bytes, s: bytes)
    requires e != [] && f != [] && CodeRank(e[0]) != CodeRank(f[0])
    ensures Compare(e + r, f + s) == Order(CodeRank(e[0]), CodeRank(f[0]))
  {
  }

  lemma {:induction false} NestedOrder(a: Tuple, b: Tuple, r: bytes, s: bytes)
    requires AllPackable(a) && AllPackable(b) && Follows(r) && Follows(s)
    ensures CompareTuple(a, b) == 0 ==> a == b
    ensures CompareTuple(a, b) != 0 ==>
              Compare([NESTED] + EncodeAll(a, true) + [NIL] + r, [NESTED] + EncodeAll(b, true) + [NIL] + s)
              == CompareTuple(a, b)
    decreases a, 1
  {
    hide EncodeAll, CompareTuple, Compare;
    var x, y := EncodeAll(a, true) + ([NIL] + r), EncodeAll(b, true) + ([NIL] + s);
    ItemsOrder(a, b, true, [NIL] + r, [NIL] + s);
    assert [NESTED] + EncodeAll(a, true) + [NIL] + r == [NESTED] + x;
    assert [NESTED] + EncodeAll(b, true) + [NIL] + s == [NESTED] + y;
    CompareShift([NESTED], x, y);
  }

  lemma TextOrder(head: bytes, a: bytes, b: bytes, r: bytes, s: bytes)
    requires Follows(r) && Follows(s)
    ensures Compare(a, b) == 0 <==> a == b
    ensures a != b ==> Compare(head + Escaped(a) + r, head + Escaped(b) + s) == Compare(a, b)
  {
    CompareReflexive(a, b);
    if a != b {
      EscapedOrder(a, b, r, s);
      CompareShift(head, Escaped(a) + r, Escaped(b) + s);
      assert head + Escaped(a) + r == head + (Escaped(a) + r);
      assert head + Escaped(b) + s == head + (Escaped(b) + s);
    }
  }

  lemma FloatOrder(head: bytes, a: bytes, b: bytes, r: bytes, s: bytes)
    requires |a| == |b| > 0
    ensures FloatKey(a) == FloatKey(b) ==> a == b
    ensures a != b ==> Compare(head + OrderedFloat(a) + r, head + OrderedFloat(b) + s)
                       == Order(FloatKey(a), FloatKey(b))
  {
    if FloatKey(a) == FloatKey(b) { FloatKeyInjective(a, b); }
    OrderedFloatKey(a, b);
    CompareReflexive(OrderedFloat(a), OrderedFloat(b));
    FixedOrder(head, OrderedFloat(a), OrderedFloat(b), r, s);
  }

  /** Element lists: inside a nested tuple both are closed by a zero byte, at the top by the end. */
  ghost predicate Closes(nested: bool, r: bytes) {
    if nested then |r| > 0 && r[0] == NIL && Follows(r[1..]) else r == []
  }

  lemma {:induction false} ItemsOrder(t: Tuple, u: Tuple, nested: bool, r: bytes, s: bytes)
    requires AllPackable(t) && AllPackable(u)
    requires Closes(nested, r) && Closes(nested, s)
    ensures CompareTuple(t, u) == 0 ==> t == u
    ensures CompareTuple(t, u) != 0 ==>
              Compare(EncodeAll(t, nested) + r, EncodeAll(u, nested) + s) == CompareTuple(t, u)
    decreases t, 0
  {
    var x, y := EncodeAll(t, nested) + r, EncodeAll(u, nested) + s;
    if t == [] && u == [] {
    } else if t == [] {
      EncodeStart(u[0], nested);
      assert x == r;
      ClosedBeforeItems(u, nested, r, s);
    } else if u == [] {
      assert y == s;
      ClosedBeforeItems(t, nested, s, r);
      CompareReflexive(x, y);
    } else {
      RestFollows(t[1..], nested, r);
      RestFollows(u[1..], nested, s);
      ElementOrder(t[0], u[0], nested, EncodeAll(t[1..], nested) + r, EncodeAll(u[1..], nested) + s);
      ItemsOrder(t[1..], u[1..], nested, r, s);
      HeadThenRest(t, u, nested, r, s);
    }
  }

  lemma HeadThenRest(t: Tuple, u: Tuple, nested: bool, r: bytes, s: bytes)
    requires AllPackable(t) && AllPackable(u) && t != [] && u != []
    requires CompareValue(t[0], u[0]) == 0 ==> t[0] == u[0]
    requires CompareTuple(t[1..], u[1..]) == 0 ==> t[1..] == u[1..]
    requires var r', s' := EncodeAll(t[1..], nested) + r, EncodeAll(u[1..], nested) + s;
             && (CompareValue(t[0], u[0]) != 0 ==>
                   Compare(Encode(t[0], nested) + r', Encode(u[0], nested) + s') == CompareValue(t[0], u[0]))
             && (CompareTuple(t[1..], u[1..]) != 0 ==> Compare(r', s') == CompareTuple(t[1..], u[1..]))
    ensures CompareTuple(t, u) == 0 ==> t == u
    ensures CompareTuple(t, u) != 0 ==>
              Compare(EncodeAll(t, nested) + r, EncodeAll(u, nested) + s) == CompareTuple(t, u)
  {
    var r', s' := EncodeAll(t[1..], nested) + r, EncodeAll(u[1..], nested) + s;
    AssociateBytes(Encode(t[0], nested), EncodeAll(t[1..], nested), r);
    AssociateBytes(Encode(u[0], nested), EncodeAll(u[1..], nested), s);
    assert t == [t[0]] + t[1..] && u == [u[0]] + u[1..];
    CompareShift(Encode(t[0], nested), r', s');
  }

  lemma ClosedBeforeItems(u: Tuple, nested: bool, r: bytes, s: bytes)
    requires u != [] && AllPackable(u) && Closes(nested, r)
    ensures Compare(r, EncodeAll(u, nested) + s) == -1
  {
    var y := EncodeAll(u, nested) + s;
    EncodeStart(u[0], nested);
    assert y[0] == Encode(u[0], nested)[0];
    if nested && u[0].Null? {
      assert y[1] == ESCAPE;
      assert y[1..][0] == ESCAPE;
    }
  }

  lemma RestFollows(t: Tuple, nested: bool, r: bytes)
    requires AllPackable(t) && Follows(r)
    ensures Follows(EncodeAll(t, nested) + r)
  {
    if t != [] { EncodeStart(t[0], nested); } else { assert EncodeAll(t, nested) + r == r; }
  }

  /** The main result: comparing packed bytes is comparing tuples. */
  lemma {:induction false} PackOrder(t: Tuple, u: Tuple)
    requires AllPackable(t) && AllPackable(u)
    ensures Compare(Packing(t), Packing(u)) == CompareTuple(t, u)
    ensures Packing(t) == Packing(u) <==> t == u
  {
    ItemsOrder(t, u, false, [], []);
    assert EncodeAll(t, false) + [] == Packing(t) && EncodeAll(u, false) + [] == Packing(u);
    CompareReflexive(Packing(t), Packing(u));
  }

  /** The `compare` entry point: an error for an unpackable side, otherwise the tuple order. */
  method ComparePacked(left: Tuple, right: Tuple) returns (r: Result<int>)
    ensures r == if AllPackable(left) && AllPackable(right) then Ok(CompareTuple(left, right))
                 else Err(IntegerTooLarge)
  {
    var l := PackTracked(left);
    if l.Err? { return Err(l.error); }
    var m := PackTracked(right);
    if m.Err? { return Err(m.error); }
    PackOrder(left, right);
    var c := CompareBytes(l.value.data, m.value.data);
    return Ok(c);
  }

  // ---- Ranges ----

  ghost predicate InRange(key: bytes, prefix: bytes) {
    AtMost(prefix + [0x00], key) && Before(key, prefix + [0xff])
  }

  ghost predicate ProperPrefix(t: Tuple, u: Tuple) {
    |t| < |u| && u[..|t|] == t
  }

  /** What tuples share at their front does not decide whether one lies in the range of the other. */
  lemma RangeOfRest(p: Tuple, t: Tuple, u: Tuple)
    requires AllPackable(p) && AllPackable(t) && AllPackable(u)
    ensures AllPackable(p + t) && AllPackable(p + u)
    ensures InRange(Packing(p + u), Packing(p + t)) <==> InRange(Packing(u), Packing(t))
  {
    EncodeAllAppend(p, t, false);
    EncodeAllAppend(p, u, false);
    RangeShift(Packing(p), Packing(t), Packing(u));
    hide Encode, EncodeAll, AllPackable, Compare, InRange;
  }

  lemma RangeShift(head: bytes, a: bytes, b: bytes)
    ensures InRange(head + b, head + a) <==> InRange(b, a)
  {
    hide Compare;
    assert head + a + [0x00] == head + (a + [0x00]) && head + a + [0xff] == head + (a + [0xff]);
    CompareShift(head, a + [0x00], b);
    CompareShift(head, b, a + [0xff]);
  }

  lemma WholeRange(key: bytes)
    requires key != [] && key[0] < ESCAPE
    ensures InRange(key, [])
  {
    var none: bytes, low: bytes, high: bytes := [], [0x00], [0xff];
    assert none + low == low && none + high == high;
    if key[0] == 0x00 { PrefixIsAtMost(low, key); }
  }

  lemma {:induction false} RangeOfEnds(t: Tuple, u: Tuple)
    requires AllPackable(t) && AllPackable(u) && (t == [] || u == [])
    ensures InRange(Packing(u), Packing(t)) <==> t == [] && u != []
  {
    if t == [] {
      assert Packing(t) + [0x00] == [0x00] && Packing(t) + [0xff] == [0xff];
      if u != [] {
        EncodeStart(u[0], false);
        assert Packing(u)[0] == Encode(u[0], false)[0];
        WholeRange(Packing(u));
      } else {
        assert Packing(u) == [];
      }
    } else {
      EncodeStart(t[0], false);
      assert Packing(u) == [];
    }
  }

  /** A tuple's range holds exactly the packings of the tuples that properly extend it. */
  lemma RangeIsExtensions(t: Tuple, u: Tuple)
    requires AllPackable(t) && AllPackable(u)
    ensures InRange(Packing(u), Packing(t)) <==> ProperPrefix(t, u)
  {
    hide Packing, InRange, AllPackable;
    var n := SplitTuple(t, u);
    var p, t', u' := t[..n], t[n..], u[n..];
    assert p + t' == t && p + u' == u;
    PackableParts(t, n);
    PackableParts(u, n);
    RangeOfRest(p, t', u');
    if t' == [] || u' == [] {
      RangeOfEnds(t', u');
    } else {
      assert t'[0] == t[n] && u'[0] == u[n];
      DivergingRange(t', u');
    }
  }

  lemma PackableParts(t: Tuple, n: nat)
    requires AllPackable(t) && n <= |t|
    ensures AllPackable(t[..n]) && AllPackable(t[n..])
  {
    assert t == t[..n] + t[n..];
    EncodeAllAppend(t[..n], t[n..], false);
  }

  function SplitTuple(t: Tuple, u: Tuple): (n: nat)
    ensures n <= |t| && n <= |u| && t[..n] == u[..n]
    ensures n < |t| && n < |u| ==> t[n] != u[n]
    ensures ProperPrefix(t, u) <==> n == |t| < |u|
  {
    if t == [] || u == [] || t[0] != u[0] then 0
    else
      var n := SplitTuple(t[1..], u[1..]) + 1;
      assert t == [t[0]] + t[1..] && u == [u[0]] + u[1..];
      assert t[..n] == [t[0]] + t[1..][..n - 1];
      assert u[..n] == [u[0]] + u[1..][..n - 1];
      n
  }

  /** Tuples that part at their first element are outside each other's ranges: the `ff` bound
      cuts off encodings that go on with an escape byte. */
  lemma {:induction false} DivergingRange(t: Tuple, u: Tuple)
    requires AllPackable(t) && AllPackable(u) && t != [] && u != [] && t[0] != u[0]
    ensures !InRange(Packing(u), Packing(t))
  {
    var e, rest, s := Encode(t[0], false), EncodeAll(t[1..], false), EncodeAll(u[1..], false);
    RestFollowsOrEmpty(u[1..]);
    RestFollowsOrEmpty(t[1..]);
    assert Packing(t) == e + rest && Packing(u) == Encode(u[0], false) + s;
    assert Follows(rest + [0x00]);
    hide Packing, Encode, EncodeAll, Compare, CompareValue, AllPackable, Packable, Follows;
    assert Packing(t) + [0x00] == e + (rest + [0x00]) && Packing(t) + [0xff] == e + (rest + [0xff]);
    if CompareValue(t[0], u[0]) > 0 {
      ElementOrder(t[0], u[0], false, rest + [0x00], s);
      CompareReflexive(Packing(t) + [0x00], Packing(u));
    } else {
      ElementOrder(t[0], u[0], false, [], []);
      BeyondEscape(t[0], u[0], rest, s);
      CompareReflexive(Packing(t) + [0xff], Packing(u));
    }
  }

  lemma BeyondEscape(v: Value, w: Value, rest: bytes, s: bytes)
    requires Packable(v) && Packable(w) && Follows(rest) && Follows(s)
    requires CompareValue(v, w) < 0
    ensures Compare(Encode(v, false) + (rest + [0xff]), Encode(w, false) + s) <= 0
  {
    hide Encode, Compare, CompareValue, Packable;
    var e, x := Encode(v, false), Encode(w, false) + s;
    if e <= x {
      EscapeFollows(v, w, s);
      var y := x[|e|..];
      assert x == e + y;
      CompareShift(e, rest + [0xff], y);
      assert e + (rest + [0xff]) == e + (rest + [0xff]);
      BelowEscape(rest, y);
    } else {
      NotPrefixOfSmaller(v, w, s);
      ElementOrder(v, w, false, [], s);
      assert e + [] == e && x + [] == x;
      CompareExtend(e, x, rest + [0xff], []);
    }
  }

  lemma RestFollowsOrEmpty(t: Tuple)
    requires AllPackable(t)
    ensures Follows(EncodeAll(t, false))
  {
    RestFollows(t, false, []);
    assert EncodeAll(t, false) + [] == EncodeAll(t, false);
  }

  /** If one element's encoding starts the encoding of a larger one, an escape byte comes next. */
  lemma EscapeFollows(v: Value, w: Value, s: bytes)
    requires Packable(v) && Packable(w) && Follows(s) && CompareValue(v, w) != 0
    requires Encode(v, false) <= Encode(w, false) + s
    ensures var y := (Encode(w, false) + s)[|Encode(v, false)|..]; y != [] && y[0] == ESCAPE
  {
    hide Encode, Compare, CompareValue, Packable;
    var e, x := Encode(v, false), Encode(w, false) + s;
    var y := x[|e|..];
    assert x == e + y;
    if Follows(y) {
      ElementOrder(v, w, false, y, s);
      CompareReflexive(e + y, x);
      assert false;
    }
    assert y != [] && !(y[0] < ESCAPE);
  }

  lemma BelowEscape(rest: bytes, y: bytes)
    requires Follows(rest) && y != [] && y[0] == ESCAPE
    ensures Compare(rest + [0xff], y) <= 0
  {
    assert (rest + [0xff])[0] == if rest == [] then 0xff else rest[0];
    if rest == [] { assert (rest + [0xff])[1..] == []; }
  }

  lemma NotPrefixOfSmaller(v: Value, w: Value, s: bytes)
    requires Packable(v) && Packable(w) && Follows(s) && CompareValue(v, w) < 0
    ensures !(Encode(w, false) + s <= Encode(v, false))
  {
    hide Encode, Compare, CompareValue, Packable;
    var e, x := Encode(v, false), Encode(w, false) + s;
    ElementOrder(v, w, false, [], s);
    assert e + [] == e;
    CompareReflexive(x, e);
    if x <= e { PrefixIsAtMost(x, e); }
  }

  /** The bounds are needed: a packing can be a byte prefix of a tuple that does not extend it. */
  lemma BytePrefixIsNotExtension()
    ensures var t, u := [Blob([])], [Blob([0x00])];
            && AllPackable(t) && AllPackable(u)
            && Packing(t) <= Packing(u) && !ProperPrefix(t, u) && !InRange(Packing(u), Packing(t))
  {
    var t, u := [Blob([])], [Blob([0x00])];
    assert t[1..] == [] && u[1..] == [];
    assert Escaped([0x00]) == [0x00, 0xff, 0x00] by { assert [0x00][1..] == []; }
    RangeIsExtensions(t, u);
  }
}
