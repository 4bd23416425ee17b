/** Byte strings in the order of the ordered byte-key store: unsigned, lexicographic. */
module Bytes {

  type byte = x: int | 0 <= x < 256
  type bytes = seq<byte>

  function Order(x: int, y: int): int {
    if x < y then -1 else if x == y then 0 else 1
  }

  /** Unsigned lexicographic comparison: -1, 0 or 1. */
  function Compare(a: bytes, b: bytes): int {
    if a == [] && b == [] then 0
    else if a == [] then -1
    else if b == [] then 1
    else if a[0] != b[0] then Order(a[0], b[0])
    else Compare(a[1..], b[1..])
  }

  ghost predicate Before(a: bytes, b: bytes) {
    Compare(a, b) < 0
  }

  ghost predicate AtMost(a: bytes, b: bytes) {
    Compare(a, b) <= 0
  }

  /** The position at which two byte strings part, or the length of the shorter one. */
  function Split(a: bytes, b: bytes): (n: nat)
    ensures n <= |a| && n <= |b| && a[..n] == b[..n]
    ensures n < |a| && n < |b| ==> a[n] != b[n]
  {
    if a == [] || b == [] || a[0] != b[0] then 0
    else
      var n := Split(a[1..], b[1..]) + 1;
      assert a[..n] == [a[0]] + a[1..][..n - 1];
      assert b[..n] == [b[0]] + b[1..][..n - 1];
      n
  }

  lemma {:induction false} CompareAtSplit(a: bytes, b: bytes)
    ensures Compare(a, b) ==
            (var n := Split(a, b);
             if n < |a| && n < |b| then Order(a[n], b[n]) else Order(|a|, |b|))
  {
    if a == [] || b == [] || a[0] != b[0] {
    } else {
      CompareAtSplit(a[1..], b[1..]);
    }
  }

  lemma {:induction false} CompareSplitAt(a: bytes, b: bytes, n: nat)
    requires n <= |a| && n <= |b| && a[..n] == b[..n]
    ensures Compare(a, b) == Compare(a[n..], b[n..])
  {
    if n > 0 {
      assert a[0] == a[..n][0] == b[..n][0] == b[0];
      assert a[1..][..n - 1] == a[..n][1..] == b[..n][1..] == b[1..][..n - 1];
      CompareSplitAt(a[1..], b[1..], n - 1);
      assert a[1..][n - 1..] == a[n..] && b[1..][n - 1..] == b[n..];
    } else {
      assert a[n..] == a && b[n..] == b;
    }
  }

  lemma {:induction false} CompareReflexive(a: bytes, b: bytes)
    ensures Compare(a, b) == 0 <==> a == b
    ensures Compare(a, b) == -Compare(b, a)
  {
    if a == [] || b == [] {
    } else {
      CompareReflexive(a[1..], b[1..]);
      assert a == [a[0]] + a[1..] && b == [b[0]] + b[1..];
    }
  }

  lemma {:induction false} CompareTransitive(a: bytes, b: bytes, c: bytes)
    requires Compare(a, b) <= 0 && Compare(b, c) <= 0
    ensures Compare(a, c) <= 0
    ensures Compare(a, b) < 0 || Compare(b, c) < 0 ==> Compare(a, c) < 0
  {
    if a == [] || b == [] || c == [] {
    } else if a[0] == b[0] == c[0] {
      CompareTransitive(a[1..], b[1..], c[1..]);
    }
  }

  /** A common prefix does not matter. */
  lemma {:induction false} CompareShift(p: bytes, a: bytes, b: bytes)
    ensures Compare(p + a, p + b) == Compare(a, b)
  {
    CompareSplitAt(p + a, p + b, |p|);
    assert (p + a)[|p|..] == a && (p + b)[|p|..] == b;
  }

  /** What decides a comparison inside the strings decides it for all their extensions. */
  lemma {:induction false} CompareExtend(a: bytes, b: bytes, r: bytes, s: bytes)
    requires !(a <= b) && !(b <= a)
    ensures Compare(a + r, b + s) == Compare(a, b) != 0
  {
    var n := Split(a, b);
    CompareAtSplit(a, b);
    assert n < |a| && n < |b|;
    assert (a + r)[..n] == a[..n] == b[..n] == (b + s)[..n];
    CompareSplitAt(a + r, b + s, n);
    assert (a + r)[n..][0] == a[n] && (b + s)[n..][0] == b[n];
  }

  lemma {:induction false} PrefixIsAtMost(p: bytes, a: bytes)
    requires p <= a
    ensures Compare(p, a) <= 0
    ensures p != a ==> Compare(p, a) < 0
  {
    CompareShift(p, [], a[|p|..]);
    assert p + [] == p && p + a[|p|..] == a;
  }

  /** Everything between a prefix and one of its extensions extends the prefix too. */
  lemma {:induction false} BetweenExtends(p: bytes, m: bytes, e: bytes)
    requires p <= e
    requires Compare(p, m) <= 0 && Compare(m, e) <= 0
    ensures p <= m
  {
    if !(p <= m) {
      if m <= p {
        PrefixIsAtMost(m, p);
        CompareReflexive(m, p);
        assert false;
      }
      CompareExtend(p, m, e[|p|..], []);
      assert p + e[|p|..] == e && m + [] == m;
      CompareReflexive(m, e);
      assert false;
    }
  }

  /** The comparison loop of the tuple layer. */
  method CompareBytes(left: bytes, right: bytes) returns (c: int)
    ensures c == Compare(left, right)
  {
    var length := if |left| < |right| then |left| else |right|;
    var index := 0;
    while index < length
      invariant 0 <= index <= length
      invariant left[..index] == right[..index]
    {
      if left[index] != right[index] {
        CompareSplitAt(left, right, index);
        return if left[index] < right[index] then -1 else 1;
      }
      index := index + 1;
    }
    CompareSplitAt(left, right, length);
    if |left| == |right| { return 0; }
    return if |left| < |right| then -1 else 1;
  }

  /** Prefix test by a byte loop; the same loop serves subspaces and the directory layer. */
  method StartsWith(value: bytes, prefix: bytes) returns (b: bool)
    ensures b <==> prefix <= value
  {
    if |value| < |prefix| { return false; }
    var index := 0;
    while index < |prefix|
      invariant 0 <= index <= |prefix|
      invariant value[..index] == prefix[..index]
    {
      if value[index] != prefix[index] { return false; }
      index := index + 1;
    }
    assert prefix[..index] == prefix;
    return true;
  }

  function Flatten(parts: seq<bytes>): bytes {
    if parts == [] then [] else Flatten(parts[..|parts| - 1]) + parts[|parts| - 1]
  }

  /** Concatenation into a buffer allocated up front and filled part by part. */
  method ConcatBytes(parts: seq<bytes>) returns (output: array<byte>)
    ensures fresh(output) && output[..] == Flatten(parts)
  {
    var total := 0;
    for i := 0 to |parts|
      invariant total == |Flatten(parts[..i])|
    {
      assert parts[..i + 1][..i] == parts[..i];
      total := total + |parts[i]|;
    }
    assert parts[..|parts|] == parts;
    output := new byte[total](_ => 0);
    var offset := 0;
    for i := 0 to |parts|
      invariant offset == |Flatten(parts[..i])| <= total
      invariant output[..offset] == Flatten(parts[..i])
    {
      var part := parts[i];
      assert parts[..i + 1][..i] == parts[..i];
      FlattenMonotone(parts, i + 1);
      ghost var done := output[..offset];
      for k := 0 to |part|
        invariant output[..offset] == done
        invariant output[offset..offset + k] == part[..k]
      {
        output[offset + k] := part[k];
      }
      assert output[..offset + |part|] == output[..offset] + output[offset..offset + |part|];
      assert part[..|part|] == part;
      offset := offset + |part|;
    }
    assert output[..] == output[..offset];
  }

  lemma {:induction false} FlattenMonotone(parts: seq<bytes>, i: nat)
    requires i <= |parts|
    ensures |Flatten(parts[..i])| <= |Flatten(parts)|
    decreases |parts| - i
  {
    if i < |parts| {
      FlattenMonotone(parts, i + 1);
      assert parts[..i + 1][..i] == parts[..i];
    } else {
      assert parts[..i] == parts;
    }
  }

  /** The least byte string above every extension of the key, or empty when there is none. */
  method Strinc(key: bytes) returns (output: bytes)
    ensures output == [] <==> forall i :: 0 <= i < |key| ==> key[i] == 0xff
    ensures output != [] ==> IsSuccessor(key, output)
  {
    var index := |key| - 1;
    while index >= 0 && key[index] == 0xff
      invariant -1 <= index < |key|
      invariant forall i :: index < i < |key| ==> key[i] == 0xff
    {
      index := index - 1;
    }
    if index < 0 { return []; }
    output := key[..index] + [key[index] + 1];
    SuccessorOf(key, index);
  }

  /** The half-open range from the key to its successor holds exactly the key's extensions. */
  ghost predicate IsSuccessor(key: bytes, next: bytes) {
    forall k: bytes :: key <= k <==> AtMost(key, k) && Before(k, next)
  }

  lemma SuccessorOf(key: bytes, index: nat)
    requires index < |key| && key[index] != 0xff
    requires forall i :: index < i < |key| ==> key[i] == 0xff
    ensures IsSuccessor(key, key[..index] + [key[index] + 1])
  {
    var next := key[..index] + [key[index] + 1];
    forall k: bytes
      ensures key <= k <==> AtMost(key, k) && Before(k, next)
    {
      if key <= k {
        PrefixIsAtMost(key, k);
        CompareSplitAt(k, next, index);
      } else if AtMost(key, k) && Before(k, next) {
        SuccessorGap(key, index, k);
        assert false;
      }
    }
  }

  lemma SuccessorGap(key: bytes, index: nat, k: bytes)
    requires index < |key| && key[index] != 0xff
    requires forall i :: index < i < |key| ==> key[i] == 0xff
    requires !(key <= k) && Compare(key, k) <= 0
    ensures Compare(k, key[..index] + [key[index] + 1]) >= 0
  {
    var next := key[..index] + [key[index] + 1];
    var n := Split(key, k);
    CompareAtSplit(key, k);
    assert n < |key|;
    assert n < |k| && key[n] < k[n];
    if n < index {
      assert next[..n] == key[..n] == k[..n];
      CompareSplitAt(k, next, n);
    } else {
      assert n == index;
      assert next[..n] == k[..n];
      CompareSplitAt(k, next, n);
      assert next[n..] == [key[n] + 1];
    }
  }
}
