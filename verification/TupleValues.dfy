/** The values of the tuple layer, their semantic order, and the numbers inside their encodings. */
module TupleValues {
  import opened Bytes

  // Well-formed UTF-8: the table of section 4 of RFC 3629.
  predicate ValidUtf8(b: bytes) {
    if b == [] then true
    else if b[0] < 0x80 then ValidUtf8(b[1..])
    else if 0xc2 <= b[0] <= 0xdf then |b| >= 2 && Tail(b[1]) && ValidUtf8(b[2..])
    else if 0xe0 <= b[0] <= 0xef then
      && |b| >= 3 && Tail(b[1]) && Tail(b[2])
      && (b[0] == 0xe0 ==> b[1] >= 0xa0)
      && (b[0] == 0xed ==> b[1] <= 0x9f)
      && ValidUtf8(b[3..])
    else if 0xf0 <= b[0] <= 0xf4 then
      && |b| >= 4 && Tail(b[1]) && Tail(b[2]) && Tail(b[3])
      && (b[0] == 0xf0 ==> b[1] >= 0x90)
      && (b[0] == 0xf4 ==> b[1] <= 0x8f)
      && ValidUtf8(b[4..])
    else false
  }

  predicate Tail(b: byte) {
    0x80 <= b <= 0xbf
  }

  type utf8 = b: bytes | ValidUtf8(b)
  type bytes4 = b: bytes | |b| == 4 witness [0, 0, 0, 0]
  type bytes8 = b: bytes | |b| == 8 witness [0, 0, 0, 0, 0, 0, 0, 0]
  type bytes10 = b: bytes | |b| == 10 witness [0, 0, 0, 0, 0, 0, 0, 0, 0, 0]
  type bytes12 = b: bytes | |b| == 12 witness [0, 0, 0, 0, 0, 0, 0, 0, 0, 0, 0, 0]
  type bytes16 = b: bytes | |b| == 16 witness [0, 0, 0, 0, 0, 0, 0, 0, 0, 0, 0, 0, 0, 0, 0, 0]

  /** A tuple value. Strings are their UTF-8 bytes, floats their big-endian bit patterns. */
  datatype Value =
    | Null
    | Blob(blob: bytes)
    | Str(text: utf8)
    | Nested(items: seq<Value>)
    | Int(n: int)
    | Float(bits4: bytes4)
    | Double(bits8: bytes8)
    | Bool(b: bool)
    | Uuid(id: bytes16)
    | Versionstamp(stamp: bytes12)

  type Tuple = seq<Value>

  // ---- Big-endian numbers ----

  /** The number a big-endian byte string denotes, as the parser's loop accumulates it. */
  function Magnitude(b: bytes): nat {
    if b == [] then 0 else Magnitude(b[..|b| - 1]) * 256 + b[|b| - 1]
  }

  function Pow256(n: nat): (p: nat)
    ensures p > 0
  {
    if n == 0 then 1 else Pow256(n - 1) * 256
  }

  /** The shortest big-endian byte string of a number. */
  function MagnitudeBytes(n: nat): (b: bytes)
    ensures Magnitude(b) == n
    ensures n < Pow256(|b|)
    ensures n > 0 ==> |b| > 0 && b[0] > 0 && Pow256(|b| - 1) <= n
  {
    if n == 0 then [] else
      var hi := MagnitudeBytes(n / 256);
      var b := hi + [n % 256];
      assert b[..|b| - 1] == hi;
      b
  }

  lemma {:induction false} Pow256Monotone(m: nat, n: nat)
    requires m <= n
    ensures Pow256(m) <= Pow256(n)
    decreases n - m
  {
    if m < n { Pow256Monotone(m, n - 1); }
  }

  lemma {:induction false} MagnitudeBound(b: bytes)
    ensures Magnitude(b) < Pow256(|b|)
  {
    if b != [] { MagnitudeBound(b[..|b| - 1]); }
  }

  lemma {:induction false} MagnitudeHead(b: bytes)
    requires b != []
    ensures Magnitude(b) == b[0] * Pow256(|b| - 1) + Magnitude(b[1..])
  {
    if |b| > 1 {
      var c := b[..|b| - 1];
      MagnitudeHead(c);
      assert c[1..] == b[1..][..|b| - 2];
      ShiftIn(b[0], Pow256(|c| - 1), Magnitude(c[1..]));
    }
  }

  lemma ShiftIn(x: nat, p: nat, m: nat)
    ensures (x * p + m) * 256 == x * (p * 256) + m * 256
  {
    assert (x * p) * 256 == x * (p * 256);
  }

  /** On byte strings of one length, numeric order is byte order. */
  lemma {:induction false} CompareMagnitude(a: bytes, b: bytes)
    requires |a| == |b|
    ensures Compare(a, b) == Order(Magnitude(a), Magnitude(b))
  {
    if a != [] {
      MagnitudeHead(a);
      MagnitudeHead(b);
      CompareMagnitude(a[1..], b[1..]);
      MagnitudeBound(a[1..]);
      MagnitudeBound(b[1..]);
      if a[0] < b[0] {
        HeadDecides(a[0], b[0], Pow256(|a| - 1), Magnitude(a[1..]), Magnitude(b[1..]));
      } else if b[0] < a[0] {
        HeadDecides(b[0], a[0], Pow256(|a| - 1), Magnitude(b[1..]), Magnitude(a[1..]));
      }
    }
  }

  lemma HeadDecides(x: nat, y: nat, p: nat, r: nat, s: nat)
    requires x < y && r < p
    ensures x * p + r < y * p + s
  {
    assert (x + 1) * p <= y * p;
  }

  lemma {:induction false} ShorterIsSmaller(m: nat, n: nat)
    requires |MagnitudeBytes(m)| < |MagnitudeBytes(n)|
    ensures m < n
  {
    Pow256Monotone(|MagnitudeBytes(m)|, |MagnitudeBytes(n)| - 1);
  }

  /** Every byte inverted, as the codec writes negative numbers and negative floats. */
  function Flip(b: bytes): (f: bytes)
    ensures |f| == |b|
    ensures forall i :: 0 <= i < |b| ==> f[i] == 255 - b[i]
  {
    seq(|b|, i requires 0 <= i < |b| => 255 - b[i])
  }

  lemma {:induction false} CompareFlipped(a: bytes, b: bytes)
    requires |a| == |b|
    ensures Compare(Flip(a), Flip(b)) == -Compare(a, b)
  {
    if a != [] {
      CompareFlipped(a[1..], b[1..]);
      assert Flip(a)[1..] == Flip(a[1..]) && Flip(b)[1..] == Flip(b[1..]);
    }
  }

  // ---- Semantic order ----

  function Rank(v: Value): nat {
    match v
    case Null => 0
    case Blob(_) => 1
    case Str(_) => 2
    case Nested(_) => 3
    case Int(_) => 4
    case Float(_) => 5
    case Double(_) => 6
    case Bool(_) => 7
    case Uuid(_) => 8
    case Versionstamp(_) => 9
  }

  /** Place of a bit pattern in the total order of section 5.10 of IEEE 754-2019:
      sign and magnitude, the negative zero below the positive one. */
  function FloatKey(bits: bytes): int
    requires bits != []
  {
    if bits[0] < 0x80 then Magnitude(bits)
    else -1 - Magnitude([bits[0] - 0x80] + bits[1..])
  }

  /** The order a reader expects: type rank first, then the value, tuples element by element. */
  function CompareValue(v: Value, w: Value): int
    decreases v, 1
  {
    match (v, w)
    case (Null, Null) => 0
    case (Blob(a), Blob(b)) => Compare(a, b)
    case (Str(a), Str(b)) => Compare(a, b)
    case (Nested(a), Nested(b)) => CompareTuple(a, b)
    case (Int(a), Int(b)) => Order(a, b)
    case (Float(a), Float(b)) => Order(FloatKey(a), FloatKey(b))
    case (Double(a), Double(b)) => Order(FloatKey(a), FloatKey(b))
    case (Bool(a), Bool(b)) => if a == b then 0 else if b then -1 else 1
    case (Uuid(a), Uuid(b)) => Compare(a, b)
    case (Versionstamp(a), Versionstamp(b)) => Compare(a, b)
    case _ => Order(Rank(v), Rank(w))
  }

  function CompareTuple(t: Tuple, u: Tuple): int
    decreases t, 0
  {
    if t == [] && u == [] then 0
    else if t == [] then -1
    else if u == [] then 1
    else
      var c := CompareValue(t[0], u[0]);
      if c != 0 then c else CompareTuple(t[1..], u[1..])
  }
}
