/** Key namespaces under a prefix, and keys completed by the store with a commit version. */
module Subspaces {
  import opened Bytes
  import opened TupleValues
  import opened TupleCodec
  import opened TupleOrder
  import opened TupleParser

  // ---- The versionstamp trailer ----

  function LittleEndian(n: nat, width: nat): bytes {
    if width == 0 then [] else [n % 256] + LittleEndian(n / 256, width - 1)
  }

  /** An offset is written in four bytes, the lowest first. */
  lemma LittleEndianBytes(n: nat)
    requires n <= 0xffff_ffff
    ensures LittleEndian(n, 4) == [n % 256, n / 256 % 256, n / 65_536 % 256, n / 16_777_216]
  {
    assert LittleEndian(n, 4) == [n % 256] + LittleEndian(n / 256, 3);
    assert LittleEndian(n / 256, 3) == [n / 256 % 256] + LittleEndian(n / 256 / 256, 2);
    assert LittleEndian(n / 256 / 256, 2) == [n / 256 / 256 % 256] + LittleEndian(n / 256 / 256 / 256, 1);
    assert LittleEndian(n / 256 / 256 / 256, 0) == [];
    assert LittleEndian(n / 256 / 256 / 256, 1) == [n / 256 / 256 / 256 % 256];
  }

  function FromLittleEndian(b: bytes): nat {
    if b == [] then 0 else b[0] + 256 * FromLittleEndian(b[1..])
  }

  lemma {:induction false} LittleEndianInverts(n: nat, width: nat)
    requires n < Pow256(width)
    ensures |LittleEndian(n, width)| == width
    ensures FromLittleEndian(LittleEndian(n, width)) == n
  {
    if width > 0 {
      LittleEndianInverts(n / 256, width - 1);
      assert LittleEndian(n, width)[1..] == LittleEndian(n / 256, width - 1);
    }
  }

  /** Appends the offset of the one incomplete stamp as four little-endian bytes. */
  function AppendOffset(packed: Packed): Result<bytes> {
    if |packed.incomplete| == 0 then Ok(packed.data)
    else if |packed.incomplete| > 1 then Err(MultipleIncompleteVersionstamps)
    else if packed.incomplete[0] > 0xffff_ffff then Err(OffsetTooLarge)
    else Ok(packed.data + LittleEndian(packed.incomplete[0], 4))
  }

  /** Ten bytes overwritten in place. */
  function Overwrite(b: bytes, at: nat, version: bytes10): bytes
    requires at + 10 <= |b|
  {
    b[..at] + version + b[at + 10..]
  }

  /** What the store makes of a versionstamped key at commit: the trailer names the position. */
  function FillIn(key: bytes, version: bytes10): bytes
    requires |key| >= 4 && FromLittleEndian(key[|key| - 4..]) + 14 <= |key|
  {
    Overwrite(key[..|key| - 4], FromLittleEndian(key[|key| - 4..]), version)
  }

  /** The value with every incomplete stamp completed. */
  function Completed(v: Value, version: bytes10): Value
    decreases v, 1
  {
    match v
    case Versionstamp(stamp) => if Incomplete(stamp) then Versionstamp(version + stamp[10..]) else v
    case Nested(items) => Nested(CompletedAll(items, version))
    case _ => v
  }

  function CompletedAll(t: Tuple, version: bytes10): (u: Tuple)
    ensures |u| == |t|
    decreases t, 0
  {
    if t == [] then [] else [Completed(t[0], version)] + CompletedAll(t[1..], version)
  }

  /** Overwriting at the recorded offset is completing the value. */
  ghost predicate Patched(e: bytes, offsets: seq<nat>, base: nat, version: bytes10, done: bytes) {
    && |done| == |e|
    && (offsets == [] ==> done == e)
    && (|offsets| == 1 ==> base <= offsets[0] && offsets[0] - base + 10 <= |e|
                           && done == Overwrite(e, offsets[0] - base, version))
  }

  lemma {:induction false} CompletedPatches(v: Value, nested: bool, base: nat, version: bytes10)
    requires Packable(v)
    ensures Packable(Completed(v, version))
    ensures Patched(Encode(v, nested), Offsets(v, nested, base), base, version,
                    Encode(Completed(v, version), nested))
    decreases v, 1
  {
    match v
    case Versionstamp(stamp) =>
    case Nested(items) =>
      CompletedAllPatches(items, true, base + 1, version);
      var e, done := EncodeAll(items, true), EncodeAll(CompletedAll(items, version), true);
      PatchedBetween([NESTED], e, [NIL], OffsetsAll(items, true, base + 1), base, version, done);
    case _ =>
  }

  lemma {:induction false} CompletedAllPatches(t: Tuple, nested: bool, base: nat, version: bytes10)
    requires AllPackable(t)
    ensures AllPackable(CompletedAll(t, version))
    ensures Patched(EncodeAll(t, nested), OffsetsAll(t, nested, base), base, version,
                    EncodeAll(CompletedAll(t, version), nested))
    decreases t, 0
  {
    if t != [] {
      var e, u := Encode(t[0], nested), CompletedAll(t, version);
      CompletedPatches(t[0], nested, base, version);
      CompletedAllPatches(t[1..], nested, base + |e|, version);
      assert u[1..] == CompletedAll(t[1..], version);
      PatchedConcat(e, Offsets(t[0], nested, base),
                    EncodeAll(t[1..], nested), OffsetsAll(t[1..], nested, base + |e|),
                    base, version, Encode(u[0], nested), EncodeAll(u[1..], nested));
    }
  }

  lemma PatchedConcat(e: bytes, o: seq<nat>, rest: bytes, p: seq<nat>, base: nat, version: bytes10,
                      done: bytes, restDone: bytes)
    requires Patched(e, o, base, version, done) && Patched(rest, p, base + |e|, version, restDone)
    ensures Patched(e + rest, o + p, base, version, done + restDone)
  {
    if o == [] {
      assert o + p == p;
      PatchedBetween(e, rest, [], p, base, version, restDone);
      assert e + rest + [] == e + rest && e + restDone + [] == e + restDone;
    } else if |o + p| == 1 {
      assert p == [] && o + p == o;
      PatchedBetween([], e, rest, o, base, version, done);
      assert [] + e + rest == e + rest && [] + done + rest == done + rest;
    }
  }

  /** A patch is undisturbed by bytes before and after. */
  lemma PatchedBetween(before: bytes, e: bytes, after: bytes, offsets: seq<nat>, base: nat,
                       version: bytes10, done: bytes)
    requires Patched(e, offsets, base + |before|, version, done)
    ensures Patched(before + e + after, offsets, base, version, before + done + after)
  {
    if |offsets| == 1 {
      var at := offsets[0] - base - |before|;
      var x := before + e + after;
      assert x[..at + |before|] == before + e[..at];
      assert x[at + |before| + 10..] == e[at + 10..] + after;
    }
  }

  lemma FillInPatches(data: bytes, offsets: seq<nat>, version: bytes10, done: bytes)
    requires Patched(data, offsets, 0, version, done) && |offsets| == 1 && offsets[0] <= 0xffff_ffff
    ensures var key := AppendOffset(Packed(data, offsets));
            && key.Ok? && |key.value| >= 4
            && FromLittleEndian(key.value[|key.value| - 4..]) + 14 <= |key.value|
            && FillIn(key.value, version) == done
  {
    assert Pow256(4) == 0x1_0000_0000 by {
      assert Pow256(1) == 256;
      assert Pow256(2) == 65536;
      assert Pow256(3) == 16777216;
    }
    LittleEndianInverts(offsets[0], 4);
    var key := AppendOffset(Packed(data, offsets)).value;
    assert key[|key| - 4..] == LittleEndian(offsets[0], 4);
    assert key[..|key| - 4] == data;
  }

  // ---- Subspaces ----

  lemma PackingAppendAt(raw: bytes, u: Tuple, t: Tuple)
    requires AllPackable(u) && AllPackable(t)
    ensures AllPackable(u + t) && raw + Packing(u) + Packing(t) == raw + Packing(u + t)
  {
    EncodeAllAppend(u, t, false);
    assert raw + Packing(u) + Packing(t) == raw + (Packing(u) + Packing(t));
  }

  lemma OffsetsAppendAt(u: Tuple, t: Tuple, base: nat)
    requires AllPackable(u) && AllPackable(t)
    ensures AllPackable(u + t)
    ensures OffsetsAll(u, false, base) + Shift(OffsetsAll(t, false, 0), base + |Packing(u)|)
            == OffsetsAll(u + t, false, base)
  {
    OffsetsAllAppend(u, t, false, base);
    OffsetsShift(t, false, 0, base + |Packing(u)|);
  }

  /** The key a tuple with at most one incomplete stamp is written under; an unpackable tuple
      or a second stamp is an error. */
  function VersionstampedKey(raw: bytes, t: Tuple): Result<bytes> {
    if AllPackable(t) then AppendOffset(Packed(raw + Packing(t), OffsetsAll(t, false, |raw|)))
    else Err(IntegerTooLarge)
  }

  /** An immutable namespace: a raw prefix and the positions of incomplete stamps inside it. */
  datatype Subspace = Subspace(prefix: bytes, incomplete: seq<nat>) {

    /** A raw prefix is the namespace of the empty tuple below it. */
    static function FromBytes(prefix: bytes): (r: Subspace)
      ensures r.Holds(prefix, [])
    {
      Subspace(prefix, [])
    }

    static method FromTuple(t: Tuple) returns (r: Result<Subspace>)
      ensures if AllPackable(t) then r.Ok? && r.value.Holds([], t) else r == Err(IntegerTooLarge)
    {
      var packed := PackTracked(t);
      if packed.Err? { return Err(packed.error); }
      assert [] + Packing(t) == Packing(t);
      return Ok(Subspace(packed.value.data, packed.value.incomplete));
    }

    /** The namespace is raw bytes followed by a packed tuple whose stamps it knows. */
    ghost predicate Holds(raw: bytes, t: Tuple) {
      && AllPackable(t)
      && prefix == raw + Packing(t)
      && incomplete == OffsetsAll(t, false, |raw|)
    }

    method Pack(t: Tuple) returns (r: Result<bytes>)
      ensures r == if AllPackable(t) then Ok(prefix + Packing(t)) else Err(IntegerTooLarge)
    {
      var suffix := PackTracked(t);
      if suffix.Err? { return Err(suffix.error); }
      return Ok(prefix + suffix.value.data);
    }

    /** Extends the namespace; the suffix's positions move past the prefix. */
    method Child(t: Tuple) returns (r: Result<Subspace>)
      ensures !AllPackable(t) ==> r == Err(IntegerTooLarge)
      ensures AllPackable(t) ==> r.Ok?
      ensures r.Ok? ==> forall raw, u :: Holds(raw, u) ==> r.value.Holds(raw, u + t)
    {
      var suffix := PackTracked(t);
      if suffix.Err? { return Err(suffix.error); }
      r := Ok(Subspace(prefix + suffix.value.data, incomplete + Shift(suffix.value.incomplete, |prefix|)));
      forall raw, u | Holds(raw, u)
        ensures r.value.Holds(raw, u + t)
      {
        PackingAppendAt(raw, u, t);
        OffsetsAppendAt(u, t, |raw|);
      }
    }

    /** Packs a key with the trailer the store needs to complete its one stamp. */
    method PackWithVersionstamp(t: Tuple) returns (r: Result<bytes>)
      ensures !AllPackable(t) ==> r == Err(IntegerTooLarge)
      ensures AllPackable(t) ==>
                forall raw, u :: Holds(raw, u) ==> r == VersionstampedKey(raw, u + t)
    {
      var suffix := PackTracked(t);
      if suffix.Err? { return Err(suffix.error); }
      r := AppendOffset(Packed(prefix + suffix.value.data,
                               incomplete + Shift(suffix.value.incomplete, |prefix|)));
      forall raw, u | Holds(raw, u)
        ensures r == VersionstampedKey(raw, u + t)
      {
        PackingAppendAt(raw, u, t);
        OffsetsAppendAt(u, t, |raw|);
      }
    }

    method Contains(key: bytes) returns (b: bool)
      ensures b <==> prefix <= key
    {
      b := StartsWith(key, prefix);
    }

    method Unpack(key: bytes) returns (r: Result<Tuple>)
      ensures !(prefix <= key) ==> r == Err(OutsideSubspace)
      ensures forall t :: AllPackable(t) && key == prefix + Packing(t) ==> r == Ok(t)
      ensures prefix <= key ==> r == Unpacked(key[|prefix|..])
    {
      var inside := Contains(key);
      if !inside { return Err(OutsideSubspace); }
      r := UnpackBytes(key[|prefix|..]);
      forall t | AllPackable(t) && key == prefix + Packing(t)
        ensures r == Ok(t)
      {
        UnpackPack(t);
      }
    }

    /** First and last bounds of the keys strictly below a tuple of this namespace. */
    method Range(t: Tuple) returns (r: Result<(bytes, bytes)>)
      ensures !AllPackable(t) ==> r == Err(IntegerTooLarge)
      ensures AllPackable(t) ==> r.Ok?
      ensures r.Ok? ==>
                forall u :: AllPackable(u) ==>
                              var key := prefix + Packing(u);
                              AtMost(r.value.0, key) && Before(key, r.value.1) <==> ProperPrefix(t, u)
    {
      var begin := Pack(t);
      if begin.Err? { return Err(begin.error); }
      r := Ok((begin.value + [0x00], begin.value + [0xff]));
      forall u | AllPackable(u)
        ensures var key := prefix + Packing(u);
                AtMost(r.value.0, key) && Before(key, r.value.1) <==> ProperPrefix(t, u)
      {
        RangeIsExtensions(t, u);
        RangeShift(prefix, Packing(t), Packing(u));
      }
    }
  }

  /** With one incomplete stamp in the namespace or the key, the committed key is the packing of
      the completed tuple. */
  lemma {:induction false} CommittedKey(raw: bytes, t: Tuple, version: bytes10)
    requires AllPackable(t) && |OffsetsAll(t, false, |raw|)| == 1
    requires OffsetsAll(t, false, |raw|)[0] <= 0xffff_ffff
    ensures AllPackable(CompletedAll(t, version))
    ensures var key := VersionstampedKey(raw, t);
            && key.Ok? && |key.value| >= 4
            && FromLittleEndian(key.value[|key.value| - 4..]) + 14 <= |key.value|
            && FillIn(key.value, version) == raw + Packing(CompletedAll(t, version))
  {
    CompletedAllPatches(t, false, |raw|, version);
    var offsets, done := OffsetsAll(t, false, |raw|), Packing(CompletedAll(t, version));
    PatchedBetween(raw, Packing(t), [], offsets, 0, version, done);
    assert raw + Packing(t) + [] == raw + Packing(t) && raw + done + [] == raw + done;
    FillInPatches(raw + Packing(t), offsets, version, raw + done);
  }

  /** Keys of one index written in one transaction sort, once committed, by their user versions,
      and above every key stamped with an earlier version. */
  lemma {:induction false} StampedKeysOrder(raw: bytes, a: bytes12, b: bytes12, s: Tuple, t: Tuple)
    requires AllPackable(s) && AllPackable(t) && Compare(a, b) < 0
    ensures AllPackable([Versionstamp(a)] + s) && AllPackable([Versionstamp(b)] + t)
    ensures Before(raw + Packing([Versionstamp(a)] + s), raw + Packing([Versionstamp(b)] + t))
  {
    var u, v := [Versionstamp(a)] + s, [Versionstamp(b)] + t;
    assert u[1..] == s && v[1..] == t;
    PackOrder(u, v);
    CompareShift(raw, Packing(u), Packing(v));
  }
}
