/** Packing: what the encoding of a tuple is, and the encoder that appends it to a buffer. */
module TupleCodec {
  import opened Bytes
  import opened TupleValues

  const NIL: byte := 0x00
  const BYTES: byte := 0x01
  const STRING: byte := 0x02
  const NESTED: byte := 0x05
  const NEGATIVE_BIG_INTEGER: byte := 0x0b
  const INTEGER_ZERO: byte := 0x14
  const POSITIVE_BIG_INTEGER: byte := 0x1d
  const FLOAT: byte := 0x20
  const DOUBLE: byte := 0x21
  const FALSE: byte := 0x26
  const TRUE: byte := 0x27
  const UUID: byte := 0x30
  const VERSIONSTAMP: byte := 0x33
  const ESCAPE: byte := 0xff
  const MAX_SMALL_INTEGER_BYTES := 8
  const MAX_BIG_INTEGER_BYTES := 255

  datatype TupleError =
    | IntegerTooLarge
    | MultipleIncompleteVersionstamps
    | OffsetTooLarge
    | OutsideSubspace
    | Truncated
    | Unterminated
    | InvalidUtf8
    | UnterminatedNested
    | InvalidTypeCode(code: byte)

  datatype Result<+T> = Ok(value: T) | Err(error: TupleError)

  // ---- The encoding ----

  function Abs(n: int): nat {
    if n < 0 then -n else n
  }

  /** Integers are packable up to 255 magnitude bytes; everything else always is. */
  predicate Packable(v: Value)
    decreases v, 1
  {
    match v
    case Int(n) => |MagnitudeBytes(Abs(n))| <= MAX_BIG_INTEGER_BYTES
    case Nested(items) => AllPackable(items)
    case _ => true
  }

  predicate AllPackable(t: Tuple)
    decreases t, 0
  {
    t == [] || (Packable(t[0]) && AllPackable(t[1..]))
  }

  /** A zero byte is written `00 ff`; a lone zero byte ends the value. */
  function Escaped(b: bytes): bytes {
    if b == [] then [NIL]
    else if b[0] == NIL then [NIL, ESCAPE] + Escaped(b[1..])
    else [b[0]] + Escaped(b[1..])
  }

  /** Type code, and for long magnitudes the length, which is inverted for negative numbers. */
  function IntegerHead(negative: bool, length: nat): bytes
    requires length <= MAX_BIG_INTEGER_BYTES
  {
    if length <= MAX_SMALL_INTEGER_BYTES then
      [if negative then INTEGER_ZERO - length else INTEGER_ZERO + length]
    else if negative then [NEGATIVE_BIG_INTEGER, 255 - length]
    else [POSITIVE_BIG_INTEGER, length]
  }

  function EncodeInt(n: int): bytes
    requires |MagnitudeBytes(Abs(n))| <= MAX_BIG_INTEGER_BYTES
  {
    var m := MagnitudeBytes(Abs(n));
    IntegerHead(n < 0, |m|) + if n < 0 then Flip(m) else m
  }

  lemma EncodesZero()
    ensures Packable(Int(0)) && EncodeInt(0) == [INTEGER_ZERO]
  {
  }

  function OrderedFloat(bits: bytes): (e: bytes)
    requires bits != []
    ensures |e| == |bits|
  {
    if bits[0] >= 0x80 then Flip(bits) else [bits[0] + 0x80] + bits[1..]
  }

  function Encode(v: Value, nested: bool): (e: bytes)
    requires Packable(v)
    decreases v, 1
  {
    match v
    case Null => if nested then [NIL, ESCAPE] else [NIL]
    case Blob(b) => [BYTES] + Escaped(b)
    case Str(b) => [STRING] + Escaped(b)
    case Int(n) => EncodeInt(n)
    case Float(bits) => [FLOAT] + OrderedFloat(bits)
    case Double(bits) => [DOUBLE] + OrderedFloat(bits)
    case Bool(b) => [if b then TRUE else FALSE]
    case Uuid(id) => [UUID] + id
    case Versionstamp(stamp) => [VERSIONSTAMP] + stamp
    case Nested(items) => [NESTED] + EncodeAll(items, true) + [NIL]
  }

  function EncodeAll(t: Tuple, nested: bool): bytes
    requires AllPackable(t)
    decreases t, 0
  {
    if t == [] then [] else Encode(t[0], nested) + EncodeAll(t[1..], nested)
  }

  /** The type codes of the tuple layer: an encoding's first byte says of which kind the value is. */
  lemma TypeCodes(v: Value, nested: bool)
    requires Packable(v)
    ensures var e := Encode(v, nested);
            e != [] &&
            match v
            case Null => e == if nested then [0x00, 0xff] else [0x00]
            case Blob(_) => e[0] == 0x01
            case Str(_) => e[0] == 0x02
            case Nested(_) => e[0] == 0x05 && e[|e| - 1] == 0x00
            case Int(n) =>
              var length := |MagnitudeBytes(Abs(n))|;
              if length > 8 then |e| > 1 && e[0] == (if n < 0 then 0x0b else 0x1d) && e[1] == (if n < 0 then 255 - length else length)
              else e[0] == if n < 0 then 0x14 - length else 0x14 + length
            case Float(_) => e[0] == 0x20 && |e| == 5
            case Double(_) => e[0] == 0x21 && |e| == 9
            case Bool(b) => e == if b then [0x27] else [0x26]
            case Uuid(id) => e == [0x30] + id
            case Versionstamp(stamp) => e == [0x33] + stamp
  {
    if v.Int? { MagnitudeSign(v.n); }
  }

  lemma MagnitudeSign(n: int)
    ensures n < 0 ==> |MagnitudeBytes(Abs(n))| > 0
  {
  }

  function Packing(t: Tuple): bytes
    requires AllPackable(t)
  {
    EncodeAll(t, false)
  }

  /** A nested tuple as the tuple layer writes it: a null inside is told from the end by the byte after it. */
  lemma NestedExample()
    ensures var t := [Nested([Blob([0x66, 0x00, 0x6f]), Null, Nested([])]), Null];
            && AllPackable(t)
            && Packing(t) == [0x05, 0x01, 0x66, 0x00, 0xff, 0x6f, 0x00, 0x00, 0xff, 0x05, 0x00, 0x00, 0x00]
  {
    hide *;
    var inner: Tuple := [Blob([0x66, 0x00, 0x6f]), Null, Nested([])];
    InnerExample();
    PackNone();
    NestedPacks(inner, false);
    PackOne(Null, [], false);
    PackOne(Nested(inner), [Null], false);
    assert [Nested(inner)] + [Null] == [Nested(inner), Null] && [Null] + [] == [Null];
  }

  lemma NestedPacks(items: Tuple, nested: bool)
    ensures Packable(Nested(items)) <==> AllPackable(items)
    ensures AllPackable(items) ==> Encode(Nested(items), nested) == [0x05] + EncodeAll(items, true) + [0x00]
    ensures Packable(Null) && Encode(Null, false) == [0x00]
    ensures forall t :: AllPackable(t) ==> Packing(t) == EncodeAll(t, false)
  {
  }

  lemma InnerExample()
    ensures var inner := [Blob([0x66, 0x00, 0x6f]), Null, Nested([])];
            && AllPackable(inner)
            && EncodeAll(inner, true) == [0x01, 0x66, 0x00, 0xff, 0x6f, 0x00, 0x00, 0xff, 0x05, 0x00]
  {
    EscapedExample();
    PackNone();
    PackOne(Nested([]), [], true);
    PackOne(Null, [Nested([])], true);
    PackOne(Blob([0x66, 0x00, 0x6f]), [Null, Nested([])], true);
    hide EncodeAll, AllPackable, Escaped;
    assert Encode(Nested([]), true) == [0x05, 0x00] && Encode(Null, true) == [0x00, 0xff];
    assert Encode(Blob([0x66, 0x00, 0x6f]), true) == [0x01, 0x66, 0x00, 0xff, 0x6f, 0x00];
    hide Encode;
    assert [Nested([])] + [] == [Nested([])] && [Null] + [Nested([])] == [Null, Nested([])];
    assert [Blob([0x66, 0x00, 0x6f])] + [Null, Nested([])] == [Blob([0x66, 0x00, 0x6f]), Null, Nested([])];
  }

  lemma PackNone()
    ensures AllPackable([]) && forall nested :: EncodeAll([], nested) == []
  {
  }

  lemma PackOne(v: Value, rest: Tuple, nested: bool)
    ensures AllPackable([v] + rest) <==> Packable(v) && AllPackable(rest)
    ensures AllPackable([v] + rest) ==> EncodeAll([v] + rest, nested) == Encode(v, nested) + EncodeAll(rest, nested)
  {
    assert ([v] + rest)[1..] == rest;
  }

  lemma EscapedExample()
    ensures Escaped([0x66, 0x00, 0x6f]) == [0x66, 0x00, 0xff, 0x6f, 0x00]
  {
    assert [0x66, 0x00, 0x6f][1..] == [0x00, 0x6f] && [0x00, 0x6f][1..] == [0x6f];
    assert Escaped([0x6f]) == [0x6f, 0x00];
    assert Escaped([0x00, 0x6f]) == [0x00, 0xff, 0x6f, 0x00];
  }

  lemma IntegerExamples()
    ensures Packable(Int(255)) && EncodeInt(255) == [0x15, 0xff]
    ensures Packable(Int(65_536)) && EncodeInt(65_536) == [0x17, 0x01, 0x00, 0x00]
    ensures Packable(Int(-1)) && EncodeInt(-1) == [0x13, 0xfe]
    ensures Packable(Int(-256)) && EncodeInt(-256) == [0x12, 0xfe, 0xff]
  {
    MagnitudeOne(1);
    MagnitudeOne(255);
    MagnitudeMore(256);
    MagnitudeMore(65_536);
    assert MagnitudeBytes(256) == [1, 0] && MagnitudeBytes(65_536) == [1, 0, 0];
    hide MagnitudeBytes;
    assert Flip([1]) == [0xfe] && Flip([1, 0]) == [0xfe, 0xff];
  }

  lemma MagnitudeOne(n: nat)
    requires 0 < n < 256
    ensures MagnitudeBytes(n) == [n]
  {
    assert n / 256 == 0 && n % 256 == n;
    assert MagnitudeBytes(0) == [];
  }

  lemma MagnitudeMore(n: nat)
    requires n > 0
    ensures MagnitudeBytes(n) == MagnitudeBytes(n / 256) + [n % 256]
  {
  }

  /** What may follow an element: the end, or a byte that is not the escape byte. */
  ghost predicate Follows(r: bytes) {
    r == [] || r[0] != ESCAPE
  }

  lemma {:induction false} EncodeAllAppend(t: Tuple, u: Tuple, nested: bool)
    ensures AllPackable(t + u) <==> AllPackable(t) && AllPackable(u)
    ensures AllPackable(t + u) ==> EncodeAll(t + u, nested) == EncodeAll(t, nested) + EncodeAll(u, nested)
  {
    hide Encode, Packable;
    if t == [] {
      assert t + u == u;
    } else {
      EncodeAllAppend(t[1..], u, nested);
      assert (t + u)[1..] == t[1..] + u;
    }
  }

  // ---- Incomplete versionstamps ----

  predicate Incomplete(stamp: bytes12) {
    forall i :: 0 <= i < 10 ==> stamp[i] == 0xff
  }

  /** Byte positions of the incomplete stamps of an encoding that starts at `base`. */
  function Offsets(v: Value, nested: bool, base: nat): seq<nat>
    requires Packable(v)
    decreases v, 1
  {
    match v
    case Versionstamp(stamp) => if Incomplete(stamp) then [base + 1] else []
    case Nested(items) => OffsetsAll(items, true, base + 1)
    case _ => []
  }

  function OffsetsAll(t: Tuple, nested: bool, base: nat): seq<nat>
    requires AllPackable(t)
    decreases t, 0
  {
    if t == [] then []
    else Offsets(t[0], nested, base) + OffsetsAll(t[1..], nested, base + |Encode(t[0], nested)|)
  }

  lemma {:induction false} OffsetsAllAppend(t: Tuple, u: Tuple, nested: bool, base: nat)
    requires AllPackable(t) && AllPackable(u)
    ensures AllPackable(t + u)
    ensures OffsetsAll(t + u, nested, base) ==
            OffsetsAll(t, nested, base) + OffsetsAll(u, nested, base + |EncodeAll(t, nested)|)
  {
    hide Encode, Offsets, Packable;
    EncodeAllAppend(t, u, nested);
    if t == [] {
      assert t + u == u;
      AssociateOffsets([], [], OffsetsAll(u, nested, base));
      assert OffsetsAll(t, nested, base) == [] && |EncodeAll(t, nested)| == 0;
    } else {
      assert (t + u)[0] == t[0] && (t + u)[1..] == t[1..] + u;
      OffsetsUnfold(t, nested, base);
      OffsetsUnfold(t + u, nested, base);
      var next := base + |Encode(t[0], nested)|;
      hide *;
      OffsetsAllAppend(t[1..], u, nested, next);
      AssociateOffsets(Offsets(t[0], nested, base), OffsetsAll(t[1..], nested, next),
                       OffsetsAll(u, nested, next + |EncodeAll(t[1..], nested)|));
    }
  }

  lemma OffsetsUnfold(t: Tuple, nested: bool, base: nat)
    requires AllPackable(t) && t != []
    ensures Packable(t[0]) && AllPackable(t[1..])
    ensures OffsetsAll(t, nested, base) ==
            Offsets(t[0], nested, base) + OffsetsAll(t[1..], nested, base + |Encode(t[0], nested)|)
    ensures |EncodeAll(t, nested)| == |Encode(t[0], nested)| + |EncodeAll(t[1..], nested)|
  {
  }

  lemma AssociateOffsets(a: seq<nat>, b: seq<nat>, c: seq<nat>)
    ensures a + (b + c) == a + b + c
    ensures [] + c == c
  {
  }

  lemma AssociateBytes(a: bytes, b: bytes, c: bytes)
    ensures a + (b + c) == a + b + c
  {
  }

  /** Positions move with the start of the encoding. */
  lemma {:induction false} OffsetsShift(t: Tuple, nested: bool, base: nat, delta: nat)
    requires AllPackable(t)
    ensures OffsetsAll(t, nested, base + delta) == Shift(OffsetsAll(t, nested, base), delta)
    decreases t, 0
  {
    if t != [] {
      OffsetsShiftOne(t[0], nested, base, delta);
      OffsetsShift(t[1..], nested, base + |Encode(t[0], nested)|, delta);
    }
  }

  lemma {:induction false} OffsetsShiftOne(v: Value, nested: bool, base: nat, delta: nat)
    requires Packable(v)
    ensures Offsets(v, nested, base + delta) == Shift(Offsets(v, nested, base), delta)
    decreases v, 1
  {
    match v
    case Nested(items) => OffsetsShift(items, true, base + 1, delta);
    case _ =>
  }

  function Shift(offsets: seq<nat>, delta: nat): (s: seq<nat>)
    ensures |s| == |offsets|
  {
    seq(|offsets|, i requires 0 <= i < |offsets| => offsets[i] + delta)
  }

  datatype Packed = Packed(data: bytes, incomplete: seq<nat>)

  // ---- The encoder ----

  function Reversed(b: bytes): (r: bytes)
    ensures |r| == |b|
  {
    seq(|b|, i requires 0 <= i < |b| => b[|b| - 1 - i])
  }

  /** Low bytes first, then reversed. */
  method MagnitudeLoop(value: nat) returns (b: bytes)
    ensures b == MagnitudeBytes(value)
  {
    var low: bytes := [];
    var remaining := value;
    while remaining != 0
      invariant MagnitudeBytes(value) == MagnitudeBytes(remaining) + Reversed(low)
    {
      assert Reversed(low + [remaining % 256]) == [remaining % 256] + Reversed(low);
      low := low + [remaining % 256];
      remaining := remaining / 256;
    }
    b := Reversed(low);
  }

  class Packer {
    var output: bytes
    var incomplete: seq<nat>

    constructor ()
      ensures output == [] && incomplete == []
    {
      output, incomplete := [], [];
    }

    method AppendEscaped(value: bytes)
      modifies this`output
      ensures output == old(output) + Escaped(value)
    {
      var index := 0;
      while index < |value|
        invariant 0 <= index <= |value|
        invariant output + Escaped(value[index..]) == old(output) + Escaped(value)
      {
        ghost var was := output;
        output := output + [value[index]];
        if value[index] == NIL {
          output := output + [ESCAPE];
          assert output == was + [NIL, ESCAPE];
        }
        assert value[index..][1..] == value[index + 1..];
        index := index + 1;
      }
      output := output + [NIL];
    }

    method AppendInteger(value: int) returns (ok: bool)
      modifies this`output
      ensures ok <==> Packable(Int(value))
      ensures ok ==> output == old(output) + EncodeInt(value)
      ensures !ok ==> output == old(output)
    {
      EncodesZero();
      hide MagnitudeBytes, Magnitude, Pow256, IntegerHead, Flip;
      if value == 0 {
        output := output + [INTEGER_ZERO];
        return true;
      }
      var negative := value < 0;
      var magnitude := MagnitudeLoop(if negative then -value else value);
      if |magnitude| > MAX_BIG_INTEGER_BYTES { return false; }
      AppendSigned(negative, magnitude);
      return true;
    }

    method AppendSigned(negative: bool, magnitude: bytes)
      requires |magnitude| <= MAX_BIG_INTEGER_BYTES
      modifies this`output
      ensures output == old(output) + (IntegerHead(negative, |magnitude|)
                                       + if negative then Flip(magnitude) else magnitude)
    {
      output := output + IntegerHead(negative, |magnitude|);
      output := output + (if negative then Flip(magnitude) else magnitude);
    }

    /** Turns the big-endian bits into their ordered form in place, then appends them. */
    method AppendOrderedFloat(code: byte, encoded: array<byte>)
      requires encoded.Length > 0
      modifies this`output, encoded
      ensures output == old(output) + ([code] + OrderedFloat(old(encoded[..])))
    {
      ghost var bits := encoded[..];
      if encoded[0] >= 0x80 {
        for index := 0 to encoded.Length
          invariant forall i :: 0 <= i < index ==> encoded[i] == 255 - bits[i]
          invariant forall i :: index <= i < encoded.Length ==> encoded[i] == bits[i]
          invariant output == old(output)
        {
          encoded[index] := 255 - encoded[index];
        }
        assert encoded[..] == Flip(bits);
      } else {
        encoded[0] := encoded[0] + 0x80;
        assert encoded[..] == [bits[0] + 0x80] + bits[1..];
      }
      assert encoded[..] == OrderedFloat(bits);
      output := output + ([code] + encoded[..]);
    }

    method AppendBits(code: byte, bits: bytes)
      requires bits != []
      modifies this`output
      ensures output == old(output) + ([code] + OrderedFloat(bits))
    {
      var encoded := new byte[|bits|](i requires 0 <= i < |bits| => bits[i]);
      assert encoded[..] == bits;
      AppendOrderedFloat(code, encoded);
    }

    method AppendText(code: byte, text: bytes)
      modifies this`output
      ensures output == old(output) + ([code] + Escaped(text))
    {
      output := output + [code];
      AppendEscaped(text);
    }

    method AppendStamp(stamp: bytes12)
      modifies this
      ensures output == old(output) + Encode(Versionstamp(stamp), false)
      ensures incomplete == old(incomplete) + Offsets(Versionstamp(stamp), false, |old(output)|)
    {
      output := output + [VERSIONSTAMP];
      if Incomplete(stamp) {
        incomplete := incomplete + [|output|];
      }
      output := output + stamp;
    }

    /** Appends one value and records where its incomplete stamps are. */
    method AppendValue(value: Value, nested: bool) returns (ok: bool)
      modifies this
      ensures ok <==> Packable(value)
      ensures ok ==> output == old(output) + Encode(value, nested)
      ensures ok ==> incomplete == old(incomplete) + Offsets(value, nested, |old(output)|)
      decreases value, 1
    {
      ok := true;
      match value {
        case Null => output := output + (if nested then [NIL, ESCAPE] else [NIL]);
        case Blob(b) => AppendText(BYTES, b);
        case Str(b) => AppendText(STRING, b);
        case Int(n) => ok := AppendInteger(n);
        case Float(bits) => AppendBits(FLOAT, bits);
        case Double(bits) => AppendBits(DOUBLE, bits);
        case Bool(b) => output := output + [if b then TRUE else FALSE];
        case Uuid(id) => output := output + ([UUID] + id);
        case Versionstamp(stamp) => AppendStamp(stamp);
        case Nested(items) => ok := AppendNested(items);
      }
    }

    method AppendNested(items: Tuple) returns (ok: bool)
      modifies this
      ensures ok <==> AllPackable(items)
      ensures ok ==> output == old(output) + ([NESTED] + EncodeAll(items, true) + [NIL])
      ensures ok ==> incomplete == old(incomplete) + OffsetsAll(items, true, |old(output)| + 1)
      decreases items, 1
    {
      output := output + [NESTED];
      ok := AppendItems(items, true);
      output := output + [NIL];
    }

    /** The loop over the elements of a tuple, shared by nested and top-level tuples. */
    method AppendItems(items: Tuple, nested: bool) returns (ok: bool)
      modifies this
      ensures ok <==> AllPackable(items)
      ensures ok ==> output == old(output) + EncodeAll(items, nested)
      ensures ok ==> incomplete == old(incomplete) + OffsetsAll(items, nested, |old(output)|)
      decreases items, 0
    {
      ghost var base := |output|;
      var index := 0;
      assert items[..0] == [] && AllPackable([]) && EncodeAll([], nested) == [] && OffsetsAll([], nested, base) == [];
      hide *;
      while index < |items|
        invariant 0 <= index <= |items|
        invariant AllPackable(items[..index])
        invariant output == old(output) + EncodeAll(items[..index], nested)
        invariant incomplete == old(incomplete) + OffsetsAll(items[..index], nested, base)
      {
        ghost var done, stamps := EncodeAll(items[..index], nested), OffsetsAll(items[..index], nested, base);
        PrefixStep(items, index, nested, base);
        ok := AppendValue(items[index], nested);
        if !ok { return false; }
        AssociateOffsets(old(incomplete), stamps, Offsets(items[index], nested, base + |done|));
        AssociateBytes(old(output), done, Encode(items[index], nested));
        index := index + 1;
      }
      assert items[..index] == items;
      return true;
    }
  }

  lemma PrefixStep(items: Tuple, index: nat, nested: bool, base: nat)
    requires index < |items| && AllPackable(items[..index])
    ensures AllPackable(items) ==> Packable(items[index])
    ensures Packable(items[index]) ==>
              && AllPackable(items[..index + 1])
              && EncodeAll(items[..index + 1], nested) ==
                 EncodeAll(items[..index], nested) + Encode(items[index], nested)
              && OffsetsAll(items[..index + 1], nested, base) ==
                 OffsetsAll(items[..index], nested, base)
                 + Offsets(items[index], nested, base + |EncodeAll(items[..index], nested)|)
  {
    var one := [items[index]];
    assert items[..index + 1] == items[..index] + one;
    EncodeAllAppend(items[..index], one, nested);
    assert one[1..] == [];
    assert items == items[..index] + items[index..];
    EncodeAllAppend(items[..index], items[index..], nested);
    if Packable(items[index]) {
      OffsetsAllAppend(items[..index], one, nested, base);
    }
  }

  method PackTracked(t: Tuple) returns (r: Result<Packed>)
    ensures r == if AllPackable(t) then Ok(Packed(Packing(t), OffsetsAll(t, false, 0)))
                 else Err(IntegerTooLarge)
  {
    var packer := new Packer();
    var ok := packer.AppendItems(t, false);
    if !ok { return Err(IntegerTooLarge); }
    assert packer.output == Packing(t) && packer.incomplete == OffsetsAll(t, false, 0);
    return Ok(Packed(packer.output, packer.incomplete));
  }
}
