/** Unpacking: the grammar as functions on the unread bytes, the offset-driven parser, and the
    round trip with the encoder. */
module TupleParser {
  import opened Bytes
  import opened TupleValues
  import opened TupleCodec
  import TupleOrder

  // ---- The grammar; every reader returns the value and the unread rest ----

  function Take(b: bytes, n: nat): Result<(bytes, bytes)> {
    if n > |b| then Err(Truncated) else Ok((b[..n], b[n..]))
  }

  function Escaping(b: bytes): (r: Result<(bytes, bytes)>)
    ensures r.Ok? ==> |r.value.1| < |b|
  {
    if b == [] then Err(Unterminated)
    else if b[0] != NIL then PrependBytes([b[0]], Escaping(b[1..]))
    else if |b| > 1 && b[1] == ESCAPE then PrependBytes([NIL], Escaping(b[2..]))
    else Ok(([], b[1..]))
  }

  function PrependBytes(b: bytes, r: Result<(bytes, bytes)>): Result<(bytes, bytes)> {
    if r.Ok? then Ok((b + r.value.0, r.value.1)) else r
  }

  predicate IsIntegerCode(code: byte) {
    INTEGER_ZERO - 8 <= code <= INTEGER_ZERO + 8 || code == NEGATIVE_BIG_INTEGER || code == POSITIVE_BIG_INTEGER
  }

  /** The magnitude length of an integer code: in the code itself or in the next byte. */
  function IntegerLength(code: byte, b: bytes): Result<(nat, bytes)> {
    if code == NEGATIVE_BIG_INTEGER || code == POSITIVE_BIG_INTEGER then
      if b == [] then Err(Truncated)
      else Ok((if code == NEGATIVE_BIG_INTEGER then 255 - b[0] else b[0], b[1..]))
    else Ok((if code < INTEGER_ZERO then INTEGER_ZERO - code else code - INTEGER_ZERO, b))
  }

  function Integer(code: byte, b: bytes): (r: Result<(Value, bytes)>)
    ensures r.Ok? ==> |r.value.1| <= |b|
  {
    var length := IntegerLength(code, b);
    if length.Err? then Err(length.error) else
      var body := Take(length.value.1, length.value.0);
      if body.Err? then Err(body.error)
      else Ok((Int(SignedMagnitude(code < INTEGER_ZERO, body.value.0)), body.value.1))
  }

  function SignedMagnitude(negative: bool, b: bytes): int {
    if negative then 0 - Magnitude(Flip(b)) as int else Magnitude(b)
  }

  function UnorderedFloat(e: bytes): (bits: bytes)
    requires e != []
    ensures |bits| == |e|
  {
    if e[0] >= 0x80 then [e[0] - 0x80] + e[1..] else Flip(e)
  }

  function ParseValue(code: byte, b: bytes): (r: Result<(Value, bytes)>)
    ensures r.Ok? ==> |r.value.1| <= |b|
    decreases |b|, 1
  {
    if code == NIL then Ok((Null, b))
    else if code == BYTES then
      var e := Escaping(b);
      if e.Err? then Err(e.error) else Ok((Blob(e.value.0), e.value.1))
    else if code == STRING then
      var e := Escaping(b);
      if e.Err? then Err(e.error)
      else if ValidUtf8(e.value.0) then Ok((Str(e.value.0), e.value.1))
      else Err(InvalidUtf8)
    else if code == NESTED then
      var items := ParseItems(b, true);
      if items.Err? then Err(items.error) else Ok((Nested(items.value.0), items.value.1))
    else if code == INTEGER_ZERO then Ok((Int(0), b))
    else if code == FLOAT then
      var e := Take(b, 4);
      if e.Err? then Err(e.error) else Ok((Float(UnorderedFloat(e.value.0)), e.value.1))
    else if code == DOUBLE then
      var e := Take(b, 8);
      if e.Err? then Err(e.error) else Ok((Double(UnorderedFloat(e.value.0)), e.value.1))
    else if code == FALSE then Ok((Bool(false), b))
    else if code == TRUE then Ok((Bool(true), b))
    else if code == UUID then
      var e := Take(b, 16);
      if e.Err? then Err(e.error) else Ok((Uuid(e.value.0), e.value.1))
    else if code == VERSIONSTAMP then
      var e := Take(b, 12);
      if e.Err? then Err(e.error) else Ok((Versionstamp(e.value.0), e.value.1))
    else if IsIntegerCode(code) then Integer(code, b)
    else Err(InvalidTypeCode(code))
  }

  function ParseItems(b: bytes, nested: bool): (r: Result<(Tuple, bytes)>)
    ensures r.Ok? ==> |r.value.1| <= |b|
    ensures r.Ok? && !nested ==> r.value.1 == []
    decreases |b|, 0
  {
    if b == [] then (if nested then Err(UnterminatedNested) else Ok(([], [])))
    else if nested && b[0] == NIL then
      if |b| > 1 && b[1] == ESCAPE then Prepend([Null], ParseItems(b[2..], true))
      else Ok(([], b[1..]))
    else
      var v := ParseValue(b[0], b[1..]);
      if v.Err? then Err(v.error) else Prepend([v.value.0], ParseItems(v.value.1, nested))
  }

  function Prepend(t: Tuple, r: Result<(Tuple, bytes)>): Result<(Tuple, bytes)> {
    if r.Ok? then Ok((t + r.value.0, r.value.1)) else r
  }

  function Unpacked(b: bytes): Result<Tuple> {
    var r := ParseItems(b, false);
    if r.Ok? then Ok(r.value.0) else Err(r.error)
  }

  // ---- The parser ----

  class Parser {
    const data: bytes
    var offset: nat

    predicate Valid()
      reads this
    {
      offset <= |data|
    }

    function Rest(): bytes
      requires Valid()
      reads this
    {
      data[offset..]
    }

    constructor (data: bytes)
      ensures Valid() && this.data == data && offset == 0
    {
      this.data, offset := data, 0;
    }

    method ReadByte() returns (r: Result<byte>)
      requires Valid()
      modifies this
      ensures Valid() && offset >= old(offset)
      ensures r == if old(Rest()) == [] then Err(Truncated) else Ok(old(Rest())[0])
      ensures r.Ok? ==> Rest() == old(Rest())[1..]
    {
      if offset == |data| { return Err(Truncated); }
      r := Ok(data[offset]);
      offset := offset + 1;
    }

    method Read(length: nat) returns (r: Result<bytes>)
      requires Valid()
      modifies this
      ensures Valid() && offset >= old(offset)
      ensures Agrees(Take(old(Rest()), length), r)
    {
      if offset + length > |data| { return Err(Truncated); }
      r := Ok(data[offset..offset + length]);
      assert data[offset..offset + length] == Rest()[..length];
      assert data[offset + length..] == Rest()[length..];
      offset := offset + length;
    }

    /** The reader's outcome and position are those of the grammar. */
    ghost predicate Agrees<T(!new)>(spec: Result<(T, bytes)>, r: Result<T>)
      requires Valid()
      reads this
    {
      match spec
      case Ok((v, rest)) => r == Ok(v) && Rest() == rest
      case Err(e) => r == Err(e)
    }

    method ReadEscaped() returns (r: Result<bytes>)
      requires Valid()
      modifies this
      ensures Valid() && offset >= old(offset)
      ensures Agrees(Escaping(old(Rest())), r)
    {
      var value: bytes := [];
      PrependBytesLaws([], [], Escaping(Rest()));
      while offset != |data|
        invariant Valid() && offset >= old(offset)
        invariant Escaping(old(Rest())) == PrependBytes(value, Escaping(Rest()))
        decreases |data| - offset
      {
        var byte := data[offset];
        ghost var rest := Rest();
        offset := offset + 1;
        assert Rest() == rest[1..];
        if byte != NIL {
          PrependBytesLaws(value, [byte], Escaping(Rest()));
          value := value + [byte];
        } else if offset != |data| && data[offset] == ESCAPE {
          offset := offset + 1;
          assert Rest() == rest[2..];
          PrependBytesLaws(value, [NIL], Escaping(Rest()));
          value := value + [NIL];
        } else {
          assert value + [] == value;
          return Ok(value);
        }
      }
      return Err(Unterminated);
    }

    method ReadInteger(code: byte) returns (r: Result<Value>)
      requires Valid() && IsIntegerCode(code)
      modifies this
      ensures Valid() && offset >= old(offset)
      ensures Agrees(Integer(code, old(Rest())), r)
    {
      var negative := code < INTEGER_ZERO;
      var length: nat;
      if code == NEGATIVE_BIG_INTEGER {
        var b := ReadByte();
        if b.Err? { return Err(b.error); }
        length := 255 - b.value;
      } else if code == POSITIVE_BIG_INTEGER {
        var b := ReadByte();
        if b.Err? { return Err(b.error); }
        length := b.value;
      } else {
        length := if negative then INTEGER_ZERO - code else code - INTEGER_ZERO;
      }
      var encoded := Read(length);
      if encoded.Err? { return Err(encoded.error); }
      var magnitude := Accumulate(encoded.value, negative);
      return Ok(if negative then Int(-(magnitude as int)) else Int(magnitude));
    }

    method ReadOrderedFloat(length: nat) returns (r: Result<bytes>)
      requires Valid() && length > 0
      modifies this
      ensures Valid() && offset >= old(offset)
      ensures match Take(old(Rest()), length)
              case Ok((e, rest)) => r == Ok(UnorderedFloat(e)) && Rest() == rest
              case Err(e) => r == Err(e)
    {
      var taken := Read(length);
      if taken.Err? { return taken; }
      var encoded := new byte[length](i requires 0 <= i < length => taken.value[i]);
      assert encoded[..] == taken.value;
      if encoded[0] >= 0x80 {
        encoded[0] := encoded[0] - 0x80;
        assert encoded[..] == [taken.value[0] - 0x80] + taken.value[1..];
      } else {
        for index := 0 to length
          invariant Valid() && offset == old(offset) + length
          invariant forall i :: 0 <= i < index ==> encoded[i] == 255 - taken.value[i]
          invariant forall i :: index <= i < length ==> encoded[i] == taken.value[i]
        {
          encoded[index] := 255 - encoded[index];
        }
        assert encoded[..] == Flip(taken.value);
      }
      return Ok(encoded[..]);
    }

    method ReadValue(code: byte) returns (r: Result<Value>)
      requires Valid()
      modifies this
      ensures Valid() && offset >= old(offset)
      ensures Agrees(ParseValue(code, old(Rest())), r)
      decreases |data| - offset, 1
    {
      if code == NIL { return Ok(Null); }
      if code == BYTES {
        var e := ReadEscaped();
        return if e.Err? then Err(e.error) else Ok(Blob(e.value));
      }
      if code == STRING {
        var e := ReadEscaped();
        return if e.Err? then Err(e.error) else if ValidUtf8(e.value) then Ok(Str(e.value)) else Err(InvalidUtf8);
      }
      if code == NESTED {
        var t := ReadTuple(true);
        return if t.Err? then Err(t.error) else Ok(Nested(t.value));
      }
      if code == INTEGER_ZERO { return Ok(Int(0)); }
      if code == FLOAT {
        var e := ReadOrderedFloat(4);
        return if e.Err? then Err(e.error) else Ok(Float(e.value));
      }
      if code == DOUBLE {
        var e := ReadOrderedFloat(8);
        return if e.Err? then Err(e.error) else Ok(Double(e.value));
      }
      if code == FALSE { return Ok(Bool(false)); }
      if code == TRUE { return Ok(Bool(true)); }
      if code == UUID {
        var e := Read(16);
        return if e.Err? then Err(e.error) else Ok(Uuid(e.value));
      }
      if code == VERSIONSTAMP {
        var e := Read(12);
        return if e.Err? then Err(e.error) else Ok(Versionstamp(e.value));
      }
      if IsIntegerCode(code) {
        r := ReadInteger(code);
        return;
      }
      return Err(InvalidTypeCode(code));
    }

    method ReadTuple(nested: bool) returns (r: Result<Tuple>)
      requires Valid()
      modifies this
      ensures Valid() && offset >= old(offset)
      ensures Agrees(ParseItems(old(Rest()), nested), r)
      decreases |data| - offset, 0
    {
      var values: Tuple := [];
      PrependLaws([], [], ParseItems(Rest(), nested));
      while offset != |data|
        invariant Valid() && offset >= old(offset)
        invariant ParseItems(old(Rest()), nested) == Prepend(values, ParseItems(Rest(), nested))
        decreases |data| - offset
      {
        var code := data[offset];
        ghost var rest := Rest();
        offset := offset + 1;
        assert Rest() == rest[1..];
        if nested && code == NIL {
          if offset != |data| && data[offset] == ESCAPE {
            offset := offset + 1;
            assert Rest() == rest[2..];
            PrependLaws(values, [Null], ParseItems(Rest(), true));
            values := values + [Null];
            continue;
          }
          assert values + [] == values;
          return Ok(values);
        }
        var v := ReadValue(code);
        if v.Err? { return Err(v.error); }
        PrependLaws(values, [v.value], ParseItems(Rest(), nested));
        values := values + [v.value];
      }
      assert values + [] == values;
      return if nested then Err(UnterminatedNested) else Ok(values);
    }
  }

  lemma PrependBytesLaws(a: bytes, b: bytes, r: Result<(bytes, bytes)>)
    ensures PrependBytes([], r) == r
    ensures PrependBytes(a, PrependBytes(b, r)) == PrependBytes(a + b, r)
  {
    if r.Ok? {
      assert [] + r.value.0 == r.value.0;
      assert a + (b + r.value.0) == a + b + r.value.0;
    }
  }

  lemma PrependLaws(t: Tuple, u: Tuple, r: Result<(Tuple, bytes)>)
    ensures Prepend([], r) == r
    ensures Prepend(t, Prepend(u, r)) == Prepend(t + u, r)
  {
    if r.Ok? {
      assert [] + r.value.0 == r.value.0;
      assert t + (u + r.value.0) == t + u + r.value.0;
    }
  }

  /** Shift in one byte at a time, inverted for negative numbers. */
  method Accumulate(encoded: bytes, negative: bool) returns (magnitude: nat)
    ensures magnitude == Magnitude(if negative then Flip(encoded) else encoded)
  {
    ghost var digits := if negative then Flip(encoded) else encoded;
    magnitude := 0;
    for index := 0 to |encoded|
      invariant magnitude == Magnitude(digits[..index])
    {
      magnitude := magnitude * 256 + if negative then 255 - encoded[index] else encoded[index];
      assert digits[..index + 1][..index] == digits[..index];
    }
    assert digits[..|encoded|] == digits;
  }

  method UnpackBytes(data: bytes) returns (r: Result<Tuple>)
    ensures r == Unpacked(data)
  {
    var parser := new Parser(data);
    assert parser.Rest() == data;
    r := parser.ReadTuple(false);
  }

  // ---- The round trip ----

  lemma {:induction false} EscapingInverts(b: bytes, r: bytes)
    requires Follows(r)
    ensures Escaping(Escaped(b) + r) == Ok((b, r))
  {
    var x := Escaped(b) + r;
    if b == [] {
      assert x[1..] == r;
    } else {
      EscapingInverts(b[1..], r);
      assert b == [b[0]] + b[1..];
      if b[0] == NIL {
        assert x[2..] == Escaped(b[1..]) + r;
      } else {
        assert x[1..] == Escaped(b[1..]) + r;
      }
    }
  }

  lemma FlipTwice(b: bytes)
    ensures Flip(Flip(b)) == b
  {
  }

  lemma IntegerInverts(n: int, r: bytes)
    requires Packable(Int(n)) && n != 0
    ensures var x := EncodeInt(n) + r;
            && x != [] && IsIntegerCode(x[0]) && x[0] != INTEGER_ZERO
            && Integer(x[0], x[1..]) == Ok((Int(n), r))
  {
    var m := MagnitudeBytes(Abs(n));
    var head, tail := IntegerHead(n < 0, |m|), if n < 0 then Flip(m) else m;
    FlipTwice(m);
    assert |m| > 0 && SignedMagnitude(n < 0, tail) == n;
    assert EncodeInt(n) == head + tail;
    TakeRest(head, tail, r);
    var x := head + tail + r;
    HeadLength(n < 0, |m|, x[0], x[1..]);
  }

  lemma HeadLength(negative: bool, length: nat, code: byte, b: bytes)
    requires 0 < length <= MAX_BIG_INTEGER_BYTES
    requires var head := IntegerHead(negative, length);
             code == head[0] && (|head| == 2 ==> |b| > 0 && b[0] == head[1])
    ensures var rest := if length <= MAX_SMALL_INTEGER_BYTES then b else b[1..];
            IntegerLength(code, b) == Ok((length, rest))
    ensures IsIntegerCode(code) && code != INTEGER_ZERO && (code < INTEGER_ZERO <==> negative)
  {
  }

  lemma TakeRest(head: bytes, tail: bytes, r: bytes)
    requires 1 <= |head| <= 2
    ensures (head + tail + r)[0] == head[0]
    ensures |head| == 1 ==> (head + tail + r)[1..] == tail + r
    ensures |head| == 2 ==> (head + tail + r)[1..][0] == head[1] && (head + tail + r)[1..][1..] == tail + r
    ensures Take(tail + r, |tail|) == Ok((tail, r))
  {
    assert (tail + r)[..|tail|] == tail && (tail + r)[|tail|..] == r;
  }

  lemma FloatInverts(head: byte, bits: bytes, r: bytes, x: bytes)
    requires bits != [] && x == [head] + OrderedFloat(bits) + r
    ensures Take(x[1..], |bits|) == Ok((OrderedFloat(bits), r))
    ensures UnorderedFloat(OrderedFloat(bits)) == bits
  {
    UnorderedInverts(bits);
    hide OrderedFloat, UnorderedFloat;
    assert x[1..] == OrderedFloat(bits) + r;
    TakeInverts(OrderedFloat(bits), r, x);
  }

  lemma UnorderedInverts(bits: bytes)
    requires bits != []
    ensures UnorderedFloat(OrderedFloat(bits)) == bits
  {
    FlipTwice(bits);
    var e := OrderedFloat(bits);
    if bits[0] < 0x80 { assert bits == [bits[0]] + e[1..]; }
  }

  ghost predicate ReadsBack(v: Value, nested: bool, r: bytes)
    requires Packable(v)
  {
    var x := Encode(v, nested) + r;
    && x != [] && (nested ==> x[0] != NIL)
    && ParseValue(x[0], x[1..]) == Ok((v, r))
  }

  /** Reading one encoded element gives it back and stops where it ends. */
  lemma {:induction false} ValueInverts(v: Value, nested: bool, r: bytes)
    requires Packable(v) && Follows(r) && (nested ==> !v.Null?)
    ensures ReadsBack(v, nested, r)
    decreases v, 1
  {
    if v.Nested? {
      NestedInverts(v.items, r, Encode(v, nested) + r);
    } else {
      hide EncodeAll, ParseItems;
      if v.Int? {
        WholeInverts(v, nested, r);
      } else if v.Blob? || v.Str? {
        StringInverts(v, nested, r);
      } else {
        FixedInverts(v, nested, r);
      }
    }
  }

  lemma WholeInverts(v: Value, nested: bool, r: bytes)
    requires v.Int? && Packable(v)
    ensures ReadsBack(v, nested, r)
  {
    hide EncodeInt, Integer, EncodeAll, ParseItems, MagnitudeBytes, Escaping, Take;
    var x := Encode(v, nested) + r;
    if v.n == 0 { ZeroInverts(r, x); } else { IntegerInverts(v.n, r); }
  }

  lemma StringInverts(v: Value, nested: bool, r: bytes)
    requires (v.Blob? || v.Str?) && Follows(r)
    ensures ReadsBack(v, nested, r)
  {
    var x := Encode(v, nested) + r;
    if v.Blob? { TextInverts(BYTES, v.blob, r, x); } else { TextInverts(STRING, v.text, r, x); }
    hide Escaped, Escaping;
  }

  lemma FixedInverts(v: Value, nested: bool, r: bytes)
    requires nested ==> !v.Null?
    requires v.Null? || v.Bool? || v.Float? || v.Double? || v.Uuid? || v.Versionstamp?
    ensures ReadsBack(v, nested, r)
  {
    var x := Encode(v, nested) + r;
    match v {
      case Null => assert x[1..] == r;
      case Bool(_) => assert x[1..] == r;
      case Float(bits) => FloatInverts(FLOAT, bits, r, x);
      case Double(bits) => FloatInverts(DOUBLE, bits, r, x);
      case Uuid(id) => TakeInverts(id, r, x);
      case Versionstamp(stamp) => TakeInverts(stamp, r, x);
    }
  }

  lemma TextInverts(head: byte, b: bytes, r: bytes, x: bytes)
    requires Follows(r) && x == [head] + Escaped(b) + r
    ensures Escaping(x[1..]) == Ok((b, r))
  {
    assert x[1..] == Escaped(b) + r;
    EscapingInverts(b, r);
  }

  lemma ZeroInverts(r: bytes, x: bytes)
    requires x == EncodeInt(0) + r
    ensures |x| > 0 && x[0] == INTEGER_ZERO && x[1..] == r
  {
    assert EncodeInt(0) == [INTEGER_ZERO];
  }

  lemma {:induction false} NestedInverts(items: Tuple, r: bytes, x: bytes)
    requires AllPackable(items) && Follows(r) && x == [NESTED] + EncodeAll(items, true) + [NIL] + r
    ensures ParseItems(x[1..], true) == Ok((items, r))
    decreases items, 1
  {
    assert x[1..] == EncodeAll(items, true) + ([NIL] + r);
    ItemsInvert(items, true, [NIL] + r);
  }

  lemma TakeInverts(b: bytes, r: bytes, x: bytes)
    requires |x| > 0 && x[1..] == b + r
    ensures Take(x[1..], |b|) == Ok((b, r))
  {
    assert (b + r)[..|b|] == b && (b + r)[|b|..] == r;
  }

  lemma {:induction false} ItemsInvert(t: Tuple, nested: bool, r: bytes)
    requires AllPackable(t)
    requires if nested then |r| > 0 && r[0] == NIL && Follows(r[1..]) else r == []
    ensures ParseItems(EncodeAll(t, nested) + r, nested) == Ok((t, if nested then r[1..] else []))
    decreases t, 0
  {
    var x := EncodeAll(t, nested) + r;
    if t == [] {
      assert x == r;
    } else {
      var rest := EncodeAll(t[1..], nested) + r;
      assert x == Encode(t[0], nested) + rest;
      ItemsInvert(t[1..], nested, r);
      assert t == [t[0]] + t[1..];
      if nested && t[0].Null? {
        assert x[2..] == rest;
      } else {
        assert Follows(rest) by {
          if t[1..] != [] { TupleOrder.EncodeStart(t[1], nested); } else { assert rest == r; }
        }
        ValueInverts(t[0], nested, rest);
      }
    }
  }

  /** Unpacking a packed tuple gives the tuple back. */
  lemma {:induction false} UnpackPack(t: Tuple)
    requires AllPackable(t)
    ensures Unpacked(Packing(t)) == Ok(t)
  {
    ItemsInvert(t, false, []);
    assert EncodeAll(t, false) + [] == Packing(t);
  }

  // ---- What the parser returns is packable ----

  lemma {:induction false} MagnitudeBytesShortest(b: bytes)
    ensures |MagnitudeBytes(Magnitude(b))| <= |b|
  {
    var n := Magnitude(b);
    MagnitudeBound(b);
    if |MagnitudeBytes(n)| > |b| {
      Pow256Monotone(|b|, |MagnitudeBytes(n)| - 1);
    }
  }

  lemma {:induction false} ParsedIntegerPackable(code: byte, b: bytes)
    requires Integer(code, b).Ok?
    ensures Packable(Integer(code, b).value.0)
  {
    var length := IntegerLength(code, b);
    var body := Take(length.value.1, length.value.0).value.0;
    MagnitudeBytesShortest(body);
    MagnitudeBytesShortest(Flip(body));
    hide Magnitude, MagnitudeBytes, Flip, Pow256;
  }

  lemma {:induction false} ParsedValuePackable(code: byte, b: bytes)
    requires ParseValue(code, b).Ok?
    ensures Packable(ParseValue(code, b).value.0)
    decreases |b|, 1
  {
    if code == NESTED {
      ParsedItemsPackable(b, true);
    } else if IsIntegerCode(code) && code != INTEGER_ZERO {
      ParsedIntegerPackable(code, b);
    }
  }

  lemma {:induction false} ParsedItemsPackable(b: bytes, nested: bool)
    requires ParseItems(b, nested).Ok?
    ensures AllPackable(ParseItems(b, nested).value.0)
    decreases |b|, 0
  {
    if b == [] {
    } else if nested && b[0] == NIL {
      if |b| > 1 && b[1] == ESCAPE {
        ParsedItemsPackable(b[2..], true);
      }
    } else {
      var v := ParseValue(b[0], b[1..]);
      ParsedValuePackable(b[0], b[1..]);
      ParsedItemsPackable(v.value.1, nested);
      var tail := ParseItems(v.value.1, nested).value.0;
      assert ([v.value.0] + tail)[1..] == tail;
    }
  }

  /** Any accepted byte string has a canonical form: repacking what was read reads the same. */
  lemma RepackReadsSame(b: bytes)
    requires Unpacked(b).Ok?
    ensures AllPackable(Unpacked(b).value)
    ensures Unpacked(Packing(Unpacked(b).value)) == Unpacked(b)
  {
    ParsedItemsPackable(b, false);
    UnpackPack(Unpacked(b).value);
  }

  /** Leading zero magnitude bytes are accepted, so reading is not injective. */
  lemma NonCanonicalIntegerAccepted()
    ensures var b := [INTEGER_ZERO + 2, 0x00, 0x07];
            Unpacked(b) == Ok([Int(7)]) && b != Packing([Int(7)])
  {
    var b := [INTEGER_ZERO + 2, 0x00, 0x07];
    var body := [0x00, 0x07];
    assert b[1..] == body && body[..2] == body && body[2..] == [];
    assert Magnitude(body) == 7 by {
      assert body[..1] == [0x00] && [0x00][..0] == [];
      assert Magnitude([0x00]) == 0;
    }
    assert ParseValue(b[0], body) == Ok((Int(7), []));
    assert ParseItems(b, false) == Prepend([Int(7)], ParseItems([], false));
    assert [Int(7)] + [] == [Int(7)];
    assert MagnitudeBytes(7) == [7] by { assert MagnitudeBytes(0) == []; }
    assert [Int(7)][1..] == [];
    assert Packing([Int(7)])[0] == INTEGER_ZERO + 1;
  }
}
