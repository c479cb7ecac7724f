/**
 The independent writer of the public test vectors and the bounded reader of the replay
 harness. The writer agrees with the product's encoder; the reader undoes the writer exactly
 on the values within its bounds.
 */
module IndependentCbor {
  import opened Records
  import opened Cbor
  import Codec

  const MAX_DEPTH := 4
  const MAX_ITEMS := 11

  datatype Value = Int(n: nat) | Octets(b: Bytes) | Str(text: Bytes) | List(values: seq<Value>) | Nothing

  // ----- The writer -----

  /** The first of the sizes 1, 2, 4 and 8 that holds the value. */
  function HeaderFrom(major: nat, value: nat, size: nat, additional: nat): Result<Bytes, CodecError>
    requires major < 8 && 0 < size && additional < 32
    decreases 16 - size
  {
    if size > 8 || additional > 27 then Err(Unsupported)
    else if value < Capacity(size) then Ok([32 * major + additional] + BigEndian(value, size))
    else HeaderFrom(major, value, 2 * size, additional + 1)
  }

  function Header(major: nat, value: nat): Result<Bytes, CodecError>
    requires major < 8
  {
    if value < 24 then Ok([32 * major + value]) else HeaderFrom(major, value, 1, 24)
  }

  function Write(v: Value): Result<Bytes, CodecError> {
    match v
    case Int(n) => Header(0, n)
    case Octets(b) =>
      var h :- Header(2, |b|);
      Ok(h + b)
    case Str(text) =>
      var h :- Header(3, |text|);
      Ok(h + text)
    case List(values) =>
      var h :- Header(4, |values|);
      var body :- Join(values);
      Ok(h + body)
    case Nothing => Err(Malformed)
  }

  function Join(values: seq<Value>): Result<Bytes, CodecError> {
    if values == [] then Ok([])
    else
      var first :- Write(values[0]);
      var others :- Join(values[1..]);
      Ok(first + others)
  }

  /** The two writers were written apart; their heads are the same, up to the last 64-bit number. */
  lemma HeadersAgree(major: nat, value: nat)
    requires major < 8
    ensures Header(major, value) == if value < U64 then Ok(Head(major, value)) else Err(Unsupported)
  {
    Capacities();
    if value >= 24 {
      assert HeaderFrom(major, value, 1, 24)
          == if value < 0x100 then Ok(Head(major, value)) else HeaderFrom(major, value, 2, 25);
      assert HeaderFrom(major, value, 8, 27)
          == if value < U64 then Ok([32 * major + 27] + BigEndian(value, 8)) else Err(Unsupported);
    }
  }

  // ----- The bounded reader -----

  function ReadItem(b: Bytes, depth: nat): Reading<Value>
    decreases 2 * MAX_DEPTH - depth, 0
  {
    if depth > MAX_DEPTH || b == [] then Err(Malformed)
    else if b[0] == 0xF6 then Ok(Read(Nothing, b[1..]))
    else
      var n :- Argument(b[0] % 32, b[1..]);
      var major := b[0] / 32;
      if major == 0 then Ok(Read(Int(n.value), n.rest))
      else if major == 2 || major == 3 then
        if |n.rest| < n.value || (major == 3 && !Utf8(n.rest[..n.value])) then Err(Malformed)
        else Ok(Read(if major == 2 then Octets(n.rest[..n.value]) else Str(n.rest[..n.value]), n.rest[n.value..]))
      else if major != 4 || n.value > MAX_ITEMS then Err(Malformed)
      else
        var values :- ReadItems(n.rest, n.value, depth + 1);
        Ok(Read(List(values.value), values.rest))
  }

  function ReadItems(b: Bytes, count: nat, depth: nat): Reading<seq<Value>>
    requires depth <= MAX_DEPTH + 1
    decreases 2 * MAX_DEPTH - depth, count + 1
  {
    if count == 0 then Ok(Read([], b))
    else
      var first :- ReadItem(b, depth);
      var others :- ReadItems(first.rest, count - 1, depth);
      Ok(Read([first.value] + others.value, others.rest))
  }

  /** The whole input is one item. */
  function Decode(b: Bytes): Result<Value, CodecError> {
    var r :- ReadItem(b, 0);
    if r.rest == [] then Ok(r.value) else Err(Malformed)
  }

  predicate Bounded(v: Value, depth: nat) {
    && depth <= MAX_DEPTH
    && (v.Str? ==> Utf8(v.text))
    && (v.List? ==> |v.values| <= MAX_ITEMS && forall i :: 0 <= i < |v.values| ==> Bounded(v.values[i], depth + 1))
  }

  lemma {:induction false} ReadUndoesWrite(v: Value, depth: nat, rest: Bytes)
    requires Write(v).Ok? && Bounded(v, depth)
    ensures ReadItem(Write(v).value + rest, depth) == Ok(Read(v, rest))
    decreases v, if v.List? then |v.values| + 1 else 0
  {
    match v
    case Int(n) =>
      HeadersAgree(0, n);
      ArgumentOfHead(0, n, rest);
    case Octets(s) =>
      HeadersAgree(2, |s|);
      StringRead(2, s, rest, depth);
    case Str(s) =>
      HeadersAgree(3, |s|);
      StringRead(3, s, rest, depth);
    case List(values) =>
      HeadersAgree(4, |values|);
      var body := Join(values).value;
      ReadUndoesJoin(values, v, depth + 1, rest);
      ArgumentOfHead(4, |values|, body + rest);
      assert Write(v).value + rest == Head(4, |values|) + (body + rest);
  }

  lemma StringRead(major: nat, s: Bytes, rest: Bytes, depth: nat)
    requires 2 <= major <= 3 && |s| < U64 && depth <= MAX_DEPTH && (major == 3 ==> Utf8(s))
    ensures ReadItem((Head(major, |s|) + s) + rest, depth) == Ok(Read(if major == 2 then Octets(s) else Str(s), rest))
  {
    assert (Head(major, |s|) + s) + rest == Head(major, |s|) + (s + rest);
    ArgumentOfHead(major, |s|, s + rest);
    assert (s + rest)[..|s|] == s && (s + rest)[|s|..] == rest;
  }

  lemma JoinStep(values: seq<Value>, rest: Bytes)
    requires Join(values).Ok? && values != []
    ensures Write(values[0]).Ok? && Join(values[1..]).Ok?
    ensures Join(values).value + rest == Write(values[0]).value + (Join(values[1..]).value + rest)
  {
  }

  lemma ItemsStep(value: Value, others: seq<Value>, b: Bytes, rest: Bytes, end: Bytes, depth: nat)
    requires depth <= MAX_DEPTH + 1
    requires ReadItem(b, depth) == Ok(Read(value, rest)) && ReadItems(rest, |others|, depth) == Ok(Read(others, end))
    ensures ReadItems(b, |others| + 1, depth) == Ok(Read([value] + others, end))
  {
  }

  lemma {:induction false} ReadUndoesJoin(values: seq<Value>, list: Value, depth: nat, rest: Bytes)
    requires Join(values).Ok? && depth <= MAX_DEPTH + 1
    requires forall i :: 0 <= i < |values| ==> Bounded(values[i], depth) && values[i] < list
    ensures ReadItems(Join(values).value + rest, |values|, depth) == Ok(Read(values, rest))
    decreases list, |values|
  {
    if values == [] {
      assert Join(values).value + rest == rest;
    } else {
      JoinStep(values, rest);
      var others := Join(values[1..]).value;
      ReadUndoesWrite(values[0], depth, others + rest);
      ReadUndoesJoin(values[1..], list, depth, rest);
      ItemsStep(values[0], values[1..], Join(values).value + rest, others + rest, rest, depth);
      assert [values[0]] + values[1..] == values;
    }
  }

  lemma BadTextIsRefused(s: Bytes, rest: Bytes, depth: nat)
    requires |s| < U64 && !Utf8(s)
    ensures ReadItem((Head(3, |s|) + s) + rest, depth).Err?
  {
    assert (Head(3, |s|) + s) + rest == Head(3, |s|) + (s + rest);
    ArgumentOfHead(3, |s|, s + rest);
    assert (s + rest)[..|s|] == s;
  }

  lemma ListIsRefused(count: nat, rest: Bytes, depth: nat)
    requires count < U64 && depth <= MAX_DEPTH
    requires count > MAX_ITEMS || ReadItems(rest, count, depth + 1).Err?
    ensures ReadItem(Head(4, count) + rest, depth).Err?
  {
    ArgumentOfHead(4, count, rest);
  }

  lemma {:induction false} UnboundedIsRefused(v: Value, depth: nat, rest: Bytes)
    requires Write(v).Ok? && !Bounded(v, depth) && depth <= MAX_DEPTH + 1
    ensures ReadItem(Write(v).value + rest, depth).Err?
    decreases v, if v.List? then |v.values| + 1 else 0
  {
    if depth <= MAX_DEPTH {
      match v
      case Str(s) =>
        HeadersAgree(3, |s|);
        BadTextIsRefused(s, rest, depth);
      case List(values) =>
        HeadersAgree(4, |values|);
        var body := Join(values).value;
        assert Write(v).value + rest == Head(4, |values|) + (body + rest);
        if |values| <= MAX_ITEMS { UnboundedItemIsRefused(values, v, depth + 1, rest); }
        ListIsRefused(|values|, body + rest, depth);
    }
  }

  lemma {:induction false} UnboundedItemIsRefused(values: seq<Value>, list: Value, depth: nat, rest: Bytes)
    requires Join(values).Ok? && depth <= MAX_DEPTH + 1
    requires forall i :: 0 <= i < |values| ==> values[i] < list
    requires exists i :: 0 <= i < |values| && !Bounded(values[i], depth)
    ensures ReadItems(Join(values).value + rest, |values|, depth).Err?
    decreases list, |values|
  {
    JoinStep(values, rest);
    var others := Join(values[1..]).value;
    if Bounded(values[0], depth) {
      ReadUndoesWrite(values[0], depth, others + rest);
      var i :| 0 <= i < |values| && !Bounded(values[i], depth);
      assert values[1..][i - 1] == values[i];
      UnboundedItemIsRefused(values[1..], list, depth, rest);
    } else {
      UnboundedIsRefused(values[0], depth, others + rest);
    }
  }

  /** The reader gives back exactly the values it bounds: nesting, array sizes and text. */
  lemma DecodeUndoesWriteIff(v: Value)
    requires Write(v).Ok?
    ensures Decode(Write(v).value) == Ok(v) <==> Bounded(v, 0)
  {
    var b := Write(v).value;
    assert b + [] == b;
    if Bounded(v, 0) { ReadUndoesWrite(v, 0, []); } else { UnboundedIsRefused(v, 0, []); }
  }

  /** An array within an array, `depth` times. */
  function Nested(depth: nat): Value {
    if depth == 0 then Nothing else List([Nested(depth - 1)])
  }

  lemma {:induction false} NestedBounded(n: nat, depth: nat)
    ensures Bounded(Nested(n), depth) <==> depth + n <= 4
    decreases n
  {
    if n > 0 {
      NestedBounded(n - 1, depth + 1);
      assert Nested(n).values[0] == Nested(n - 1);
    }
  }

  /** Four levels of arrays and eleven items in an array are read back, and no more. */
  lemma BoundsAreExact(n: nat)
    requires Write(Nested(n)).Ok? && Write(List(seq(n, _ => Nothing))).Ok?
    ensures Decode(Write(Nested(n)).value) == Ok(Nested(n)) <==> n <= 4
    ensures Decode(Write(List(seq(n, _ => Nothing))).value) == Ok(List(seq(n, _ => Nothing))) <==> n <= 11
  {
    NestedBounded(n, 0);
    DecodeUndoesWriteIff(Nested(n));
    DecodeUndoesWriteIff(List(seq(n, _ => Nothing)));
  }

  // ----- Agreement with the product -----

  function StubFields(s: PublicIdentityStub): Value {
    List([Int(2), Int(1), Octets(s.desktopId), Octets(s.identityId), Str(s.recipient), Octets(s.desktopSigningKey),
          Octets(s.desktopSelectionKey), Octets(s.phoneSigningKey), Octets(s.offerDigest), Octets(s.fingerprint),
          Str(Codec.PHONE)])
  }

  /** The product's item for a plain value. */
  function ItemOf(v: Value): Item
    requires v.Int? || v.Octets? || v.Str?
  {
    match v
    case Int(n) => U16(n)
    case Octets(b) => Blob(b)
    case Str(text) => Text(text)
  }

  lemma {:induction false} WritersAgree(values: seq<Value>, items: seq<Item>)
    requires |items| == |values|
    requires forall i :: 0 <= i < |values| ==>
      (values[i].Int? || values[i].Octets? || values[i].Str?) && items[i] == ItemOf(values[i]) && Fits(items[i])
    ensures Join(values) == Ok(Flatten(items))
    decreases |values|
  {
    if values != [] {
      WritersAgree(values[1..], items[1..]);
      match values[0]
      case Int(n) => HeadersAgree(0, n);
      case Octets(b) => HeadersAgree(2, |b|);
      case Str(text) => HeadersAgree(3, |text|);
    }
  }

  lemma StubFieldsJoin(s: PublicIdentityStub)
    requires Codec.StubShape(s) && |Codec.EncodeStub(s)| < U64
    ensures Join(StubFields(s).values) == Ok(Flatten(Codec.StubItems(s)[1..]))
  {
    var (items, values) := (Codec.StubItems(s), StubFields(s).values);
    Codec.StubItemsFit(s);
    forall i | 0 <= i < 11
      ensures items[1..][i] == ItemOf(values[i]) && Fits(items[1..][i])
    {
      assert items[1..][i] == items[i + 1];
    }
    WritersAgree(values, items[1..]);
  }

  lemma StubFieldsBounded(s: PublicIdentityStub)
    requires Codec.StubShape(s)
    ensures Bounded(StubFields(s), 0)
  {
    AsciiIsUtf8(Codec.PHONE);
  }

  /** For every stub, not only the published vector, both encoders write the same bytes. */
  lemma StubEncodersAgree(s: PublicIdentityStub)
    requires Codec.StubShape(s) && |Codec.EncodeStub(s)| < U64
    ensures Write(StubFields(s)) == Ok(Codec.EncodeStub(s))
    ensures Decode(Codec.EncodeStub(s)) == Ok(StubFields(s))
  {
    var values := StubFields(s).values;
    HeadersAgree(4, |values|);
    StubFieldsJoin(s);
    assert Codec.StubItems(s)[0] == Array(11);
    StubFieldsBounded(s);
    DecodeUndoesWriteIff(StubFields(s));
  }

  // ----- The reader as it runs -----

  function Prepend(values: seq<Value>, r: Reading<seq<Value>>): Reading<seq<Value>> {
    match r
    case Ok(read) => Ok(Read(values + read.value, read.rest))
    case Err(e) => Err(e)
  }

  /** The answer and the next position are those of the reading function at this position. */
  ghost predicate Answers<T>(data: Bytes, r: Result<(T, nat), CodecError>, reading: Reading<T>) {
    match reading
    case Ok(read) => r.Ok? && r.value.0 == read.value && r.value.1 <= |data| && data[r.value.1..] == read.rest
    case Err(e) => r == Err(e)
  }

  method ArgumentAt(data: Bytes, start: nat, info: nat) returns (r: Result<(nat, nat), CodecError>)
    requires start <= |data| && info < 32
    ensures Answers(data, r, Argument(info, data[start..]))
  {
    if info < 24 { return Ok((info, start)); }
    if info > 27 { return Err(Malformed); }
    var size := Width(info);
    if start + size > |data| { return Err(Malformed); }
    assert data[start..][..size] == data[start..start + size] && data[start..][size..] == data[start + size..];
    return Ok((Number(data[start..start + size]), start + size));
  }

  method StringAt(data: Bytes, start: nat, n: nat, major: nat) returns (r: Result<(Value, nat), CodecError>)
    requires start <= |data| && 2 <= major <= 3
    ensures var b := data[start..];
            if |b| < n || (major == 3 && !Utf8(b[..n])) then r == Err(Malformed)
            else Answers(data, r, Ok(Read(if major == 2 then Octets(b[..n]) else Str(b[..n]), b[n..])))
  {
    if start + n > |data| { return Err(Malformed); }
    var value := data[start..start + n];
    assert data[start..][..n] == value && data[start..][n..] == data[start + n..];
    if major == 2 { return Ok((Octets(value), start + n)); }
    if !Utf8(value) { return Err(Malformed); }
    return Ok((Str(value), start + n));
  }

  method Item(data: Bytes, start: nat, depth: nat) returns (r: Result<(Value, nat), CodecError>)
    requires start <= |data| && depth <= MAX_DEPTH + 1
    ensures Answers(data, r, ReadItem(data[start..], depth))
    decreases MAX_DEPTH + 1 - depth, 0
  {
    if depth > MAX_DEPTH || start >= |data| { return Err(Malformed); }
    var tag := data[start];
    assert data[start..][1..] == data[start + 1..];
    if tag == 0xF6 { return Ok((Nothing, start + 1)); }
    var n :- ArgumentAt(data, start + 1, tag % 32);
    var major := tag / 32;
    if major == 0 { return Ok((Int(n.0), n.1)); }
    if major == 2 || major == 3 {
      r := StringAt(data, n.1, n.0, major);
      return;
    }
    if major != 4 || n.0 > MAX_ITEMS { return Err(Malformed); }
    var values :- Items(data, n.1, n.0, depth + 1);
    return Ok((List(values.0), values.1));
  }

  lemma PrependStep(values: seq<Value>, b: Bytes, count: nat, depth: nat)
    requires 0 < count && depth <= MAX_DEPTH + 1
    ensures Prepend(values, ReadItems(b, count, depth))
         == match ReadItem(b, depth)
            case Ok(first) => Prepend(values + [first.value], ReadItems(first.rest, count - 1, depth))
            case Err(e) => Err(e)
  {
    var first := ReadItem(b, depth);
    if first.Ok? {
      var others := ReadItems(first.value.rest, count - 1, depth);
      if others.Ok? {
        assert values + ([first.value.value] + others.value.value)
            == (values + [first.value.value]) + others.value.value;
      }
    }
  }

  method Items(data: Bytes, start: nat, count: nat, depth: nat) returns (r: Result<(seq<Value>, nat), CodecError>)
    requires start <= |data| && 0 < depth <= MAX_DEPTH + 1
    ensures Answers(data, r, ReadItems(data[start..], count, depth))
    decreases MAX_DEPTH + 1 - depth, 1
  {
    var values: seq<Value> := [];
    var pos: nat := start;
    ghost var whole := ReadItems(data[start..], count, depth);
    assert whole == Prepend([], whole) by {
      if whole.Ok? { assert [] + whole.value.value == whole.value.value; }
    }
    for i := 0 to count
      invariant pos <= |data|
      invariant whole == Prepend(values, ReadItems(data[pos..], count - i, depth))
    {
      PrependStep(values, data[pos..], count - i, depth);
      var item :- Item(data, pos, depth);
      values, pos := values + [item.0], item.1;
    }
    assert values + [] == values;
    return Ok((values, pos));
  }

  method DecodeAll(data: Bytes) returns (r: Result<Value, CodecError>)
    ensures r == Decode(data)
  {
    assert data[0..] == data;
    var item :- Item(data, 0, 0);
    if item.1 != |data| { return Err(Malformed); }
    return Ok(item.0);
  }
}
