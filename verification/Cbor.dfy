/**
 The CBOR subset of the records: the writer always uses the shortest head (RFC 8949, section
 4.2.1); the reader is as tolerant as the library behind the product's decoder and takes any
 well-formed head (RFC 8949, section 3).
 */
module Cbor {
  import opened Records

  datatype CodecError = Malformed | Unsupported

  /** A value read, and what follows it. */
  datatype Read<+T> = Read(value: T, rest: Bytes)

  type Reading<+T> = Result<Read<T>, CodecError>

  /** What the product's encoder writes in one call. */
  datatype Item = U16(n: nat) | Blob(bytes: Bytes) | Text(text: Bytes) | Array(count: nat) | Null | Bool(flag: bool)

  const U64 := 0x1_0000_0000_0000_0000

  // ----- Numbers in network byte order -----

  function BigEndian(n: nat, size: nat): (b: Bytes)
    ensures |b| == size
  {
    if size == 0 then [] else BigEndian(n / 256, size - 1) + [n % 256]
  }

  function Number(b: Bytes): nat {
    if b == [] then 0 else Number(b[..|b| - 1]) * 256 + b[|b| - 1]
  }

  function Capacity(size: nat): nat {
    if size == 0 then 1 else 256 * Capacity(size - 1)
  }

  lemma {:induction false} NumberOfBigEndian(n: nat, size: nat)
    requires n < Capacity(size)
    ensures Number(BigEndian(n, size)) == n
  {
    if size > 0 {
      NumberOfBigEndian(n / 256, size - 1);
      assert BigEndian(n, size)[..size - 1] == BigEndian(n / 256, size - 1);
    }
  }

  lemma Capacities()
    ensures Capacity(1) == 0x100 && Capacity(2) == 0x1_0000 && Capacity(4) == 0x1_0000_0000 && Capacity(8) == U64
  {
    assert Capacity(3) == 0x100_0000;
    assert Capacity(6) == 0x1_0000_0000_0000;
  }

  // ----- Heads -----

  function Head(major: nat, n: nat): Bytes
    requires major < 8
  {
    if n < 24 then [32 * major + n]
    else if n < 0x100 then [32 * major + 24] + BigEndian(n, 1)
    else if n < 0x1_0000 then [32 * major + 25] + BigEndian(n, 2)
    else if n < 0x1_0000_0000 then [32 * major + 26] + BigEndian(n, 4)
    else [32 * major + 27] + BigEndian(n, 8)
  }

  /** Bytes of argument announced by the additional information 24 to 27. */
  function Width(info: nat): nat {
    if info == 24 then 1 else if info == 25 then 2 else if info == 26 then 4 else 8
  }

  /** The argument of a head whose additional information is `info`; any width is accepted. */
  function Argument(info: nat, b: Bytes): Reading<nat> {
    if info < 24 then Ok(Read(info, b))
    else if info > 27 || |b| < Width(info) then Err(Malformed)
    else Ok(Read(Number(b[..Width(info)]), b[Width(info)..]))
  }

  lemma ArgumentOfBigEndian(info: nat, n: nat, rest: Bytes)
    requires 24 <= info < 28 && n < Capacity(Width(info))
    ensures Argument(info, BigEndian(n, Width(info)) + rest) == Ok(Read(n, rest))
  {
    var w := Width(info);
    var b := BigEndian(n, w) + rest;
    NumberOfBigEndian(n, w);
    assert b[..w] == BigEndian(n, w) && b[w..] == rest;
  }

  /** The additional information the shortest head carries. */
  function Info(n: nat): nat {
    if n < 24 then n else if n < 0x100 then 24 else if n < 0x1_0000 then 25 else if n < 0x1_0000_0000 then 26 else 27
  }

  lemma HeadStart(major: nat, n: nat)
    requires major < 8 && n < U64
    ensures Head(major, n) == [32 * major + Info(n)] + (if n < 24 then [] else BigEndian(n, Width(Info(n))))
    ensures n >= 24 ==> n < Capacity(Width(Info(n)))
  {
    Capacities();
  }

  lemma InitialByte(major: nat, info: nat)
    requires info < 32
    ensures (32 * major + info) / 32 == major && (32 * major + info) % 32 == info
  {
  }

  lemma ArgumentOfHead(major: nat, n: nat, rest: Bytes)
    requires major < 8 && n < U64
    ensures var b := Head(major, n) + rest;
            b != [] && b[0] / 32 == major && b[0] % 32 < 28 && Argument(b[0] % 32, b[1..]) == Ok(Read(n, rest))
  {
    var b := Head(major, n) + rest;
    HeadStart(major, n);
    InitialByte(major, Info(n));
    if n < 24 {
      assert b[1..] == rest;
    } else {
      ArgumentOfBigEndian(Info(n), n, rest);
      assert b[1..] == BigEndian(n, Width(Info(n))) + rest;
    }
  }

  // ----- UTF-8 (RFC 3629, section 4) -----

  predicate Continues(b: Byte) {
    0x80 <= b <= 0xBF
  }

  /** The second byte of a three-byte sequence: no overlong form and no surrogate. */
  predicate SecondOfThree(b: Byte, c: Byte) {
    0xE0 <= b <= 0xEF && (if b == 0xE0 then 0xA0 else 0x80) <= c <= (if b == 0xED then 0x9F else 0xBF)
  }

  /** The second byte of a four-byte sequence: no overlong form, nothing above U+10FFFF. */
  predicate SecondOfFour(b: Byte, c: Byte) {
    0xF0 <= b <= 0xF4 && (if b == 0xF0 then 0x90 else 0x80) <= c <= (if b == 0xF4 then 0x8F else 0xBF)
  }

  /** Length of the well-formed sequence that starts at a position, 0 when there is none. */
  function Lead(b: Bytes, i: nat): nat
    requires i < |b|
  {
    if b[i] < 0x80 then 1
    else if i + 1 < |b| && 0xC2 <= b[i] <= 0xDF && Continues(b[i + 1]) then 2
    else if i + 2 < |b| && SecondOfThree(b[i], b[i + 1]) && Continues(b[i + 2]) then 3
    else if i + 3 < |b| && SecondOfFour(b[i], b[i + 1]) && Continues(b[i + 2]) && Continues(b[i + 3]) then 4
    else 0
  }

  /** The byte belongs to a well-formed sequence, which is at most four bytes long. */
  predicate InCharacter(b: Bytes, i: nat)
    requires i < |b|
  {
    || Lead(b, i) > 0
    || (i >= 1 && Lead(b, i - 1) > 1)
    || (i >= 2 && Lead(b, i - 2) > 2)
    || (i >= 3 && Lead(b, i - 3) > 3)
  }

  /** Well-formed sequences cannot overlap in part, so covering every byte is being well-formed. */
  predicate Utf8(b: Bytes) {
    forall i :: 0 <= i < |b| ==> InCharacter(b, i)
  }

  lemma AsciiIsUtf8(b: Bytes)
    requires forall i :: 0 <= i < |b| ==> b[i] < 0x80
    ensures Utf8(b)
  {
  }

  // ----- The tolerant reader -----

  /** `None` for an indefinite-length array. */
  function ReadArray(b: Bytes): Reading<Option<nat>> {
    if b == [] || b[0] / 32 != 4 then Err(Malformed)
    else if b[0] % 32 == 31 then Ok(Read(None, b[1..]))
    else
      var n :- Argument(b[0] % 32, b[1..]);
      Ok(Read(Some(n.value), n.rest))
  }

  function ReadU16(b: Bytes): Reading<nat> {
    if b == [] || b[0] / 32 != 0 then Err(Malformed)
    else
      var n :- Argument(b[0] % 32, b[1..]);
      if n.value < 0x1_0000 then Ok(n) else Err(Malformed)
  }

  function ReadString(major: nat, b: Bytes): Reading<Bytes> {
    if b == [] || b[0] / 32 != major then Err(Malformed)
    else
      var n :- Argument(b[0] % 32, b[1..]);
      if |n.rest| < n.value then Err(Malformed) else Ok(Read(n.rest[..n.value], n.rest[n.value..]))
  }

  function ReadBytes(b: Bytes): Reading<Bytes> {
    ReadString(2, b)
  }

  function ReadText(b: Bytes): (r: Reading<Bytes>)
    ensures r.Ok? ==> Utf8(r.value.value)
  {
    var t :- ReadString(3, b);
    if Utf8(t.value) then Ok(t) else Err(Malformed)
  }

  function ReadNull(b: Bytes): Reading<()> {
    if b == [] || b[0] != 0xF6 then Err(Malformed) else Ok(Read((), b[1..]))
  }

  function ReadBool(b: Bytes): Reading<bool> {
    if b == [] || (b[0] != 0xF4 && b[0] != 0xF5) then Err(Malformed) else Ok(Read(b[0] == 0xF5, b[1..]))
  }

  /** What `datatype` says about the next item, as far as any caller distinguishes it. */
  datatype Kind = NullKind | BytesKind | OtherKind

  function PeekKind(b: Bytes): Result<Kind, CodecError> {
    if b == [] then Err(Malformed)
    else Ok(if b[0] == 0xF6 then NullKind else if b[0] / 32 == 2 && b[0] % 32 < 28 then BytesKind else OtherKind)
  }

  // ----- The writer -----

  function Written(i: Item): Bytes {
    match i
    case U16(n) => Head(0, n)
    case Blob(bytes) => Head(2, |bytes|) + bytes
    case Text(text) => Head(3, |text|) + text
    case Array(count) => Head(4, count)
    case Null => [0xF6]
    case Bool(flag) => [if flag then 0xF5 else 0xF4]
  }

  function Flatten(items: seq<Item>): Bytes {
    if items == [] then [] else Written(items[0]) + Flatten(items[1..])
  }

  predicate Fits(i: Item) {
    match i
    case U16(n) => n < 0x1_0000
    case Blob(bytes) => |bytes| < U64
    case Text(text) => |text| < U64 && Utf8(text)
    case Array(count) => count < U64
    case _ => true
  }

  /** Reading what the item says at the front of `b` gives that item and leaves `rest`. */
  predicate Yields(i: Item, b: Bytes, rest: Bytes) {
    match i
    case U16(n) => ReadU16(b) == Ok(Read(n, rest))
    case Blob(bytes) => ReadBytes(b) == Ok(Read(bytes, rest)) && PeekKind(b) == Ok(BytesKind)
    case Text(text) => ReadText(b) == Ok(Read(text, rest))
    case Array(count) => ReadArray(b) == Ok(Read(Some(count), rest))
    case Null => ReadNull(b) == Ok(Read((), rest)) && PeekKind(b) == Ok(NullKind)
    case Bool(flag) => ReadBool(b) == Ok(Read(flag, rest))
  }

  lemma StringOfHead(major: nat, s: Bytes, rest: Bytes)
    requires major < 8 && |s| < U64
    ensures var b := (Head(major, |s|) + s) + rest;
            && ReadString(major, b) == Ok(Read(s, rest))
            && (major == 2 ==> PeekKind(b) == Ok(BytesKind))
  {
    var b := (Head(major, |s|) + s) + rest;
    assert b == Head(major, |s|) + (s + rest);
    ArgumentOfHead(major, |s|, s + rest);
    assert (s + rest)[..|s|] == s && (s + rest)[|s|..] == rest;
  }

  lemma ReadUndoesWrite(i: Item, rest: Bytes)
    requires Fits(i)
    ensures Yields(i, Written(i) + rest, rest)
  {
    match i
    case U16(n) => ArgumentOfHead(0, n, rest);
    case Array(count) => ArgumentOfHead(4, count, rest);
    case Blob(bytes) => StringOfHead(2, bytes, rest);
    case Text(text) => StringOfHead(3, text, rest);
    case Null => assert ([0xF6] + rest)[1..] == rest;
    case Bool(flag) => assert (Written(i) + rest)[1..] == rest;
  }

  /** Reading a written list of items meets them one after the other. */
  lemma ReadAt(items: seq<Item>, k: nat)
    requires k < |items| && Fits(items[k])
    ensures Yields(items[k], Flatten(items[k..]), Flatten(items[k + 1..]))
  {
    assert items[k..][1..] == items[k + 1..];
    ReadUndoesWrite(items[k], Flatten(items[k + 1..]));
  }

  /** Reading the items one after the other goes through these remainders. */
  ghost predicate ReadsThrough(items: seq<Item>, rests: seq<Bytes>) {
    && |rests| == |items| + 1
    && rests[|items|] == []
    && forall k :: 0 <= k < |items| ==> Yields(items[k], rests[k], rests[k + 1])
  }

  lemma Remainders(items: seq<Item>) returns (rests: seq<Bytes>)
    requires forall i :: 0 <= i < |items| ==> Fits(items[i])
    ensures ReadsThrough(items, rests) && rests[0] == Flatten(items)
  {
    rests := seq(|items| + 1, k requires 0 <= k <= |items| => Flatten(items[k..]));
    forall k | 0 <= k < |items|
      ensures Yields(items[k], rests[k], rests[k + 1])
    {
      ReadAt(items, k);
    }
    assert items[0..] == items && items[|items|..] == [];
  }

  lemma {:induction false} FlattenAppend(items: seq<Item>, i: Item)
    ensures Flatten(items + [i]) == Flatten(items) + Written(i)
    decreases |items|
  {
    if items == [] {
      assert [i][1..] == [];
    } else {
      assert (items + [i])[1..] == items[1..] + [i];
      FlattenAppend(items[1..], i);
    }
  }

  lemma {:induction false} WrittenIsShorter(items: seq<Item>, k: nat)
    requires k < |items|
    ensures |Written(items[k])| <= |Flatten(items)|
    decreases |items|
  {
    if k > 0 { WrittenIsShorter(items[1..], k - 1); }
  }

  lemma FirstDiffers(i: Item, j: Item, a: Bytes, b: Bytes)
    requires Fits(i) && Fits(j) && i != j && ((i.U16? && j.U16?) || (i.Array? && j.Array?))
    ensures Written(i) + a != Written(j) + b
  {
    ReadUndoesWrite(i, a);
    ReadUndoesWrite(j, b);
  }

  /** Lists that differ in a leading count or number never give the same bytes. */
  lemma {:induction false} ItemDiffers(a: seq<Item>, b: seq<Item>, k: nat)
    requires k < |a| && k < |b| && a[..k] == b[..k] && Fits(a[k]) && Fits(b[k])
    requires a[k] != b[k] && ((a[k].U16? && b[k].U16?) || (a[k].Array? && b[k].Array?))
    ensures Flatten(a) != Flatten(b)
    decreases k
  {
    if k == 0 {
      FirstDiffers(a[0], b[0], Flatten(a[1..]), Flatten(b[1..]));
    } else {
      assert a[0] == a[..k][0] == b[..k][0] == b[0];
      assert a[1..][..k - 1] == a[..k][1..] == b[..k][1..] == b[1..][..k - 1];
      ItemDiffers(a[1..], b[1..], k - 1);
      var (first, x, y) := (Written(a[0]), Flatten(a[1..]), Flatten(b[1..]));
      assert (first + x)[|first|..] == x && (first + y)[|first|..] == y;
    }
  }

  /** The reader alone is not strict: the same number is read from a head of another width. */
  lemma ReaderIsTolerant(rest: Bytes)
    ensures [0x18, 2] + rest != Written(U16(2)) + rest
    ensures ReadU16([0x18, 2] + rest) == ReadU16(Written(U16(2)) + rest)
  {
    ReadUndoesWrite(U16(2), rest);
    var b := [0x18, 2] + rest;
    assert b[1..][..1] == [2] && b[1..][1..] == rest;
    assert Number([2]) == 2 by {
      assert [2][..0] == [];
    }
    assert |b| != |Written(U16(2)) + rest|;
  }
}
