/** The fixed layout of the signed desktop key references, and its strict parser. */
module Metadata {
  import opened Records
  import opened Cbor

  const HEADER := 93
  const MAX_REFERENCE := 4096
  const MAX_STATE := HEADER + 2 * MAX_REFERENCE + 64
  const MAGIC: Bytes := [0x41, 0x50, 0x53, 0x45, 0x32]
  const SUITE: Bytes := [0, 1]

  /** `verifies` takes the public key, the signed bytes and a signature in low-S form. */
  datatype Curve = Curve(isPublicKey: Bytes -> bool, verifies: (Bytes, Bytes, Bytes) -> bool)

  datatype References = References(id: Bytes, signingKey: Bytes, selectionKey: Bytes, signing: Bytes, selection: Bytes)

  predicate Shape(m: References) {
    |m.id| == 16 && |m.signingKey| == 33 && |m.selectionKey| == 33
  }

  predicate Valid(c: Curve, m: References) {
    && Shape(m)
    && 0 < |m.signing| <= MAX_REFERENCE && 0 < |m.selection| <= MAX_REFERENCE
    && m.signingKey != m.selectionKey && m.signing != m.selection
    && c.isPublicKey(m.selectionKey)
  }

  /** Everything the signature covers. */
  function Signed(m: References): Bytes {
    MAGIC + SUITE + m.id + m.signingKey + m.selectionKey
    + BigEndian(|m.signing|, 2) + BigEndian(|m.selection|, 2) + m.signing + m.selection
  }

  function Parse(c: Curve, bytes: Bytes): Result<References, CodecError> {
    if |bytes| < HEADER + 66 || |bytes| > MAX_STATE || bytes[..5] != MAGIC || bytes[5..7] != SUITE then Err(Malformed)
    else
      var (signing, selection) := (Number(bytes[89..91]), Number(bytes[91..93]));
      if signing == 0 || selection == 0 || signing > MAX_REFERENCE || selection > MAX_REFERENCE
         || |bytes| != HEADER + signing + selection + 64
      then Err(Malformed)
      else
        var end := |bytes| - 64;
        var m := References(bytes[7..23], bytes[23..56], bytes[56..89], bytes[HEADER..HEADER + signing],
                            bytes[HEADER + signing..end]);
        if m.signingKey == m.selectionKey || m.signing == m.selection || !c.isPublicKey(m.selectionKey)
           || !c.verifies(m.signingKey, bytes[..end], bytes[end..])
        then Err(Malformed) else Ok(m)
  }

  lemma {:induction false} BigEndianOfNumber(b: Bytes)
    ensures BigEndian(Number(b), |b|) == b
    decreases |b|
  {
    if b != [] {
      BigEndianOfNumber(b[..|b| - 1]);
      var n := Number(b[..|b| - 1]);
      assert (n * 256 + b[|b| - 1]) / 256 == n && (n * 256 + b[|b| - 1]) % 256 == b[|b| - 1];
    }
  }

  /** Where the fields lie in what is signed. */
  lemma SignedLayout(m: References)
    requires Shape(m) && |m.signing| < 0x1_0000 && |m.selection| < 0x1_0000
    ensures var b := Signed(m);
            && |b| == HEADER + |m.signing| + |m.selection|
            && b[..5] == MAGIC && b[5..7] == SUITE && b[7..23] == m.id && b[23..56] == m.signingKey
            && b[56..89] == m.selectionKey
            && Number(b[89..91]) == |m.signing| && Number(b[91..93]) == |m.selection|
            && b[HEADER..HEADER + |m.signing|] == m.signing && b[HEADER + |m.signing|..] == m.selection
  {
    Capacities();
    NumberOfBigEndian(|m.signing|, 2);
    NumberOfBigEndian(|m.selection|, 2);
    var (x, y) := (BigEndian(|m.signing|, 2), BigEndian(|m.selection|, 2));
    var b := Signed(m);
    assert b == MAGIC + SUITE + m.id + m.signingKey + m.selectionKey + x + y + m.signing + m.selection;
    assert b[..5] == MAGIC && b[5..7] == SUITE && b[7..23] == m.id && b[23..56] == m.signingKey;
    assert b[56..89] == m.selectionKey && b[89..91] == x && b[91..93] == y;
    assert b[HEADER..HEADER + |m.signing|] == m.signing && b[HEADER + |m.signing|..] == m.selection;
  }

  lemma ParseUndoesSigned(c: Curve, m: References, signature: Bytes)
    requires Valid(c, m) && |signature| == 64 && c.verifies(m.signingKey, Signed(m), signature)
    ensures Parse(c, Signed(m) + signature) == Ok(m)
  {
    SignedLayout(m);
    var (b, bytes) := (Signed(m), Signed(m) + signature);
    var end := |bytes| - 64;
    assert bytes[..end] == b && bytes[end..] == signature;
    assert bytes[..5] == b[..5] && bytes[5..7] == b[5..7] && bytes[7..23] == b[7..23] && bytes[23..56] == b[23..56];
    assert bytes[56..89] == b[56..89] && bytes[89..91] == b[89..91] && bytes[91..93] == b[91..93];
    assert bytes[HEADER..HEADER + |m.signing|] == b[HEADER..HEADER + |m.signing|];
    assert bytes[HEADER + |m.signing|..end] == b[HEADER + |m.signing|..];
  }

  lemma HeaderSplits(b: Bytes)
    requires |b| == HEADER
    ensures b == b[..5] + b[5..7] + b[7..23] + b[23..56] + b[56..89] + b[89..91] + b[91..]
  {
  }

  lemma ParsedIsSigned(c: Curve, bytes: Bytes)
    requires Parse(c, bytes).Ok?
    ensures var m := Parse(c, bytes).value; |bytes| == |Signed(m)| + 64 && bytes[..|bytes| - 64] == Signed(m)
  {
    var m := Parse(c, bytes).value;
    var end := |bytes| - 64;
    BigEndianOfNumber(bytes[89..91]);
    BigEndianOfNumber(bytes[91..93]);
    HeaderSplits(bytes[..HEADER]);
    var header := bytes[..HEADER];
    assert header[..5] == bytes[..5] && header[5..7] == bytes[5..7] && header[7..23] == bytes[7..23];
    assert header[23..56] == bytes[23..56] && header[56..89] == bytes[56..89];
    assert header[89..91] == bytes[89..91] && header[91..] == bytes[91..93];
    assert bytes[..end] == header + m.signing + m.selection;
  }

  /** A byte string is accepted exactly if it is the layout of these references and their signature. */
  lemma ParseIff(c: Curve, bytes: Bytes, m: References)
    ensures Parse(c, bytes) == Ok(m) <==>
            && Valid(c, m)
            && |bytes| == |Signed(m)| + 64 && bytes[..|bytes| - 64] == Signed(m)
            && c.verifies(m.signingKey, Signed(m), bytes[|bytes| - 64..])
  {
    if Parse(c, bytes) == Ok(m) {
      ParsedIsSigned(c, bytes);
    } else if Valid(c, m) && |bytes| == |Signed(m)| + 64 && bytes[..|bytes| - 64] == Signed(m)
              && c.verifies(m.signingKey, Signed(m), bytes[|bytes| - 64..]) {
      assert bytes == Signed(m) + bytes[|bytes| - 64..];
      ParseUndoesSigned(c, m, bytes[|bytes| - 64..]);
    }
  }

  /** `encode`: what it returns has been parsed again, so it can only be read as what was written. */
  method Encode(c: Curve, m: References, sign: Bytes -> Bytes) returns (r: Result<Bytes, CodecError>)
    requires Shape(m)
    requires forall b :: |sign(b)| == 64
    ensures r.Ok? <==> Valid(c, m) && c.verifies(m.signingKey, Signed(m), sign(Signed(m)))
    ensures r.Ok? ==> r.value == Signed(m) + sign(Signed(m)) && Parse(c, r.value) == Ok(m)
  {
    var bytes := MAGIC + SUITE;
    bytes := bytes + m.id;
    bytes := bytes + m.signingKey;
    bytes := bytes + m.selectionKey;
    var references := [m.signing, m.selection];
    for i := 0 to 2
      invariant bytes == MAGIC + SUITE + m.id + m.signingKey + m.selectionKey
                         + (if i >= 1 then BigEndian(|m.signing|, 2) else [])
                         + (if i == 2 then BigEndian(|m.selection|, 2) else [])
      invariant i >= 1 ==> |m.signing| < 0x1_0000
      invariant i == 2 ==> |m.selection| < 0x1_0000
    {
      if |references[i]| >= 0x1_0000 { return Err(Malformed); }
      bytes := bytes + BigEndian(|references[i]|, 2);
    }
    bytes := bytes + m.signing;
    bytes := bytes + m.selection;
    assert bytes == Signed(m);
    bytes := bytes + sign(bytes);
    ParseIff(c, bytes, m);
    assert bytes[..|bytes| - 64] == Signed(m) && bytes[|bytes| - 64..] == sign(Signed(m));
    var parsed := Parse(c, bytes);
    if parsed.Err? { return Err(Malformed); }
    SameSignedSameLength(c, bytes, m);
    return Ok(bytes);
  }

  /** Lengths below 2^16 are not confused: a parsed record is the written one. */
  lemma SameSignedSameLength(c: Curve, bytes: Bytes, m: References)
    requires Shape(m) && |m.signing| < 0x1_0000 && |m.selection| < 0x1_0000
    requires Parse(c, bytes).Ok? && |bytes| == |Signed(m)| + 64 && bytes[..|bytes| - 64] == Signed(m)
    ensures Parse(c, bytes).value == m
  {
    var p := Parse(c, bytes).value;
    ParsedIsSigned(c, bytes);
    ParseIff(c, bytes, p);
    SignedLayout(m);
    SignedLayout(p);
  }
}
