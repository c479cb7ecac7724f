/**
 The strict record formats: identity stub, locator, cleanup journal and setup journal. A record
 is read with the tolerant reader and accepted only if encoding it again gives the same bytes.
 */
module Codec {
  import opened Records
  import opened Cbor

  /** The text of a path, in the bytes that are serialized. */
  type PathText = Bytes

  /** Key parsing and curve membership, which this model leaves open. */
  datatype Crypto = Crypto(
    recipientKey: Bytes -> Option<Bytes>,
    isSigningKey: Bytes -> bool,
    isAgreementKey: Bytes -> bool)

  const PHONE: Bytes := [0x70, 0x68, 0x6F, 0x6E, 0x65]

  /** A fixed-size field. */
  function ReadFixed(b: Bytes, size: nat): (r: Reading<Bytes>)
    ensures r.Ok? ==> |r.value.value| == size
  {
    var r :- ReadBytes(b);
    if |r.value| == size then Ok(r) else Err(Malformed)
  }

  // ----- Identity stub -----

  function StubItems(s: PublicIdentityStub): seq<Item> {
    [Array(11), U16(2), U16(1), Blob(s.desktopId), Blob(s.identityId), Text(s.recipient), Blob(s.desktopSigningKey),
     Blob(s.desktopSelectionKey), Blob(s.phoneSigningKey), Blob(s.offerDigest), Blob(s.fingerprint), Text(PHONE)]
  }

  function EncodeStub(s: PublicIdentityStub): Bytes {
    Flatten(StubItems(s))
  }

  /** What the field types of a stub already promise. */
  predicate StubShape(s: PublicIdentityStub) {
    && |s.desktopId| == 16 && |s.identityId| == 16
    && Utf8(s.recipient)
    && |s.desktopSigningKey| == 33 && |s.desktopSelectionKey| == 33 && |s.phoneSigningKey| == 33
    && |s.offerDigest| == 32 && |s.fingerprint| == 32
  }

  /** Every key parses, and no two of the four roles share one. */
  predicate StubKeys(c: Crypto, s: PublicIdentityStub) {
    && c.recipientKey(s.recipient).Some?
    && c.isSigningKey(s.desktopSigningKey) && c.isAgreementKey(s.desktopSelectionKey)
    && c.isSigningKey(s.phoneSigningKey)
    && var phone := c.recipientKey(s.recipient).value;
       && s.desktopSelectionKey != s.desktopSigningKey
       && phone != s.desktopSigningKey && phone != s.desktopSelectionKey && phone != s.phoneSigningKey
       && s.phoneSigningKey != s.desktopSigningKey && s.phoneSigningKey != s.desktopSelectionKey
  }

  predicate ValidStub(c: Crypto, s: PublicIdentityStub) {
    StubShape(s) && StubKeys(c, s)
  }

  /** The eight fields and the plugin name, whose failure the decoder reports like the others. */
  function ReadStubFields(b: Bytes): (r: Reading<PublicIdentityStub>)
    ensures r.Ok? ==> StubShape(r.value.value)
  {
    var desktopId :- ReadFixed(b, 16);
    var identityId :- ReadFixed(desktopId.rest, 16);
    var recipient :- ReadText(identityId.rest);
    var signing :- ReadFixed(recipient.rest, 33);
    var selection :- ReadFixed(signing.rest, 33);
    var phone :- ReadFixed(selection.rest, 33);
    var offer :- ReadFixed(phone.rest, 32);
    var fingerprint :- ReadFixed(offer.rest, 32);
    var plugin :- ReadText(fingerprint.rest);
    if plugin.value != PHONE then Err(Malformed) else
    Ok(Read(PublicIdentityStub(desktopId.value, identityId.value, recipient.value, signing.value,
                               selection.value, phone.value, offer.value, fingerprint.value), plugin.rest))
  }

  /** Eleven fields, of the one version and suite this release knows. */
  function ReadStubHeader(b: Bytes): Reading<()> {
    var fields :- ReadArray(b);
    if fields.value != Some(11) then Err(Malformed) else
    var version :- ReadU16(fields.rest);
    if version.value != 2 then Err(Unsupported) else
    var suite :- ReadU16(version.rest);
    if suite.value != 1 then Err(Unsupported) else
    Ok(Read((), suite.rest))
  }

  /** Accepts what was read only if it ends there and is the one encoding of a well-keyed stub. */
  function StrictStub(c: Crypto, s: PublicIdentityStub, ended: bool, bytes: Bytes)
    : Result<PublicIdentityStub, CodecError>
  {
    if !ended || EncodeStub(s) != bytes || !StubKeys(c, s) then Err(Malformed) else Ok(s)
  }

  function DecodeStub(c: Crypto, bytes: Bytes): Result<PublicIdentityStub, CodecError> {
    var header :- ReadStubHeader(bytes);
    var value :- ReadStubFields(header.rest);
    StrictStub(c, value.value, value.rest == [], bytes)
  }

  /** Writable apart from its size. */
  predicate Wellformed(i: Item) {
    (i.U16? ==> i.n < 0x1_0000) && (i.Text? ==> Utf8(i.text)) && (i.Array? ==> i.count < U64)
  }

  lemma ItemsFit(items: seq<Item>)
    requires |Flatten(items)| < U64
    requires forall i :: 0 <= i < |items| ==> Wellformed(items[i])
    ensures forall i :: 0 <= i < |items| ==> Fits(items[i])
  {
    forall i | 0 <= i < |items|
      ensures Fits(items[i])
    {
      WrittenIsShorter(items, i);
    }
  }

  lemma StubItemsFit(s: PublicIdentityStub)
    requires StubShape(s) && |EncodeStub(s)| < U64
    ensures forall i :: 0 <= i < |StubItems(s)| ==> Fits(StubItems(s)[i])
  {
    AsciiIsUtf8(PHONE);
    ItemsFit(StubItems(s));
  }

  lemma StubReads(c: Crypto, s: PublicIdentityStub, rests: seq<Bytes>)
    requires ValidStub(c, s) && ReadsThrough(StubItems(s), rests) && rests[0] == EncodeStub(s)
    ensures DecodeStub(c, rests[0]) == Ok(s)
  {
    var items := StubItems(s);
    assert Yields(items[0], rests[0], rests[1]) && Yields(items[1], rests[1], rests[2]);
    assert Yields(items[2], rests[2], rests[3]) && Yields(items[3], rests[3], rests[4]);
    assert Yields(items[4], rests[4], rests[5]) && Yields(items[5], rests[5], rests[6]);
    assert Yields(items[6], rests[6], rests[7]) && Yields(items[7], rests[7], rests[8]);
    assert Yields(items[8], rests[8], rests[9]) && Yields(items[9], rests[9], rests[10]);
    assert Yields(items[10], rests[10], rests[11]) && Yields(items[11], rests[11], rests[12]);
  }

  lemma StubRoundTrip(c: Crypto, s: PublicIdentityStub)
    requires ValidStub(c, s) && |EncodeStub(s)| < U64
    ensures DecodeStub(c, EncodeStub(s)) == Ok(s)
  {
    StubItemsFit(s);
    var rests := Remainders(StubItems(s));
    StubReads(c, s, rests);
  }

  lemma StubAccepted(c: Crypto, bytes: Bytes)
    requires DecodeStub(c, bytes).Ok?
    ensures var s := DecodeStub(c, bytes).value; ValidStub(c, s) && bytes == EncodeStub(s)
  {
  }

  /** The accepted byte strings are exactly the encodings of the valid stubs. */
  lemma StubAcceptedIff(c: Crypto, bytes: Bytes, s: PublicIdentityStub)
    requires |bytes| < U64
    ensures DecodeStub(c, bytes) == Ok(s) <==> ValidStub(c, s) && bytes == EncodeStub(s)
  {
    if ValidStub(c, s) && bytes == EncodeStub(s) { StubRoundTrip(c, s); }
    if DecodeStub(c, bytes) == Ok(s) { StubAccepted(c, bytes); }
  }

  // ----- Paths and transports as text -----

  predicate Absolute(p: PathText) {
    p != [] && p[0] == 0x2F
  }

  /** `file_name` is present: what is left after trailing slashes and `/.` does not end in `..`. */
  predicate Named(p: PathText) {
    if p == [] then false
    else if p[|p| - 1] == 0x2F then Named(p[..|p| - 1])
    else if |p| >= 2 && p[|p| - 2] == 0x2F && p[|p| - 1] == 0x2E then Named(p[..|p| - 1])
    else !(|p| >= 3 && p[|p| - 3] == 0x2F && p[|p| - 2] == 0x2E && p[|p| - 1] == 0x2E)
  }

  predicate OneLine(p: PathText) {
    Utf8(p) && 0x0A !in p
  }

  predicate Printable(p: PathText) {
    Utf8(p) && 0x0A !in p && 0x0D !in p && 0 !in p
  }

  function TransportText(t: TransportChoice): (b: Bytes)
    ensures Utf8(b)
    ensures ParseTransport(b) == Ok(t)
  {
    var b: Bytes := match t
      case Auto => [0x61, 0x75, 0x74, 0x6F]
      case Adb => [0x61, 0x64, 0x62]
      case Ble => [0x62, 0x6C, 0x65]
      case Wifi => [0x77, 0x69, 0x66, 0x69]
      case Qr => [0x71, 0x72];
    AsciiIsUtf8(b);
    b
  }

  function ParseTransport(b: Bytes): Result<TransportChoice, CodecError> {
    if b == [0x61, 0x75, 0x74, 0x6F] then Ok(TransportChoice.Auto)
    else if b == [0x61, 0x64, 0x62] then Ok(Adb)
    else if b == [0x62, 0x6C, 0x65] then Ok(Ble)
    else if b == [0x77, 0x69, 0x66, 0x69] then Ok(Wifi)
    else if b == [0x71, 0x72] then Ok(Qr)
    else Err(Malformed)
  }

  // ----- Locator, versions 3 and 2 -----

  type Locator = PairingLocator<PathText>

  function LocatorItems(v: Locator): seq<Item> {
    [Array(7), U16(3), Blob(v.desktopId), Blob(v.identityId), Blob(v.fingerprint), Text(v.desktopState),
     Text(v.replayState), Text(TransportText(v.transport))]
  }

  function LegacyLocatorItems(v: Locator): seq<Item> {
    [Array(6), U16(2), Blob(v.desktopId), Blob(v.identityId), Blob(v.fingerprint), Text(v.desktopState),
     Text(v.replayState)]
  }

  predicate LocatorEncodable(v: Locator) {
    OneLine(v.desktopState) && OneLine(v.replayState)
  }

  function EncodeLocator(v: Locator): Result<Bytes, CodecError> {
    if LocatorEncodable(v) then Ok(Flatten(LocatorItems(v))) else Err(Malformed)
  }

  function EncodeLegacyLocator(v: Locator): Result<Bytes, CodecError> {
    if LocatorEncodable(v) then Ok(Flatten(LegacyLocatorItems(v))) else Err(Malformed)
  }

  predicate LocatorShape(v: Locator) {
    |v.desktopId| == 16 && |v.identityId| == 16 && |v.fingerprint| == 32 && Utf8(v.desktopState) && Utf8(v.replayState)
  }

  predicate ValidLocator(v: Locator) {
    LocatorShape(v) && Absolute(v.desktopState) && Absolute(v.replayState)
  }

  function ReadLocatorFields(b: Bytes, withTransport: bool): (r: Reading<Locator>)
    ensures r.Ok? ==> LocatorShape(r.value.value)
    ensures r.Ok? && !withTransport ==> r.value.value.transport == TransportChoice.Auto
  {
    var desktopId :- ReadFixed(b, 16);
    var identityId :- ReadFixed(desktopId.rest, 16);
    var fingerprint :- ReadFixed(identityId.rest, 32);
    var desktop :- ReadText(fingerprint.rest);
    var replay :- ReadText(desktop.rest);
    if withTransport then
      var text :- ReadText(replay.rest);
      var transport :- ParseTransport(text.value);
      Ok(Read(PairingLocator(desktopId.value, identityId.value, fingerprint.value, desktop.value, replay.value,
                             transport), text.rest))
    else
      Ok(Read(PairingLocator(desktopId.value, identityId.value, fingerprint.value, desktop.value, replay.value,
                             TransportChoice.Auto), replay.rest))
  }

  function StrictLocator(v: Locator, version: nat, ended: bool, bytes: Bytes): Result<Locator, CodecError> {
    var canonical :- if version == 3 then EncodeLocator(v) else EncodeLegacyLocator(v);
    if !ended || canonical != bytes || !Absolute(v.desktopState) || !Absolute(v.replayState) then Err(Malformed)
    else Ok(v)
  }

  function ReadLocatorHeader(b: Bytes): (r: Reading<nat>)
    ensures r.Ok? ==> r.value.value in {2, 3}
  {
    var fields :- ReadArray(b);
    var version :- ReadU16(fields.rest);
    if (fields.value, version.value) != (Some(7), 3) && (fields.value, version.value) != (Some(6), 2)
    then Err(Malformed) else Ok(version)
  }

  function DecodeLocator(bytes: Bytes): Result<Locator, CodecError> {
    var version :- ReadLocatorHeader(bytes);
    var v :- ReadLocatorFields(version.rest, version.value == 3);
    StrictLocator(v.value, version.value, v.rest == [], bytes)
  }

  lemma LocatorReads(v: Locator, rests: seq<Bytes>)
    requires ValidLocator(v) && ReadsThrough(LocatorItems(v), rests) && EncodeLocator(v) == Ok(rests[0])
    ensures DecodeLocator(rests[0]) == Ok(v)
  {
    var items := LocatorItems(v);
    assert Yields(items[0], rests[0], rests[1]) && Yields(items[1], rests[1], rests[2]);
    assert Yields(items[2], rests[2], rests[3]) && Yields(items[3], rests[3], rests[4]);
    assert Yields(items[4], rests[4], rests[5]) && Yields(items[5], rests[5], rests[6]);
    assert Yields(items[6], rests[6], rests[7]) && Yields(items[7], rests[7], rests[8]);
  }

  lemma LegacyLocatorReads(v: Locator, rests: seq<Bytes>)
    requires ValidLocator(v) && v.transport == TransportChoice.Auto
    requires ReadsThrough(LegacyLocatorItems(v), rests) && EncodeLegacyLocator(v) == Ok(rests[0])
    ensures DecodeLocator(rests[0]) == Ok(v)
  {
    var items := LegacyLocatorItems(v);
    assert Yields(items[0], rests[0], rests[1]) && Yields(items[1], rests[1], rests[2]);
    assert Yields(items[2], rests[2], rests[3]) && Yields(items[3], rests[3], rests[4]);
    assert Yields(items[4], rests[4], rests[5]) && Yields(items[5], rests[5], rests[6]);
    assert Yields(items[6], rests[6], rests[7]);
  }

  lemma LocatorRoundTrip(v: Locator, bytes: Bytes)
    requires ValidLocator(v) && |bytes| < U64
    requires || EncodeLocator(v) == Ok(bytes)
             || (v.transport == TransportChoice.Auto && EncodeLegacyLocator(v) == Ok(bytes))
    ensures DecodeLocator(bytes) == Ok(v)
  {
    if EncodeLocator(v) == Ok(bytes) {
      ItemsFit(LocatorItems(v));
      var rests := Remainders(LocatorItems(v));
      LocatorReads(v, rests);
    } else {
      ItemsFit(LegacyLocatorItems(v));
      var rests := Remainders(LegacyLocatorItems(v));
      LegacyLocatorReads(v, rests);
    }
  }

  lemma LocatorAccepted(bytes: Bytes)
    requires DecodeLocator(bytes).Ok?
    ensures var v := DecodeLocator(bytes).value;
            ValidLocator(v)
            && (EncodeLocator(v) == Ok(bytes)
                || (v.transport == TransportChoice.Auto && EncodeLegacyLocator(v) == Ok(bytes)))
  {
  }

  /** A byte string is accepted exactly if it encodes the locator in one of the two versions. */
  lemma LocatorAcceptedIff(bytes: Bytes, v: Locator)
    requires |bytes| < U64
    ensures DecodeLocator(bytes) == Ok(v) <==>
            ValidLocator(v)
            && (EncodeLocator(v) == Ok(bytes)
                || (v.transport == TransportChoice.Auto && EncodeLegacyLocator(v) == Ok(bytes)))
  {
    if DecodeLocator(bytes) == Ok(v) {
      LocatorAccepted(bytes);
    } else if ValidLocator(v) && (EncodeLocator(v) == Ok(bytes)
                                  || (v.transport == TransportChoice.Auto && EncodeLegacyLocator(v) == Ok(bytes))) {
      LocatorRoundTrip(v, bytes);
    }
  }

  /** No byte string is a locator of both versions. */
  lemma LocatorVersionsDiffer(v: Locator, w: Locator)
    requires EncodeLocator(v).Ok? && EncodeLegacyLocator(w).Ok?
    ensures EncodeLocator(v) != EncodeLegacyLocator(w)
  {
    ItemDiffers(LocatorItems(v), LegacyLocatorItems(w), 0);
  }

  // ----- Cleanup journal, versions 2 and 1 -----

  type Cleanup = CleanupJournal<PathText>

  function TargetItems(t: CleanupTarget<PathText>): seq<Item> {
    match t
    case Paired(stub, path) => [U16(1), Array(2), Blob(EncodeStub(stub)), Text(path)]
    case Orphan(desktopId, identityId, fingerprint) =>
      [U16(2), Array(3), Blob(desktopId), Blob(identityId), Blob(fingerprint)]
  }

  function PathItems(v: Cleanup): seq<Item> {
    [Text(v.locatorPath), Text(v.desktopState), Text(v.replayState)]
  }

  function CleanupItems(v: Cleanup): seq<Item> {
    [Array(6), U16(2)] + TargetItems(v.target) + PathItems(v)
  }

  function LegacyCleanupItems(v: Cleanup): seq<Item>
    requires v.target.Paired?
  {
    [Array(6), U16(1), Blob(EncodeStub(v.target.stub)), Text(v.target.stubPath)] + PathItems(v)
  }

  predicate CleanupEncodable(v: Cleanup) {
    && (v.target.Paired? ==> Printable(v.target.stubPath))
    && Printable(v.locatorPath) && Printable(v.desktopState) && Printable(v.replayState)
  }

  function EncodeCleanup(v: Cleanup): Result<Bytes, CodecError> {
    if CleanupEncodable(v) then Ok(Flatten(CleanupItems(v))) else Err(Malformed)
  }

  function EncodeLegacyCleanup(v: Cleanup): Result<Bytes, CodecError> {
    if v.target.Paired? && CleanupEncodable(v) then Ok(Flatten(LegacyCleanupItems(v))) else Err(Malformed)
  }

  predicate TargetShape(c: Crypto, t: CleanupTarget<PathText>) {
    match t
    case Paired(stub, path) => ValidStub(c, stub) && Utf8(path)
    case Orphan(desktopId, identityId, fingerprint) => |desktopId| == 16 && |identityId| == 16 && |fingerprint| == 32
  }

  predicate CleanupPathsValid(v: Cleanup) {
    && (v.target.Paired? ==> Absolute(v.target.stubPath) && Named(v.target.stubPath))
    && Absolute(v.locatorPath) && Named(v.locatorPath)
    && Absolute(v.desktopState) && Named(v.desktopState)
    && Absolute(v.replayState) && Named(v.replayState)
  }

  predicate CleanupTextsValid(v: Cleanup) {
    Utf8(v.locatorPath) && Utf8(v.desktopState) && Utf8(v.replayState)
  }

  predicate ValidCleanup(c: Crypto, v: Cleanup) {
    TargetShape(c, v.target) && CleanupTextsValid(v) && CleanupPathsValid(v)
  }

  /** An embedded stub; its own errors become the journal's one error. */
  function ReadStub(c: Crypto, b: Bytes): Reading<PublicIdentityStub> {
    var bytes :- ReadBytes(b);
    match DecodeStub(c, bytes.value)
    case Ok(stub) => Ok(Read(stub, bytes.rest))
    case Err(_) => Err(Malformed)
  }

  function ReadPaired(c: Crypto, b: Bytes): (r: Reading<CleanupTarget<PathText>>)
    ensures r.Ok? ==> TargetShape(c, r.value.value) && r.value.value.Paired?
  {
    var stub :- ReadStub(c, b);
    StubIsValid(c, b);
    var path :- ReadText(stub.rest);
    Ok(Read(Paired(stub.value, path.value), path.rest))
  }

  function ReadTarget(c: Crypto, b: Bytes): (r: Reading<CleanupTarget<PathText>>)
    ensures r.Ok? ==> TargetShape(c, r.value.value)
  {
    var kind :- ReadU16(b);
    if kind.value == 1 then
      var fields :- ReadArray(kind.rest);
      if fields.value != Some(2) then Err(Malformed) else ReadPaired(c, fields.rest)
    else if kind.value == 2 then
      var fields :- ReadArray(kind.rest);
      if fields.value != Some(3) then Err(Malformed) else
      var desktopId :- ReadFixed(fields.rest, 16);
      var identityId :- ReadFixed(desktopId.rest, 16);
      var fingerprint :- ReadFixed(identityId.rest, 32);
      Ok(Read(Orphan(desktopId.value, identityId.value, fingerprint.value), fingerprint.rest))
    else Err(Malformed)
  }

  function ReadPaths(t: CleanupTarget<PathText>, b: Bytes): (r: Reading<Cleanup>)
    ensures r.Ok? ==> r.value.value.target == t && CleanupTextsValid(r.value.value)
  {
    var locator :- ReadText(b);
    var desktop :- ReadText(locator.rest);
    var replay :- ReadText(desktop.rest);
    Ok(Read(CleanupJournal(t, locator.value, desktop.value, replay.value), replay.rest))
  }

  function ReadCleanup(c: Crypto, version: nat, b: Bytes): (r: Reading<Cleanup>)
    ensures r.Ok? ==> TargetShape(c, r.value.value.target) && CleanupTextsValid(r.value.value)
  {
    var target :- if version == 1 then ReadPaired(c, b) else ReadTarget(c, b);
    ReadPaths(target.value, target.rest)
  }

  function StrictCleanup(v: Cleanup, version: nat, ended: bool, bytes: Bytes): Result<Cleanup, CodecError> {
    var canonical :- if version == 1 then EncodeLegacyCleanup(v) else EncodeCleanup(v);
    if !ended || canonical != bytes || !CleanupPathsValid(v) then Err(Malformed) else Ok(v)
  }

  function ReadCleanupHeader(b: Bytes): (r: Reading<nat>)
    ensures r.Ok? ==> r.value.value in {1, 2}
  {
    var fields :- ReadArray(b);
    if fields.value != Some(6) then Err(Malformed) else
    var version :- ReadU16(fields.rest);
    if version.value != 1 && version.value != 2 then Err(Malformed) else Ok(version)
  }

  function DecodeCleanup(c: Crypto, bytes: Bytes): Result<Cleanup, CodecError> {
    var version :- ReadCleanupHeader(bytes);
    var v :- ReadCleanup(c, version.value, version.rest);
    StrictCleanup(v.value, version.value, v.rest == [], bytes)
  }

  lemma StubIsValid(c: Crypto, b: Bytes)
    ensures ReadStub(c, b).Ok? ==> ValidStub(c, ReadStub(c, b).value.value)
  {
    var bytes := ReadBytes(b);
    if bytes.Ok? && DecodeStub(c, bytes.value.value).Ok? { StubAccepted(c, bytes.value.value); }
  }

  lemma PairedTargetReads(c: Crypto, t: CleanupTarget<PathText>, b0: Bytes, b1: Bytes, b2: Bytes, b3: Bytes, b4: Bytes)
    requires t.Paired? && DecodeStub(c, EncodeStub(t.stub)) == Ok(t.stub)
    requires Yields(U16(1), b0, b1) && Yields(Array(2), b1, b2)
    requires Yields(Blob(EncodeStub(t.stub)), b2, b3) && Yields(Text(t.stubPath), b3, b4)
    ensures ReadTarget(c, b0) == Ok(Read(t, b4))
  {
  }

  lemma PairedReads(c: Crypto, v: Cleanup, rests: seq<Bytes>)
    requires ValidCleanup(c, v) && v.target.Paired? && DecodeStub(c, EncodeStub(v.target.stub)) == Ok(v.target.stub)
    requires ReadsThrough(CleanupItems(v), rests) && EncodeCleanup(v) == Ok(rests[0])
    ensures DecodeCleanup(c, rests[0]) == Ok(v)
  {
    var items := CleanupItems(v);
    assert Yields(items[0], rests[0], rests[1]) && Yields(items[1], rests[1], rests[2]);
    assert Yields(items[2], rests[2], rests[3]) && Yields(items[3], rests[3], rests[4]);
    assert Yields(items[4], rests[4], rests[5]) && Yields(items[5], rests[5], rests[6]);
    PairedTargetReads(c, v.target, rests[2], rests[3], rests[4], rests[5], rests[6]);
    assert Yields(items[6], rests[6], rests[7]) && Yields(items[7], rests[7], rests[8]);
    assert Yields(items[8], rests[8], rests[9]);
    assert ReadPaths(v.target, rests[6]) == Ok(Read(v, rests[9]));
  }

  lemma OrphanReads(c: Crypto, v: Cleanup, rests: seq<Bytes>)
    requires ValidCleanup(c, v) && v.target.Orphan?
    requires ReadsThrough(CleanupItems(v), rests) && EncodeCleanup(v) == Ok(rests[0])
    ensures DecodeCleanup(c, rests[0]) == Ok(v)
  {
    var items := CleanupItems(v);
    assert Yields(items[0], rests[0], rests[1]) && Yields(items[1], rests[1], rests[2]);
    assert Yields(items[2], rests[2], rests[3]) && Yields(items[3], rests[3], rests[4]);
    assert Yields(items[4], rests[4], rests[5]) && Yields(items[5], rests[5], rests[6]);
    assert Yields(items[6], rests[6], rests[7]);
    assert ReadTarget(c, rests[2]) == Ok(Read(v.target, rests[7]));
    assert Yields(items[7], rests[7], rests[8]) && Yields(items[8], rests[8], rests[9]);
    assert Yields(items[9], rests[9], rests[10]);
    assert ReadPaths(v.target, rests[7]) == Ok(Read(v, rests[10]));
  }

  lemma LegacyCleanupReads(c: Crypto, v: Cleanup, rests: seq<Bytes>)
    requires ValidCleanup(c, v) && v.target.Paired? && DecodeStub(c, EncodeStub(v.target.stub)) == Ok(v.target.stub)
    requires ReadsThrough(LegacyCleanupItems(v), rests) && EncodeLegacyCleanup(v) == Ok(rests[0])
    ensures DecodeCleanup(c, rests[0]) == Ok(v)
  {
    var items := LegacyCleanupItems(v);
    assert Yields(items[0], rests[0], rests[1]) && Yields(items[1], rests[1], rests[2]);
    assert Yields(items[2], rests[2], rests[3]) && Yields(items[3], rests[3], rests[4]);
    assert ReadPaired(c, rests[2]) == Ok(Read(v.target, rests[4]));
    assert Yields(items[4], rests[4], rests[5]) && Yields(items[5], rests[5], rests[6]);
    assert Yields(items[6], rests[6], rests[7]);
    assert ReadPaths(v.target, rests[4]) == Ok(Read(v, rests[7]));
  }

  lemma CleanupItemsFit(v: Cleanup)
    requires CleanupEncodable(v) && |Flatten(CleanupItems(v))| < U64
    ensures forall i :: 0 <= i < |CleanupItems(v)| ==> Fits(CleanupItems(v)[i])
    ensures v.target.Paired? ==> |EncodeStub(v.target.stub)| < U64
  {
    ItemsFit(CleanupItems(v));
    if v.target.Paired? { assert CleanupItems(v)[4] == Blob(EncodeStub(v.target.stub)); }
  }

  lemma LegacyCleanupItemsFit(v: Cleanup)
    requires v.target.Paired? && CleanupEncodable(v) && |Flatten(LegacyCleanupItems(v))| < U64
    ensures forall i :: 0 <= i < |LegacyCleanupItems(v)| ==> Fits(LegacyCleanupItems(v)[i])
    ensures |EncodeStub(v.target.stub)| < U64
  {
    ItemsFit(LegacyCleanupItems(v));
    assert LegacyCleanupItems(v)[2] == Blob(EncodeStub(v.target.stub));
  }

  lemma CleanupRoundTrip(c: Crypto, v: Cleanup, bytes: Bytes)
    requires ValidCleanup(c, v) && |bytes| < U64
    requires EncodeCleanup(v) == Ok(bytes) || EncodeLegacyCleanup(v) == Ok(bytes)
    ensures DecodeCleanup(c, bytes) == Ok(v)
  {
    if EncodeCleanup(v) == Ok(bytes) {
      CleanupItemsFit(v);
      var rests := Remainders(CleanupItems(v));
      if v.target.Orphan? {
        OrphanReads(c, v, rests);
      } else {
        StubRoundTrip(c, v.target.stub);
        PairedReads(c, v, rests);
      }
    } else {
      LegacyCleanupItemsFit(v);
      var rests := Remainders(LegacyCleanupItems(v));
      StubRoundTrip(c, v.target.stub);
      LegacyCleanupReads(c, v, rests);
    }
  }

  lemma CleanupAccepted(c: Crypto, bytes: Bytes)
    requires DecodeCleanup(c, bytes).Ok?
    ensures var v := DecodeCleanup(c, bytes).value;
            ValidCleanup(c, v) && (EncodeCleanup(v) == Ok(bytes) || EncodeLegacyCleanup(v) == Ok(bytes))
  {
  }

  /** A byte string is accepted exactly if it encodes the journal in one of the two versions. */
  lemma CleanupAcceptedIff(c: Crypto, bytes: Bytes, v: Cleanup)
    requires |bytes| < U64
    ensures DecodeCleanup(c, bytes) == Ok(v) <==>
            ValidCleanup(c, v) && (EncodeCleanup(v) == Ok(bytes) || EncodeLegacyCleanup(v) == Ok(bytes))
  {
    if DecodeCleanup(c, bytes) == Ok(v) {
      CleanupAccepted(c, bytes);
    } else if ValidCleanup(c, v) && (EncodeCleanup(v) == Ok(bytes) || EncodeLegacyCleanup(v) == Ok(bytes)) {
      CleanupRoundTrip(c, v, bytes);
    }
  }

  lemma CleanupVersionsDiffer(v: Cleanup, w: Cleanup)
    requires EncodeCleanup(v).Ok? && EncodeLegacyCleanup(w).Ok?
    ensures EncodeCleanup(v) != EncodeLegacyCleanup(w)
  {
    ItemDiffers(CleanupItems(v), LegacyCleanupItems(w), 1);
  }

  // ----- Setup journal, versions 3, 2 and 1 -----

  type Setup = SetupJournal<PathText>

  function StageNumber(s: SetupStage): (n: nat)
    ensures ParseStage(n) == Ok(s) && n < 0x1_0000
  {
    match s
    case Provisioning => 1
    case Pairing => 2
    case ResponseVerified => 3
    case Confirmed => 4
  }

  function ParseStage(n: nat): Result<SetupStage, CodecError> {
    if n == 1 then Ok(Provisioning) else if n == 2 then Ok(Pairing)
    else if n == 3 then Ok(ResponseVerified) else if n == 4 then Ok(Confirmed) else Err(Malformed)
  }

  function CandidateItem(candidate: Option<PublicIdentityStub>): Item {
    match candidate
    case Some(stub) => Blob(EncodeStub(stub))
    case None => Null
  }

  function SetupFieldItems(v: Setup): seq<Item> {
    [U16(StageNumber(v.stage)), Blob(v.setupCode), Blob(v.desktopId), Text(v.desktopState), Text(v.replayState),
     Text(v.identityStub)]
  }

  function SetupItems(v: Setup): seq<Item> {
    (if v.explicitPaths then [Array(10), U16(3)] else [Array(9), U16(2)])
    + SetupFieldItems(v)
    + [Text(TransportText(v.transport)), CandidateItem(v.candidate)]
    + (if v.explicitPaths then [Bool(true)] else [])
  }

  function LegacySetupItems(v: Setup): seq<Item> {
    [Array(8), U16(1)] + SetupFieldItems(v) + [CandidateItem(v.candidate)]
  }

  predicate SetupEncodable(v: Setup) {
    Printable(v.desktopState) && Printable(v.replayState) && Printable(v.identityStub)
  }

  function EncodeSetup(v: Setup): Result<Bytes, CodecError> {
    if SetupEncodable(v) then Ok(Flatten(SetupItems(v))) else Err(Malformed)
  }

  function EncodeLegacySetup(v: Setup): Result<Bytes, CodecError> {
    if SetupEncodable(v) then Ok(Flatten(LegacySetupItems(v))) else Err(Malformed)
  }

  /** The fields every version has, before the transport and the candidate are known. */
  predicate SetupFieldsShape(v: Setup) {
    |v.setupCode| == 16 && |v.desktopId| == 16 && Utf8(v.desktopState) && Utf8(v.replayState) && Utf8(v.identityStub)
  }

  predicate ValidSetup(c: Crypto, v: Setup) {
    && SetupFieldsShape(v)
    && (v.candidate.Some? <==> v.stage in {ResponseVerified, Confirmed})
    && (v.candidate.Some? ==> ValidStub(c, v.candidate.value) && v.candidate.value.desktopId == v.desktopId)
  }

  function ReadSetupFields(b: Bytes, explicitPaths: bool): (r: Reading<Setup>)
    ensures r.Ok? ==> var v := r.value.value;
                      SetupFieldsShape(v) && v.explicitPaths == explicitPaths
                      && v.transport == TransportChoice.Auto && v.candidate == None
  {
    var number :- ReadU16(b);
    var stage :- ParseStage(number.value);
    var setupCode :- ReadFixed(number.rest, 16);
    var desktopId :- ReadFixed(setupCode.rest, 16);
    var desktop :- ReadText(desktopId.rest);
    var replay :- ReadText(desktop.rest);
    var stub :- ReadText(replay.rest);
    Ok(Read(SetupJournal(explicitPaths, stage, setupCode.value, desktopId.value, desktop.value, replay.value,
                         stub.value, TransportChoice.Auto, None), stub.rest))
  }

  function ReadTransport(b: Bytes): Reading<TransportChoice> {
    var text :- ReadText(b);
    var transport :- ParseTransport(text.value);
    Ok(Read(transport, text.rest))
  }

  function ReadCandidate(c: Crypto, b: Bytes): (r: Reading<Option<PublicIdentityStub>>)
    ensures r.Ok? && r.value.value.Some? ==> ValidStub(c, r.value.value.value)
  {
    var kind :- PeekKind(b);
    match kind
    case NullKind =>
      var nothing :- ReadNull(b);
      Ok(Read(None, nothing.rest))
    case BytesKind =>
      StubIsValid(c, b);
      var stub :- ReadStub(c, b);
      Ok(Read(Some(stub.value), stub.rest))
    case OtherKind => Err(Malformed)
  }

  function ReadOwnership(b: Bytes, explicitPaths: bool): Reading<()> {
    if !explicitPaths then Ok(Read((), b))
    else
      var flag :- ReadBool(b);
      if flag.value then Ok(Read((), flag.rest)) else Err(Malformed)
  }

  /** What follows the common fields: transport, candidate and the ownership flag, by version. */
  function ReadSetupRest(c: Crypto, v: Setup, version: nat, b: Bytes): (r: Reading<Setup>)
    ensures r.Ok? ==> && r.value.value == v.(transport := r.value.value.transport, candidate := r.value.value.candidate)
                      && (r.value.value.candidate.Some? ==> ValidStub(c, r.value.value.candidate.value))
                      && (version == 1 ==> r.value.value.transport == TransportChoice.Auto)
  {
    var transport :- if version == 1 then Ok(Read(TransportChoice.Auto, b)) else ReadTransport(b);
    var candidate :- ReadCandidate(c, transport.rest);
    var end :- ReadOwnership(candidate.rest, version == 3);
    Ok(Read(v.(transport := transport.value, candidate := candidate.value), end.rest))
  }

  function ReadSetup(c: Crypto, version: nat, b: Bytes): Reading<Setup> {
    var common :- ReadSetupFields(b, version == 3);
    ReadSetupRest(c, common.value, version, common.rest)
  }

  function StrictSetup(v: Setup, version: nat, ended: bool, bytes: Bytes): Result<Setup, CodecError> {
    var canonical :- if version == 1 then EncodeLegacySetup(v) else EncodeSetup(v);
    if !ended || canonical != bytes
       || v.candidate.Some? != (v.stage in {ResponseVerified, Confirmed})
       || (v.candidate.Some? && v.candidate.value.desktopId != v.desktopId)
    then Err(Malformed) else Ok(v)
  }

  function ReadSetupHeader(b: Bytes): (r: Reading<nat>)
    ensures r.Ok? ==> r.value.value in {1, 2, 3}
  {
    var fields :- ReadArray(b);
    var version :- ReadU16(fields.rest);
    if (fields.value, version.value) != (Some(10), 3) && (fields.value, version.value) != (Some(9), 2)
       && (fields.value, version.value) != (Some(8), 1)
    then Err(Malformed) else Ok(version)
  }

  function DecodeSetup(c: Crypto, bytes: Bytes): Result<Setup, CodecError> {
    var version :- ReadSetupHeader(bytes);
    var v :- ReadSetup(c, version.value, version.rest);
    StrictSetup(v.value, version.value, v.rest == [], bytes)
  }

  lemma SetupFieldsYield(v: Setup, rests: seq<Bytes>)
    requires SetupFieldsShape(v) && |rests| == 7
    requires forall k :: 0 <= k < 6 ==> Yields(SetupFieldItems(v)[k], rests[k], rests[k + 1])
    ensures ReadSetupFields(rests[0], v.explicitPaths)
         == Ok(Read(v.(transport := TransportChoice.Auto, candidate := None), rests[6]))
  {
    var items := SetupFieldItems(v);
    assert Yields(items[0], rests[0], rests[1]) && Yields(items[1], rests[1], rests[2]);
    assert Yields(items[2], rests[2], rests[3]) && Yields(items[3], rests[3], rests[4]);
    assert Yields(items[4], rests[4], rests[5]) && Yields(items[5], rests[5], rests[6]);
  }

  lemma SetupFieldsRead(v: Setup, items: seq<Item>, rests: seq<Bytes>)
    requires SetupFieldsShape(v) && ReadsThrough(items, rests) && |items| >= 8 && items[2..8] == SetupFieldItems(v)
    ensures ReadSetupFields(rests[2], v.explicitPaths)
         == Ok(Read(v.(transport := TransportChoice.Auto, candidate := None), rests[8]))
  {
    var own := SetupFieldItems(v);
    forall k | 0 <= k < 6
      ensures Yields(own[k], rests[k + 2], rests[k + 3])
    {
      assert own[k] == items[2..8][k] == items[k + 2];
    }
    SetupFieldsYield(v, rests[2..9]);
  }

  lemma CandidateReads(c: Crypto, candidate: Option<PublicIdentityStub>, b: Bytes, rest: Bytes)
    requires Yields(CandidateItem(candidate), b, rest) && Fits(CandidateItem(candidate))
    requires candidate.Some? ==> ValidStub(c, candidate.value)
    ensures ReadCandidate(c, b) == Ok(Read(candidate, rest))
  {
    if candidate.Some? { StubRoundTrip(c, candidate.value); }
  }

  lemma SetupReads(c: Crypto, v: Setup, rests: seq<Bytes>)
    requires ValidSetup(c, v) && Fits(CandidateItem(v.candidate))
    requires ReadsThrough(SetupItems(v), rests) && EncodeSetup(v) == Ok(rests[0])
    ensures DecodeSetup(c, rests[0]) == Ok(v)
  {
    var items := SetupItems(v);
    assert items[2..8] == SetupFieldItems(v);
    SetupFieldsRead(v, items, rests);
    assert Yields(items[0], rests[0], rests[1]) && Yields(items[1], rests[1], rests[2]);
    assert Yields(items[8], rests[8], rests[9]) && Yields(items[9], rests[9], rests[10]);
    CandidateReads(c, v.candidate, rests[9], rests[10]);
    if v.explicitPaths {
      assert Yields(items[10], rests[10], rests[11]);
    }
  }

  lemma LegacySetupReads(c: Crypto, v: Setup, rests: seq<Bytes>)
    requires ValidSetup(c, v) && Fits(CandidateItem(v.candidate))
    requires !v.explicitPaths && v.transport == TransportChoice.Auto
    requires ReadsThrough(LegacySetupItems(v), rests) && EncodeLegacySetup(v) == Ok(rests[0])
    ensures DecodeSetup(c, rests[0]) == Ok(v)
  {
    var items := LegacySetupItems(v);
    assert items[2..8] == SetupFieldItems(v);
    SetupFieldsRead(v, items, rests);
    assert Yields(items[0], rests[0], rests[1]) && Yields(items[1], rests[1], rests[2]);
    assert Yields(items[8], rests[8], rests[9]);
    CandidateReads(c, v.candidate, rests[8], rests[9]);
  }

  /** The bytes are this journal, in the version its fields call for or in the oldest one. */
  predicate IsSetupEncoding(v: Setup, bytes: Bytes) {
    || EncodeSetup(v) == Ok(bytes)
    || (!v.explicitPaths && v.transport == TransportChoice.Auto && EncodeLegacySetup(v) == Ok(bytes))
  }

  lemma SetupItemsFit(c: Crypto, v: Setup)
    requires ValidSetup(c, v) && |Flatten(SetupItems(v))| < U64
    ensures forall i :: 0 <= i < |SetupItems(v)| ==> Fits(SetupItems(v)[i])
    ensures Fits(CandidateItem(v.candidate))
  {
    ItemsFit(SetupItems(v));
    assert SetupItems(v)[9] == CandidateItem(v.candidate);
  }

  lemma LegacySetupItemsFit(c: Crypto, v: Setup)
    requires ValidSetup(c, v) && |Flatten(LegacySetupItems(v))| < U64
    ensures forall i :: 0 <= i < |LegacySetupItems(v)| ==> Fits(LegacySetupItems(v)[i])
    ensures Fits(CandidateItem(v.candidate))
  {
    ItemsFit(LegacySetupItems(v));
    assert LegacySetupItems(v)[8] == CandidateItem(v.candidate);
  }

  lemma SetupRoundTrip(c: Crypto, v: Setup, bytes: Bytes)
    requires ValidSetup(c, v) && |bytes| < U64 && IsSetupEncoding(v, bytes)
    ensures DecodeSetup(c, bytes) == Ok(v)
  {
    if EncodeSetup(v) == Ok(bytes) {
      SetupItemsFit(c, v);
      var rests := Remainders(SetupItems(v));
      SetupReads(c, v, rests);
    } else {
      LegacySetupItemsFit(c, v);
      var rests := Remainders(LegacySetupItems(v));
      LegacySetupReads(c, v, rests);
    }
  }

  lemma SetupAccepted(c: Crypto, bytes: Bytes)
    requires DecodeSetup(c, bytes).Ok?
    ensures var v := DecodeSetup(c, bytes).value; ValidSetup(c, v) && IsSetupEncoding(v, bytes)
  {
  }

  /** A byte string is accepted exactly if it encodes the journal in one of the three versions. */
  lemma SetupAcceptedIff(c: Crypto, bytes: Bytes, v: Setup)
    requires |bytes| < U64
    ensures DecodeSetup(c, bytes) == Ok(v) <==> ValidSetup(c, v) && IsSetupEncoding(v, bytes)
  {
    if DecodeSetup(c, bytes) == Ok(v) {
      SetupAccepted(c, bytes);
    } else if ValidSetup(c, v) && IsSetupEncoding(v, bytes) {
      SetupRoundTrip(c, v, bytes);
    }
  }

  /** Journals of different versions never have the same bytes. */
  lemma SetupVersionsDiffer(v: Setup, w: Setup)
    requires EncodeSetup(v).Ok? && EncodeLegacySetup(w).Ok?
    ensures EncodeSetup(v) != EncodeLegacySetup(w)
    ensures v.explicitPaths != w.explicitPaths ==> EncodeSetup(v) != EncodeSetup(w)
  {
    ItemDiffers(SetupItems(v), LegacySetupItems(w), 0);
    if v.explicitPaths != w.explicitPaths { ItemDiffers(SetupItems(v), SetupItems(w), 0); }
  }
}
