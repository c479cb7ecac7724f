/** The record codecs as they run: an encoder that grows a buffer, a decoder that advances a position. */
module Cursor {
  import opened Records
  import opened Cbor
  import C = Codec

  class Encoder {
    var out: Bytes
    ghost var items: seq<Item>

    ghost predicate Valid()
      reads this
    {
      out == Flatten(items)
    }

    constructor ()
      ensures Valid() && items == []
    {
      out, items := [], [];
    }

    method Write(i: Item)
      requires Valid()
      modifies this
      ensures Valid() && items == old(items) + [i]
    {
      FlattenAppend(items, i);
      out, items := out + Written(i), items + [i];
    }
  }

  class Decoder {
    const input: Bytes
    var position: nat

    ghost predicate Valid()
      reads this
    {
      position <= |input|
    }

    /** What has not been read yet. */
    ghost function Rest(): Bytes
      requires Valid()
      reads this
    {
      input[position..]
    }

    /** The method's answer and new position are those of the reading function. */
    ghost predicate Answers<T>(answer: Result<T, CodecError>, reading: Reading<T>)
      requires Valid()
      reads this
    {
      match reading
      case Ok(read) => answer == Ok(read.value) && Rest() == read.rest
      case Err(e) => answer == Err(e)
    }

    constructor (bytes: Bytes)
      ensures Valid() && input == bytes && Rest() == bytes
    {
      input, position := bytes, 0;
    }

    /** Nothing is left to read. */
    method Ended() returns (ended: bool)
      requires Valid()
      ensures ended == (Rest() == [])
    {
      ended := position == |input|;
    }

    method Take(n: nat) returns (r: Result<Bytes, CodecError>)
      requires Valid()
      modifies this
      ensures Valid()
      ensures n <= |old(Rest())| ==> r == Ok(old(Rest())[..n]) && Rest() == old(Rest())[n..]
      ensures n > |old(Rest())| ==> r == Err(Malformed)
    {
      if |input| - position < n { return Err(Malformed); }
      assert Rest()[..n] == input[position..position + n] && Rest()[n..] == input[position + n..];
      r := Ok(input[position..position + n]);
      position := position + n;
    }

    /** The first byte of a head of this major type. */
    method Initial(major: nat) returns (r: Result<nat, CodecError>)
      requires Valid()
      modifies this
      ensures Valid()
      ensures var b := old(Rest());
              if b == [] || b[0] / 32 != major then r == Err(Malformed) else r == Ok(b[0] % 32) && Rest() == b[1..]
    {
      var first :- Take(1);
      if first[0] / 32 != major { return Err(Malformed); }
      return Ok(first[0] % 32);
    }

    method Unsigned(info: nat) returns (r: Result<nat, CodecError>)
      requires Valid()
      modifies this
      ensures Valid() && Answers(r, Argument(info, old(Rest())))
    {
      if info < 24 { return Ok(info); }
      if info > 27 { return Err(Malformed); }
      var b :- Take(Width(info));
      return Ok(Number(b));
    }

    method Array() returns (r: Result<Option<nat>, CodecError>)
      requires Valid()
      modifies this
      ensures Valid() && Answers(r, ReadArray(old(Rest())))
    {
      var info :- Initial(4);
      if info == 31 { return Ok(None); }
      var n :- Unsigned(info);
      return Ok(Some(n));
    }

    method U16() returns (r: Result<nat, CodecError>)
      requires Valid()
      modifies this
      ensures Valid() && Answers(r, ReadU16(old(Rest())))
    {
      var info :- Initial(0);
      var n :- Unsigned(info);
      if n >= 0x1_0000 { return Err(Malformed); }
      return Ok(n);
    }

    method String(major: nat) returns (r: Result<Bytes, CodecError>)
      requires Valid()
      modifies this
      ensures Valid() && Answers(r, ReadString(major, old(Rest())))
    {
      var info :- Initial(major);
      var n :- Unsigned(info);
      r := Take(n);
    }

    method Fixed(size: nat) returns (r: Result<Bytes, CodecError>)
      requires Valid()
      modifies this
      ensures Valid() && Answers(r, C.ReadFixed(old(Rest()), size))
    {
      var b :- String(2);
      if |b| != size { return Err(Malformed); }
      return Ok(b);
    }

    method Str() returns (r: Result<Bytes, CodecError>)
      requires Valid()
      modifies this
      ensures Valid() && Answers(r, ReadText(old(Rest())))
    {
      var t :- String(3);
      if !Utf8(t) { return Err(Malformed); }
      return Ok(t);
    }

    method Simple(value: Byte) returns (r: Result<(), CodecError>)
      requires Valid()
      modifies this
      ensures Valid()
      ensures var b := old(Rest());
              if b == [] || b[0] != value then r == Err(Malformed) else r == Ok(()) && Rest() == b[1..]
    {
      var first :- Take(1);
      if first[0] != value { return Err(Malformed); }
      return Ok(());
    }

    method Bool() returns (r: Result<bool, CodecError>)
      requires Valid()
      modifies this
      ensures Valid() && Answers(r, ReadBool(old(Rest())))
    {
      var first :- Take(1);
      if first[0] != 0xF4 && first[0] != 0xF5 { return Err(Malformed); }
      return Ok(first[0] == 0xF5);
    }

    method DataType() returns (r: Result<Kind, CodecError>)
      requires Valid()
      ensures r == PeekKind(Rest())
    {
      if position == |input| { return Err(Malformed); }
      var first := input[position];
      return Ok(if first == 0xF6 then NullKind
                else if first / 32 == 2 && first % 32 < 28 then BytesKind else OtherKind);
    }
  }

  // ----- Identity stub -----

  method EncodeStub(s: PublicIdentityStub) returns (bytes: Bytes)
    ensures bytes == C.EncodeStub(s)
  {
    var e := new Encoder();
    e.Write(Array(11));
    e.Write(U16(2));
    e.Write(U16(1));
    e.Write(Blob(s.desktopId));
    e.Write(Blob(s.identityId));
    e.Write(Text(s.recipient));
    WriteStubKeys(e, s);
    assert e.items == C.StubItems(s);
    return e.out;
  }

  method WriteStubKeys(e: Encoder, s: PublicIdentityStub)
    requires e.Valid()
    modifies e
    ensures e.Valid()
    ensures e.items == old(e.items) + [Blob(s.desktopSigningKey), Blob(s.desktopSelectionKey), Blob(s.phoneSigningKey),
                                       Blob(s.offerDigest), Blob(s.fingerprint), Text(C.PHONE)]
  {
    e.Write(Blob(s.desktopSigningKey));
    e.Write(Blob(s.desktopSelectionKey));
    e.Write(Blob(s.phoneSigningKey));
    e.Write(Blob(s.offerDigest));
    e.Write(Blob(s.fingerprint));
    e.Write(Text(C.PHONE));
  }

  method StubFields(d: Decoder) returns (r: Result<PublicIdentityStub, CodecError>)
    requires d.Valid()
    modifies d
    ensures d.Valid() && d.Answers(r, C.ReadStubFields(old(d.Rest())))
  {
    var desktopId :- d.Fixed(16);
    var identityId :- d.Fixed(16);
    var recipient :- d.Str();
    var signing :- d.Fixed(33);
    var selection :- d.Fixed(33);
    var phone :- d.Fixed(33);
    var offer :- d.Fixed(32);
    var fingerprint :- d.Fixed(32);
    var plugin :- d.Str();
    if plugin != C.PHONE { return Err(Malformed); }
    return Ok(PublicIdentityStub(desktopId, identityId, recipient, signing, selection, phone, offer, fingerprint));
  }

  method StubHeader(d: Decoder) returns (r: Result<(), CodecError>)
    requires d.Valid()
    modifies d
    ensures d.Valid() && d.Answers(r, C.ReadStubHeader(old(d.Rest())))
  {
    var fields :- d.Array();
    if fields != Some(11) { return Err(Malformed); }
    var version :- d.U16();
    if version != 2 { return Err(Unsupported); }
    var suite :- d.U16();
    if suite != 1 { return Err(Unsupported); }
    return Ok(());
  }

  method StrictStub(c: C.Crypto, s: PublicIdentityStub, ended: bool, bytes: Bytes)
    returns (r: Result<PublicIdentityStub, CodecError>)
    ensures r == C.StrictStub(c, s, ended, bytes)
  {
    var again := EncodeStub(s);
    return if !ended || again != bytes || !C.StubKeys(c, s) then Err(Malformed) else Ok(s);
  }

  method DecodeStub(c: C.Crypto, bytes: Bytes) returns (r: Result<PublicIdentityStub, CodecError>)
    ensures r == C.DecodeStub(c, bytes)
  {
    var d := new Decoder(bytes);
    var _ :- StubHeader(d);
    var value :- StubFields(d);
    var ended := d.Ended();
    r := StrictStub(c, value, ended, bytes);
  }

  // ----- Locator -----

  method EncodeLocator(v: C.Locator) returns (r: Result<Bytes, CodecError>)
    ensures r == C.EncodeLocator(v)
  {
    if !C.LocatorEncodable(v) { return Err(Malformed); }
    var e := new Encoder();
    e.Write(Array(7));
    e.Write(U16(3));
    e.Write(Blob(v.desktopId));
    e.Write(Blob(v.identityId));
    e.Write(Blob(v.fingerprint));
    e.Write(Text(v.desktopState));
    e.Write(Text(v.replayState));
    e.Write(Text(C.TransportText(v.transport)));
    assert e.items == C.LocatorItems(v);
    return Ok(e.out);
  }

  method EncodeLegacyLocator(v: C.Locator) returns (r: Result<Bytes, CodecError>)
    ensures r == C.EncodeLegacyLocator(v)
  {
    if !C.LocatorEncodable(v) { return Err(Malformed); }
    var e := new Encoder();
    e.Write(Array(6));
    e.Write(U16(2));
    e.Write(Blob(v.desktopId));
    e.Write(Blob(v.identityId));
    e.Write(Blob(v.fingerprint));
    e.Write(Text(v.desktopState));
    e.Write(Text(v.replayState));
    assert e.items == C.LegacyLocatorItems(v);
    return Ok(e.out);
  }

  method LocatorFields(d: Decoder, withTransport: bool) returns (r: Result<C.Locator, CodecError>)
    requires d.Valid()
    modifies d
    ensures d.Valid() && d.Answers(r, C.ReadLocatorFields(old(d.Rest()), withTransport))
  {
    var desktopId :- d.Fixed(16);
    var identityId :- d.Fixed(16);
    var fingerprint :- d.Fixed(32);
    var desktop :- d.Str();
    var replay :- d.Str();
    var transport := TransportChoice.Auto;
    if withTransport {
      var text :- d.Str();
      transport :- C.ParseTransport(text);
    }
    return Ok(PairingLocator(desktopId, identityId, fingerprint, desktop, replay, transport));
  }

  method StrictLocator(v: C.Locator, version: nat, ended: bool, bytes: Bytes) returns (r: Result<C.Locator, CodecError>)
    ensures r == C.StrictLocator(v, version, ended, bytes)
  {
    var again: Result<Bytes, CodecError>;
    if version == 3 { again := EncodeLocator(v); } else { again := EncodeLegacyLocator(v); }
    var canonical :- again;
    if !ended || canonical != bytes || !C.Absolute(v.desktopState) || !C.Absolute(v.replayState) {
      return Err(Malformed);
    }
    return Ok(v);
  }

  method LocatorHeader(d: Decoder) returns (r: Result<nat, CodecError>)
    requires d.Valid()
    modifies d
    ensures d.Valid() && d.Answers(r, C.ReadLocatorHeader(old(d.Rest())))
  {
    var fields :- d.Array();
    var version :- d.U16();
    if (fields, version) != (Some(7), 3) && (fields, version) != (Some(6), 2) { return Err(Malformed); }
    return Ok(version);
  }

  method DecodeLocator(bytes: Bytes) returns (r: Result<C.Locator, CodecError>)
    ensures r == C.DecodeLocator(bytes)
  {
    var d := new Decoder(bytes);
    var version :- LocatorHeader(d);
    var v :- LocatorFields(d, version == 3);
    var ended := d.Ended();
    r := StrictLocator(v, version, ended, bytes);
  }

  // ----- Cleanup journal -----

  method WritePaths(e: Encoder, v: C.Cleanup)
    requires e.Valid()
    modifies e
    ensures e.Valid() && e.items == old(e.items) + C.PathItems(v)
  {
    e.Write(Text(v.locatorPath));
    e.Write(Text(v.desktopState));
    e.Write(Text(v.replayState));
  }

  method EncodeCleanup(v: C.Cleanup) returns (r: Result<Bytes, CodecError>)
    ensures r == C.EncodeCleanup(v)
  {
    if !C.CleanupEncodable(v) { return Err(Malformed); }
    var e := new Encoder();
    e.Write(Array(6));
    e.Write(U16(2));
    match v.target {
      case Paired(stub, path) =>
        e.Write(U16(1));
        e.Write(Array(2));
        var inner := EncodeStub(stub);
        e.Write(Blob(inner));
        e.Write(Text(path));
      case Orphan(desktopId, identityId, fingerprint) =>
        e.Write(U16(2));
        e.Write(Array(3));
        e.Write(Blob(desktopId));
        e.Write(Blob(identityId));
        e.Write(Blob(fingerprint));
    }
    assert e.items == [Array(6), U16(2)] + C.TargetItems(v.target);
    WritePaths(e, v);
    assert e.items == C.CleanupItems(v);
    return Ok(e.out);
  }

  method EncodeLegacyCleanup(v: C.Cleanup) returns (r: Result<Bytes, CodecError>)
    ensures r == C.EncodeLegacyCleanup(v)
  {
    if !v.target.Paired? || !C.CleanupEncodable(v) { return Err(Malformed); }
    var e := new Encoder();
    e.Write(Array(6));
    e.Write(U16(1));
    var inner := EncodeStub(v.target.stub);
    e.Write(Blob(inner));
    e.Write(Text(v.target.stubPath));
    WritePaths(e, v);
    assert e.items == C.LegacyCleanupItems(v);
    return Ok(e.out);
  }

  method Stub(c: C.Crypto, d: Decoder) returns (r: Result<PublicIdentityStub, CodecError>)
    requires d.Valid()
    modifies d
    ensures d.Valid() && d.Answers(r, C.ReadStub(c, old(d.Rest())))
  {
    var bytes :- d.String(2);
    var stub := DecodeStub(c, bytes);
    if stub.Err? { return Err(Malformed); }
    return stub;
  }

  method PairedTarget(c: C.Crypto, d: Decoder) returns (r: Result<CleanupTarget<C.PathText>, CodecError>)
    requires d.Valid()
    modifies d
    ensures d.Valid() && d.Answers(r, C.ReadPaired(c, old(d.Rest())))
  {
    var stub :- Stub(c, d);
    var path :- d.Str();
    return Ok(Paired(stub, path));
  }

  method Target(c: C.Crypto, d: Decoder) returns (r: Result<CleanupTarget<C.PathText>, CodecError>)
    requires d.Valid()
    modifies d
    ensures d.Valid() && d.Answers(r, C.ReadTarget(c, old(d.Rest())))
  {
    var kind :- d.U16();
    if kind == 1 {
      var fields :- d.Array();
      if fields != Some(2) { return Err(Malformed); }
      r := PairedTarget(c, d);
    } else if kind == 2 {
      var fields :- d.Array();
      if fields != Some(3) { return Err(Malformed); }
      var desktopId :- d.Fixed(16);
      var identityId :- d.Fixed(16);
      var fingerprint :- d.Fixed(32);
      return Ok(Orphan(desktopId, identityId, fingerprint));
    } else {
      return Err(Malformed);
    }
  }

  method Cleanup(c: C.Crypto, d: Decoder, version: nat) returns (r: Result<C.Cleanup, CodecError>)
    requires d.Valid()
    modifies d
    ensures d.Valid() && d.Answers(r, C.ReadCleanup(c, version, old(d.Rest())))
  {
    var read: Result<CleanupTarget<C.PathText>, CodecError>;
    if version == 1 { read := PairedTarget(c, d); } else { read := Target(c, d); }
    var target :- read;
    var locator :- d.Str();
    var desktop :- d.Str();
    var replay :- d.Str();
    return Ok(CleanupJournal(target, locator, desktop, replay));
  }

  method StrictCleanup(v: C.Cleanup, version: nat, ended: bool, bytes: Bytes) returns (r: Result<C.Cleanup, CodecError>)
    ensures r == C.StrictCleanup(v, version, ended, bytes)
  {
    var again: Result<Bytes, CodecError>;
    if version == 1 { again := EncodeLegacyCleanup(v); } else { again := EncodeCleanup(v); }
    var canonical :- again;
    if !ended || canonical != bytes || !C.CleanupPathsValid(v) { return Err(Malformed); }
    return Ok(v);
  }

  method CleanupHeader(d: Decoder) returns (r: Result<nat, CodecError>)
    requires d.Valid()
    modifies d
    ensures d.Valid() && d.Answers(r, C.ReadCleanupHeader(old(d.Rest())))
  {
    var fields :- d.Array();
    if fields != Some(6) { return Err(Malformed); }
    var version :- d.U16();
    if version != 1 && version != 2 { return Err(Malformed); }
    return Ok(version);
  }

  method DecodeCleanup(c: C.Crypto, bytes: Bytes) returns (r: Result<C.Cleanup, CodecError>)
    ensures r == C.DecodeCleanup(c, bytes)
  {
    var d := new Decoder(bytes);
    var version :- CleanupHeader(d);
    var v :- Cleanup(c, d, version);
    var ended := d.Ended();
    r := StrictCleanup(v, version, ended, bytes);
  }

  // ----- Setup journal -----

  method WriteSetupFields(e: Encoder, v: C.Setup)
    requires e.Valid()
    modifies e
    ensures e.Valid() && e.items == old(e.items) + C.SetupFieldItems(v)
  {
    e.Write(U16(C.StageNumber(v.stage)));
    e.Write(Blob(v.setupCode));
    e.Write(Blob(v.desktopId));
    e.Write(Text(v.desktopState));
    e.Write(Text(v.replayState));
    e.Write(Text(v.identityStub));
  }

  method WriteCandidate(e: Encoder, candidate: Option<PublicIdentityStub>)
    requires e.Valid()
    modifies e
    ensures e.Valid() && e.items == old(e.items) + [C.CandidateItem(candidate)]
  {
    if candidate.Some? {
      var inner := EncodeStub(candidate.value);
      e.Write(Blob(inner));
    } else {
      e.Write(Null);
    }
  }

  method EncodeSetup(v: C.Setup) returns (r: Result<Bytes, CodecError>)
    ensures r == C.EncodeSetup(v)
  {
    if !C.SetupEncodable(v) { return Err(Malformed); }
    var e := new Encoder();
    e.Write(Array(if v.explicitPaths then 10 else 9));
    e.Write(U16(if v.explicitPaths then 3 else 2));
    WriteSetupFields(e, v);
    e.Write(Text(C.TransportText(v.transport)));
    WriteCandidate(e, v.candidate);
    if v.explicitPaths { e.Write(Bool(true)); }
    assert e.items == C.SetupItems(v);
    return Ok(e.out);
  }

  method EncodeLegacySetup(v: C.Setup) returns (r: Result<Bytes, CodecError>)
    ensures r == C.EncodeLegacySetup(v)
  {
    if !C.SetupEncodable(v) { return Err(Malformed); }
    var e := new Encoder();
    e.Write(Array(8));
    e.Write(U16(1));
    WriteSetupFields(e, v);
    WriteCandidate(e, v.candidate);
    assert e.items == C.LegacySetupItems(v);
    return Ok(e.out);
  }

  method SetupFields(d: Decoder, explicitPaths: bool) returns (r: Result<C.Setup, CodecError>)
    requires d.Valid()
    modifies d
    ensures d.Valid() && d.Answers(r, C.ReadSetupFields(old(d.Rest()), explicitPaths))
  {
    var number :- d.U16();
    var stage :- C.ParseStage(number);
    var setupCode :- d.Fixed(16);
    var desktopId :- d.Fixed(16);
    var desktop :- d.Str();
    var replay :- d.Str();
    var stub :- d.Str();
    return Ok(SetupJournal(explicitPaths, stage, setupCode, desktopId, desktop, replay, stub,
                           TransportChoice.Auto, None));
  }

  method Transport(d: Decoder) returns (r: Result<TransportChoice, CodecError>)
    requires d.Valid()
    modifies d
    ensures d.Valid() && d.Answers(r, C.ReadTransport(old(d.Rest())))
  {
    var text :- d.Str();
    return C.ParseTransport(text);
  }

  method Candidate(c: C.Crypto, d: Decoder) returns (r: Result<Option<PublicIdentityStub>, CodecError>)
    requires d.Valid()
    modifies d
    ensures d.Valid() && d.Answers(r, C.ReadCandidate(c, old(d.Rest())))
  {
    var kind :- d.DataType();
    match kind {
      case NullKind =>
        var _ :- d.Simple(0xF6);
        return Ok(None);
      case BytesKind =>
        var stub :- Stub(c, d);
        return Ok(Some(stub));
      case OtherKind =>
        return Err(Malformed);
    }
  }

  method SetupRest(c: C.Crypto, d: Decoder, v: C.Setup, version: nat) returns (r: Result<C.Setup, CodecError>)
    requires d.Valid() && v.transport == TransportChoice.Auto
    modifies d
    ensures d.Valid() && d.Answers(r, C.ReadSetupRest(c, v, version, old(d.Rest())))
  {
    var transport := v.transport;
    if version != 1 { transport :- Transport(d); }
    var candidate :- Candidate(c, d);
    if version == 3 {
      var flag :- d.Bool();
      if !flag { return Err(Malformed); }
    }
    return Ok(v.(transport := transport, candidate := candidate));
  }

  method Setup(c: C.Crypto, d: Decoder, version: nat) returns (r: Result<C.Setup, CodecError>)
    requires d.Valid()
    modifies d
    ensures d.Valid() && d.Answers(r, C.ReadSetup(c, version, old(d.Rest())))
  {
    var common :- SetupFields(d, version == 3);
    r := SetupRest(c, d, common, version);
  }

  method StrictSetup(v: C.Setup, version: nat, ended: bool, bytes: Bytes) returns (r: Result<C.Setup, CodecError>)
    ensures r == C.StrictSetup(v, version, ended, bytes)
  {
    var again: Result<Bytes, CodecError>;
    if version == 1 { again := EncodeLegacySetup(v); } else { again := EncodeSetup(v); }
    var canonical :- again;
    if !ended || canonical != bytes
       || v.candidate.Some? != (v.stage in {ResponseVerified, Confirmed})
       || (v.candidate.Some? && v.candidate.value.desktopId != v.desktopId) {
      return Err(Malformed);
    }
    return Ok(v);
  }

  method SetupHeader(d: Decoder) returns (r: Result<nat, CodecError>)
    requires d.Valid()
    modifies d
    ensures d.Valid() && d.Answers(r, C.ReadSetupHeader(old(d.Rest())))
  {
    var fields :- d.Array();
    var version :- d.U16();
    if (fields, version) != (Some(10), 3) && (fields, version) != (Some(9), 2) && (fields, version) != (Some(8), 1) {
      return Err(Malformed);
    }
    return Ok(version);
  }

  method DecodeSetup(c: C.Crypto, bytes: Bytes) returns (r: Result<C.Setup, CodecError>)
    ensures r == C.DecodeSetup(c, bytes)
  {
    var d := new Decoder(bytes);
    var version :- SetupHeader(d);
    var v :- Setup(c, d, version);
    var ended := d.Ended();
    r := StrictSetup(v, version, ended, bytes);
  }
}
