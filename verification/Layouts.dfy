/** The records byte by byte: where every field of every format lies, with its lengths written out. */
module Layouts {
  import opened Records
  import opened Cbor
  import Codec

  /** The bytes of a text (section 3.1 of RFC 8949), up to the sizes the records allow. */
  function TextBytes(t: Bytes): Bytes
    requires |t| < 0x1_0000
  {
    (if |t| < 24 then [0x60 + |t|] else if |t| < 256 then [0x78, |t|] else [0x79, |t| / 256, |t| % 256]) + t
  }

  /** The bytes of a byte string. */
  function BlobBytes(b: Bytes): Bytes
    requires |b| < 0x1_0000
  {
    (if |b| < 24 then [0x40 + |b|] else if |b| < 256 then [0x58, |b|] else [0x59, |b| / 256, |b| % 256]) + b
  }

  lemma ShortHead(major: nat, n: nat)
    requires major < 8 && n < 0x1_0000
    ensures Head(major, n) == if n < 24 then [32 * major + n] else if n < 256 then [32 * major + 24, n]
                              else [32 * major + 25, n / 256, n % 256]
  {
    assert BigEndian(n, 1) == [n % 256] by { assert BigEndian(n / 256, 0) == []; }
    assert BigEndian(n / 256, 1) == [n / 256 % 256] by { assert BigEndian(n / 256 / 256, 0) == []; }
  }

  lemma ItemBytes(i: Item)
    requires i.U16? ==> i.n < 24
    requires i.Array? ==> i.count < 24
    requires i.Text? ==> |i.text| < 0x1_0000
    requires i.Blob? ==> |i.bytes| < 0x1_0000
    ensures Written(i) == match i
                          case U16(n) => [n]
                          case Blob(b) => BlobBytes(b)
                          case Text(t) => TextBytes(t)
                          case Array(count) => [0x80 + count]
                          case Null => [0xF6]
                          case Bool(flag) => [if flag then 0xF5 else 0xF4]
  {
    match i
    case U16(n) => ShortHead(0, n);
    case Blob(b) => ShortHead(2, |b|);
    case Text(t) => ShortHead(3, |t|);
    case Array(count) => ShortHead(4, count);
    case _ =>
  }

  lemma {:induction false} FlattenConcat(a: seq<Item>, b: seq<Item>)
    ensures Flatten(a + b) == Flatten(a) + Flatten(b)
    decreases |a|
  {
    if a == [] {
      assert a + b == b;
    } else {
      assert (a + b)[1..] == a[1..] + b;
      FlattenConcat(a[1..], b);
    }
  }

  lemma {:induction false} FlattenParts(a: seq<Item>, b: seq<Item>, c: seq<Item>)
    ensures Flatten(a + (b + c)) == Flatten(a) + Flatten(b) + Flatten(c)
  {
    hide Flatten;
    FlattenConcat(a, b + c);
    FlattenConcat(b, c);
    assert Flatten(a) + (Flatten(b) + Flatten(c)) == Flatten(a) + Flatten(b) + Flatten(c);
  }

  lemma FlattenTwo(i: Item, j: Item)
    ensures Flatten([i, j]) == Written(i) + Written(j)
  {
    hide Written;
    assert [i, j][0] == i && [i, j][1..] == [j];
    FlattenOne(j);
  }

  lemma FlattenThree(i: Item, j: Item, k: Item)
    ensures Flatten([i, j, k]) == Written(i) + Written(j) + Written(k)
  {
    hide Written;
    assert [i, j, k][0] == i && [i, j, k][1..] == [j, k];
    FlattenTwo(j, k);
    assert Written(i) + (Written(j) + Written(k)) == Written(i) + Written(j) + Written(k);
  }

  lemma FlattenOne(i: Item)
    ensures Flatten([i]) == Written(i)
  {
    hide Written;
    assert [i][0] == i && [i][1..] == [];
    assert Written(i) + [] == Written(i);
  }

  lemma Opening(count: nat, n: nat)
    requires count < 24 && n < 24
    ensures Flatten([Array(count), U16(n)]) == [0x80 + count, n]
  {
    FlattenTwo(Array(count), U16(n));
    ItemBytes(Array(count));
    ItemBytes(U16(n));
  }

  lemma Blob16(b: Bytes)
    requires |b| == 16
    ensures Written(Blob(b)) == [0x50] + b
  {
    ItemBytes(Blob(b));
  }

  lemma Blob32(b: Bytes)
    requires |b| == 32
    ensures Written(Blob(b)) == [0x58, 32] + b
  {
    ItemBytes(Blob(b));
  }

  // ----- Stub and locator -----

  predicate StubSizes(s: PublicIdentityStub) {
    && |s.desktopId| == 16 && |s.identityId| == 16 && |s.recipient| < 0x1_0000
    && |s.desktopSigningKey| == 33 && |s.desktopSelectionKey| == 33 && |s.phoneSigningKey| == 33
    && |s.offerDigest| == 32 && |s.fingerprint| == 32
  }

  /** Version 2, suite 1, the two identifiers, the recipient, three keys, two digests, "phone". */
  lemma StubLayout(s: PublicIdentityStub)
    requires StubSizes(s)
    ensures Codec.EncodeStub(s)
         == [0x8B, 2, 1]
            + (([0x50] + s.desktopId) + ([0x50] + s.identityId) + TextBytes(s.recipient))
            + ((([0x58, 33] + s.desktopSigningKey) + ([0x58, 33] + s.desktopSelectionKey)
                + ([0x58, 33] + s.phoneSigningKey))
               + (([0x58, 32] + s.offerDigest) + ([0x58, 32] + s.fingerprint) + [0x65, 0x70, 0x68, 0x6F, 0x6E, 0x65]))
  {
    hide Flatten, Written, TextBytes;
    var (a, b) := ([Array(11), U16(2), U16(1)], [Blob(s.desktopId), Blob(s.identityId), Text(s.recipient)]);
    var c := [Blob(s.desktopSigningKey), Blob(s.desktopSelectionKey), Blob(s.phoneSigningKey)];
    var d := [Blob(s.offerDigest), Blob(s.fingerprint), Text(Codec.PHONE)];
    assert Codec.StubItems(s) == a + (b + (c + d));
    FlattenParts(a, b, c + d);
    FlattenConcat(c, d);
    FlattenThree(a[0], a[1], a[2]);
    FlattenThree(b[0], b[1], b[2]);
    FlattenThree(c[0], c[1], c[2]);
    FlattenThree(d[0], d[1], d[2]);
    StubPieces(s);
  }

  lemma StubPieces(s: PublicIdentityStub)
    requires StubSizes(s)
    ensures Written(Array(11)) + Written(U16(2)) + Written(U16(1)) == [0x8B, 2, 1]
    ensures Written(Blob(s.desktopId)) == [0x50] + s.desktopId && Written(Blob(s.identityId)) == [0x50] + s.identityId
    ensures Written(Text(s.recipient)) == TextBytes(s.recipient)
    ensures Written(Blob(s.desktopSigningKey)) == [0x58, 33] + s.desktopSigningKey
    ensures Written(Blob(s.desktopSelectionKey)) == [0x58, 33] + s.desktopSelectionKey
    ensures Written(Blob(s.phoneSigningKey)) == [0x58, 33] + s.phoneSigningKey
    ensures Written(Blob(s.offerDigest)) == [0x58, 32] + s.offerDigest
    ensures Written(Blob(s.fingerprint)) == [0x58, 32] + s.fingerprint
    ensures Written(Text(Codec.PHONE)) == [0x65, 0x70, 0x68, 0x6F, 0x6E, 0x65]
  {
    hide Written;
    ItemBytes(Array(11));
    ItemBytes(U16(2));
    ItemBytes(U16(1));
    ItemBytes(Blob(s.desktopId));
    ItemBytes(Blob(s.identityId));
    ItemBytes(Text(s.recipient));
    ItemBytes(Blob(s.desktopSigningKey));
    ItemBytes(Blob(s.desktopSelectionKey));
    ItemBytes(Blob(s.phoneSigningKey));
    ItemBytes(Blob(s.offerDigest));
    ItemBytes(Blob(s.fingerprint));
    ItemBytes(Text(Codec.PHONE));
  }

  /** The name of a transport, as it is stored. */
  function TransportName(t: TransportChoice): string {
    match t
    case Auto => "auto"
    case Adb => "adb"
    case Ble => "ble"
    case Wifi => "wifi"
    case Qr => "qr"
  }

  lemma TransportIsNamed(t: TransportChoice)
    ensures var (b, name) := (Codec.TransportText(t), TransportName(t));
            |b| == |name| && forall i :: 0 <= i < |b| ==> b[i] == name[i] as int
  {
  }

  predicate LocatorSizes(v: Codec.Locator) {
    && |v.desktopId| == 16 && |v.identityId| == 16 && |v.fingerprint| == 32
    && |v.desktopState| < 0x1_0000 && |v.replayState| < 0x1_0000
    && Codec.LocatorEncodable(v)
  }

  /** Version 3: identifiers, fingerprint, the two state paths and the transport's name. */
  lemma LocatorLayout(v: Codec.Locator)
    requires LocatorSizes(v)
    ensures Codec.EncodeLocator(v)
         == Ok([0x87, 3] + (([0x50] + v.desktopId) + ([0x50] + v.identityId) + ([0x58, 32] + v.fingerprint))
               + (TextBytes(v.desktopState) + TextBytes(v.replayState) + TextBytes(Codec.TransportText(v.transport))))
  {
    hide Flatten, Written, TextBytes, BlobBytes;
    var (a, b) := ([Array(7), U16(3)], [Blob(v.desktopId), Blob(v.identityId), Blob(v.fingerprint)]);
    var c := [Text(v.desktopState), Text(v.replayState), Text(Codec.TransportText(v.transport))];
    assert Codec.LocatorItems(v) == a + (b + c);
    FlattenParts(a, b, c);
    Opening(7, 3);
    FlattenThree(b[0], b[1], b[2]);
    FlattenThree(c[0], c[1], c[2]);
    Blob16(v.desktopId);
    Blob16(v.identityId);
    Blob32(v.fingerprint);
    ItemBytes(Text(v.desktopState));
    ItemBytes(Text(v.replayState));
    ItemBytes(Text(Codec.TransportText(v.transport)));
  }

  /** Version 2 is the same without the transport. */
  lemma LegacyLocatorLayout(v: Codec.Locator)
    requires LocatorSizes(v)
    ensures Codec.EncodeLegacyLocator(v)
         == Ok([0x86, 2] + (([0x50] + v.desktopId) + ([0x50] + v.identityId) + ([0x58, 32] + v.fingerprint))
               + (TextBytes(v.desktopState) + TextBytes(v.replayState)))
  {
    hide Flatten, Written, TextBytes, BlobBytes;
    var (a, b) := ([Array(6), U16(2)], [Blob(v.desktopId), Blob(v.identityId), Blob(v.fingerprint)]);
    var c := [Text(v.desktopState), Text(v.replayState)];
    assert Codec.LegacyLocatorItems(v) == a + (b + c);
    FlattenParts(a, b, c);
    Opening(6, 2);
    FlattenThree(b[0], b[1], b[2]);
    FlattenTwo(c[0], c[1]);
    Blob16(v.desktopId);
    Blob16(v.identityId);
    Blob32(v.fingerprint);
    ItemBytes(Text(v.desktopState));
    ItemBytes(Text(v.replayState));
  }

  // ----- Journals -----

  predicate CleanupSizes(v: Codec.Cleanup) {
    && |v.locatorPath| < 0x1_0000 && |v.desktopState| < 0x1_0000 && |v.replayState| < 0x1_0000
    && Codec.CleanupEncodable(v)
    && match v.target
       case Paired(stub, path) => |Codec.EncodeStub(stub)| < 0x1_0000 && |path| < 0x1_0000
       case Orphan(d, i, f) => |d| == 16 && |i| == 16 && |f| == 32
  }

  lemma PathsLayout(v: Codec.Cleanup)
    requires CleanupSizes(v)
    ensures Flatten(Codec.PathItems(v))
         == TextBytes(v.locatorPath) + TextBytes(v.desktopState) + TextBytes(v.replayState)
  {
    hide Written;
    FlattenThree(Text(v.locatorPath), Text(v.desktopState), Text(v.replayState));
    ItemBytes(Text(v.locatorPath));
    ItemBytes(Text(v.desktopState));
    ItemBytes(Text(v.replayState));
  }

  /** What is between the version and the three paths. */
  function TargetBytes(t: CleanupTarget<Bytes>): Bytes
    requires match t
             case Paired(stub, path) => |Codec.EncodeStub(stub)| < 0x1_0000 && |path| < 0x1_0000
             case Orphan(_, _, _) => true
  {
    match t
    case Paired(stub, path) => [1, 0x82] + (BlobBytes(Codec.EncodeStub(stub)) + TextBytes(path))
    case Orphan(d, i, f) => [2, 0x83] + (([0x50] + d) + ([0x50] + i) + ([0x58, 32] + f))
  }

  lemma TargetLayout(v: Codec.Cleanup)
    requires CleanupSizes(v)
    ensures Flatten(Codec.TargetItems(v.target)) == TargetBytes(v.target)
  {
    hide Written, Flatten, TextBytes, BlobBytes;
    match v.target
    case Paired(stub, path) =>
      var (a, b) := ([U16(1), Array(2)], [Blob(Codec.EncodeStub(stub)), Text(path)]);
      assert Codec.TargetItems(v.target) == a + b;
      FlattenConcat(a, b);
      FlattenTwo(a[0], a[1]);
      FlattenTwo(b[0], b[1]);
      ItemBytes(U16(1));
      ItemBytes(Array(2));
      ItemBytes(Blob(Codec.EncodeStub(stub)));
      ItemBytes(Text(path));
    case Orphan(d, i, f) =>
      var (a, b) := ([U16(2), Array(3)], [Blob(d), Blob(i), Blob(f)]);
      assert Codec.TargetItems(v.target) == a + b;
      FlattenConcat(a, b);
      FlattenTwo(a[0], a[1]);
      FlattenThree(b[0], b[1], b[2]);
      ItemBytes(U16(2));
      ItemBytes(Array(3));
      Blob16(d);
      Blob16(i);
      Blob32(f);
  }

  /** Version 2: the target, then the paths of the locator and both states. */
  lemma CleanupLayout(v: Codec.Cleanup)
    requires CleanupSizes(v)
    ensures Codec.EncodeCleanup(v)
         == Ok([0x86, 2] + TargetBytes(v.target)
               + (TextBytes(v.locatorPath) + TextBytes(v.desktopState) + TextBytes(v.replayState)))
  {
    hide Written, Flatten, TextBytes, BlobBytes;
    var a := [Array(6), U16(2)];
    var (t, p) := (Codec.TargetItems(v.target), Codec.PathItems(v));
    assert Codec.CleanupItems(v) == a + (t + p);
    FlattenParts(a, t, p);
    Opening(6, 2);
    TargetLayout(v);
    PathsLayout(v);
  }

  /** Version 1 knows paired targets only, without the inner array. */
  lemma LegacyCleanupLayout(v: Codec.Cleanup)
    requires CleanupSizes(v) && v.target.Paired?
    ensures Codec.EncodeLegacyCleanup(v)
         == Ok([0x86, 1] + (BlobBytes(Codec.EncodeStub(v.target.stub)) + TextBytes(v.target.stubPath))
               + (TextBytes(v.locatorPath) + TextBytes(v.desktopState) + TextBytes(v.replayState)))
  {
    hide Written, Flatten, TextBytes, BlobBytes;
    var (a, b) := ([Array(6), U16(1)], [Blob(Codec.EncodeStub(v.target.stub)), Text(v.target.stubPath)]);
    var p := Codec.PathItems(v);
    assert Codec.LegacyCleanupItems(v) == a + (b + p);
    FlattenParts(a, b, p);
    Opening(6, 1);
    FlattenTwo(b[0], b[1]);
    ItemBytes(b[0]);
    ItemBytes(b[1]);
    PathsLayout(v);
  }

  predicate SetupSizes(v: Codec.Setup) {
    && |v.setupCode| == 16 && |v.desktopId| == 16
    && |v.desktopState| < 0x1_0000 && |v.replayState| < 0x1_0000 && |v.identityStub| < 0x1_0000
    && (v.candidate.Some? ==> |Codec.EncodeStub(v.candidate.value)| < 0x1_0000)
    && Codec.SetupEncodable(v)
  }

  /** Stage number, setup code, desktop identifier and the three paths. */
  function SetupFieldBytes(v: Codec.Setup): Bytes
    requires SetupSizes(v)
  {
    [match v.stage
     case Provisioning => 1
     case Pairing => 2
     case ResponseVerified => 3
     case Confirmed => 4]
    + ([0x50] + v.setupCode) + ([0x50] + v.desktopId)
    + (TextBytes(v.desktopState) + TextBytes(v.replayState) + TextBytes(v.identityStub))
  }

  function CandidateBytes(v: Codec.Setup): Bytes
    requires SetupSizes(v)
  {
    match v.candidate
    case None => [0xF6]
    case Some(stub) => BlobBytes(Codec.EncodeStub(stub))
  }

  lemma SetupFieldLayout(v: Codec.Setup)
    requires SetupSizes(v)
    ensures Flatten(Codec.SetupFieldItems(v)) == SetupFieldBytes(v)
    ensures Written(Codec.CandidateItem(v.candidate)) == CandidateBytes(v)
  {
    hide Written, Flatten, TextBytes, BlobBytes;
    var a := [U16(Codec.StageNumber(v.stage)), Blob(v.setupCode), Blob(v.desktopId)];
    var b := [Text(v.desktopState), Text(v.replayState), Text(v.identityStub)];
    assert Codec.SetupFieldItems(v) == a + b;
    FlattenConcat(a, b);
    FlattenThree(a[0], a[1], a[2]);
    FlattenThree(b[0], b[1], b[2]);
    ItemBytes(a[0]);
    Blob16(v.setupCode);
    Blob16(v.desktopId);
    ItemBytes(b[0]);
    ItemBytes(b[1]);
    ItemBytes(b[2]);
    ItemBytes(Codec.CandidateItem(v.candidate));
  }

  /** Version 3 for paths chosen by the user, which ends with a true flag; version 2 for managed ones. */
  lemma SetupLayout(v: Codec.Setup)
    requires SetupSizes(v)
    ensures Codec.EncodeSetup(v)
         == Ok((if v.explicitPaths then [0x8A, 3] else [0x89, 2])
               + SetupFieldBytes(v)
               + ((TextBytes(Codec.TransportText(v.transport)) + CandidateBytes(v))
                  + (if v.explicitPaths then [0xF5] else [])))
  {
    hide Written, Flatten, TextBytes, BlobBytes;
    var a := if v.explicitPaths then [Array(10), U16(3)] else [Array(9), U16(2)];
    var f := Codec.SetupFieldItems(v);
    var c := [Text(Codec.TransportText(v.transport)), Codec.CandidateItem(v.candidate)];
    var d := if v.explicitPaths then [Bool(true)] else [];
    assert Codec.SetupItems(v) == a + (f + (c + d));
    FlattenParts(a, f, c + d);
    FlattenConcat(c, d);
    Opening(10, 3);
    Opening(9, 2);
    FlattenTwo(c[0], c[1]);
    EndFlag(v.explicitPaths);
    ItemBytes(c[0]);
    SetupFieldLayout(v);
  }

  lemma EndFlag(explicitPaths: bool)
    ensures Flatten(if explicitPaths then [Bool(true)] else []) == if explicitPaths then [0xF5] else []
  {
    FlattenOne(Bool(true));
  }

  /** Version 1 has neither transport nor flag. */
  lemma LegacySetupLayout(v: Codec.Setup)
    requires SetupSizes(v)
    ensures Codec.EncodeLegacySetup(v) == Ok([0x88, 1] + SetupFieldBytes(v) + CandidateBytes(v))
  {
    hide Written, Flatten, TextBytes, BlobBytes;
    var (a, f, c) := ([Array(8), U16(1)], Codec.SetupFieldItems(v), [Codec.CandidateItem(v.candidate)]);
    assert Codec.LegacySetupItems(v) == a + (f + c);
    FlattenParts(a, f, c);
    Opening(8, 1);
    FlattenOne(c[0]);
    SetupFieldLayout(v);
  }
}
