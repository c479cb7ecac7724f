/** The texts inside the records: which byte strings are UTF-8, which paths have a name, which keys agree. */
module Texts {
  import opened Records
  import opened Cbor
  import Codec
  import Metadata

  // ----- UTF-8 (RFC 3629, section 3) -----

  function EncodedChar(c: char): (b: Bytes)
    ensures 1 <= |b| <= 4
  {
    var n := c as int;
    if n < 0x80 then [n]
    else if n < 0x800 then [0xC0 + n / 0x40, 0x80 + n % 0x40]
    else if n < 0x1_0000 then [0xE0 + n / 0x1000, 0x80 + n / 0x40 % 0x40, 0x80 + n % 0x40]
    else [0xF0 + n / 0x4_0000, 0x80 + n / 0x1000 % 0x40, 0x80 + n / 0x40 % 0x40, 0x80 + n % 0x40]
  }

  function Encoded(s: string): Bytes {
    if s == "" then [] else EncodedChar(s[0]) + Encoded(s[1..])
  }

  lemma LeadOfSuffix(a: Bytes, b: Bytes, i: nat)
    requires i < |b|
    ensures Lead(a + b, |a| + i) == Lead(b, i)
  {
    assert forall k :: 0 <= k < |b| ==> (a + b)[|a| + k] == b[k];
  }

  /** What is encoded is well-formed: no overlong form, no surrogate, nothing too great. */
  lemma CharShape(c: char)
    ensures var e := EncodedChar(c);
            || (|e| == 1 && e[0] < 0x80)
            || (|e| == 2 && 0xC2 <= e[0] <= 0xDF && Continues(e[1]))
            || (|e| == 3 && SecondOfThree(e[0], e[1]) && Continues(e[2]))
            || (|e| == 4 && SecondOfFour(e[0], e[1]) && Continues(e[2]) && Continues(e[3]))
  {
    var n := c as int;
    assert n < 0xD800 || 0xE000 <= n < 0x11_0000;
    assert n / 0x1000 == n / 0x40 / 0x40 && n / 0x4_0000 == n / 0x1000 / 0x40;
  }

  lemma LeadOfChar(c: char, rest: Bytes)
    ensures Lead(EncodedChar(c) + rest, 0) == |EncodedChar(c)|
  {
    var e := EncodedChar(c);
    CharShape(c);
    hide EncodedChar;
    assert forall k :: 0 <= k < |e| ==> (e + rest)[k] == e[k];
  }

  lemma {:induction false} EncodedIsUtf8(s: string)
    ensures Utf8(Encoded(s))
  {
    if s != "" {
      var (a, b) := (EncodedChar(s[0]), Encoded(s[1..]));
      EncodedIsUtf8(s[1..]);
      LeadOfChar(s[0], b);
      forall i | 0 <= i < |a + b|
        ensures InCharacter(a + b, i)
      {
        if i >= |a| {
          assert InCharacter(b, i - |a|);
          LaterCharacter(a, b, i - |a|);
        }
      }
    }
  }

  lemma LaterCharacter(a: Bytes, b: Bytes, i: nat)
    requires i < |b| && InCharacter(b, i)
    ensures InCharacter(a + b, |a| + i)
  {
    LeadOfSuffix(a, b, i);
    if i >= 1 { LeadOfSuffix(a, b, i - 1); }
    if i >= 2 { LeadOfSuffix(a, b, i - 2); }
    if i >= 3 { LeadOfSuffix(a, b, i - 3); }
  }

  lemma Digits(h: int, l: int)
    requires 0 <= l < 0x40
    ensures (h * 0x40 + l) / 0x40 == h && (h * 0x40 + l) % 0x40 == l
  {
  }

  lemma TwoBytes(x: Byte, y: Byte) returns (c: char)
    requires 0xC2 <= x <= 0xDF && Continues(y)
    ensures EncodedChar(c) == [x, y]
  {
    var (h, l) := ((x as int) - 0xC0, (y as int) - 0x80);
    Digits(h, l);
    c := (h * 0x40 + l) as char;
  }

  lemma ThreeBytes(x: Byte, y: Byte, z: Byte) returns (c: char)
    requires SecondOfThree(x, y) && Continues(z)
    ensures EncodedChar(c) == [x, y, z]
  {
    var (h, m, l) := ((x as int) - 0xE0, (y as int) - 0x80, (z as int) - 0x80);
    var high := h * 0x40 + m;
    var n := high * 0x40 + l;
    Digits(h, m);
    Digits(high, l);
    assert n / 0x1000 == high / 0x40;
    c := n as char;
  }

  lemma FourBytes(x: Byte, y: Byte, z: Byte, w: Byte) returns (c: char)
    requires SecondOfFour(x, y) && Continues(z) && Continues(w)
    ensures EncodedChar(c) == [x, y, z, w]
  {
    var (h, m, k, l) := ((x as int) - 0xF0, (y as int) - 0x80, (z as int) - 0x80, (w as int) - 0x80);
    var high := h * 0x40 + m;
    var middle := high * 0x40 + k;
    var n := middle * 0x40 + l;
    Digits(h, m);
    Digits(high, k);
    Digits(middle, l);
    assert n / 0x1000 == middle / 0x40 && n / 0x4_0000 == high / 0x40;
    c := n as char;
  }

  /** The scalar value of the well-formed sequence in front. */
  lemma LeadIsChar(b: Bytes) returns (c: char)
    requires b != [] && Lead(b, 0) > 0
    ensures Lead(b, 0) <= |b| && b[..Lead(b, 0)] == EncodedChar(c)
    ensures forall i :: 1 <= i < Lead(b, 0) ==> Lead(b, i) == 0
  {
    hide EncodedChar;
    var k := Lead(b, 0);
    if k == 1 {
      c := OneByte(b[0]);
      assert b[..1] == [b[0]];
    } else if k == 2 {
      c := TwoBytes(b[0], b[1]);
      assert b[..2] == [b[0], b[1]];
    } else if k == 3 {
      c := ThreeBytes(b[0], b[1], b[2]);
      assert b[..3] == [b[0], b[1], b[2]];
    } else {
      c := FourBytes(b[0], b[1], b[2], b[3]);
      assert b[..4] == [b[0], b[1], b[2], b[3]];
    }
  }

  lemma OneByte(x: Byte) returns (c: char)
    requires x < 0x80
    ensures EncodedChar(c) == [x]
  {
    c := (x as int) as char;
  }

  lemma OwnCharacter(a: Bytes, b: Bytes, i: nat)
    requires a != [] && i < |b| && InCharacter(a + b, |a| + i) && Lead(a + b, 0) == |a|
    requires forall k :: 1 <= k < |a| ==> Lead(a + b, k) == 0
    ensures InCharacter(b, i)
  {
    hide Lead;
    LeadOfSuffix(a, b, i);
    if i >= 1 { LeadOfSuffix(a, b, i - 1); }
    if i >= 2 { LeadOfSuffix(a, b, i - 2); }
    if i >= 3 { LeadOfSuffix(a, b, i - 3); }
  }

  lemma RestIsUtf8(b: Bytes)
    requires b != [] && Utf8(b)
    ensures 0 < Lead(b, 0) <= |b| && Utf8(b[Lead(b, 0)..])
  {
    assert InCharacter(b, 0);
    hide Lead, InCharacter;
    var c := LeadIsChar(b);
    var (a, rest) := (b[..Lead(b, 0)], b[Lead(b, 0)..]);
    assert b == a + rest;
    forall i | 0 <= i < |rest|
      ensures InCharacter(rest, i)
    {
      assert InCharacter(b, |a| + i);
      OwnCharacter(a, rest, i);
    }
  }

  lemma {:induction false} Utf8IsEncoded(b: Bytes) returns (s: string)
    requires Utf8(b)
    ensures Encoded(s) == b
    decreases |b|
  {
    if b == [] {
      s := "";
    } else {
      RestIsUtf8(b);
      var c := LeadIsChar(b);
      var rest := Utf8IsEncoded(b[Lead(b, 0)..]);
      s := [c] + rest;
      assert s[1..] == rest;
      assert b == b[..Lead(b, 0)] + b[Lead(b, 0)..];
    }
  }

  /** Main result: a byte string is accepted as a text exactly if it encodes some scalar values. */
  lemma Utf8Iff(b: Bytes)
    ensures Utf8(b) <==> exists s: string :: Encoded(s) == b
  {
    if Utf8(b) { var s := Utf8IsEncoded(b); }
    if s: string :| Encoded(s) == b { EncodedIsUtf8(s); }
  }

  // ----- Paths -----

  /** The last component of a path is its name, unless it is `..`; a trailing `/` or `/.` does not count. */
  lemma NamedBy(before: Bytes, name: Bytes)
    requires name != [] && 0x2F !in name
    ensures !Codec.Named([])
    ensures Codec.Named(before + [0x2F]) <==> Codec.Named(before)
    ensures Codec.Named(before + [0x2F] + [0x2E]) <==> Codec.Named(before)
    ensures name != [0x2E] ==> (Codec.Named(before + [0x2F] + name) <==> name != [0x2E, 0x2E])
  {
    var (p, q) := (before + [0x2F], before + [0x2F] + [0x2E]);
    assert p[..|p| - 1] == before && q[..|q| - 1] == p;
    var r := before + [0x2F] + name;
    assert r[|r| - 1] == name[|name| - 1];
    if |name| >= 2 { assert r[|r| - 2] == name[|name| - 2]; }
    if |name| >= 3 { assert r[|r| - 3] == name[|name| - 3]; }
    if |name| == 1 { assert name == [name[0]] && r[|r| - 2] == 0x2F; }
    if |name| == 2 { assert name == [name[0], name[1]] && r[|r| - 3] == 0x2F; }
  }

  // ----- Keys -----

  /**
   A stub is accepted exactly if its bytes are its encoding, its fields have their sizes, its recipient
   is a text, its keys parse and the four keys of the pairing are four different ones.
   */
  lemma StubAcceptedExactly(c: Codec.Crypto, bytes: Bytes, s: PublicIdentityStub)
    requires |bytes| < U64
    ensures Codec.DecodeStub(c, bytes) == Ok(s) <==>
            && bytes == Codec.EncodeStub(s)
            && |s.desktopId| == 16 && |s.identityId| == 16
            && |s.desktopSigningKey| == 33 && |s.desktopSelectionKey| == 33 && |s.phoneSigningKey| == 33
            && |s.offerDigest| == 32 && |s.fingerprint| == 32
            && (exists t: string :: Encoded(t) == s.recipient)
            && c.isSigningKey(s.desktopSigningKey) && c.isSigningKey(s.phoneSigningKey)
            && c.isAgreementKey(s.desktopSelectionKey)
            && c.recipientKey(s.recipient).Some?
            && |{s.desktopSigningKey, s.desktopSelectionKey, s.phoneSigningKey, c.recipientKey(s.recipient).value}| == 4
  {
    Codec.StubAcceptedIff(c, bytes, s);
    Utf8Iff(s.recipient);
    if c.recipientKey(s.recipient).Some? {
      FourDistinct(s.desktopSigningKey, s.desktopSelectionKey, s.phoneSigningKey, c.recipientKey(s.recipient).value);
    }
  }

  /** After the opening of a stub's eleven fields, another version or suite is unsupported, not malformed. */
  lemma UnsupportedIff(c: Codec.Crypto, version: Byte, suite: Byte, rest: Bytes)
    requires version < 24 && suite < 24
    ensures Codec.DecodeStub(c, [0x8B, version, suite] + rest) == Err(Unsupported) <==> version != 2 || suite != 1
  {
    hide Codec.ReadStubFields, Codec.StrictStub;
    var b := [0x8B, version, suite] + rest;
    HeaderOf(version, suite, rest);
    FieldsAreMalformed(rest);
    if Codec.ReadStubFields(rest).Ok? {
      var read := Codec.ReadStubFields(rest).value;
      StrictIsMalformed(c, read.value, read.rest == [], b);
    }
  }

  lemma HeaderOf(version: Byte, suite: Byte, rest: Bytes)
    requires version < 24 && suite < 24
    ensures Codec.ReadStubHeader([0x8B, version, suite] + rest)
         == if version != 2 || suite != 1 then Err(Unsupported) else Ok(Read((), rest))
  {
    var b := [0x8B, version, suite] + rest;
    assert b[1..] == [version, suite] + rest && b[1..][1..] == [suite] + rest && b[1..][1..][1..] == rest;
  }

  lemma StrictIsMalformed(c: Codec.Crypto, s: PublicIdentityStub, ended: bool, bytes: Bytes)
    ensures Codec.StrictStub(c, s, ended, bytes) != Err(Unsupported)
  {
  }

  lemma FixedIsMalformed(b: Bytes, size: nat)
    ensures Codec.ReadFixed(b, size) != Err(Unsupported) && ReadText(b) != Err(Unsupported)
  {
  }

  lemma FieldsAreMalformed(b: Bytes)
    ensures Codec.ReadStubFields(b) != Err(Unsupported)
  {
    hide Codec.ReadFixed, ReadText;
    forall r: Bytes, size: nat
      ensures Codec.ReadFixed(r, size) != Err(Unsupported)
    {
      FixedIsMalformed(r, size);
    }
    forall r: Bytes
      ensures ReadText(r) != Err(Unsupported)
    {
      FixedIsMalformed(r, 0);
    }
  }

  lemma FourDistinct(a: Bytes, b: Bytes, c: Bytes, d: Bytes)
    ensures |{a, b, c, d}| == 4 <==> a != b && a != c && a != d && b != c && b != d && c != d
  {
    var three := {a, b, c};
    assert {a, b, c, d} == three + {d};
    assert three == {a, b} + {c};
    assert {a, b} == {a} + {b};
    assert |{a, b}| == if a == b then 1 else 2;
    assert |three| == if c in {a, b} then |{a, b}| else |{a, b}| + 1;
    assert |{a, b, c, d}| == if d in three then |three| else |three| + 1;
  }

  /** Key references are accepted exactly if everything is at its place and in its bounds, and signed. */
  lemma ReferencesAcceptedExactly(c: Metadata.Curve, bytes: Bytes, m: Metadata.References)
    requires |bytes| >= 159
    ensures Metadata.Parse(c, bytes) == Ok(m) <==>
            && bytes[..7] == [0x41, 0x50, 0x53, 0x45, 0x32, 0, 1]
            && m.id == bytes[7..23] && m.signingKey == bytes[23..56] && m.selectionKey == bytes[56..89]
            && |m.signing| == 256 * (bytes[89] as int) + bytes[90] as int
            && |m.selection| == 256 * (bytes[91] as int) + bytes[92] as int
            && 0 < |m.signing| <= 4096 && 0 < |m.selection| <= 4096
            && |bytes| == 157 + |m.signing| + |m.selection|
            && m.signing == bytes[93..93 + |m.signing|]
            && m.selection == bytes[93 + |m.signing|..93 + |m.signing| + |m.selection|]
            && m.signingKey != m.selectionKey && m.signing != m.selection && c.isPublicKey(m.selectionKey)
            && c.verifies(m.signingKey, bytes[..|bytes| - 64], bytes[|bytes| - 64..])
  {
    TwoByteNumber(bytes[89..91]);
    TwoByteNumber(bytes[91..93]);
    assert bytes[..7] == bytes[..5] + bytes[5..7];
  }

  /** Shorter inputs are never accepted. */
  lemma ShortReferencesAreRefused(c: Metadata.Curve, bytes: Bytes)
    requires |bytes| < 159
    ensures Metadata.Parse(c, bytes).Err?
  {
  }

  lemma TwoByteNumber(b: Bytes)
    requires |b| == 2
    ensures Number(b) == 256 * (b[0] as int) + b[1] as int
  {
    assert b[..1][..0] == [] && b[..1][0] == b[0];
    assert Number(b[..1]) == b[0];
  }
}
