/**
 File names of the private configuration root. A `Path` is an absolute, normalized path
 split into its parent directory and its last component.
 */
module Paths {
  import opened Records

  datatype Path = Path(dir: string, name: string)

  const HEX_DIGITS := "0123456789abcdef"

  function HexDigit(n: nat): (c: char)
    requires n < 16
  {
    HEX_DIGITS[n]
  }

  predicate IsHexDigit(c: char) {
    '0' <= c <= '9' || 'a' <= c <= 'f'
  }

  /** Lower-case hexadecimal text of a byte string. */
  function Hex(bytes: Bytes): (s: string)
    ensures |s| == 2 * |bytes|
    ensures forall i :: 0 <= i < |s| ==> IsHexDigit(s[i])
  {
    if bytes == [] then "" else [HexDigit(bytes[0] / 16), HexDigit(bytes[0] % 16)] + Hex(bytes[1..])
  }

  lemma HexDigitInjective(a: nat, b: nat)
    requires a < 16 && b < 16 && HexDigit(a) == HexDigit(b)
    ensures a == b
  {
  }

  /** Hexadecimal text determines the bytes: a typed fingerprint names exactly one fingerprint. */
  lemma {:induction false} HexInjective(a: Bytes, b: Bytes)
    requires Hex(a) == Hex(b)
    ensures a == b
  {
    if a == [] {
      assert b == [];
    } else {
      assert |a| == |b|;
      var ha, hb := Hex(a), Hex(b);
      assert ha[0] == hb[0] && ha[1] == hb[1];
      HexDigitInjective(a[0] / 16, b[0] / 16);
      HexDigitInjective(a[0] % 16, b[0] % 16);
      assert ha[2..] == Hex(a[1..]) && hb[2..] == Hex(b[1..]);
      HexInjective(a[1..], b[1..]);
    }
  }

  /** Every byte is written as two digits, the high one first. */
  lemma {:induction false} HexAt(bytes: Bytes, i: nat)
    requires i < |bytes|
    ensures Hex(bytes)[2 * i] == "0123456789abcdef"[bytes[i] / 16]
    ensures Hex(bytes)[2 * i + 1] == "0123456789abcdef"[bytes[i] % 16]
  {
    if i > 0 { HexAt(bytes[1..], i - 1); }
  }

  /** Position of the last dot among the first `k` characters, or -1. */
  function LastDot(name: string, k: nat): (i: int)
    requires k <= |name|
    ensures -1 <= i < k
    ensures i >= 0 ==> name[i] == '.'
    ensures forall j :: i < j < k ==> name[j] != '.'
  {
    if k == 0 then -1 else if name[k - 1] == '.' then k - 1 else LastDot(name, k - 1)
  }

  /** The extension of a file name; a leading dot starts no extension. */
  function Extension(name: string): Option<string> {
    var i := LastDot(name, |name|);
    if i <= 0 then None else Some(name[i + 1..])
  }

  lemma ExtensionOf(stem: string, ext: string)
    requires stem != "" && '.' !in ext
    ensures Extension(stem + "." + ext) == Some(ext)
  {
    var name := stem + "." + ext;
    var i := LastDot(name, |name|);
    assert name[|stem|] == '.';
    assert forall j :: |stem| < j < |name| ==> name[j] == ext[j - |stem| - 1];
    assert i == |stem|;
    assert name[i + 1..] == ext;
  }

  /** State and stub files never use the extensions of journals, locators and replay sidecars. */
  predicate Plain(name: string) {
    name != "" && Extension(name) !in {Some("cbor"), Some("lock"), Some("pending")}
  }

  function SetupJournalPath(root: string): Path { Path(root, "desktop-setup.cbor") }

  function CleanupJournalPath(root: string): Path { Path(root, "desktop-cleanup.cbor") }

  function LifecycleLockPath(root: string): Path { Path(root, "desktop-cleanup.lock") }

  function ReplayLockPath(replay: Path): Path { Path(replay.dir, replay.name + ".lock") }

  function ReplayPendingPath(replay: Path): Path { Path(replay.dir, replay.name + ".pending") }

  function LocatorPath(root: string, identityId: Bytes, desktopId: Bytes): Path {
    Path(root, Hex(identityId) + "-" + Hex(desktopId) + ".cbor")
  }

  function LegacyLocatorPath(root: string, identityId: Bytes): Path {
    Path(root, Hex(identityId) + ".cbor")
  }

  predicate HexName(name: string) {
    |name| == 32 && forall i :: 0 <= i < |name| ==> IsHexDigit(name[i])
  }

  /** One or two 32-digit hexadecimal parts joined by a dash, then `.cbor`. */
  predicate LooksLikeLocator(name: string) {
    || (|name| == 37 && HexName(name[..32]) && name[32..] == ".cbor")
    || (|name| == 70 && HexName(name[..32]) && name[32] == '-' && HexName(name[33..65]) && name[65..] == ".cbor")
  }

  lemma LocatorNames(root: string, identityId: Bytes, desktopId: Bytes)
    requires |identityId| == 16 && |desktopId| == 16
    ensures LooksLikeLocator(LocatorPath(root, identityId, desktopId).name)
    ensures LooksLikeLocator(LegacyLocatorPath(root, identityId).name)
    ensures LocatorPath(root, identityId, desktopId) != LegacyLocatorPath(root, identityId)
  {
    var a, b := Hex(identityId), Hex(desktopId);
    var n := a + "-" + b + ".cbor";
    assert n[..32] == a && n[33..65] == b && n[65..] == ".cbor";
    assert (a + ".cbor")[..32] == a && (a + ".cbor")[32..] == ".cbor";
  }

  /** The identity comes first in a locator's name, and alone in a legacy one. */
  lemma LocatorNameParts(root: string, identityId: Bytes, desktopId: Bytes)
    requires |identityId| == 16 && |desktopId| == 16
    ensures var name := LocatorPath(root, identityId, desktopId).name;
            var legacy := LegacyLocatorPath(root, identityId).name;
            && |name| == 70 && name[..32] == Hex(identityId) && name[32] == '-' && name[33..65] == Hex(desktopId)
            && |legacy| == 37 && legacy[..32] == Hex(identityId)
            && name[65..] == ".cbor" && legacy[32..] == ".cbor"
  {
  }

  lemma LocatorExtension(name: string)
    requires LooksLikeLocator(name)
    ensures Extension(name) == Some("cbor") && !Plain(name)
  {
    var k := |name| - 5;
    assert name == name[..k] + "." + "cbor" by {
      assert name == name[..k] + name[k..];
      assert name[k..] == ".cbor" == "." + "cbor";
    }
    ExtensionOf(name[..k], "cbor");
  }

  lemma JournalExtensions(root: string)
    ensures Extension(SetupJournalPath(root).name) == Some("cbor")
    ensures Extension(CleanupJournalPath(root).name) == Some("cbor")
    ensures Extension(LifecycleLockPath(root).name) == Some("lock")
    ensures !LooksLikeLocator(SetupJournalPath(root).name)
    ensures !LooksLikeLocator(CleanupJournalPath(root).name)
  {
    assert "desktop-setup.cbor" == "desktop-setup" + "." + "cbor";
    ExtensionOf("desktop-setup", "cbor");
    assert "desktop-cleanup.cbor" == "desktop-cleanup" + "." + "cbor";
    ExtensionOf("desktop-cleanup", "cbor");
    assert "desktop-cleanup.lock" == "desktop-cleanup" + "." + "lock";
    ExtensionOf("desktop-cleanup", "lock");
  }

  lemma SidecarExtensions(replay: Path)
    requires replay.name != ""
    ensures Extension(ReplayLockPath(replay).name) == Some("lock")
    ensures Extension(ReplayPendingPath(replay).name) == Some("pending")
  {
    assert replay.name + ".lock" == replay.name + "." + "lock";
    ExtensionOf(replay.name, "lock");
    assert replay.name + ".pending" == replay.name + "." + "pending";
    ExtensionOf(replay.name, "pending");
  }

  /** The two-part locator name determines both identifiers. */
  lemma LocatorPathInjective(root: string, i1: Bytes, d1: Bytes, i2: Bytes, d2: Bytes)
    requires |i1| == |i2| && |d1| == |d2|
    requires LocatorPath(root, i1, d1) == LocatorPath(root, i2, d2)
    ensures i1 == i2 && d1 == d2
  {
    var n1 := Hex(i1) + "-" + Hex(d1) + ".cbor";
    var n2 := Hex(i2) + "-" + Hex(d2) + ".cbor";
    var k := 2 * |i1|;
    assert n1[..k] == Hex(i1) && n2[..k] == Hex(i2);
    assert n1[k + 1..k + 1 + 2 * |d1|] == Hex(d1) && n2[k + 1..k + 1 + 2 * |d2|] == Hex(d2);
    HexInjective(i1, i2);
    HexInjective(d1, d2);
  }

  /** Only the replay file named `desktop-cleanup` makes its lock the lifecycle lock. */
  lemma {:induction false} ReplayLockIsLifecycleLock(root: string, replay: Path)
    ensures ReplayLockPath(replay) == LifecycleLockPath(root)
       <==> replay == Path(root, "desktop-cleanup")
  {
    var a, b := replay.name + ".lock", "desktop-cleanup.lock";
    if a == b {
      assert a[..|a| - 5] == replay.name;
      assert b[..|b| - 5] == "desktop-cleanup";
    }
    assert "desktop-cleanup" + ".lock" == "desktop-cleanup.lock";
  }
}
