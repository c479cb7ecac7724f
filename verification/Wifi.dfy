/** Wi-Fi discovery: the subnet arithmetic, the discovery messages and the bounded query loop. */
module Wifi {
  import opened Records

  /** An IPv4 address as its 32-bit number. */
  type Address = a: nat | a < 0x1_0000_0000

  // ----- Binary numbers -----

  function Power(k: nat): (p: nat)
    ensures p > 0
  {
    if k == 0 then 1 else 2 * Power(k - 1)
  }

  function CountOnes(n: nat): nat {
    if n == 0 then 0 else n % 2 + CountOnes(n / 2)
  }

  function Or(a: nat, b: nat): nat
    decreases a + b
  {
    if a == 0 then b else if b == 0 then a
    else 2 * Or(a / 2, b / 2) + (if a % 2 == 1 || b % 2 == 1 then 1 else 0)
  }

  lemma {:induction false} OneBitIsPower(n: nat) returns (k: nat)
    requires CountOnes(n) == 1
    ensures n == Power(k)
  {
    if n % 2 == 1 {
      k := 0;
      if n / 2 > 0 { SomeBit(n / 2); }
    } else {
      k := OneBitIsPower(n / 2);
      k := k + 1;
    }
  }

  lemma {:induction false} SomeBit(n: nat)
    requires n > 0
    ensures CountOnes(n) > 0
  {
    if n % 2 == 0 { SomeBit(n / 2); }
  }

  lemma {:induction false} OnesOfPower(k: nat)
    ensures CountOnes(Power(k)) == 1
  {
    if k > 0 {
      OnesOfPower(k - 1);
      assert Power(k) / 2 == Power(k - 1);
    }
  }

  /** A number of the form 1...10...0 has as many ones as it has leading digits. */
  lemma {:induction false} OnesOfPrefix(size: nat, k: nat)
    requires k <= size
    ensures Power(k) <= Power(size) && CountOnes(Power(size) - Power(k)) == size - k
    decreases size
  {
    if k == size {
    } else if k == 0 {
      OnesOfPrefix(size - 1, 0);
      assert (Power(size) - 1) / 2 == Power(size - 1) - 1 && (Power(size) - 1) % 2 == 1;
    } else {
      OnesOfPrefix(size - 1, k - 1);
      assert (Power(size) - Power(k)) / 2 == Power(size - 1) - Power(k - 1);
    }
  }

  lemma {:induction false} PowerMonotone(j: nat, k: nat)
    requires j < k
    ensures 2 * Power(j) <= Power(k)
    decreases k
  {
    if j < k - 1 { PowerMonotone(j, k - 1); }
  }

  /** The number without its `k` lowest digits. */
  function Shifted(a: nat, k: nat): nat
    decreases k
  {
    if k == 0 then a else Shifted(a / 2, k - 1)
  }

  /** Setting the low digits changes nothing above them and gives the greatest such number. */
  lemma {:induction false} OrLow(a: nat, k: nat)
    ensures Shifted(Or(a, Power(k) - 1), k) == Shifted(a, k)
    ensures forall x: nat :: Shifted(x, k) == Shifted(a, k) ==> x <= Or(a, Power(k) - 1)
    decreases k
  {
    if k > 0 {
      var p := Power(k - 1);
      OrLow(a / 2, k - 1);
      assert (2 * p - 1) / 2 == p - 1 && (2 * p - 1) % 2 == 1;
      assert Or(a, Power(k) - 1) == 2 * Or(a / 2, p - 1) + 1;
      forall x: nat | Shifted(x, k) == Shifted(a, k)
        ensures x <= Or(a, Power(k) - 1)
      {
        assert Shifted(x / 2, k - 1) == Shifted(a / 2, k - 1);
        assert x / 2 <= Or(a / 2, p - 1);
      }
    }
  }

  // ----- Routes -----

  function Octet(a: Address, i: nat): nat
    requires i < 4
  {
    if i == 0 then a / 0x100_0000 else if i == 1 then a / 0x1_0000 % 256 else if i == 2 then a / 256 % 256 else a % 256
  }

  predicate IsPrivate(a: Address) {
    || Octet(a, 0) == 10
    || (Octet(a, 0) == 172 && 16 <= Octet(a, 1) <= 31)
    || (Octet(a, 0) == 192 && Octet(a, 1) == 168)
  }

  predicate IsLinkLocal(a: Address) {
    Octet(a, 0) == 169 && Octet(a, 1) == 254
  }

  predicate PrivateRoute(a: Address) {
    && (IsPrivate(a) || IsLinkLocal(a))
    && a != 0 && Octet(a, 0) != 127 && !(224 <= Octet(a, 0) <= 239) && a != 0xFFFF_FFFF
  }

  /** The accepted addresses are four blocks (section 3 of RFC 1918, and 169.254/16). */
  lemma PrivateRouteIff(a: Address)
    ensures PrivateRoute(a) <==>
            || 0x0A00_0000 <= a < 0x0B00_0000 || 0xAC10_0000 <= a < 0xAC20_0000
            || 0xC0A8_0000 <= a < 0xC0A9_0000 || 0xA9FE_0000 <= a < 0xA9FF_0000
  {
  }

  function DirectedBroadcast(address: Address, mask: Address): Option<nat> {
    if !PrivateRoute(address) then None
    else if mask == 0 || CountOnes(mask) >= 31 || CountOnes(0xFFFF_FFFF - mask + 1) != 1 then None
    else
      var broadcast := Or(address, 0xFFFF_FFFF - mask);
      if broadcast != address && broadcast != 0xFFFF_FFFF then Some(broadcast) else None
  }

  /** A network mask with this many leading ones. */
  function Mask(length: nat): nat
    requires length <= 32
  {
    if length == 0 then 0 else PowerMonotone(32 - length, 32); Power(32) - Power(32 - length)
  }

  predicate SameNetwork(a: nat, b: nat, length: nat)
    requires length <= 32
  {
    Shifted(a, 32 - length) == Shifted(b, 32 - length)
  }

  /** The greatest address of the network. */
  ghost predicate LastOf(b: nat, address: nat, length: nat)
    requires length <= 32
  {
    SameNetwork(b, address, length) && forall x: nat :: SameNetwork(x, address, length) ==> x <= b
  }

  lemma Power32()
    ensures Power(32) == 0x1_0000_0000
  {
    assert Power(8) == 256;
    assert Power(16) == 0x1_0000 by { assert Power(12) == 4096; }
    assert Power(24) == 0x100_0000 by { assert Power(20) == 0x10_0000; }
    assert Power(28) == 0x1000_0000;
  }

  predicate MaskPasses(mask: Address) {
    mask != 0 && CountOnes(mask) < 31 && CountOnes(0xFFFF_FFFF - mask + 1) == 1
  }

  lemma PassingMask(mask: Address) returns (length: nat)
    requires MaskPasses(mask)
    ensures 1 <= length <= 30 && mask == Mask(length)
  {
    Power32();
    var k := OneBitIsPower(Power(32) - mask);
    if k >= 32 {
      if k > 32 { PowerMonotone(32, k); }
      assert false;
    }
    OnesOfPrefix(32, k);
    length := 32 - k;
  }

  lemma MaskPassing(length: nat)
    requires 1 <= length <= 30
    ensures 0 < Mask(length) < 0x1_0000_0000 && MaskPasses(Mask(length))
  {
    Power32();
    PowerMonotone(32 - length, 32);
    OnesOfPrefix(32, 32 - length);
    OnesOfPower(32 - length);
  }

  lemma BroadcastIsLast(address: Address, length: nat, b: nat)
    requires 1 <= length <= 30
    ensures Mask(length) < 0x1_0000_0000
    ensures LastOf(b, address, length) <==> b == Or(address, 0xFFFF_FFFF - Mask(length))
  {
    MaskPassing(length);
    Power32();
    OrLow(address, 32 - length);
    var last := Or(address, Power(32 - length) - 1);
    assert SameNetwork(last, address, length);
    assert forall x: nat :: SameNetwork(x, address, length) ==> x <= last;
  }

  /**
   Main result: a broadcast address is given exactly for a private route and a contiguous mask of
   one to thirty bits, and it is the greatest address of that network, other than the address
   itself and 255.255.255.255.
   */
  lemma DirectedBroadcastIff(address: Address, mask: Address, b: nat)
    ensures DirectedBroadcast(address, mask) == Some(b) <==>
            && PrivateRoute(address) && b != address && b != 0xFFFF_FFFF
            && exists length :: 1 <= length <= 30 && mask == Mask(length) && LastOf(b, address, length)
  {
    if MaskPasses(mask) {
      var length := PassingMask(mask);
      BroadcastIsLast(address, length, b);
    }
    forall length | 1 <= length <= 30 && mask == Mask(length)
      ensures MaskPasses(mask) && (LastOf(b, address, length) <==> b == Or(address, 0xFFFF_FFFF - mask))
    {
      MaskPassing(length);
      BroadcastIsLast(address, length, b);
    }
  }

  // ----- Messages -----

  datatype Purpose = ForPairing | ForUnwrap

  datatype Query = Query(purpose: Purpose, nonce: Bytes, desktopId: Bytes, identityId: Bytes)

  predicate QueryShape(q: Query) {
    |q.nonce| == 32 && |q.desktopId| == 16 && |q.identityId| == 16
  }

  function PurposeCode(p: Purpose): Byte {
    if p == ForPairing then 1 else 2
  }

  const MAGIC: Bytes := [0x41, 0x50, 0x57, 0x44]

  function Message(q: Query, kind: Byte): Bytes {
    MAGIC + [0, 1] + [kind, PurposeCode(q.purpose)] + q.nonce + q.desktopId + q.identityId
  }

  /** `verifies` takes the signed message and a signature in low-S form. */
  function ValidResponse(encoded: Bytes, q: Query, key: Option<(Bytes, Bytes) -> bool>): bool {
    var expected := Message(q, 2);
    match (q.purpose, key)
    case (ForPairing, None) => encoded == expected
    case (ForUnwrap, Some(verifies)) =>
      |encoded| == 136 && encoded[..72] == expected && verifies(expected, encoded[72..])
    case _ => false
  }

  method CopyInto(a: array<Byte>, at: nat, source: Bytes)
    requires at + |source| <= a.Length
    modifies a
    ensures a[..] == old(a[..at]) + source + old(a[at + |source|..])
  {
    for i := 0 to |source|
      invariant a[..at] == old(a[..at]) && a[at + |source|..] == old(a[at + |source|..])
      invariant a[at..at + i] == source[..i]
    {
      a[at + i] := source[i];
      assert source[..i + 1] == source[..i] + [source[i]];
      assert a[at..at + i + 1] == a[at..at + i] + [a[at + i]];
    }
    assert source[..|source|] == source;
    assert a[..] == a[..at] + a[at..at + |source|] + a[at + |source|..];
  }

  /** `encode_discovery`: the fields at their fixed places. */
  method EncodeDiscovery(q: Query, kind: Byte) returns (encoded: array<Byte>)
    requires QueryShape(q)
    ensures fresh(encoded) && encoded[..] == Message(q, kind)
  {
    encoded := new Byte[72](_ => 0);
    CopyInto(encoded, 0, MAGIC);
    CopyInto(encoded, 4, [0, 1]);
    encoded[6] := kind;
    encoded[7] := PurposeCode(q.purpose);
    assert encoded[..8] == MAGIC + [0, 1] + [kind, PurposeCode(q.purpose)];
    CopyInto(encoded, 8, q.nonce);
    assert encoded[..40] == MAGIC + [0, 1] + [kind, PurposeCode(q.purpose)] + q.nonce;
    CopyInto(encoded, 40, q.desktopId);
    assert encoded[..56] == MAGIC + [0, 1] + [kind, PurposeCode(q.purpose)] + q.nonce + q.desktopId;
    CopyInto(encoded, 56, q.identityId);
    assert encoded[..] == encoded[..56] + q.identityId;
  }

  lemma MessageFields(q: Query, kind: Byte)
    requires QueryShape(q)
    ensures var m := Message(q, kind);
            |m| == 72 && m[6] == kind && m[7] == PurposeCode(q.purpose)
            && m[8..40] == q.nonce && m[40..56] == q.desktopId && m[56..] == q.identityId
  {
  }

  /** A response answers one query only, and an echoed query is never a response. */
  lemma ResponseBindsQuery(encoded: Bytes, q: Query, r: Query, key: Option<(Bytes, Bytes) -> bool>,
                           other: Option<(Bytes, Bytes) -> bool>)
    requires QueryShape(q) && QueryShape(r)
    requires ValidResponse(encoded, q, key)
    ensures ValidResponse(encoded, r, other) ==> q == r
    ensures encoded != Message(r, 1)
  {
    MessageFields(q, 2);
    MessageFields(r, 2);
    MessageFields(r, 1);
    assert encoded[..72] == Message(q, 2);
    assert encoded[6] == encoded[..72][6];
    if ValidResponse(encoded, r, other) {
      assert encoded[..72] == Message(r, 2);
    }
  }

  /**
   Main result: a response is accepted exactly if it is "APWD", version 1, kind 2, with this query's
   purpose, nonce and identifiers at their places; a pairing response ends there, and an unwrap
   response ends with a signature of those 72 bytes that verifies.
   */
  lemma ValidResponseIff(encoded: Bytes, q: Query, key: Option<(Bytes, Bytes) -> bool>)
    requires QueryShape(q)
    ensures ValidResponse(encoded, q, key) <==>
            && |encoded| == (if q.purpose == ForPairing then 72 else 136)
            && encoded[..8] == [0x41, 0x50, 0x57, 0x44, 0, 1, 2, if q.purpose == ForPairing then 1 else 2]
            && encoded[8..40] == q.nonce && encoded[40..56] == q.desktopId && encoded[56..72] == q.identityId
            && (q.purpose == ForPairing ==> key == None)
            && (q.purpose == ForUnwrap ==> key.Some? && key.value(encoded[..72], encoded[72..]))
  {
    MessageFields(q, 2);
    var m := Message(q, 2);
    assert m[..8] == [0x41, 0x50, 0x57, 0x44, 0, 1, 2, PurposeCode(q.purpose)];
    if |encoded| >= 72 {
      var e := encoded[..72];
      assert e[..8] == encoded[..8] && e[8..40] == encoded[8..40];
      assert e[40..56] == encoded[40..56] && e[56..] == encoded[56..72];
      assert e == e[..8] + e[8..40] + e[40..56] + e[56..];
      assert m == m[..8] + m[8..40] + m[40..56] + m[56..];
    }
    if |encoded| == 72 { assert encoded[..72] == encoded; }
  }

  // ----- Discovery loop -----

  const RETRY := 200

  /** What one wait brings: a packet from an IPv4 source or another one, nothing, or a broken socket. */
  datatype Arrival = Packet(v4: bool, source: Address, valid: bool) | Quiet | Broken

  datatype Discovery = Found(endpoint: Address) | Unavailable | Ambiguous | IoError

  predicate AcceptedArrival(a: Arrival) {
    a.Packet? && a.v4 && PrivateRoute(a.source) && a.valid
  }

  /** Endpoints of the accepted packets. */
  function Endpoints(arrivals: seq<Arrival>): set<Address> {
    if arrivals == [] then {}
    else
      var last := arrivals[|arrivals| - 1];
      Endpoints(arrivals[..|arrivals| - 1]) + (if AcceptedArrival(last) then {last.source} else {})
  }

  lemma {:induction false} EndpointsAre(arrivals: seq<Arrival>, e: Address)
    ensures e in Endpoints(arrivals) <==>
            exists i :: 0 <= i < |arrivals| && arrivals[i].Packet? && arrivals[i].v4 && arrivals[i].valid
                        && PrivateRoute(arrivals[i].source) && arrivals[i].source == e
    decreases |arrivals|
  {
    if arrivals != [] {
      var k := |arrivals| - 1;
      EndpointsAre(arrivals[..k], e);
      assert arrivals == arrivals[..k] + [arrivals[k]];
    }
  }

  /**
   What the outside does during a run: `clock[0]` sets the deadline, `clock[1]` the first send,
   `clock[i + 2]` is read in turn `i`. The recording lasts until the deadline.
   */
  datatype Trace = Trace(clock: seq<nat>, timeout: nat, sends: seq<bool>, arrivals: seq<Arrival>)
  {
    ghost predicate Valid() {
      && |clock| == |arrivals| + 3 && |sends| == |arrivals|
      && clock[0] <= clock[1] && Over(|arrivals|)
    }

    predicate Over(turn: nat)
      requires turn + 2 < |clock|
    {
      clock[turn + 2] >= clock[0] + timeout
    }

    /** A turn before the deadline in which the socket works. */
    predicate Smooth(turn: nat)
      requires turn < |arrivals| && |sends| == |arrivals| && |clock| == |arrivals| + 3
    {
      !Over(turn) && sends[turn] && arrivals[turn] != Broken
    }
  }

  /** The variables of the loop at the beginning of a turn. */
  datatype Loop = Loop(turn: nat, nextSend: nat, sent: nat, candidates: set<Address>)

  /** How a run ends: the result, the turns begun with a wait, and the query rounds sent. */
  datatype Run = Run(result: Discovery, turns: nat, sent: nat)

  datatype Progress = Ended(run: Run) | Goes(loop: Loop)

  /** The sole candidate, or why there is none; a second one has ended the loop before. */
  ghost function Judged(candidates: set<Address>): Discovery {
    if candidates == {} then Unavailable
    else if e :| candidates == {e} then Found(e) else Ambiguous
  }

  function Considered(candidates: set<Address>, arrival: Arrival): set<Address> {
    candidates + if AcceptedArrival(arrival) then {arrival.source} else {}
  }

  /** Send when it is due. */
  function Sending(t: Trace, s: Loop): Loop
    requires s.turn + 2 < |t.clock|
  {
    var now := t.clock[s.turn + 2];
    if now >= s.nextSend then Loop(s.turn, now + RETRY, s.sent + 1, s.candidates) else s
  }

  /** One turn of the loop. */
  ghost function Turn(t: Trace, s: Loop): Progress
    requires t.Valid() && s.turn <= |t.arrivals|
  {
    var sending := Sending(t, s);
    if t.Over(s.turn) then Ended(Run(Judged(s.candidates), s.turn, s.sent))
    else if sending != s && !t.sends[s.turn] then Ended(Run(IoError, s.turn, s.sent))
    else if t.arrivals[s.turn] == Broken then Ended(Run(IoError, s.turn + 1, sending.sent))
    else
      var more := Considered(s.candidates, t.arrivals[s.turn]);
      if |more| > 1 then Ended(Run(Ambiguous, s.turn + 1, sending.sent))
      else Goes(Loop(s.turn + 1, sending.nextSend, sending.sent, more))
  }

  ghost function From(t: Trace, s: Loop): Run
    requires t.Valid() && s.turn <= |t.arrivals|
    decreases |t.arrivals| - s.turn
  {
    match Turn(t, s)
    case Ended(run) => run
    case Goes(next) => From(t, next)
  }

  ghost function Discovered(t: Trace): Run
    requires t.Valid()
  {
    From(t, Loop(0, t.clock[1], 0, {}))
  }

  /** `record_discovery_candidate`: a second distinct endpoint is an error at once. */
  method RecordCandidate(candidates: set<Address>, endpoint: Address) returns (more: set<Address>, ambiguous: bool)
    ensures more == candidates + {endpoint} && ambiguous == (|more| > 1)
  {
    more := candidates + {endpoint};
    ambiguous := |more| > 1;
  }

  method OneTurn(t: Trace, s: Loop) returns (p: Progress)
    requires t.Valid() && s.turn <= |t.arrivals| && !t.Over(s.turn) && |s.candidates| <= 1
    ensures p == Turn(t, s)
  {
    var now := t.clock[s.turn + 2];
    var (nextSend, sent) := (s.nextSend, s.sent);
    if now >= nextSend {
      if !t.sends[s.turn] { return Ended(Run(IoError, s.turn, sent)); }
      sent, nextSend := sent + 1, now + RETRY;
    }
    var arrival := t.arrivals[s.turn];
    if arrival == Broken { return Ended(Run(IoError, s.turn + 1, sent)); }
    if !AcceptedArrival(arrival) {
      assert Considered(s.candidates, arrival) == s.candidates;
      return Goes(Loop(s.turn + 1, nextSend, sent, s.candidates));
    }
    var more, ambiguous := RecordCandidate(s.candidates, arrival.source);
    if ambiguous { return Ended(Run(Ambiguous, s.turn + 1, sent)); }
    return Goes(Loop(s.turn + 1, nextSend, sent, more));
  }

  /** `discover_with_io` from the deadline's computation to its result. */
  method Discover(t: Trace) returns (r: Run)
    requires t.Valid()
    ensures r == Discovered(t)
  {
    var s := Loop(0, t.clock[1], 0, {});
    while !t.Over(s.turn)
      invariant s.turn <= |t.arrivals| && |s.candidates| <= 1
      invariant From(t, s) == Discovered(t)
      decreases |t.arrivals| - s.turn
    {
      var p := OneTurn(t, s);
      if p.Ended? { return p.run; }
      s := p.loop;
    }
    if s.candidates == {} { return Run(Unavailable, s.turn, s.sent); }
    var endpoint :| endpoint in s.candidates;
    Singleton(s.candidates, endpoint);
    return Run(Found(endpoint), s.turn, s.sent);
  }

  // ----- What discovery promises -----

  lemma EndpointsNext(arrivals: seq<Arrival>, k: nat)
    requires k < |arrivals|
    ensures Endpoints(arrivals[..k + 1]) == Considered(Endpoints(arrivals[..k]), arrivals[k])
  {
    assert arrivals[..k + 1][..k] == arrivals[..k];
  }

  lemma {:induction false} EndpointsGrow(arrivals: seq<Arrival>, i: nat, k: nat)
    requires i <= k <= |arrivals|
    ensures Endpoints(arrivals[..i]) <= Endpoints(arrivals[..k])
    decreases k
  {
    if i < k {
      EndpointsNext(arrivals, k - 1);
      EndpointsGrow(arrivals, i, k - 1);
    }
  }

  /** The endpoints decide the result. */
  ghost predicate Decides(endpoints: set<Address>, r: Discovery) {
    match r
    case Found(e) => endpoints == {e}
    case Unavailable => endpoints == {}
    case Ambiguous => |endpoints| > 1
    case IoError => false
  }

  lemma JudgedDecides(candidates: set<Address>)
    requires |candidates| <= 1
    ensures Decides(candidates, Judged(candidates))
  {
    if e :| e in candidates { Singleton(candidates, e); }
  }

  lemma {:induction false} FromDecides(t: Trace, s: Loop, end: nat)
    requires t.Valid() && s.turn <= end <= |t.arrivals| && t.Over(end)
    requires forall i :: s.turn <= i < end ==> t.Smooth(i)
    requires s.candidates == Endpoints(t.arrivals[..s.turn]) && |s.candidates| <= 1
    ensures Decides(Endpoints(t.arrivals[..end]), From(t, s).result)
    decreases end - s.turn
  {
    if s.turn == end {
      JudgedDecides(s.candidates);
    } else {
      assert t.Smooth(s.turn);
      EndpointsNext(t.arrivals, s.turn);
      match Turn(t, s)
      case Ended(run) =>
        EndpointsGrow(t.arrivals, s.turn + 1, end);
        Smaller(Endpoints(t.arrivals[..s.turn + 1]), Endpoints(t.arrivals[..end]));
      case Goes(next) =>
        FromDecides(t, next, end);
    }
  }

  /**
   Main result: on a working socket, discovery finds exactly the one endpoint of all packets
   accepted before the deadline; none or a second distinct one are errors.
   */
  lemma DiscoveryDecides(t: Trace, end: nat)
    requires t.Valid() && end <= |t.arrivals| && t.Over(end)
    requires forall i :: 0 <= i < end ==> t.Smooth(i)
    ensures Decides(Endpoints(t.arrivals[..end]), Discovered(t).result)
  {
    FromDecides(t, Loop(0, t.clock[1], 0, {}), end);
  }

  /** Query rounds keep a retry interval and stop at the deadline. */
  predicate Paced(t: Trace, s: Loop)
    requires |t.clock| > 0
  {
    s.nextSend >= t.clock[0] + RETRY * s.sent && (s.sent == 0 || RETRY * (s.sent - 1) < t.timeout)
  }

  lemma {:induction false} FromSends(t: Trace, s: Loop)
    requires t.Valid() && s.turn <= |t.arrivals| && Paced(t, s)
    ensures var n := From(t, s).sent; n == 0 || RETRY * (n - 1) < t.timeout
    decreases |t.arrivals| - s.turn
  {
    match Turn(t, s)
    case Ended(run) =>
    case Goes(next) => FromSends(t, next);
  }

  /** At most ceil(timeout / 200) query rounds are sent, whatever the socket does. */
  lemma QueriesAreBounded(t: Trace)
    requires t.Valid()
    ensures Discovered(t).sent <= (t.timeout + RETRY - 1) / RETRY
  {
    FromSends(t, Loop(0, t.clock[1], 0, {}));
  }

  lemma Singleton(s: set<Address>, e: Address)
    requires e in s && |s| <= 1
    ensures s == {e}
  {
    if x :| x in s && x != e {
      Smaller({e, x}, s);
      assert false;
    }
  }

  lemma {:induction false} Smaller(a: set<Address>, b: set<Address>)
    requires a <= b
    ensures |a| <= |b|
    decreases |a|
  {
    if x :| x in a { Smaller(a - {x}, b - {x}); }
  }

  lemma {:induction false} SentGrows(t: Trace, s: Loop)
    requires t.Valid() && s.turn <= |t.arrivals|
    ensures From(t, s).sent >= s.sent
    decreases |t.arrivals| - s.turn
  {
    match Turn(t, s)
    case Ended(run) =>
    case Goes(next) => SentGrows(t, next);
  }

  /** In its first turn before the deadline, discovery sends its first round. */
  lemma FirstRoundIsSent(t: Trace)
    requires t.Valid() && 0 < |t.arrivals| && t.clock[2] >= t.clock[1] && t.Smooth(0)
    ensures Discovered(t).sent >= 1
  {
    var s := Loop(0, t.clock[1], 0, {});
    match Turn(t, s)
    case Ended(run) =>
    case Goes(next) => SentGrows(t, next);
  }

  /** While it waits, the last round is less than a retry interval old. */
  lemma RoundsKeepUp(t: Trace, s: Loop)
    requires t.Valid() && s.turn <= |t.arrivals| && Turn(t, s).Goes?
    ensures var (now, next) := (t.clock[s.turn + 2], Turn(t, s).loop);
            if now >= s.nextSend then next.sent == s.sent + 1 && next.nextSend == now + 200
            else next.sent == s.sent && next.nextSend == s.nextSend > now
  {
  }

  lemma SmoothTurnGoes(t: Trace, s: Loop)
    requires t.Valid() && s.turn < |t.arrivals| && t.Smooth(s.turn)
    requires |Considered(s.candidates, t.arrivals[s.turn])| <= 1
    ensures Turn(t, s).Goes? && Turn(t, s).loop.turn == s.turn + 1
    ensures Turn(t, s).loop.candidates == Considered(s.candidates, t.arrivals[s.turn])
  {
  }

  lemma BrokenTurnFails(t: Trace, s: Loop)
    requires t.Valid() && s.turn < |t.arrivals| && !t.Over(s.turn) && t.arrivals[s.turn] == Broken
    ensures Turn(t, s).Ended? && Turn(t, s).run.result == IoError
  {
  }

  lemma {:induction false} FromFails(t: Trace, s: Loop, k: nat)
    requires t.Valid() && s.turn <= k < |t.arrivals| && !t.Over(k) && t.arrivals[k] == Broken
    requires forall i :: s.turn <= i < k ==> t.Smooth(i)
    requires s.candidates == Endpoints(t.arrivals[..s.turn]) && |Endpoints(t.arrivals[..k])| <= 1
    ensures From(t, s).result == IoError
    decreases k - s.turn
  {
    hide Endpoints, Considered, Turn;
    if s.turn == k {
      BrokenTurnFails(t, s);
    } else {
      assert t.Smooth(s.turn);
      EndpointsNext(t.arrivals, s.turn);
      EndpointsGrow(t.arrivals, s.turn + 1, k);
      Smaller(Endpoints(t.arrivals[..s.turn + 1]), Endpoints(t.arrivals[..k]));
      SmoothTurnGoes(t, s);
      FromFails(t, Turn(t, s).loop, k);
    }
  }

  /** A socket that breaks before the deadline, with no ambiguity before, ends discovery as an input error. */
  lemma BrokenSocketFails(t: Trace, k: nat)
    requires t.Valid() && k < |t.arrivals| && !t.Over(k) && t.arrivals[k] == Broken
    requires (forall i :: 0 <= i < k ==> t.Smooth(i)) && |Endpoints(t.arrivals[..k])| <= 1
    ensures Discovered(t).result == IoError
  {
    assert t.arrivals[..0] == [];
    FromFails(t, Loop(0, t.clock[1], 0, {}), k);
  }
}
