/** The one-shot pairing session: over every call sequence at most one confirmation succeeds. */
module PairingSession {
  import opened Records
  import opened Paths

  const MAX_AGE_MS := 300_000

  type Time = t: nat | t < 0x1_0000_0000_0000_0000

  /** The signed offer's fields and its digest. */
  datatype Offer = Offer(desktopId: Bytes, desktopLabel: string, signingKey: Bytes, selectionKey: Bytes, digest: Bytes)

  datatype Response = Response(identityId: Bytes, recipient: Bytes, phoneSigningKey: Bytes)

  /** `verified` decodes a response and checks it against this offer; both are left open. */
  datatype Crypto = Crypto(verified: Bytes -> Option<Response>, fingerprint: Response -> Bytes)

  datatype State = Waiting | Confirming(response: Response, fingerprint: Bytes) | Closed

  datatype PairingError = SessionClosed | Timeout | InvalidResponse | FingerprintMismatch

  datatype Call = Receive(encoded: Bytes, now: Time) | Confirm(text: string, now: Time) | Cancel | Pending

  datatype Answer = Displayed(text: string) | Stub(stub: PublicIdentityStub) | Nothing | Fails(error: PairingError)

  function StubFrom(o: Offer, r: Response, fingerprint: Bytes): PublicIdentityStub {
    PublicIdentityStub(o.desktopId, r.identityId, r.recipient, o.signingKey, o.selectionKey, r.phoneSigningKey,
                       o.digest, fingerprint)
  }

  predicate InTime(started: Time, now: Time) {
    started <= now <= started + MAX_AGE_MS
  }

  /** One call on the session. */
  function Next(c: Crypto, o: Offer, started: Time, s: State, call: Call): (State, Answer) {
    match call
    case Receive(encoded, now) =>
      if s == Closed then (Closed, Fails(SessionClosed))
      else if !InTime(started, now) then (Closed, Fails(Timeout))
      else if s != Waiting then (Closed, Fails(SessionClosed))
      else
        (match c.verified(encoded)
         case None => (Closed, Fails(InvalidResponse))
         case Some(r) => (Confirming(r, c.fingerprint(r)), Displayed(Hex(c.fingerprint(r)))))
    case Confirm(text, now) =>
      if s == Closed then (Closed, Fails(SessionClosed))
      else if !InTime(started, now) then (Closed, Fails(Timeout))
      else if !s.Confirming? then (Closed, Fails(SessionClosed))
      else if text != Hex(s.fingerprint) then (Closed, Fails(FingerprintMismatch))
      else (Closed, Stub(StubFrom(o, s.response, s.fingerprint)))
    case Cancel => (Closed, Nothing)
    case Pending =>
      (s, if s.Confirming? then Stub(StubFrom(o, s.response, s.fingerprint)) else Fails(SessionClosed))
  }

  function StateAfter(c: Crypto, o: Offer, started: Time, calls: seq<Call>): State
    decreases |calls|
  {
    if calls == [] then Waiting
    else Next(c, o, started, StateAfter(c, o, started, calls[..|calls| - 1]), calls[|calls| - 1]).0
  }

  function AnswerTo(c: Crypto, o: Offer, started: Time, calls: seq<Call>, i: nat): Answer
    requires i < |calls|
  {
    Next(c, o, started, StateAfter(c, o, started, calls[..i]), calls[i]).1
  }

  // ----- The session object -----

  class DesktopPairingSession {
    const offer: Offer
    const startedAt: Time
    var state: State

    constructor (offer: Offer, now: Time)
      ensures state == Waiting && this.offer == offer && startedAt == now
    {
      this.offer, startedAt, state := offer, now, Waiting;
    }

    method EnsureLive(now: Time) returns (error: Option<PairingError>)
      modifies this
      ensures error == if old(state) == Closed then Some(SessionClosed)
                       else if !InTime(startedAt, now) then Some(Timeout) else None
      ensures state == if error == Some(Timeout) then Closed else old(state)
    {
      if state == Closed { return Some(SessionClosed); }
      if now < startedAt || now - startedAt > MAX_AGE_MS {
        state := Closed;
        return Some(Timeout);
      }
      return None;
    }

    method ReceiveResponse(c: Crypto, encoded: Bytes, now: Time) returns (answer: Answer)
      modifies this
      ensures (state, answer) == Next(c, offer, startedAt, old(state), Receive(encoded, now))
    {
      var error := EnsureLive(now);
      if error.Some? { return Fails(error.value); }
      if state != Waiting {
        state := Closed;
        return Fails(SessionClosed);
      }
      var response := c.verified(encoded);
      if response.None? {
        state := Closed;
        return Fails(InvalidResponse);
      }
      var fingerprint := c.fingerprint(response.value);
      state := Confirming(response.value, fingerprint);
      return Displayed(Hex(fingerprint));
    }

    method ConfirmFingerprint(c: Crypto, text: string, now: Time) returns (answer: Answer)
      modifies this
      ensures (state, answer) == Next(c, offer, startedAt, old(state), Confirm(text, now))
    {
      var error := EnsureLive(now);
      if error.Some? { return Fails(error.value); }
      var taken := state;
      state := Closed;
      if !taken.Confirming? { return Fails(SessionClosed); }
      if text != Hex(taken.fingerprint) { return Fails(FingerprintMismatch); }
      return Stub(StubFrom(offer, taken.response, taken.fingerprint));
    }

    method PendingStub(c: Crypto) returns (answer: Answer)
      ensures (state, answer) == Next(c, offer, startedAt, state, Pending)
    {
      if !state.Confirming? { return Fails(SessionClosed); }
      return Stub(StubFrom(offer, state.response, state.fingerprint));
    }

    method CancelSession(c: Crypto) returns (answer: Answer)
      modifies this
      ensures (state, answer) == Next(c, offer, startedAt, old(state), Cancel)
    {
      state := Closed;
      return Nothing;
    }
  }

  // ----- Every call sequence -----

  lemma {:induction false} ClosedIsAbsorbing(c: Crypto, o: Offer, started: Time, calls: seq<Call>, i: nat)
    requires i <= |calls| && StateAfter(c, o, started, calls[..i]) == Closed
    ensures StateAfter(c, o, started, calls) == Closed
    decreases |calls|
  {
    if i == |calls| {
      assert calls[..i] == calls;
    } else {
      assert calls[..|calls| - 1][..i] == calls[..i];
      ClosedIsAbsorbing(c, o, started, calls[..|calls| - 1], i);
    }
  }

  /** This call accepted a response in time and was displayed with the fingerprint's text. */
  ghost predicate Accepts(c: Crypto, started: Time, call: Call, response: Response) {
    call.Receive? && InTime(started, call.now) && c.verified(call.encoded) == Some(response)
  }

  /** Whoever awaits confirmation has one accepted response, and only `Pending` was called since. */
  lemma {:induction false} ConfirmingMeans(c: Crypto, o: Offer, started: Time, calls: seq<Call>) returns (j: nat)
    requires StateAfter(c, o, started, calls).Confirming?
    ensures j < |calls| && StateAfter(c, o, started, calls[..j]) == Waiting
    ensures var s := StateAfter(c, o, started, calls);
            Accepts(c, started, calls[j], s.response) && s.fingerprint == c.fingerprint(s.response)
    ensures forall k :: j < k < |calls| ==> calls[k] == Pending
    decreases |calls|
  {
    var last := |calls| - 1;
    if calls[last] == Pending {
      j := ConfirmingMeans(c, o, started, calls[..last]);
      assert calls[..last][..j] == calls[..j];
      forall k | j < k < |calls|
        ensures calls[k] == Pending
      {
        if k < last { assert calls[..last][k] == calls[k]; }
      }
    } else {
      j := last;
    }
  }

  predicate Confirmed(c: Crypto, o: Offer, started: Time, calls: seq<Call>, i: nat)
    requires i < |calls|
  {
    calls[i].Confirm? && AnswerTo(c, o, started, calls, i).Stub?
  }

  /**
   Main result: a confirmation that succeeds follows one response to this offer, both within five
   minutes, with the fingerprint's text entered, and returns the stub that was pending.
   */
  lemma ConfirmationMeans(c: Crypto, o: Offer, started: Time, calls: seq<Call>, i: nat) returns (j: nat, r: Response)
    requires i < |calls| && Confirmed(c, o, started, calls, i)
    ensures j < i && Accepts(c, started, calls[j], r) && InTime(started, calls[i].now)
    ensures forall k :: j < k < i ==> calls[k] == Pending
    ensures calls[i].text == Hex(c.fingerprint(r))
    ensures forall f: Bytes :: calls[i].text == Hex(f) ==> f == c.fingerprint(r)
    ensures AnswerTo(c, o, started, calls, i)
         == Stub(PublicIdentityStub(o.desktopId, r.identityId, r.recipient, o.signingKey, o.selectionKey,
                                    r.phoneSigningKey, o.digest, c.fingerprint(r)))
    ensures AnswerTo(c, o, started, calls, i) == AnswerTo(c, o, started, calls[..i] + [Pending], i)
  {
    var before := calls[..i];
    r := StateAfter(c, o, started, before).response;
    j := ConfirmingMeans(c, o, started, before);
    assert before[j] == calls[j];
    forall k | j < k < i
      ensures calls[k] == Pending
    {
      assert before[k] == calls[k];
    }
    forall f: Bytes | calls[i].text == Hex(f)
      ensures f == c.fingerprint(r)
    {
      HexInjective(f, c.fingerprint(r));
    }
    assert (before + [Pending])[..i] == before;
  }

  /** At most one confirmation of a session succeeds, and nothing but cancelling succeeds after it. */
  lemma ConfirmedAtMostOnce(c: Crypto, o: Offer, started: Time, calls: seq<Call>, i: nat, k: nat)
    requires i < k < |calls| && Confirmed(c, o, started, calls, i)
    ensures AnswerTo(c, o, started, calls, k) == if calls[k] == Cancel then Nothing else Fails(SessionClosed)
  {
    assert calls[..k][..i + 1] == calls[..i + 1];
    assert calls[..i + 1][..i] == calls[..i];
    ClosedIsAbsorbing(c, o, started, calls[..k], i + 1);
  }

  /** The first call: a response in time that verifies is displayed with its fingerprint. */
  lemma FirstCall(c: Crypto, o: Offer, started: Time, call: Call)
    ensures AnswerTo(c, o, started, [call], 0)
         == match call
            case Receive(encoded, now) =>
              if now < started || now - started > 300_000 then Fails(Timeout)
              else if c.verified(encoded) == None then Fails(InvalidResponse)
              else Displayed(Hex(c.fingerprint(c.verified(encoded).value)))
            case Confirm(_, now) =>
              if now < started || now - started > 300_000 then Fails(Timeout) else Fails(SessionClosed)
            case Cancel => Nothing
            case Pending => Fails(SessionClosed)
  {
    assert [call][..0] == [];
  }

  /** Looking at the pending stub changes nothing. */
  lemma {:induction false} PendingKeeps(c: Crypto, o: Offer, started: Time, first: Call, calls: seq<Call>)
    requires forall k :: 0 <= k < |calls| ==> calls[k] == Pending
    ensures StateAfter(c, o, started, [first] + calls) == StateAfter(c, o, started, [first])
    decreases |calls|
  {
    if calls == [] {
      assert [first] + calls == [first];
    } else {
      var all := [first] + calls;
      assert all[..|all| - 1] == [first] + calls[..|calls| - 1];
      PendingKeeps(c, o, started, first, calls[..|calls| - 1]);
    }
  }

  /**
   Main result: after a displayed response, and however often the pending stub is looked at, the
   right text in time is confirmed with the stub made of the offer and that response; a wrong text
   and a late one fail as such.
   */
  lemma RightTextConfirms(c: Crypto, o: Offer, started: Time, encoded: Bytes, received: Time, looks: seq<Call>,
                          text: string, now: Time)
    requires started <= received <= started + 300_000 && c.verified(encoded).Some?
    requires forall k :: 0 <= k < |looks| ==> looks[k] == Pending
    ensures var r := c.verified(encoded).value;
            var calls := [Receive(encoded, received)] + looks + [Confirm(text, now)];
            AnswerTo(c, o, started, calls, |calls| - 1)
            == if now < started || now - started > 300_000 then Fails(Timeout)
               else if text != Hex(c.fingerprint(r)) then Fails(FingerprintMismatch)
               else Stub(PublicIdentityStub(o.desktopId, r.identityId, r.recipient, o.signingKey, o.selectionKey,
                                            r.phoneSigningKey, o.digest, c.fingerprint(r)))
  {
    var first := Receive(encoded, received);
    var calls := [first] + looks + [Confirm(text, now)];
    assert calls[..|calls| - 1] == [first] + looks;
    PendingKeeps(c, o, started, first, looks);
    assert [first][..0] == [];
  }
}
