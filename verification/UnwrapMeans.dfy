/**
 What an unwrap answers, file by file, in terms of the outside's answers: which file gets which key
 or error, when a file is exchanged at all, and what ends the run for all later files.
 */
module UnwrapMeans {
  import opened Records
  import opened Unwrap

  // ----- Stanzas -----

  lemma {:induction false} MalformedAre(file: nat, stanzas: seq<Stanza>, e: Error)
    ensures e in Malformed(file, stanzas) <==>
            exists k :: 0 <= k < |stanzas| && stanzas[k].kind != Foreign && !stanzas[k].wellFormed
                        && e == StanzaError(file, k, MalformedStanza)
    decreases |stanzas|
  {
    if stanzas != [] {
      var last := |stanzas| - 1;
      MalformedAre(file, stanzas[..last], e);
      assert stanzas == stanzas[..last] + [stanzas[last]];
    }
  }

  /** The candidates are the plugin's own well-formed stanzas, in the order of the file. */
  lemma {:induction false} CandidatesAre(stanzas: seq<Stanza>, c: Candidate)
    ensures c in Candidates(stanzas) <==>
            c.index < |stanzas| && stanzas[c.index] == c.stanza && c.stanza.kind != Foreign && c.stanza.wellFormed
    ensures forall i, j :: 0 <= i < j < |Candidates(stanzas)| ==>
              Candidates(stanzas)[i].index < Candidates(stanzas)[j].index
    decreases |stanzas|
  {
    if stanzas != [] {
      var last := |stanzas| - 1;
      CandidatesAre(stanzas[..last], c);
      assert stanzas == stanzas[..last] + [stanzas[last]];
    }
  }

  /** Without a tag match, the tag stanzas are left out and the others keep their order. */
  lemma {:induction false} PrivateAre(candidates: seq<Candidate>, c: Candidate)
    requires forall i, j :: 0 <= i < j < |candidates| ==> candidates[i].index < candidates[j].index
    ensures c in WithoutTags(candidates) <==> c in candidates && c.stanza.kind != TagKind
    ensures forall i, j :: 0 <= i < j < |WithoutTags(candidates)| ==>
              WithoutTags(candidates)[i].index < WithoutTags(candidates)[j].index
    decreases |candidates|
  {
    WithoutTagsWithin(candidates);
    if candidates != [] {
      var last := |candidates| - 1;
      PrivateAre(candidates[..last], c);
      WithoutTagsWithin(candidates[..last]);
      var r := WithoutTags(candidates[..last]);
      forall i | 0 <= i < |r|
        ensures r[i].index < candidates[last].index
      {
        assert r[i] in r;
      }
    }
  }

  lemma NoTagSelects(env: Environment, file: nat, identities: seq<nat>, candidates: seq<Candidate>)
    requires forall p, i :: 0 <= p < |candidates| && candidates[p].stanza.kind == TagKind && 0 <= i < |identities| ==>
               !env.tagMatches(i, candidates[p].stanza)
    ensures FileSelection(env, file, identities, candidates)
         == Select(env, file, identities, WithoutTags(candidates))
  {
    hide Select, WithoutTags, SelectSole;
    PublicMatchWithin(env, candidates, |identities|);
  }

  /** The identities it names with another key than the first one it names. */
  ghost function Conflicted(env: Environment, s: Stanza, n: nat): set<nat> {
    set i: nat | i < n && Conflicting(env, s, n, i)
  }

  /** A tag stanza has one conflict for each of them. */
  lemma {:induction false} ConflictsCounted(env: Environment, s: Stanza, n: nat)
    ensures Conflicts(env, s, n) == |Conflicted(env, s, n)|
    decreases n
  {
    if n > 0 {
      ConflictsCounted(env, s, n - 1);
      ConflictedGrows(env, s, n);
      hide Conflicting;
    }
  }

  lemma ConflictedGrows(env: Environment, s: Stanza, n: nat)
    requires n > 0
    ensures Conflicted(env, s, n) == Conflicted(env, s, n - 1) + (if Conflicting(env, s, n, n - 1) then {n - 1} else {})
    ensures Conflicting(env, s, n, n - 1) <==>
            var first := FirstMatch(env, s, n - 1);
            env.tagMatches(n - 1, s) && first.Some? && env.key(first.value) != env.key(n - 1)
  {
    forall i: nat | i < n - 1
      ensures Conflicting(env, s, n, i) <==> Conflicting(env, s, n - 1, i)
    {
      if env.tagMatches(i, s) { assert FirstMatch(env, s, n - 1).Some?; }
    }
  }

  predicate Conflicting(env: Environment, s: Stanza, n: nat, i: nat) {
    var first := FirstMatch(env, s, n);
    env.tagMatches(i, s) && first.Some? && env.key(i) != env.key(first.value)
  }

  // ----- Refusals of the selection -----

  /** Every identity that does not open gets the error of the first thing that failed. */
  lemma {:induction false} OpenErrorsAre(env: Environment, file: nat, identities: seq<nat>, e: Error)
    ensures e in OpenErrors(env, file, identities) <==>
            exists i :: 0 <= i < |identities| && OpeningError(env, file, i, identities[i], e)
    decreases |identities|
  {
    if identities != [] {
      var last := |identities| - 1;
      OpenErrorsAre(env, file, identities[..last], e);
      assert forall i :: 0 <= i < last ==> identities[..last][i] == identities[i];
      assert e in OpenErrors(env, file, identities) <==>
        e in OpenErrors(env, file, identities[..last]) || OpeningError(env, file, last, identities[last], e);
    }
  }

  predicate OpeningError(env: Environment, file: nat, position: nat, identity: nat, e: Error) {
    || (!env.locatorOpens(file, position) && e == IdentityError(identity, PairingUnavailable))
    || (env.locatorOpens(file, position) && !env.keysOpen(file, position)
        && e == IdentityError(identity, KeysUnavailable))
    || (env.locatorOpens(file, position) && env.keysOpen(file, position) && !env.recipientParses(position)
        && e == IdentityError(identity, IdentityMalformed))
  }

  lemma AnonymousErrorsAre(file: nat, candidates: seq<Candidate>, e: Error)
    ensures e in AnonymousErrors(file, candidates) <==>
            exists i :: 0 <= i < |candidates| && e == StanzaError(file, candidates[i].index, AnonymousStanza)
  {
    var errors := AnonymousErrors(file, candidates);
    if i :| 0 <= i < |candidates| && e == StanzaError(file, candidates[i].index, AnonymousStanza) {
      assert errors[i] == e;
    }
  }

  /** No identity that opens says anything but that the stanzas are not its own. */
  ghost predicate NothingDecides(env: Environment, file: nat, identities: seq<nat>, candidates: seq<Candidate>) {
    forall i, p :: 0 <= i < |identities| && 0 <= p < |candidates| && Opens(env, file, i) ==>
      env.privateMatch(i, candidates[p].stanza) == Differs
  }

  /** An anonymous stanza beside another stanza or identity is refused, with one error for every stanza. */
  lemma AnonymousRefused(env: Environment, file: nat, identities: seq<nat>, candidates: seq<Candidate>, e: Error)
    requires identities != [] && (|identities| != 1 || |candidates| != 1)
    requires exists i :: 0 <= i < |candidates| && candidates[i].stanza.kind != V2
    ensures var r := Select(env, file, identities, candidates);
            r.Refused?
            && (e in r.errors <==>
                  exists i :: 0 <= i < |candidates| && e == StanzaError(file, candidates[i].index, AnonymousStanza))
  {
    hide AnonymousErrors, SelectPrivate;
    AnonymousErrorsAre(file, candidates, e);
  }

  lemma Undecided(env: Environment, file: nat, identities: seq<nat>, candidates: seq<Candidate>)
    requires NothingDecides(env, file, identities, candidates)
    ensures SelectPrivate(env, file, identities, candidates)
         == if OpenErrors(env, file, identities) == [] then Miss else Refused(OpenErrors(env, file, identities))
  {
    var ready := Opened(env, file, identities);
    forall k | 0 <= k < |ready|
      ensures FirstDecisive(env, ready[k], candidates) == None
    {
      assert Opens(env, file, ready[k]);
    }
  }

  /** When nothing decides and something did not open, exactly the identities that did not are reported. */
  lemma UnopenedRefused(env: Environment, file: nat, identities: seq<nat>, candidates: seq<Candidate>, e: Error)
    requires identities != [] && (forall i :: 0 <= i < |candidates| ==> candidates[i].stanza.kind == V2)
    requires NothingDecides(env, file, identities, candidates)
    ensures var r := Select(env, file, identities, candidates);
            r == Miss
            || (r.Refused?
                && (e in r.errors <==>
                      exists i :: 0 <= i < |identities| && OpeningError(env, file, i, identities[i], e)))
  {
    hide SelectPrivate, OpenErrors, NothingDecides;
    Undecided(env, file, identities, candidates);
    OpenErrorsAre(env, file, identities, e);
  }

  /** A sole anonymous stanza and a sole identity need only its pairing and its keys. */
  lemma SoleAnonymous(env: Environment, file: nat, identity: nat, candidate: Candidate)
    requires candidate.stanza.kind != V2
    ensures Select(env, file, [identity], [candidate])
         == if !env.locatorOpens(file, 0) then Refused([IdentityError(identity, PairingUnavailable)])
            else if !env.keysOpen(file, 0) then Refused([IdentityError(identity, KeysUnavailable)])
            else Chosen(0, candidate)
  {
    assert [candidate][0] == candidate;
  }

  /** Without an identity nothing is selected, and the one error says so. */
  lemma NoIdentitySelects(env: Environment, file: nat, candidates: seq<Candidate>)
    ensures Select(env, file, [], candidates) == Refused([InternalError(NoIdentity)])
  {
  }

  // ----- One file -----

  /** The file's stanzas are in order, the root is there, and this pair was selected and prepared. */
  ghost predicate Comes(env: Environment, identities: seq<nat>, file: nat, stanzas: seq<Stanza>, position: nat,
                        c: Candidate) {
    && !Unusable(env, identities, file, stanzas)
    && env.root(file)
    && FileSelection(env, file, identities, Candidates(stanzas)) == Chosen(position, c)
    && env.prepares(file, position) && env.replayOpens(file, position)
  }

  /** The pair is sent to the phone. */
  ghost predicate Exchanges(env: Environment, identities: seq<nat>, file: nat, stanzas: seq<Stanza>, position: nat,
                            c: Candidate) {
    Comes(env, identities, file, stanzas, position, c) && env.clock(file) && env.requests(file, position, c)
  }

  /** The clock, the channel or the user ends the run at this file. */
  ghost predicate Stops(env: Environment, identities: seq<nat>, file: nat, stanzas: seq<Stanza>) {
    exists position, c ::
      && Comes(env, identities, file, stanzas, position, c)
      && (|| !env.clock(file)
          || (env.requests(file, position, c) && env.exchange(file, position, c) in {Cancelled, InputFails}))
  }

  /** With a chosen pair there is something to select from. */
  lemma ChosenIsScreened(env: Environment, identities: seq<nat>, file: nat, stanzas: seq<Stanza>, position: nat,
                         c: Candidate)
    requires !Unusable(env, identities, file, stanzas) && env.root(file)
    requires FileSelection(env, file, identities, Candidates(stanzas)) == Chosen(position, c)
    ensures position < |identities|
    ensures FileVerdict(env, identities, file, stanzas)
         == AfterSelection(env, file, position, identities[position], c)
  {
    UnusableIff(env, identities, file, stanzas);
    var candidates := Candidates(stanzas);
    if PublicMatch(env, candidates, |identities|).None? && WithoutTags(candidates) == [] {
      NothingToSelect(env, file, identities);
      assert false;
    }
    if candidates == [] {
      NothingToSelect(env, file, identities);
      assert false;
    }
  }

  lemma NothingToSelect(env: Environment, file: nat, identities: seq<nat>)
    ensures !Select(env, file, identities, []).Chosen?
  {
  }

  lemma SelectionIsSole(env: Environment, identities: seq<nat>, file: nat, stanzas: seq<Stanza>, p: nat, c: Candidate,
                        q: nat, d: Candidate)
    requires Comes(env, identities, file, stanzas, p, c) && Comes(env, identities, file, stanzas, q, d)
    ensures p == q && c == d
  {
  }

  lemma Prepared(env: Environment, identities: seq<nat>, file: nat, stanzas: seq<Stanza>)
    returns (p: nat, c: Candidate)
    requires var v := FileVerdict(env, identities, file, stanzas); v.ending != Goes || v.exchanged.Some?
    ensures Comes(env, identities, file, stanzas, p, c) && p < |identities|
    ensures FileVerdict(env, identities, file, stanzas) == AfterSelection(env, file, p, identities[p], c)
  {
    var candidates := Candidates(stanzas);
    UnusableIff(env, identities, file, stanzas);
    var selection := FileSelection(env, file, identities, candidates);
    p, c := selection.position, selection.candidate;
  }

  /** A file's verdict ends the run exactly if the outside does. */
  lemma StopsIff(env: Environment, identities: seq<nat>, file: nat, stanzas: seq<Stanza>)
    ensures FileVerdict(env, identities, file, stanzas).ending != Goes <==> Stops(env, identities, file, stanzas)
  {
    hide FileVerdict, FileSelection, Unusable;
    if FileVerdict(env, identities, file, stanzas).ending != Goes {
      var p, c := Prepared(env, identities, file, stanzas);
    }
    forall p: nat, c | Comes(env, identities, file, stanzas, p, c)
      ensures FileVerdict(env, identities, file, stanzas) == AfterSelection(env, file, p, identities[p], c)
    {
      ChosenIsScreened(env, identities, file, stanzas, p, c);
    }
  }

  /** A file is exchanged exactly if its pair was prepared and a request could be made. */
  lemma ExchangesIff(env: Environment, identities: seq<nat>, file: nat, stanzas: seq<Stanza>, p: nat, c: Candidate)
    ensures FileVerdict(env, identities, file, stanzas).exchanged == Some((p, c)) <==>
            Exchanges(env, identities, file, stanzas, p, c)
  {
    hide FileVerdict, FileSelection, Unusable;
    if FileVerdict(env, identities, file, stanzas).exchanged == Some((p, c)) {
      var q, d := Prepared(env, identities, file, stanzas);
    }
    if Exchanges(env, identities, file, stanzas, p, c) { ChosenIsScreened(env, identities, file, stanzas, p, c); }
  }

  // ----- The whole run -----

  /** No earlier file ended the run. */
  ghost predicate Begun(env: Environment, identities: seq<nat>, files: seq<seq<Stanza>>, file: nat) {
    file < |files| && forall g :: 0 <= g < file ==> !Stops(env, identities, g, files[g])
  }

  lemma BegunIsReached(env: Environment, identities: seq<nat>, files: seq<seq<Stanza>>, file: nat)
    ensures Begun(env, identities, files, file) <==> Reached(Verdicts(env, identities, files), file)
  {
    forall g | 0 <= g < |files|
      ensures Verdicts(env, identities, files)[g].ending != Goes <==> Stops(env, identities, g, files[g])
    {
      StopsIff(env, identities, g, files[g]);
      VerdictAt(env, identities, files, g);
    }
  }

  lemma {:induction false} FoldHasExchange(verdicts: seq<Verdict>, file: nat)
    requires Reached(verdicts, file) && verdicts[file].exchanged.Some?
    ensures (file, verdicts[file].exchanged.value.0, verdicts[file].exchanged.value.1) in Fold(verdicts).exchanges
    decreases |verdicts|
  {
    var k := |verdicts| - 1;
    if file < k {
      ReachedPrefix(verdicts, k, file);
      FoldHasExchange(verdicts[..k], file);
    } else {
      FoldEnds(verdicts[..k]);
      assert forall g :: 0 <= g < k ==> verdicts[..k][g] == verdicts[g];
    }
  }

  /** Exactly the begun files whose pair could be requested are exchanged. */
  lemma RunExchangesIff(env: Environment, identities: seq<nat>, files: seq<seq<Stanza>>, file: nat, p: nat,
                        c: Candidate)
    ensures (file, p, c) in Run(env, identities, files).exchanges <==>
            Begun(env, identities, files, file) && Exchanges(env, identities, file, files[file], p, c)
  {
    var v := Verdicts(env, identities, files);
    BegunIsReached(env, identities, files, file);
    if file < |files| {
      VerdictAt(env, identities, files, file);
      ExchangesIff(env, identities, file, files[file], p, c);
    }
    if Begun(env, identities, files, file) && Exchanges(env, identities, file, files[file], p, c) {
      FoldHasExchange(v, file);
    }
    if (file, p, c) in Fold(v).exchanges {
      var i :| 0 <= i < |Fold(v).exchanges| && Fold(v).exchanges[i] == (file, p, c);
      FoldExchangeAt(v, i);
    }
  }

  /** The one error a file answers with. */
  predicate FailsWith(r: Report, file: nat, e: Error) {
    file in r.results && r.results[file] == Failed([e])
  }

  /** Neither an answer nor an exchange for any file after this one. */
  ghost predicate NothingAfter(r: Report, file: nat) {
    && (forall g :: g in r.results ==> g <= file)
    && (forall i :: 0 <= i < |r.exchanges| ==> r.exchanges[i].0 <= file)
  }

  lemma AfterStop(env: Environment, identities: seq<nat>, files: seq<seq<Stanza>>, file: nat)
    requires file < |files| && Stops(env, identities, file, files[file])
    ensures NothingAfter(Run(env, identities, files), file)
  {
    var v := Verdicts(env, identities, files);
    forall g: nat
      ensures g in Run(env, identities, files).results ==> g <= file
    {
      BegunIsReached(env, identities, files, g);
      FoldIsCut(v, g);
    }
    forall i | 0 <= i < |Fold(v).exchanges|
      ensures Fold(v).exchanges[i].0 <= file
    {
      FoldExchangeAt(v, i);
      BegunIsReached(env, identities, files, Fold(v).exchanges[i].0);
    }
  }

  /**
   Main result. What the phone's exchange answers decides the file and the run: a cancellation is the
   file's one error and ends the run, a broken channel ends it without an answer for the file, every
   other failure is that file's own error and lets the next file begin, and a response that is
   received gives the file its key.
   */
  lemma ExchangeDecides(env: Environment, identities: seq<nat>, files: seq<seq<Stanza>>, file: nat, p: nat,
                        c: Candidate)
    requires (file, p, c) in Run(env, identities, files).exchanges
    ensures var r := Run(env, identities, files);
            p < |identities|
            && match env.exchange(file, p, c)
               case InputFails => file !in r.results && NothingAfter(r, file)
               case Cancelled =>
                 FailsWith(r, file, IdentityError(identities[p], UserCancelled)) && NothingAfter(r, file)
               case Disconnected =>
                 FailsWith(r, file, StanzaError(file, c.index, NotConnected)) && GoesOn(env, identities, files, file)
               case Garbled =>
                 FailsWith(r, file, StanzaError(file, c.index, NoResponse)) && GoesOn(env, identities, files, file)
               case Response(body) =>
                 && GoesOn(env, identities, files, file)
                 && match env.receives(file, p, body)
                    case None => FailsWith(r, file, StanzaError(file, c.index, Rejected))
                    case Some(key) => file in r.results && r.results[file] == Key(key)
  {
    hide FileVerdict, FileSelection, Unusable, Run, NothingAfter, Candidates;
    RunExchangesIff(env, identities, files, file, p, c);
    ChosenIsScreened(env, identities, file, files[file], p, c);
    OwnAnswer(env, identities, files, file);
    StopsIff(env, identities, file, files[file]);
    if Stops(env, identities, file, files[file]) { AfterStop(env, identities, files, file); }
  }

  /** The next file, if there is one, begins. */
  ghost predicate GoesOn(env: Environment, identities: seq<nat>, files: seq<seq<Stanza>>, file: nat) {
    file + 1 < |files| ==> Begun(env, identities, files, file + 1)
  }

  /** This exchange was answered with a response that is received as the key. */
  predicate Delivers(env: Environment, r: Report, file: nat, p: nat, c: Candidate, key: FileKey) {
    && (file, p, c) in r.exchanges
    && env.exchange(file, p, c).Response?
    && env.receives(file, p, env.exchange(file, p, c).body) == Some(key)
  }

  /** A file has a key exactly if its own exchange was answered with a response that is received as it. */
  lemma KeyIff(env: Environment, identities: seq<nat>, files: seq<seq<Stanza>>, file: nat, key: FileKey)
    ensures var r := Run(env, identities, files);
            (file in r.results && r.results[file] == Key(key)) <==> exists p, c :: Delivers(env, r, file, p, c, key)
  {
    var r := Run(env, identities, files);
    RunIsCutFold(env, identities, files, file);
    BegunIsReached(env, identities, files, file);
    if file in r.results && r.results[file] == Key(key) {
      KeyIsDelivered(env, identities, files, file, key);
    }
    forall p, c | Delivers(env, r, file, p, c, key)
      ensures file in r.results && r.results[file] == Key(key)
    {
      ExchangeDecides(env, identities, files, file, p, c);
    }
  }

  lemma KeyNeedsExchange(env: Environment, identities: seq<nat>, file: nat, stanzas: seq<Stanza>)
    requires var v := FileVerdict(env, identities, file, stanzas); v.result.Some? && v.result.value.Key?
    ensures FileVerdict(env, identities, file, stanzas).exchanged.Some?
  {
    hide FileSelection, PublicMatch, WithoutTags, Malformed, AllConflicts;
  }

  lemma KeyIsDelivered(env: Environment, identities: seq<nat>, files: seq<seq<Stanza>>, file: nat, key: FileKey)
    requires var r := Run(env, identities, files); file in r.results && r.results[file] == Key(key)
    ensures exists p, c :: Delivers(env, Run(env, identities, files), file, p, c, key)
  {
    hide FileVerdict, FileSelection, Unusable, Run, Candidates, NothingAfter, GoesOn;
    RunIsCutFold(env, identities, files, file);
    forall g | 0 <= g < file
      ensures !Stops(env, identities, g, files[g])
    {
      StopsIff(env, identities, g, files[g]);
    }
    KeyNeedsExchange(env, identities, file, files[file]);
    var pair := FileVerdict(env, identities, file, files[file]).exchanged.value;
    ExchangesIff(env, identities, file, files[file], pair.0, pair.1);
    RunExchangesIff(env, identities, files, file, pair.0, pair.1);
    ExchangeDecides(env, identities, files, file, pair.0, pair.1);
    assert Delivers(env, Run(env, identities, files), file, pair.0, pair.1, key);
  }

  lemma OwnAnswer(env: Environment, identities: seq<nat>, files: seq<seq<Stanza>>, file: nat)
    requires Begun(env, identities, files, file)
    ensures var (r, v) := (Run(env, identities, files), FileVerdict(env, identities, file, files[file]));
            (file in r.results <==> v.result.Some?) && (file in r.results ==> Some(r.results[file]) == v.result)
  {
    RunIsCutFold(env, identities, files, file);
    forall g | 0 <= g < file
      ensures FileVerdict(env, identities, g, files[g]).ending == Goes
    {
      StopsIff(env, identities, g, files[g]);
    }
  }

  /** What a begun file answers whose stanzas are not in order, or that has none to select from. */
  lemma UnusableAnswers(env: Environment, identities: seq<nat>, files: seq<seq<Stanza>>, file: nat, e: Error)
    requires Begun(env, identities, files, file)
    ensures var (r, stanzas) := (Run(env, identities, files), files[file]);
            var malformed := exists k :: 0 <= k < |stanzas| && stanzas[k].kind != Foreign && !stanzas[k].wellFormed;
            && (malformed ==> file in r.results && r.results[file] == Failed(Malformed(file, stanzas)))
            && (!malformed && Unusable(env, identities, file, stanzas) ==>
                  file in r.results && r.results[file].Failed? && r.results[file].errors != []
                  && |r.results[file].errors| == AllConflicts(env, Candidates(stanzas), |identities|)
                  && (e in r.results[file].errors ==> e == InternalError(AmbiguousTag)))
            && (!Unusable(env, identities, file, stanzas) && OnlyForeignTags(env, Candidates(stanzas), |identities|) ==>
                  file !in r.results)
  {
    OwnAnswer(env, identities, files, file);
    MalformedIff(file, files[file]);
    UnusableIff(env, identities, file, files[file]);
    ForeignTagsIff(env, Candidates(files[file]), |identities|);
  }

  /** What a begun file answers that has something to select from but no pair. */
  lemma UnselectedAnswers(env: Environment, identities: seq<nat>, files: seq<seq<Stanza>>, file: nat)
    requires Begun(env, identities, files, file) && !Unusable(env, identities, file, files[file])
    requires !OnlyForeignTags(env, Candidates(files[file]), |identities|)
    ensures var r := Run(env, identities, files);
            var selection := FileSelection(env, file, identities, Candidates(files[file]));
            && (!env.root(file) ==> FailsWith(r, file, InternalError(RootUnavailable)))
            && (env.root(file) && selection.Miss? ==> file !in r.results)
            && (env.root(file) && selection.Refused? ==>
                  file in r.results && r.results[file] == Failed(selection.errors))
  {
    OwnAnswer(env, identities, files, file);
    UnusableIff(env, identities, file, files[file]);
    ForeignTagsIff(env, Candidates(files[file]), |identities|);
  }

  /** What a begun file answers whose selected pair is not exchanged, by the first thing that failed. */
  lemma UnpreparedAnswers(env: Environment, identities: seq<nat>, files: seq<seq<Stanza>>, file: nat, p: nat,
                          c: Candidate)
    requires Begun(env, identities, files, file) && !Unusable(env, identities, file, files[file]) && env.root(file)
    requires FileSelection(env, file, identities, Candidates(files[file])) == Chosen(p, c)
    ensures p < |identities|
    ensures var r := Run(env, identities, files);
            && (!env.prepares(file, p) ==> FailsWith(r, file, InternalError(NotPrepared)))
            && (env.prepares(file, p) && !env.replayOpens(file, p) ==>
                  FailsWith(r, file, IdentityError(identities[p], ReplayUnavailable)))
            && (Comes(env, identities, file, files[file], p, c) && !env.clock(file) ==>
                  file !in r.results && NothingAfter(r, file))
            && (Comes(env, identities, file, files[file], p, c) && env.clock(file) && !env.requests(file, p, c) ==>
                  FailsWith(r, file, StanzaError(file, c.index, NoRequest)))
            && (Exchanges(env, identities, file, files[file], p, c) ==> (file, p, c) in r.exchanges)
  {
    OwnAnswer(env, identities, files, file);
    ChosenIsScreened(env, identities, file, files[file], p, c);
    RunExchangesIff(env, identities, files, file, p, c);
    if Comes(env, identities, file, files[file], p, c) && !env.clock(file) {
      AfterStop(env, identities, files, file);
    }
  }

  /** Nothing but tag stanzas, and none of them names an identity at hand. */
  ghost predicate OnlyForeignTags(env: Environment, candidates: seq<Candidate>, n: nat) {
    forall p :: 0 <= p < |candidates| ==>
      candidates[p].stanza.kind == TagKind && forall i :: 0 <= i < n ==> !env.tagMatches(i, candidates[p].stanza)
  }

  lemma ForeignTagsIff(env: Environment, candidates: seq<Candidate>, n: nat)
    ensures OnlyForeignTags(env, candidates, n) <==>
            PublicMatch(env, candidates, n).None? && WithoutTags(candidates) == []
  {
    PublicMatchWithin(env, candidates, n);
    NoPrivateIff(candidates);
  }

  lemma {:induction false} NoPrivateIff(candidates: seq<Candidate>)
    ensures WithoutTags(candidates) == [] <==>
            forall p :: 0 <= p < |candidates| ==> candidates[p].stanza.kind == TagKind
    decreases |candidates|
  {
    if candidates != [] { NoPrivateIff(candidates[..|candidates| - 1]); }
  }
}
