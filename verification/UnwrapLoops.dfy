/** The unwrap invocation as its loops run, each proved against the specification in `Unwrap`. */
module UnwrapLoops {
  import opened Records
  import opened Unwrap

  method CollectCandidates(file: nat, stanzas: seq<Stanza>) returns (errors: seq<Error>, candidates: seq<Candidate>)
    ensures errors == Malformed(file, stanzas) && candidates == Candidates(stanzas)
  {
    errors, candidates := [], [];
    for k := 0 to |stanzas|
      invariant errors == Malformed(file, stanzas[..k]) && candidates == Candidates(stanzas[..k])
    {
      assert stanzas[..k + 1][..k] == stanzas[..k];
      if stanzas[k].kind != V1 && stanzas[k].kind != V2 && stanzas[k].kind != TagKind { continue; }
      if !stanzas[k].wellFormed {
        errors := errors + [StanzaError(file, k, MalformedStanza)];
      } else {
        candidates := candidates + [Candidate(k, stanzas[k])];
      }
    }
    assert stanzas[..|stanzas|] == stanzas;
  }

  function Repeated(n: nat): seq<Error> {
    seq(n, _ => InternalError(AmbiguousTag))
  }

  /** One tag stanza against all identities: the first match, and an error for every other key. */
  method ScanIdentities(env: Environment, identities: seq<nat>, s: Stanza)
    returns (first: Option<nat>, errors: seq<Error>)
    ensures first == FirstMatch(env, s, |identities|) && errors == Repeated(Conflicts(env, s, |identities|))
  {
    var matchedKey: Option<nat> := None;
    first, errors := None, [];
    for i := 0 to |identities|
      invariant first == FirstMatch(env, s, i)
      invariant matchedKey == if first.Some? then Some(env.key(first.value)) else None
      invariant errors == Repeated(Conflicts(env, s, i))
    {
      if env.tagMatches(i, s) {
        var key := env.key(i);
        if matchedKey.Some? && matchedKey.value != key { errors := errors + [InternalError(AmbiguousTag)]; }
        if matchedKey.None? { matchedKey, first := Some(key), Some(i); }
      }
    }
  }

  method FindPublicMatch(env: Environment, identities: seq<nat>, candidates: seq<Candidate>)
    returns (publicMatch: Option<(nat, nat)>, errors: seq<Error>)
    ensures publicMatch == PublicMatch(env, candidates, |identities|)
    ensures errors == Repeated(AllConflicts(env, candidates, |identities|))
  {
    publicMatch, errors := None, [];
    for p := 0 to |candidates|
      invariant publicMatch == PublicMatch(env, candidates[..p], |identities|)
      invariant errors == Repeated(AllConflicts(env, candidates[..p], |identities|))
    {
      assert candidates[..p + 1][..p] == candidates[..p];
      if candidates[p].stanza.kind != TagKind { continue; }
      var first, more := ScanIdentities(env, identities, candidates[p].stanza);
      errors := errors + more;
      if first.Some? && publicMatch.None? { publicMatch := Some((first.value, p)); }
    }
    assert candidates[..|candidates|] == candidates;
  }

  /** `retain`: drop the tag stanzas in place. */
  method RetainPrivate(all: seq<Candidate>) returns (candidates: seq<Candidate>)
    ensures candidates == WithoutTags(all)
  {
    candidates := [];
    for k := 0 to |all|
      invariant candidates == WithoutTags(all[..k])
    {
      assert all[..k + 1][..k] == all[..k];
      if all[k].stanza.kind != TagKind { candidates := candidates + [all[k]]; }
    }
    assert all[..|all|] == all;
  }

  method OpenIdentities(env: Environment, file: nat, identities: seq<nat>) returns (ready: seq<nat>, errors: seq<Error>)
    ensures ready == Opened(env, file, identities) && errors == OpenErrors(env, file, identities)
  {
    ready, errors := [], [];
    for k := 0 to |identities|
      invariant ready == Opened(env, file, identities[..k]) && errors == OpenErrors(env, file, identities[..k])
    {
      assert identities[..k + 1][..k] == identities[..k];
      if !env.locatorOpens(file, k) {
        errors := errors + [IdentityError(identities[k], PairingUnavailable)];
        continue;
      }
      if !env.keysOpen(file, k) {
        errors := errors + [IdentityError(identities[k], KeysUnavailable)];
        continue;
      }
      if !env.recipientParses(k) {
        errors := errors + [IdentityError(identities[k], IdentityMalformed)];
        continue;
      }
      ready := ready + [k];
    }
    assert identities[..|identities|] == identities;
  }

  /** `swap_remove`: the element leaves and the last one takes its place. */
  method SwapRemove<T>(s: seq<T>, i: nat) returns (removed: T, left: seq<T>)
    requires i < |s|
    ensures removed == s[i] && |left| == |s| - 1
    ensures multiset(left) + multiset{removed} == multiset(s)
  {
    removed := s[i];
    var last := |s| - 1;
    left := s[i := s[last]][..last];
    assert s[i := s[last]] == left + [s[last]];
    assert multiset(s[i := s[last]]) == multiset(s) - multiset{s[i]} + multiset{s[last]};
  }

  method SelectPrivateLoop(env: Environment, file: nat, identities: seq<nat>, candidates: seq<Candidate>)
    returns (r: Selection)
    ensures r == SelectPrivate(env, file, identities, candidates)
  {
    hide FirstDecisive, Decisive, Opened, OpenErrors;
    var ready, errors := OpenIdentities(env, file, identities);
    var selected: Option<(nat, nat)> := None;
    var i := 0;
    while i < |ready| && selected.None?
      invariant 0 <= i <= |ready|
      invariant selected.None? ==> forall j :: 0 <= j < i ==> FirstDecisive(env, ready[j], candidates) == None
      invariant selected.Some? ==> Decisive(env, ready, candidates) == selected && selected.value.1 < |candidates|
      invariant selected.Some? ==>
                  env.privateMatch(ready[selected.value.0], candidates[selected.value.1].stanza) == Matches
      decreases |ready| - i, selected.None?
    {
      var p := 0;
      while p < |candidates|
        invariant 0 <= p <= |candidates| && selected.None?
        invariant forall q :: 0 <= q < p ==> env.privateMatch(ready[i], candidates[q].stanza) == Differs
      {
        match env.privateMatch(ready[i], candidates[p].stanza) {
          case Matches =>
            assert FirstDecisive(env, ready[i], candidates) == Some(p);
            selected := Some((i, p));
            break;
          case Differs =>
          case MatchFails =>
            assert FirstDecisive(env, ready[i], candidates) == Some(p);
            assert Decisive(env, ready, candidates) == Some((i, p));
            return Refused([InternalError(SelectionFailed)]);
        }
        p := p + 1;
      }
      if selected.None? { i := i + 1; }
    }
    if selected.Some? {
      var position, _ := SwapRemove(ready, selected.value.0);
      var candidate, _ := SwapRemove(candidates, selected.value.1);
      return Chosen(position, candidate);
    }
    return if errors == [] then Miss else Refused(errors);
  }

  method SelectCandidate(env: Environment, file: nat, identities: seq<nat>, candidates: seq<Candidate>)
    returns (r: Selection)
    ensures r == Select(env, file, identities, candidates)
  {
    if identities == [] { return Refused([InternalError(NoIdentity)]); }
    if HasAnonymous(candidates) {
      if |identities| != 1 || |candidates| != 1 { return Refused(AnonymousErrors(file, candidates)); }
      return SelectSole(env, file, 0, identities[0], candidates[0]);
    }
    r := SelectPrivateLoop(env, file, identities, candidates);
  }

  /** The body of the loop over files, up to its `continue` or its insertion. */
  method UnwrapFile(env: Environment, identities: seq<nat>, file: nat, stanzas: seq<Stanza>) returns (v: Verdict)
    ensures v == FileVerdict(env, identities, file, stanzas)
  {
    var errors, candidates := CollectCandidates(file, stanzas);
    if candidates == [] || errors != [] { return if errors != [] then Says(errors) else SILENT; }
    var publicMatch, ambiguous := FindPublicMatch(env, identities, candidates);
    if ambiguous != [] { return Says(ambiguous); }
    v := UnwrapScreened(env, identities, file, candidates, publicMatch);
  }

  method UnwrapScreened(env: Environment, identities: seq<nat>, file: nat, all: seq<Candidate>,
                        publicMatch: Option<(nat, nat)>) returns (v: Verdict)
    requires publicMatch == PublicMatch(env, all, |identities|)
    ensures v == ScreenedVerdict(env, identities, file, all)
  {
    PublicMatchWithin(env, all, |identities|);
    var candidates := all;
    if publicMatch.None? {
      candidates := RetainPrivate(all);
      if candidates == [] { return SILENT; }
    }
    if !env.root(file) { return Says([InternalError(RootUnavailable)]); }
    var selection: Selection;
    if publicMatch.Some? {
      var (identity, position) := publicMatch.value;
      selection := SelectSole(env, file, identity, identities[identity], candidates[position]);
    } else {
      selection := SelectCandidate(env, file, identities, candidates);
    }
    match selection {
      case Miss => return SILENT;
      case Refused(errors) => return Says(errors);
      case Chosen(position, c) => return AfterSelection(env, file, position, identities[position], c);
    }
  }

  /** The whole invocation: results so far, and out after a cancellation or a failure of the channel. */
  method UnwrapFiles(env: Environment, identities: seq<nat>, files: seq<seq<Stanza>>) returns (r: Report)
    ensures r == Run(env, identities, files)
  {
    ghost var verdicts := Verdicts(env, identities, files);
    r := Report(map[], [], Goes);
    var file := 0;
    while file < |files|
      invariant 0 <= file <= |files|
      invariant r == Fold(verdicts[..file])
      invariant r.ending == Goes
    {
      assert verdicts[..file + 1][..file] == verdicts[..file];
      VerdictAt(env, identities, files, file);
      var v := UnwrapFile(env, identities, file, files[file]);
      r := Add(r, file, v);
      file := file + 1;
      if v.ending != Goes {
        StopsThere(verdicts, file);
        return;
      }
    }
    assert verdicts[..|files|] == verdicts;
  }

  lemma {:induction false} StopsThere(verdicts: seq<Verdict>, k: nat)
    requires k <= |verdicts| && Fold(verdicts[..k]).ending != Goes
    ensures Fold(verdicts) == Fold(verdicts[..k])
    decreases |verdicts| - k
  {
    if k == |verdicts| {
      assert verdicts[..k] == verdicts;
    } else {
      assert verdicts[..k + 1][..k] == verdicts[..k];
      StopsThere(verdicts, k + 1);
    }
  }
}
