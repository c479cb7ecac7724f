/**
 The reverse rule of a Developer USB session and its guardian process. The parent may die after
 any effect; the guardian then reads what was written to its pipe.
 */
module Adb {
  import opened Records

  /** How an `adb` command ends; one that fails may still have taken effect. */
  datatype Command = Done | Fails(applied: bool)

  /** How disarming ends: writing, flushing, or waiting for the guardian to exit. */
  datatype Disarm = WriteFails | FlushFails | Exits | TimesOut

  datatype Effect =
    | SpawnGuardian | AddRule(outcome: Command) | RemoveRule(outcome: Command) | WriteDisarm | KillGuardian

  /** The device's rule, the guardian, and what the parent has done so far. */
  datatype World = World(rule: bool, guarded: bool, disarmed: bool, killed: bool, removals: nat)

  const START := World(false, false, false, false, 0)

  predicate Applied(c: Command) {
    c == Done || c.applied
  }

  function After(w: World, e: Effect): World {
    match e
    case SpawnGuardian => w.(guarded := true)
    case AddRule(c) => w.(rule := w.rule || Applied(c))
    case RemoveRule(c) => w.(rule := w.rule && !Applied(c), removals := w.removals + if c == Done then 1 else 0)
    case WriteDisarm => w.(disarmed := true)
    case KillGuardian => w.(killed := true)
  }

  function Following(effects: seq<Effect>): World
    decreases |effects|
  {
    if effects == [] then START else After(Following(effects[..|effects| - 1]), effects[|effects| - 1])
  }

  /** What the guardian does once the parent is gone: only the disarm byte lets it leave the rule alone. */
  predicate WillRemove(w: World) {
    w.guarded && !w.killed && !w.disarmed
  }

  /** The disarm byte follows a successful removal, a rule is always covered, one removal succeeds. */
  predicate Safe(w: World) {
    && (w.disarmed ==> w.removals == 1 && !w.rule)
    && (w.killed ==> w.disarmed)
    && (w.rule ==> WillRemove(w))
    && w.removals <= 1
  }

  ghost predicate AlwaysSafe(effects: seq<Effect>) {
    forall k :: 0 <= k <= |effects| ==> Safe(Following(effects[..k]))
  }

  // ----- What the parent does -----

  /** The session's own belief; `live` is false when `connect` returned an error. */
  datatype Session = Session(live: bool, ruleActive: bool, closed: bool)

  function DisarmEffects(d: Disarm): seq<Effect> {
    match d
    case WriteFails => []
    case FlushFails => [WriteDisarm]
    case Exits => [WriteDisarm]
    case TimesOut => [WriteDisarm, KillGuardian]
  }

  /** Remove the rule and, only if that succeeded, disarm the guardian. */
  function RemovalEffects(removal: Command, d: Disarm): seq<Effect> {
    [RemoveRule(removal)] + if removal == Done then DisarmEffects(d) else []
  }

  /** The answers of every single step of `connect`, and of a cleanup if it comes to one. */
  datatype Connection = Connection(
    selected: bool,
    noRule: bool,
    listens: bool,
    arms: bool,
    add: Command,
    unwrap: bool,
    launches: bool,
    accepts: bool,
    loopback: bool,
    configures: bool,
    removal: Command,
    disarm: Disarm)

  datatype ConnectError =
    | NoDevice | RuleExists | Unavailable | NoGuardian | RuleFails | AppLaunch | NoPeer | InvalidPeer | NotConfigured

  /** The rule was asked for: the guardian is armed already. */
  predicate Asked(c: Connection) {
    c.selected && c.noRule && c.listens && c.arms
  }

  /** Every step succeeded; only an unwrap launches the app. */
  predicate Connected(c: Connection) {
    Asked(c) && c.add == Done && (c.unwrap ==> c.launches) && c.accepts && c.loopback && c.configures
  }

  function ConnectEffects(c: Connection): seq<Effect> {
    if !Asked(c) then []
    else [SpawnGuardian, AddRule(c.add)] + if Connected(c) then [] else RemovalEffects(c.removal, c.disarm)
  }

  function Opened(c: Connection): Session {
    Session(Connected(c), Connected(c), false)
  }

  datatype Call =
    | Exchange(response: bool, deviceUnchanged: bool, removal: Command, disarm: Disarm)
    | Cancel(removal: Command, disarm: Disarm)
    | Drop(removal: Command, disarm: Disarm)

  /** `remove_rule` does nothing more once a removal has succeeded. */
  function RemoveEffects(s: Session, removal: Command, disarm: Disarm): seq<Effect> {
    if s.ruleActive then RemovalEffects(removal, disarm) else []
  }

  function CallEffects(s: Session, c: Call): seq<Effect> {
    if !s.live || (c.Exchange? && s.closed) then [] else RemoveEffects(s, c.removal, c.disarm)
  }

  function Called(s: Session, c: Call): Session {
    if !s.live || (c.Exchange? && s.closed) then s
    else Session(!c.Drop?, s.ruleActive && c.removal != Done, s.closed || !c.Drop?)
  }

  /** A response is handed on only from an unclosed session, over an unchanged device, rule gone. */
  predicate Answers(s: Session, c: Call) {
    && s.live && c.Exchange? && !s.closed
    && c.deviceUnchanged && c.response
    && (s.ruleActive ==> c.removal == Done && c.disarm == Exits)
  }

  function Run(c: Connection, calls: seq<Call>): (Session, seq<Effect>)
    decreases |calls|
  {
    if calls == [] then (Opened(c), ConnectEffects(c))
    else
      var (s, effects) := Run(c, calls[..|calls| - 1]);
      (Called(s, calls[|calls| - 1]), effects + CallEffects(s, calls[|calls| - 1]))
  }

  // ----- Safety -----

  lemma FollowingLast(effects: seq<Effect>, e: Effect)
    ensures Following(effects + [e]) == After(Following(effects), e)
  {
    assert (effects + [e])[..|effects|] == effects;
  }

  lemma SafeMore(effects: seq<Effect>, e: Effect)
    requires AlwaysSafe(effects) && Safe(After(Following(effects), e))
    ensures AlwaysSafe(effects + [e])
  {
    var more := effects + [e];
    FollowingLast(effects, e);
    forall k | 0 <= k <= |more|
      ensures Safe(Following(more[..k]))
    {
      if k <= |effects| { assert more[..k] == effects[..k]; } else { assert more[..k] == more; }
    }
  }

  lemma DisarmKeeps(effects: seq<Effect>, d: Disarm)
    requires AlwaysSafe(effects) && Following(effects).removals == 1 && !Following(effects).rule
    ensures AlwaysSafe(effects + DisarmEffects(d))
    ensures var w := Following(effects + DisarmEffects(d));
            w.removals == 1 && !w.rule && w.guarded == Following(effects).guarded
  {
    if d == WriteFails {
      assert effects + [] == effects;
    } else {
      FollowingLast(effects, WriteDisarm);
      SafeMore(effects, WriteDisarm);
      if d == TimesOut {
        FollowingLast(effects + [WriteDisarm], KillGuardian);
        SafeMore(effects + [WriteDisarm], KillGuardian);
        assert effects + DisarmEffects(d) == effects + [WriteDisarm] + [KillGuardian];
      }
    }
  }

  /** While no removal has succeeded, the guardian covers whatever is on the device. */
  predicate Covered(w: World) {
    WillRemove(w) && w.removals == 0
  }

  lemma RemovalKeeps(effects: seq<Effect>, removal: Command, d: Disarm)
    requires AlwaysSafe(effects) && Covered(Following(effects))
    ensures var all := effects + RemovalEffects(removal, d);
            AlwaysSafe(all)
            && (if removal == Done then !Following(all).rule && Following(all).removals == 1
                else Covered(Following(all)))
  {
    assert Safe(Following(effects));
    FollowingLast(effects, RemoveRule(removal));
    SafeMore(effects, RemoveRule(removal));
    if removal == Done {
      DisarmKeeps(effects + [RemoveRule(removal)], d);
      assert effects + RemovalEffects(removal, d) == effects + [RemoveRule(removal)] + DisarmEffects(d);
    } else {
      assert effects + RemovalEffects(removal, d) == effects + [RemoveRule(removal)];
    }
  }

  lemma StartSafe(applied: Command)
    ensures var e := [SpawnGuardian, AddRule(applied)];
            AlwaysSafe(e) && Covered(Following(e)) && Following(e).rule == Applied(applied)
  {
    assert Following([]) == START;
    SafeMore([], SpawnGuardian);
    FollowingLast([], SpawnGuardian);
    assert [] + [SpawnGuardian] == [SpawnGuardian];
    SafeMore([SpawnGuardian], AddRule(applied));
    FollowingLast([SpawnGuardian], AddRule(applied));
    assert [SpawnGuardian] + [AddRule(applied)] == [SpawnGuardian, AddRule(applied)];
  }

  /** Whichever step fails, the rule is removed or the guardian will remove it. */
  lemma ConnectKeeps(c: Connection)
    ensures var (effects, w) := (ConnectEffects(c), Following(ConnectEffects(c)));
            && AlwaysSafe(effects)
            && (Connected(c) ==> Covered(w) && w.rule)
            && (!Asked(c) ==> w == START)
            && (Asked(c) && !Connected(c) ==> if c.removal == Done then !w.rule && w.removals == 1 else Covered(w))
  {
    var asked := [SpawnGuardian, AddRule(c.add)];
    if !Asked(c) {
      assert AlwaysSafe([]);
    } else {
      StartSafe(c.add);
      if Connected(c) { assert asked + [] == asked; } else { RemovalKeeps(asked, c.removal, c.disarm); }
    }
  }

  /**
   Main result: at every point of every session, the disarm byte has been written only after a
   successful removal, so a rule that is still there when the parent dies leaves a guardian that
   removes it; and the parent removes successfully at most once.
   */
  lemma {:induction false} SessionIsSafe(c: Connection, calls: seq<Call>)
    ensures var (s, effects) := Run(c, calls);
            && AlwaysSafe(effects)
            && (s.ruleActive ==> Covered(Following(effects)))
            && (Connected(c) && !s.ruleActive ==> !Following(effects).rule && Following(effects).removals == 1)
    decreases |calls|
  {
    ConnectKeeps(c);
    if calls != [] {
      var k := |calls| - 1;
      SessionIsSafe(c, calls[..k]);
      var (s, effects) := Run(c, calls[..k]);
      if CallEffects(s, calls[k]) == [] {
        assert effects + [] == effects;
      } else {
        RemovalKeeps(effects, calls[k].removal, calls[k].disarm);
      }
    }
  }

  /** Once anything was called, no later call is answered: the session is closed or gone. */
  lemma {:induction false} CalledIsOver(c: Connection, calls: seq<Call>)
    requires calls != []
    ensures var s := Run(c, calls).0; !s.live || s.closed
    decreases |calls|
  {
    if |calls| > 1 { CalledIsOver(c, calls[..|calls| - 1]); }
  }

  /**
   Main result: a response is handed on exactly by the first call of an established session, with
   the device unchanged, the rule removed and the guardian let go.
   */
  lemma AnswersIff(c: Connection, calls: seq<Call>, call: Call)
    ensures Answers(Run(c, calls).0, call) <==>
            && Connected(c) && calls == [] && call.Exchange?
            && call.response && call.deviceUnchanged && call.removal == Done && call.disarm == Exits
  {
    if calls != [] { CalledIsOver(c, calls); }
  }

  /** No call dropped the session, and none removed the rule. */
  ghost predicate StillActive(calls: seq<Call>) {
    forall i :: 0 <= i < |calls| ==> !calls[i].Drop? && calls[i].removal != Done
  }

  lemma {:induction false} ActiveSession(c: Connection, calls: seq<Call>)
    requires Connected(c) && StillActive(calls)
    ensures Run(c, calls).0.live && Run(c, calls).0.ruleActive
    ensures Run(c, calls).0.closed <==> calls != []
    decreases |calls|
  {
    if calls != [] {
      var k := |calls| - 1;
      assert StillActive(calls[..k]);
      ActiveSession(c, calls[..k]);
      assert !calls[k].Drop? && calls[k].removal != Done;
    }
  }

  /** The first exchange, every cancellation and the drop try to remove a rule that is still there. */
  lemma CallRemoves(c: Connection, calls: seq<Call>, call: Call)
    requires Connected(c) && StillActive(calls) && (call.Exchange? ==> calls == [])
    ensures Run(c, calls + [call]).1
         == Run(c, calls).1 + [RemoveRule(call.removal)]
            + (if call.removal != Done || call.disarm == WriteFails then []
               else if call.disarm == TimesOut then [WriteDisarm, KillGuardian] else [WriteDisarm])
  {
    ActiveSession(c, calls);
    assert (calls + [call])[..|calls|] == calls;
  }

  /** A response is returned only after the rule is gone and the guardian has let go, at most once. */
  lemma {:induction false} AnswerMeansRemoved(c: Connection, calls: seq<Call>, call: Call)
    requires Answers(Run(c, calls).0, call)
    ensures var effects := Run(c, calls + [call]).1;
            !Following(effects).rule && Following(effects).removals == 1
    ensures forall later: Call :: !Answers(Run(c, calls + [call]).0, later)
  {
    assert (calls + [call])[..|calls|] == calls;
    SessionIsSafe(c, calls);
    SessionIsSafe(c, calls + [call]);
    assert Run(c, calls).0.live ==> Connected(c) by { LiveIsConnected(c, calls); }
  }

  lemma {:induction false} LiveIsConnected(c: Connection, calls: seq<Call>)
    ensures Run(c, calls).0.live ==> Connected(c)
    decreases |calls|
  {
    if calls != [] { LiveIsConnected(c, calls[..|calls| - 1]); }
  }

  // ----- Connecting -----

  method CleanupCreatedRule(effects: seq<Effect>, removal: Command, d: Disarm) returns (more: seq<Effect>)
    ensures more == effects + RemovalEffects(removal, d)
  {
    more := effects + [RemoveRule(removal)];
    if removal == Done { more := more + DisarmEffects(d); }
  }

  /** The first step that fails. */
  function Failure(c: Connection): ConnectError
    requires !Connected(c)
  {
    if !c.selected then NoDevice
    else if !c.noRule then RuleExists
    else if !c.listens then Unavailable
    else if !c.arms then NoGuardian
    else if c.add != Done then RuleFails
    else if c.unwrap && !c.launches then AppLaunch
    else if !c.accepts then NoPeer
    else if !c.loopback then InvalidPeer
    else NotConfigured
  }

  /** Each error names the step that failed after every earlier one succeeded. */
  lemma FailureIff(c: Connection)
    requires !Connected(c)
    ensures var asked := c.selected && c.noRule && c.listens && c.arms;
            var launched := asked && c.add == Done && !(c.unwrap && !c.launches);
            && (Failure(c) == NoDevice <==> !c.selected)
            && (Failure(c) == RuleExists <==> c.selected && !c.noRule)
            && (Failure(c) == Unavailable <==> c.selected && c.noRule && !c.listens)
            && (Failure(c) == NoGuardian <==> c.selected && c.noRule && c.listens && !c.arms)
            && (Failure(c) == RuleFails <==> asked && c.add != Done)
            && (Failure(c) == AppLaunch <==> asked && c.add == Done && c.unwrap && !c.launches)
            && (Failure(c) == NoPeer <==> launched && !c.accepts)
            && (Failure(c) == InvalidPeer <==> launched && c.accepts && !c.loopback)
            && (Failure(c) == NotConfigured <==> launched && c.accepts && c.loopback && !c.configures)
  {
  }

  /** `connect`: the guardian is armed before the rule is asked for, and every later failure cleans up. */
  method Connect(c: Connection) returns (r: Result<(), ConnectError>, effects: seq<Effect>)
    ensures r == (if Connected(c) then Ok(()) else Err(Failure(c))) && effects == ConnectEffects(c)
  {
    effects := [];
    if !c.selected { return Err(NoDevice), effects; }
    if !c.noRule { return Err(RuleExists), effects; }
    if !c.listens { return Err(Unavailable), effects; }
    if !c.arms { return Err(NoGuardian), effects; }
    effects := [SpawnGuardian, AddRule(c.add)];
    if c.add != Done {
      effects := CleanupCreatedRule(effects, c.removal, c.disarm);
      return Err(RuleFails), effects;
    }
    if c.unwrap && !c.launches {
      effects := CleanupCreatedRule(effects, c.removal, c.disarm);
      return Err(AppLaunch), effects;
    }
    if !c.accepts {
      effects := CleanupCreatedRule(effects, c.removal, c.disarm);
      return Err(NoPeer), effects;
    }
    if !c.loopback {
      effects := CleanupCreatedRule(effects, c.removal, c.disarm);
      return Err(InvalidPeer), effects;
    }
    if !c.configures {
      effects := CleanupCreatedRule(effects, c.removal, c.disarm);
      return Err(NotConfigured), effects;
    }
    return Ok(()), effects;
  }

  // ----- The session object -----

  class AdbReverseSession {
    var ruleActive: bool
    var closed: bool
    var armed: bool
    var hasInput: bool
    ghost var live: bool
    ghost var effects: seq<Effect>

    ghost function Belief(): Session
      reads this
    {
      Session(live, ruleActive, closed)
    }

    /** Nothing has been removed as long as the guardian is still armed with an open pipe. */
    ghost predicate Valid()
      reads this
    {
      ruleActive ==> armed && hasInput
    }

    /** A session that `connect` returned. */
    constructor (ghost c: Connection)
      requires Connected(c)
      ensures Valid() && Belief() == Opened(c) && effects == ConnectEffects(c)
    {
      ruleActive, closed, armed, hasInput, live := true, false, true, true, true;
      effects := ConnectEffects(c);
    }

    method DisarmGuardian(d: Disarm) returns (ok: bool)
      requires armed && hasInput
      modifies this`armed, this`hasInput, this`effects
      ensures effects == old(effects) + DisarmEffects(d) && ok == (d == Exits)
      ensures armed == (d.WriteFails? || d.FlushFails?) && !hasInput
    {
      hasInput := false;
      if d == WriteFails { return false; }
      effects := effects + [WriteDisarm];
      if d == FlushFails { return false; }
      armed := false;
      if d == TimesOut {
        effects := effects + [KillGuardian];
        return false;
      }
      return true;
    }

    method Remove(removal: Command, d: Disarm) returns (ok: bool)
      requires Valid()
      modifies this
      ensures Valid() && effects == old(effects) + RemoveEffects(old(Belief()), removal, d)
      ensures Belief() == old(Belief()).(ruleActive := old(ruleActive) && removal != Done)
      ensures ok == (!old(ruleActive) || (removal == Done && d == Exits))
    {
      if !ruleActive { return true; }
      effects := effects + [RemoveRule(removal)];
      if removal != Done { return false; }
      ruleActive := false;
      ok := DisarmGuardian(d);
    }

    method DoExchange(response: bool, deviceUnchanged: bool, removal: Command, d: Disarm) returns (answer: bool)
      requires Valid() && live
      modifies this
      ensures var call := Exchange(response, deviceUnchanged, removal, d);
              && Valid() && Belief() == Called(old(Belief()), call)
              && effects == old(effects) + CallEffects(old(Belief()), call)
              && answer == Answers(old(Belief()), call)
    {
      if closed { return false; }
      closed := true;
      var removed := Remove(removal, d);
      if !deviceUnchanged || !removed { return false; }
      return response;
    }

    method DoCancel(removal: Command, d: Disarm)
      requires Valid() && live
      modifies this
      ensures Valid() && Belief() == Called(old(Belief()), Cancel(removal, d))
      ensures effects == old(effects) + CallEffects(old(Belief()), Cancel(removal, d))
    {
      closed := true;
      var _ := Remove(removal, d);
    }

    method DoDrop(removal: Command, d: Disarm)
      requires Valid() && live
      modifies this
      ensures Valid() && Belief() == Called(old(Belief()), Drop(removal, d))
      ensures effects == old(effects) + CallEffects(old(Belief()), Drop(removal, d))
    {
      var _ := Remove(removal, d);
      live := false;
    }
  }

  // ----- The guardian -----

  const RETRY_TIMEOUT := 2_000

  /** The first `n` attempts failed, each ending within the retry time. */
  ghost predicate FailingInTime(attempts: nat -> Command, clock: nat -> nat, n: int) {
    forall i :: 0 <= i < n ==> attempts(i) != Done && clock(i + 1) < clock(0) + RETRY_TIMEOUT
  }

  /** Attempts until one succeeds, or until a failed one ends after the retry time (in milliseconds). */
  method RemoveAfterParentExit(attempts: nat -> Command, clock: nat -> nat) returns (ok: bool, tried: nat)
    requires forall i: nat :: clock(i + 1) > clock(i)
    ensures tried >= 1
    ensures FailingInTime(attempts, clock, tried - 1)
    ensures if ok then attempts(tried - 1) == Done
            else attempts(tried - 1) != Done && clock(tried) >= clock(0) + RETRY_TIMEOUT
  {
    tried := 0;
    while true
      invariant FailingInTime(attempts, clock, tried)
      invariant clock(tried) >= clock(0) + tried
      decreases clock(0) + RETRY_TIMEOUT - clock(tried)
    {
      if attempts(tried) == Done { return true, tried + 1; }
      if clock(tried + 1) >= clock(0) + RETRY_TIMEOUT { return false, tried + 1; }
      assert clock(tried + 1) > clock(tried);
      tried := tried + 1;
    }
  }

  /** The guardian's run: it leaves the rule alone only for the disarm byte, and otherwise retries. */
  method CleanupGuard(signal: Option<Byte>, attempts: nat -> Command, clock: nat -> nat) returns (ok: bool, tried: nat)
    requires forall i: nat :: clock(i + 1) > clock(i)
    ensures tried == 0 <==> signal == Some(0x44)
    ensures tried == 0 ==> ok
    ensures FailingInTime(attempts, clock, tried - 1)
    ensures tried > 0 ==>
              if ok then attempts(tried - 1) == Done
              else attempts(tried - 1) != Done && clock(tried) >= clock(0) + RETRY_TIMEOUT
  {
    if signal == Some(0x44) { return true, 0; }
    ok, tried := RemoveAfterParentExit(attempts, clock);
  }
}
