/** The wait for a published version to become visible, against any registry and clock. */
module Visibility {
  import opened Records
  import opened Release

  /** One turn of the loop: what the registry shows and whether Cargo can resolve it. */
  datatype Resolution = Resolved | CommandFailed | Broken

  datatype Reply = LookupStops | NotThere | There(version: Version, resolution: Resolution)

  datatype Outcome = Visible(version: Version) | Stopped | TimedOut

  function Delay(turn: nat): nat {
    if turn == 0 then 5 else if Delay(turn - 1) * 2 < 60 then Delay(turn - 1) * 2 else 60
  }

  /** All the sleeping done before a turn. */
  function Slept(turn: nat): nat {
    if turn == 0 then 0 else Slept(turn - 1) + Delay(turn - 1)
  }

  /** `clock(0)` sets the deadline; `clock(i + 1)` is read in turn `i`, after the earlier sleeps. */
  ghost predicate Advances(clock: nat -> real) {
    && clock(1) >= clock(0)
    && forall i: nat :: clock(i + 2) >= clock(i + 1) + Delay(i) as real
  }

  predicate Again(reply: Reply, a: Archive) {
    reply.NotThere? || (reply.There? && Verifies(reply.version, a) && reply.resolution == CommandFailed)
  }

  predicate MaySleep(clock: nat -> real, turn: nat) {
    clock(turn + 1) + Delay(turn) as real < clock(0) + 600.0
  }

  /** This turn ends with a sleep. */
  predicate Waits(replies: nat -> Reply, clock: nat -> real, a: Archive, turn: nat) {
    Again(replies(turn), a) && MaySleep(clock, turn)
  }

  /** The loop ends in this turn with this outcome. */
  ghost predicate EndsAt(replies: nat -> Reply, clock: nat -> real, a: Archive, turn: nat, outcome: Outcome) {
    && (forall i :: 0 <= i < turn ==> Waits(replies, clock, a, i))
    && if Again(replies(turn), a) then outcome == TimedOut && !MaySleep(clock, turn)
       else outcome == Shown(replies(turn), a)
  }

  lemma {:induction false} ClockPasses(clock: nat -> real, turn: nat)
    requires Advances(clock)
    ensures clock(turn + 1) >= clock(0) + Slept(turn) as real
  {
    if turn > 0 {
      ClockPasses(clock, turn - 1);
      assert clock(turn - 1 + 2) >= clock(turn - 1 + 1) + Delay(turn - 1) as real;
    }
  }

  lemma {:induction false} SleptLinear(turn: nat)
    ensures turn >= 4 ==> Delay(turn) == 60 && Slept(turn) == 75 + 60 * (turn - 4)
    ensures turn <= 3 ==> Delay(turn) <= 40
  {
    if turn > 4 {
      SleptLinear(turn - 1);
    } else {
      assert Delay(1) == 10 && Delay(2) == 20 && Delay(3) == 40 && Delay(4) == 60;
      assert Slept(1) == 5 && Slept(2) == 15 && Slept(3) == 35 && Slept(4) == 75;
    }
  }

  /** No clock that honours the sleeps allows a thirteenth one. */
  lemma TwelveSleepsAtMost(clock: nat -> real, turn: nat)
    requires Advances(clock) && MaySleep(clock, turn)
    ensures turn < 12
  {
    ClockPasses(clock, turn);
    SleptLinear(turn);
  }

  /** Twelve sleeps and thirteen lookups are reached when nothing but the sleeps takes time. */
  lemma TwelveSleepsReached(replies: nat -> Reply, clock: nat -> real, a: Archive)
    requires forall i: nat :: clock(i + 1) == clock(0) + Slept(i) as real
    requires forall i: nat :: replies(i) == NotThere
    ensures EndsAt(replies, clock, a, 12, TimedOut)
  {
    forall i: nat | i <= 12
      ensures MaySleep(clock, i) <==> i < 12
      ensures i < 12 ==> Waits(replies, clock, a, i)
    {
      assert clock(i + 1) == clock(0) + Slept(i) as real;
      SleptLinear(i);
      assert Slept(1) == 5 && Slept(2) == 15 && Slept(3) == 35;
    }
  }

  /** The outcome of a turn that is not to be repeated. */
  function Shown(reply: Reply, a: Archive): Outcome {
    if reply.There? && Verifies(reply.version, a) && reply.resolution == Resolved then Visible(reply.version)
    else Stopped
  }

  /** The loop body of `wait` up to its deadline check: `None` means to try again. */
  method Look(reply: Reply, a: Archive) returns (outcome: Option<Outcome>)
    ensures outcome == None <==> Again(reply, a)
    ensures outcome.Some? ==> outcome.value == Shown(reply, a)
  {
    if reply.LookupStops? { return Some(Stopped); }
    if reply.NotThere? { return None; }
    if !Verifies(reply.version, a) { return Some(Stopped); }
    if reply.resolution == Resolved { return Some(Visible(reply.version)); }
    return if reply.resolution == CommandFailed then None else Some(Stopped);
  }

  /** How the loop goes on from a turn: its outcome and all the sleeps. */
  ghost function Course(replies: nat -> Reply, clock: nat -> real, a: Archive, turn: nat): (Outcome, nat)
    requires Advances(clock) && turn <= 12
    decreases 12 - turn
  {
    if !Again(replies(turn), a) then (Shown(replies(turn), a), turn)
    else if !MaySleep(clock, turn) then (TimedOut, turn)
    else
      TwelveSleepsAtMost(clock, turn);
      Course(replies, clock, a, turn + 1)
  }

  method Wait(replies: nat -> Reply, clock: nat -> real, a: Archive) returns (outcome: Outcome, sleeps: nat)
    requires Advances(clock)
    ensures (outcome, sleeps) == Course(replies, clock, a, 0)
  {
    sleeps := 0;
    var deadline, delay := clock(0) + 600.0, 5;
    while true
      invariant delay == Delay(sleeps) && sleeps <= 12
      invariant Course(replies, clock, a, sleeps) == Course(replies, clock, a, 0)
      decreases 12 - sleeps
    {
      var seen := Look(replies(sleeps), a);
      if seen.Some? { return seen.value, sleeps; }
      if !(clock(sleeps + 1) + delay as real < deadline) { return TimedOut, sleeps; }
      TwelveSleepsAtMost(clock, sleeps);
      sleeps := sleeps + 1;
      delay := if delay * 2 < 60 then delay * 2 else 60;
    }
  }

  lemma {:induction false} CourseEnds(replies: nat -> Reply, clock: nat -> real, a: Archive, turn: nat)
    requires Advances(clock) && turn <= 12
    requires forall i :: 0 <= i < turn ==> Waits(replies, clock, a, i)
    ensures var (outcome, sleeps) := Course(replies, clock, a, turn);
            sleeps <= 12 && EndsAt(replies, clock, a, sleeps, outcome)
    decreases 12 - turn
  {
    if Waits(replies, clock, a, turn) {
      TwelveSleepsAtMost(clock, turn);
      CourseEnds(replies, clock, a, turn + 1);
    }
  }

  /**
   Main result: `wait` ends at the first turn that is not to be repeated or at the deadline, after
   at most twelve sleeps, and only a verified version counts as visible.
   */
  lemma WaitEnds(replies: nat -> Reply, clock: nat -> real, a: Archive)
    requires Advances(clock)
    ensures var (outcome, sleeps) := Course(replies, clock, a, 0);
            && EndsAt(replies, clock, a, sleeps, outcome) && sleeps <= 12
            && (outcome.Visible? ==> Verifies(outcome.version, a))
  {
    CourseEnds(replies, clock, a, 0);
  }

  /** The sleeps double from five seconds up to a minute. */
  lemma DelaysAre(turn: nat)
    ensures Delay(turn) == if turn == 0 then 5 else if turn == 1 then 10 else if turn == 2 then 20
                           else if turn == 3 then 40 else 60
  {
    SleptLinear(turn);
    assert Delay(0) == 5 && Delay(1) == 10 && Delay(2) == 20 && Delay(3) == 40;
  }

  predicate Equal(v: Version, a: Archive) {
    v.checksum == a.sha256 && v.blobDigest == a.sha256 && v.inventory == a.files
  }

  /** Nothing is wrong, but the version is missing or Cargo cannot resolve it yet. */
  predicate NotYet(reply: Reply, a: Archive) {
    match reply
    case LookupStops => false
    case NotThere => true
    case There(version, resolution) => Equal(version, a) && resolution == CommandFailed
  }

  /**
   Main result: the version is reported visible exactly if the last reply showed the recorded one
   resolved; the wait times out exactly if that reply was still not yet there; every earlier reply
   was not yet there, with time left for the sleep.
   */
  lemma WaitIff(replies: nat -> Reply, clock: nat -> real, a: Archive, v: Version)
    requires Advances(clock)
    ensures var (outcome, last) := Course(replies, clock, a, 0);
            && (outcome == Visible(v) <==> replies(last) == There(v, Resolved) && Equal(v, a))
            && (outcome == TimedOut <==> NotYet(replies(last), a))
            && (outcome == TimedOut ==> clock(last + 1) + Delay(last) as real >= clock(0) + 600.0)
            && (forall i :: 0 <= i < last ==>
                  NotYet(replies(i), a) && clock(i + 1) + Delay(i) as real < clock(0) + 600.0)
  {
    WaitEnds(replies, clock, a);
    var (outcome, last) := Course(replies, clock, a, 0);
    forall i | 0 <= i < last
      ensures NotYet(replies(i), a) && clock(i + 1) + Delay(i) as real < clock(0) + 600.0
    {
      assert Waits(replies, clock, a, i);
    }
  }
}
