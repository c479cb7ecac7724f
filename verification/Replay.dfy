/**
 The consumed set of a pairing's phone responses, with expiry, and its commit in three file
 operations. Whatever operation a process dies or fails at, a response is never accepted twice
 within its lifetime.
 */
module Replay {
  import opened Records

  type Digest = nat

  type Time = nat

  const MAX_LIFETIME: Time := 300
  const MAX_TIME: Time := 0x7FFF_FFFF_FFFF_FFFF

  datatype Entry = Entry(digest: Digest, expires: Time)

  /** What the replay file holds; the entries are stored sorted and without duplicates. */
  datatype Saved = Saved(lastSeen: Time, entries: set<Entry>)

  datatype ReplayError = Malformed | Expired | LifetimeTooLong | ClockRollback | Replayed | CapacityReached | Unusable

  function ValidateTime(expires: Time, now: Time): Option<ReplayError> {
    if expires > MAX_TIME || now > MAX_TIME then Some(Malformed)
    else if expires < now then Some(Expired)
    else if expires - now > MAX_LIFETIME then Some(LifetimeTooLong)
    else None
  }

  function Alive(entries: set<Entry>, now: Time): set<Entry> {
    set e | e in entries && e.expires >= now
  }

  /** `consume_response` on the state in memory. */
  function Consume(s: Saved, digest: Digest, expires: Time, now: Time, capacity: nat): Result<Saved, ReplayError> {
    var bad := ValidateTime(expires, now);
    if bad.Some? then Err(bad.value)
    else if now < s.lastSeen then Err(ClockRollback)
    else
      var alive := Alive(s.entries, now);
      if exists e :: e in alive && e.digest == digest then Err(Replayed)
      else if |alive| >= capacity then Err(CapacityReached)
      else Ok(Saved(now, alive + {Entry(digest, expires)}))
  }

  // ----- The file and the process that holds it -----

  /** `file` is absent before the pairing is set up; `pending` is the marker of an unfinished commit. */
  datatype Files = Files(file: Option<Saved>, pending: bool)

  /** The process that holds the replay lock, if any. */
  datatype Guard = Closed | Open(state: Saved, capacity: nat, poisoned: bool)

  datatype Accepted = Accepted(digest: Digest, expires: Time, now: Time)

  datatype System = System(files: Files, guard: Guard, accepted: seq<Accepted>)

  /** `steps` is how many of the commit's three file operations take effect before one fails. */
  datatype Event =
    | Create(now: Time, capacity: nat)
    | OpenFile(capacity: nat)
    | Respond(digest: Digest, expires: Time, now: Time, steps: nat, failsAfter: bool)
    | Die

  /** The files after the first operations of a commit: marker, replacement, marker removed. */
  function Commit(f: Files, next: Saved, steps: nat): Files {
    if steps == 0 || f.pending then f
    else if steps == 1 then Files(f.file, true)
    else if steps == 2 then Files(Some(next), true)
    else Files(Some(next), false)
  }

  /** Opening and creating need the lock, no marker, and an existing or a missing file. */
  function Next(s: System, e: Event): System {
    match e
    case Create(now, capacity) =>
      if s.guard != Closed || s.files.pending || s.files.file.Some? then s
      else s.(files := Files(Some(Saved(now, {})), false), guard := Open(Saved(now, {}), capacity, false))
    case OpenFile(capacity) =>
      if s.guard != Closed || s.files.pending || s.files.file.None? || |s.files.file.value.entries| > capacity then s
      else s.(guard := Open(s.files.file.value, capacity, false))
    case Respond(digest, expires, now, steps, failsAfter) =>
      if s.guard == Closed || s.guard.poisoned then s
      else
        (match Consume(s.guard.state, digest, expires, now, s.guard.capacity)
         case Err(_) => s
         case Ok(next) =>
           if steps >= 3 && !failsAfter && !s.files.pending then
             System(Commit(s.files, next, 3), s.guard.(state := next), s.accepted + [Accepted(digest, expires, now)])
           else
             s.(files := Commit(s.files, next, steps), guard := s.guard.(poisoned := true)))
    case Die => s.(guard := Closed)
  }

  function Run(s: System, events: seq<Event>): System
    decreases |events|
  {
    if events == [] then s else Next(Run(s, events[..|events| - 1]), events[|events| - 1])
  }

  // ----- At most once -----

  /** An accepted response is remembered until it has expired. */
  predicate Remembers(s: Saved, a: Accepted) {
    Entry(a.digest, a.expires) in s.entries || a.expires < s.lastSeen
  }

  ghost predicate RemembersAll(s: Saved, accepted: seq<Accepted>) {
    forall i :: 0 <= i < |accepted| ==> Remembers(s, accepted[i])
  }

  /** An earlier acceptance of the same response had expired by the time of a later one. */
  ghost predicate NeverTwice(accepted: seq<Accepted>) {
    forall i, j :: 0 <= i < j < |accepted| && accepted[i].digest == accepted[j].digest ==>
      accepted[i].expires < accepted[j].now <= accepted[j].expires
  }

  ghost predicate Inv(s: System) {
    && NeverTwice(s.accepted)
    && (s.files.file.None? ==> s.accepted == [] && s.guard == Closed)
    && (s.files.file.Some? ==> RemembersAll(s.files.file.value, s.accepted))
    && (s.guard.Open? && !s.guard.poisoned ==> s.files == Files(Some(s.guard.state), false))
  }

  lemma ConsumeRemembers(s: Saved, accepted: seq<Accepted>, digest: Digest, expires: Time, now: Time, capacity: nat)
    requires RemembersAll(s, accepted) && NeverTwice(accepted)
    requires Consume(s, digest, expires, now, capacity).Ok?
    ensures var (next, a) := (Consume(s, digest, expires, now, capacity).value, Accepted(digest, expires, now));
            RemembersAll(next, accepted) && RemembersAll(next, accepted + [a]) && NeverTwice(accepted + [a])
  {
    var next := Consume(s, digest, expires, now, capacity).value;
    var alive := Alive(s.entries, now);
    forall i | 0 <= i < |accepted|
      ensures Remembers(next, accepted[i])
      ensures accepted[i].digest == digest ==> accepted[i].expires < now
    {
      var e := Entry(accepted[i].digest, accepted[i].expires);
      assert Remembers(s, accepted[i]);
      assert e in s.entries && e.expires >= now ==> e in alive;
    }
    var all := accepted + [Accepted(digest, expires, now)];
    forall i, j | 0 <= i < j < |all| && all[i].digest == all[j].digest
      ensures all[i].expires < all[j].now <= all[j].expires
    {
      if j < |accepted| { assert all[i] == accepted[i] && all[j] == accepted[j]; }
    }
  }

  lemma NextKeeps(s: System, e: Event)
    requires Inv(s)
    ensures Inv(Next(s, e))
  {
    if e.Respond? && s.guard.Open? && !s.guard.poisoned {
      var next := Consume(s.guard.state, e.digest, e.expires, e.now, s.guard.capacity);
      if next.Ok? {
        ConsumeRemembers(s.guard.state, s.accepted, e.digest, e.expires, e.now, s.guard.capacity);
      }
    }
  }

  /**
   Main result: over every sequence of opens, responses, failed commits and deaths, an accepted
   response is accepted again only after its own expiry; with a fixed expiry, never.
   */
  lemma {:induction false} AcceptedAtMostOnce(events: seq<Event>)
    ensures Inv(Run(System(Files(None, false), Closed, []), events))
    ensures var a := Run(System(Files(None, false), Closed, []), events).accepted;
            forall i, j :: 0 <= i < j < |a| && a[i].digest == a[j].digest ==> a[i].expires < a[j].expires
    decreases |events|
  {
    if events != [] {
      AcceptedAtMostOnce(events[..|events| - 1]);
      NextKeeps(Run(System(Files(None, false), Closed, []), events[..|events| - 1]), events[|events| - 1]);
    }
  }

  /**
   A response is accepted exactly if it is not expired, lives five minutes at most, the clock has not
   gone back, no remembered response that is still alive equals it, and there is room; the state then
   holds the living responses and this one.
   */
  lemma ConsumeIff(s: Saved, digest: Digest, expires: Time, now: Time, capacity: nat)
    ensures var r := Consume(s, digest, expires, now, capacity);
            var alive := set e | e in s.entries && e.expires >= now;
            && (r.Ok? <==>
                  && expires <= 0x7FFF_FFFF_FFFF_FFFF && now <= 0x7FFF_FFFF_FFFF_FFFF
                  && now <= expires <= now + 300 && s.lastSeen <= now
                  && (forall e :: e in s.entries && e.digest == digest ==> e.expires < now)
                  && |alive| < capacity)
            && (r.Ok? ==> r.value == Saved(now, alive + {Entry(digest, expires)}))
            && (r == Err(Replayed) ==> exists e :: e in s.entries && e.digest == digest && now <= e.expires)
            && (r == Err(CapacityReached) ==> |alive| >= capacity)
            && (r == Err(ClockRollback) ==> now < s.lastSeen)
            && (r == Err(Expired) ==> expires < now)
            && (r == Err(LifetimeTooLong) ==> expires > now + 300)
  {
    var alive := set e | e in s.entries && e.expires >= now;
    assert alive == Alive(s.entries, now);
    if e :| e in s.entries && e.digest == digest && e.expires >= now { assert e in alive; }
  }

  /**
   Creating and opening need the lock and no marker; creating needs that there is no file and starts
   empty at this time, opening needs one within the capacity and takes it as it is.
   */
  lemma OpeningIff(s: System, now: Time, capacity: nat)
    ensures var created := Next(s, Create(now, capacity));
            if s.guard == Closed && !s.files.pending && s.files.file == None then
              created == System(Files(Some(Saved(now, {})), false), Open(Saved(now, {}), capacity, false), s.accepted)
            else created == s
    ensures var reopened := Next(s, OpenFile(capacity));
            if s.guard == Closed && !s.files.pending && s.files.file.Some?
               && |s.files.file.value.entries| <= capacity then
              reopened == System(s.files, Open(s.files.file.value, capacity, false), s.accepted)
            else reopened == s
  {
  }

  /** While the marker is there and nobody holds the lock, nothing can happen any more. */
  lemma {:induction false} MarkerBlocks(s: System, events: seq<Event>)
    requires s.guard == Closed && s.files.pending
    ensures Run(s, events) == s
    decreases |events|
  {
    if events != [] { MarkerBlocks(s, events[..|events| - 1]); }
  }

  /**
   After a failed commit this process accepts nothing more. Once it is gone, the marker keeps every
   later process out exactly if the commit failed after its first operation and before its last.
   */
  lemma FailedCommitStays(s: System, digest: Digest, expires: Time, now: Time, steps: nat, failsAfter: bool,
                          later: Event, events: seq<Event>, capacity: nat)
    requires Inv(s) && s.guard.Open? && !s.guard.poisoned
    requires Consume(s.guard.state, digest, expires, now, s.guard.capacity).Ok? && (steps < 3 || failsAfter)
    ensures var next := Consume(s.guard.state, digest, expires, now, s.guard.capacity).value;
            var s' := Next(s, Respond(digest, expires, now, steps, failsAfter));
            var dead := Next(s', Die);
            && s'.accepted == s.accepted && (later.Respond? ==> Next(s', later) == s')
            && s'.files == Files(if steps >= 2 then Some(next) else s.files.file, 1 <= steps < 3)
            && (1 <= steps < 3 ==> Run(dead, events) == dead && dead.guard == Closed)
            && (Next(dead, OpenFile(capacity)).guard.Open? <==>
                  !(1 <= steps < 3) && |s'.files.file.value.entries| <= capacity)
  {
    var s' := Next(s, Respond(digest, expires, now, steps, failsAfter));
    if 1 <= steps < 3 { MarkerBlocks(Next(s', Die), events); }
  }
}
