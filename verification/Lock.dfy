/**
 The runner's single-instance lock (src/parishkit/pk_cron_runner.py, `LockFile`) as interleaved
 steps of any number of processes: exclusive creation, stale recovery under the flock guard,
 ownership tokens, a release that reads and unlinks in two steps, failures and crashes.
 */
module Lock {
  import opened Results

  /** One `LockFile` instance, used once; its number is also its unique token. */
  type Runner = nat

  /** `start` is `None` when the recorded start time is missing or unparseable. */
  datatype Metadata = Metadata(token: int, start: Option<int>)

  /** The file at the lock path. `metadata` is `None` while it is empty or unparseable. */
  datatype LockFile = LockFile(creator: int, metadata: Option<Metadata>)

  datatype Config = Config(staleAfter: Option<int>, removeStale: bool)

  /** Where a runner is in `acquire`, the guarded jobs, or `release`. */
  datatype Phase =
    | Fresh
    | Waiting(start: int)                                // metadata built, guard not yet held
    | Entered(start: int)                                // guard held, first exclusive create
    | Exists(start: int)                                 // the file exists; about to read it
    | Judged(start: int, seen: Metadata, at: int)        // judged stale; about to read it again
    | Confirmed(start: int, seen: Metadata, at: int)     // unchanged; about to unlink it
    | Retry(start: int)                                  // second exclusive create
    | Writing(start: int)                                // created; metadata not yet on disk
    | Failing                                            // write failed; about to unlink
    | Written(start: int)                                // acquired; guard still held
    | Leaving                                            // LockUnavailable; guard still held
    | Running(start: int)                                // acquired
    | Matched(start: int)                                // release read its own token; about to unlink
    | Done
    | Crashed

  /** A stale lock that was unlinked: what was removed and the time at which it was judged. */
  datatype Recovery = Recovery(victim: LockFile, at: int)

  datatype State = State(now: int, file: Option<LockFile>, guard: Option<Runner>, phases: map<Runner, Phase>,
                         recovered: seq<Recovery>, entries: seq<Runner>)

  datatype Action =
    | Tick(t: int)
    | Begin(p: Runner)
    | TakeGuard(p: Runner)
    | Create(p: Runner)
    | ReadExisting(p: Runner)
    | ReadAgain(p: Runner)
    | Remove(p: Runner)
    | Write(p: Runner)
    | WriteFails(p: Runner)
    | Discard(p: Runner)
    | DropGuard(p: Runner)
    | ReadToken(p: Runner)
    | Unlink(p: Runner)
    | UnlinkFails(p: Runner)
    | Fail(p: Runner)
    | Crash(p: Runner)

  function At(s: State, p: Runner): Phase {
    if p in s.phases then s.phases[p] else Fresh
  }

  function Go(s: State, p: Runner, phase: Phase): State {
    s.(phases := s.phases[p := phase])
  }

  /** `is_lock_stale`, at time `now`. */
  predicate Stale(c: Config, m: Metadata, now: int) {
    c.staleAfter.Some? && (m.start.None? || now - m.start.value > c.staleAfter.value)
  }

  /** Only a stale lock under `remove-and-continue` leads on; every other finding refuses. */
  predicate Recoverable(c: Config, file: Option<LockFile>, now: int) {
    file.Some? && file.value.metadata.Some? && Stale(c, file.value.metadata.value, now) && c.removeStale
  }

  predicate Guarded(phase: Phase) {
    phase.Entered? || phase.Exists? || phase.Judged? || phase.Confirmed? || phase.Retry?
    || phase.Writing? || phase.Failing? || phase.Written? || phase.Leaving?
  }

  /** Between a successful `acquire` and the end of its `release`. */
  predicate Holds(phase: Phase) {
    phase.Written? || phase.Running? || phase.Matched?
  }

  /** One step, or `None` when the action is not possible in this state. */
  function Next(c: Config, s: State, a: Action): Option<State> {
    match a
    case Tick(t) => Some(s.(now := t))
    case Begin(p) => if At(s, p).Fresh? then Some(Go(s, p, Waiting(s.now))) else None
    case TakeGuard(p) =>
      if At(s, p).Waiting? && s.guard.None? then Some(Go(s, p, Entered(At(s, p).start)).(guard := Some(p))) else None
    case Create(p) =>
      var phase := At(s, p);
      if !(phase.Entered? || phase.Retry?) then None
      else if s.file.None? then Some(Go(s, p, Writing(phase.start)).(file := Some(LockFile(p, None))))
      else Some(Go(s, p, if phase.Entered? then Exists(phase.start) else Leaving))
    case ReadExisting(p) =>
      if !At(s, p).Exists? then None
      else if Recoverable(c, s.file, s.now) then Some(Go(s, p, Judged(At(s, p).start, s.file.value.metadata.value, s.now)))
      else Some(Go(s, p, Leaving))
    case ReadAgain(p) =>
      var phase := At(s, p);
      if !phase.Judged? then None
      else if s.file.Some? && s.file.value.metadata == Some(phase.seen) then
        Some(Go(s, p, Confirmed(phase.start, phase.seen, phase.at)))
      else Some(Go(s, p, Leaving))
    case Remove(p) =>
      var phase := At(s, p);
      if !phase.Confirmed? then None
      else if s.file.None? then Some(Go(s, p, Retry(phase.start)))
      else Some(Go(s, p, Retry(phase.start)).(file := None, recovered := s.recovered + [Recovery(s.file.value, phase.at)]))
    case Write(p) =>
      var phase := At(s, p);
      if !phase.Writing? then None else
      // The descriptor writes to the file it opened, which may no longer be at the path.
      var mine := s.file.Some? && s.file.value.creator == p;
      var file := if mine then Some(LockFile(p, Some(Metadata(p, Some(phase.start))))) else s.file;
      Some(Go(s, p, Written(phase.start)).(file := file, entries := s.entries + [p]))
    case WriteFails(p) => if At(s, p).Writing? then Some(Go(s, p, Failing)) else None
    case Discard(p) => if At(s, p).Failing? then Some(Go(s, p, Leaving).(file := None)) else None
    case DropGuard(p) =>
      var phase := At(s, p);
      if phase.Written? then Some(Go(s, p, Running(phase.start)).(guard := None))
      else if phase.Leaving? then Some(Go(s, p, Done).(guard := None))
      else None
    case ReadToken(p) =>
      if !At(s, p).Running? then None
      else if s.file.Some? && s.file.value.metadata.Some? && s.file.value.metadata.value.token == p then
        Some(Go(s, p, Matched(At(s, p).start)))
      else Some(Go(s, p, Done))
    case Unlink(p) => if At(s, p).Matched? then Some(Go(s, p, Done).(file := None)) else None
    case UnlinkFails(p) => if At(s, p).Matched? then Some(Go(s, p, Done)) else None
    case Fail(p) =>
      var phase := At(s, p);
      if phase.Waiting? then Some(Go(s, p, Done))
      else if phase.Entered? || phase.Exists? || phase.Judged? || phase.Confirmed? || phase.Retry?
      then Some(Go(s, p, Leaving))
      else None
    case Crash(p) =>
      if At(s, p).Fresh? then None
      else Some(Go(s, p, Crashed).(guard := if s.guard == Some(p) then None else s.guard))
  }

  function Run(c: Config, s: State, actions: seq<Action>): Option<State>
    decreases |actions|
  {
    if actions == [] then Some(s) else
    match Next(c, s, actions[0])
    case None => None
    case Some(t) => Run(c, t, actions[1..])
  }

  predicate Foreign(f: LockFile) {
    f.creator < 0 && (f.metadata.Some? ==> f.metadata.value.token == f.creator)
  }

  /** No runner has started; a file left by earlier programs may be at the path. */
  predicate Initial(s: State) {
    && s.phases == map[] && s.guard == None && s.recovered == [] && s.entries == []
    && (s.file.Some? ==> Foreign(s.file.value))
  }

  /** The lock at the path is being released: its owner has read its own token and not yet unlinked. */
  predicate MidRelease(s: State) {
    s.file.Some? && s.file.value.creator >= 0 && At(s, s.file.value.creator).Matched?
  }

  /** No stale lock is removed while its owner is between reading its token and unlinking. */
  predicate Clean(c: Config, s: State, actions: seq<Action>)
    decreases |actions|
  {
    actions == [] ||
    (!(actions[0].Remove? && MidRelease(s))
     && var t := Next(c, s, actions[0]); t.Some? ==> Clean(c, t.value, actions[1..]))
  }

  // ----- the invariant -----

  predicate Owns(s: State, p: Runner, start: int) {
    s.file == Some(LockFile(p, Some(Metadata(p, Some(start)))))
  }

  /** The runner's lock was unlinked by a recovery, having aged past `staleAfter` when judged. */
  predicate Displaced(c: Config, s: State, p: Runner, start: int) {
    c.staleAfter.Some? &&
    exists r :: r in s.recovered && r.victim == LockFile(p, Some(Metadata(p, Some(start)))) && r.at - start > c.staleAfter.value
  }

  /** The guard has one holder, and what it confirmed about the file stays so until it acts. */
  ghost predicate GuardOk(s: State, p: Runner) {
    var phase := At(s, p);
    && (Guarded(phase) <==> s.guard == Some(p))
    && (phase.Confirmed? && s.file.Some? ==> s.file.value.metadata == Some(phase.seen))
  }

  /** What one runner's phase says about the file. */
  ghost predicate RunnerOk(c: Config, s: State, p: Runner) {
    var phase := At(s, p);
    && GuardOk(s, p)
    && (phase.Writing? || phase.Failing? ==> s.file == Some(LockFile(p, None)))
    && (phase.Written? || phase.Running? ==> Owns(s, p, phase.start) || Displaced(c, s, p, phase.start))
    && (phase.Matched? ==> Owns(s, p, phase.start))
    && (phase.Judged? || phase.Confirmed? ==> Stale(c, phase.seen, phase.at))
  }

  /** A complete file carries its creator's token, and a creator still holding is the latest to enter. */
  ghost predicate FileOk(s: State) {
    s.file.Some? ==>
      var f := s.file.value;
      && (f.metadata.Some? ==> f.metadata.value.token == f.creator)
      && (f.creator >= 0 && Holds(At(s, f.creator)) ==>
            s.entries != [] && s.entries[|s.entries| - 1] == f.creator && Owns(s, f.creator, At(s, f.creator).start))
  }

  /** Recovered locks belong to runners that got past `acquire`. */
  ghost predicate VictimsEntered(s: State) {
    && (forall i :: 0 <= i < |s.recovered| ==> PastAcquire(s, s.recovered[i].victim))
    && (s.file.Some? && s.file.value.metadata.Some? ==> PastAcquire(s, s.file.value))
  }

  predicate PastAcquire(s: State, f: LockFile) {
    f.creator < 0 || Holds(At(s, f.creator)) || At(s, f.creator).Done? || At(s, f.creator).Crashed?
  }

  /** What every step keeps. */
  ghost predicate Guarding(s: State) {
    VictimsEntered(s) && forall p: Runner :: GuardOk(s, p)
  }

  /** What every step keeps but the removal of a lock in the middle of its release. */
  ghost predicate Inv(c: Config, s: State) {
    FileOk(s) && VictimsEntered(s) && forall p: Runner :: RunnerOk(c, s, p)
  }

  lemma InvGuards(c: Config, s: State)
    requires Inv(c, s)
    ensures Guarding(s)
  {
    forall p: Runner ensures GuardOk(s, p) {
      assert RunnerOk(c, s, p);
    }
  }

  lemma InitialInv(c: Config, s: State)
    requires Initial(s)
    ensures Inv(c, s)
  {
    forall p: Runner ensures RunnerOk(c, s, p) {
    }
  }

  /** The steps of `acquire` up to the exclusive creation of the file. */
  predicate Acquires(a: Action) {
    a.Begin? || a.TakeGuard? || a.Create? || a.ReadExisting? || a.ReadAgain? || a.Remove? || a.Fail?
  }

  lemma AcquireKeepsOthers(c: Config, s: State, a: Action, p: Runner)
    requires Inv(c, s) && Next(c, s, a).Some? && !(a.Remove? && MidRelease(s)) && Acquires(a) && p != a.p
    ensures RunnerOk(c, Next(c, s, a).value, p)
  {
    hide FileOk, VictimsEntered;
    assert RunnerOk(c, s, p) && RunnerOk(c, s, a.p);
  }

  /** A step of another runner: what this one has seen or owns is still so, or was recovered as stale. */
  lemma NextKeepsOthers(c: Config, s: State, a: Action, p: Runner)
    requires Inv(c, s) && Next(c, s, a).Some? && !(a.Remove? && MidRelease(s)) && (a.Tick? || p != a.p)
    ensures RunnerOk(c, Next(c, s, a).value, p)
  {
    if Acquires(a) {
      AcquireKeepsOthers(c, s, a, p);
    } else {
      hide FileOk, VictimsEntered, Stale, Recoverable;
      assert RunnerOk(c, s, p) && (!a.Tick? ==> RunnerOk(c, s, a.p));
    }
  }

  lemma AcquireKeepsActor(c: Config, s: State, a: Action)
    requires Inv(c, s) && Next(c, s, a).Some? && Acquires(a)
    ensures RunnerOk(c, Next(c, s, a).value, a.p)
  {
    hide Displaced, VictimsEntered, FileOk;
    assert RunnerOk(c, s, a.p);
  }

  lemma NextKeepsActor(c: Config, s: State, a: Action)
    requires Inv(c, s) && Next(c, s, a).Some? && !a.Tick?
    ensures RunnerOk(c, Next(c, s, a).value, a.p)
  {
    if Acquires(a) {
      AcquireKeepsActor(c, s, a);
    } else {
      hide Displaced, VictimsEntered, Stale, Recoverable;
      assert RunnerOk(c, s, a.p);
      if At(Next(c, s, a).value, a.p).Running? {
        DisplacedStays(c, s, Next(c, s, a).value, a.p, At(s, a.p).start);
      }
    }
  }

  lemma DisplacedStays(c: Config, s: State, t: State, p: Runner, start: int)
    requires t.recovered == s.recovered && At(s, p).Written?
    ensures Displaced(c, s, p, start) ==> Displaced(c, t, p, start)
  {
  }

  lemma NextKeepsFile(c: Config, s: State, a: Action)
    requires Inv(c, s) && Next(c, s, a).Some?
    ensures FileOk(Next(c, s, a).value)
  {
    hide VictimsEntered, Displaced;
    assert !a.Tick? ==> RunnerOk(c, s, a.p);
  }

  lemma PastAcquireStays(c: Config, s: State, a: Action, f: LockFile)
    requires Next(c, s, a).Some? && PastAcquire(s, f)
    ensures PastAcquire(Next(c, s, a).value, f)
  {
  }

  /** A step adds no recovery but that of the complete file it removes, and completes only its own file. */
  lemma NextVictims(c: Config, s: State, a: Action)
    requires Guarding(s) && Next(c, s, a).Some?
    ensures var t := Next(c, s, a).value;
            && (t.recovered == s.recovered
                || (s.file.Some? && s.file.value.metadata.Some? && t.recovered == s.recovered + [Recovery(s.file.value, At(s, a.p).at)]))
            && (t.file.Some? && t.file.value.metadata.Some? ==> t.file == s.file || PastAcquire(t, t.file.value))
  {
    hide VictimsEntered;
    assert !a.Tick? ==> GuardOk(s, a.p);
  }

  lemma NextKeepsVictims(c: Config, s: State, a: Action)
    requires Guarding(s) && Next(c, s, a).Some?
    ensures VictimsEntered(Next(c, s, a).value)
  {
    NextVictims(c, s, a);
    hide Next, GuardOk;
    var t := Next(c, s, a).value;
    if s.file.Some? && PastAcquire(s, s.file.value) {
      PastAcquireStays(c, s, a, s.file.value);
    }
    forall i | 0 <= i < |t.recovered| ensures PastAcquire(t, t.recovered[i].victim) {
      if i < |s.recovered| {
        PastAcquireStays(c, s, a, s.recovered[i].victim);
      }
    }
  }

  /** Every step keeps the guard, removals in the middle of a release included. */
  lemma NextKeepsGuarding(c: Config, s: State, a: Action)
    requires Guarding(s) && Next(c, s, a).Some?
    ensures Guarding(Next(c, s, a).value)
  {
    NextKeepsVictims(c, s, a);
    hide VictimsEntered;
    forall p: Runner ensures GuardOk(Next(c, s, a).value, p) {
      assert GuardOk(s, p) && (!a.Tick? ==> GuardOk(s, a.p));
    }
  }

  lemma {:induction false} RunKeepsGuarding(c: Config, s: State, actions: seq<Action>)
    requires Guarding(s) && Run(c, s, actions).Some?
    ensures Guarding(Run(c, s, actions).value)
    decreases |actions|
  {
    hide Next, Guarding;
    if actions != [] {
      NextKeepsGuarding(c, s, actions[0]);
      RunKeepsGuarding(c, Next(c, s, actions[0]).value, actions[1..]);
    }
  }

  lemma NextKeepsInv(c: Config, s: State, a: Action)
    requires Inv(c, s) && Next(c, s, a).Some? && !(a.Remove? && MidRelease(s))
    ensures Inv(c, Next(c, s, a).value)
  {
    NextKeepsFile(c, s, a);
    InvGuards(c, s);
    NextKeepsVictims(c, s, a);
    forall p: Runner ensures RunnerOk(c, Next(c, s, a).value, p) {
      if a.Tick? || p != a.p {
        NextKeepsOthers(c, s, a, p);
      } else {
        NextKeepsActor(c, s, a);
      }
    }
  }

  lemma {:induction false} RunKeepsInv(c: Config, s: State, actions: seq<Action>)
    requires Inv(c, s) && Run(c, s, actions).Some? && Clean(c, s, actions)
    ensures Inv(c, Run(c, s, actions).value)
    decreases |actions|
  {
    if actions != [] {
      NextKeepsInv(c, s, actions[0]);
      RunKeepsInv(c, Next(c, s, actions[0]).value, actions[1..]);
    }
  }

  /** Holding without ever having been displaced. */
  predicate HoldsUndisplaced(c: Config, s: State, p: Runner) {
    Holds(At(s, p)) && !Displaced(c, s, p, At(s, p).start)
  }

  lemma HolderIsLatest(c: Config, s: State, p: Runner)
    requires Inv(c, s) && HoldsUndisplaced(c, s, p)
    ensures s.entries != [] && p == s.entries[|s.entries| - 1]
  {
    assert RunnerOk(c, s, p);
  }

  /**
   Stale recovery. In every interleaving, with failures and crashes, in which no lock is removed as
   stale in the middle of its owner's release: a runner still holding when a later one has entered
   had its lock recovered after it aged past `staleAfter`, so at most one holder was never displaced;
   and an unlink in `release` only ever removes the releasing runner's own lock.
   */
  lemma RecoveryIsSafe(c: Config, s: State, actions: seq<Action>)
    requires Initial(s) && Run(c, s, actions).Some? && Clean(c, s, actions)
    ensures var t := Run(c, s, actions).value;
            && (forall p: Runner :: HoldsUndisplaced(c, t, p) ==> t.entries != [] && p == t.entries[|t.entries| - 1])
            && (forall p: Runner, q: Runner :: HoldsUndisplaced(c, t, p) && HoldsUndisplaced(c, t, q) ==> p == q)
            && (forall p: Runner :: At(t, p).Matched? ==> Owns(t, p, At(t, p).start))
  {
    InitialInv(c, s);
    RunKeepsInv(c, s, actions);
    var t := Run(c, s, actions).value;
    forall p: Runner | HoldsUndisplaced(c, t, p)
      ensures t.entries != [] && p == t.entries[|t.entries| - 1]
    {
      HolderIsLatest(c, t, p);
    }
    forall p: Runner | At(t, p).Matched? ensures Owns(t, p, At(t, p).start) {
      assert RunnerOk(c, t, p);
    }
  }

  // ----- no lock ever recovered -----

  lemma {:induction false} RecoveriesGrow(c: Config, s: State, actions: seq<Action>)
    requires Run(c, s, actions).Some?
    ensures s.recovered <= Run(c, s, actions).value.recovered
    ensures s.recovered == Run(c, s, actions).value.recovered ==> Clean(c, s, actions)
    decreases |actions|
  {
    if actions != [] {
      RecoveriesGrow(c, Next(c, s, actions[0]).value, actions[1..]);
    }
  }

  predicate NobodyRecovers(s: State) {
    s.recovered == [] && forall p :: p in s.phases ==> !s.phases[p].Judged? && !s.phases[p].Confirmed?
  }

  lemma {:induction false} DisabledMeansNone(c: Config, s: State, actions: seq<Action>)
    requires (c.staleAfter.None? || !c.removeStale) && NobodyRecovers(s) && Run(c, s, actions).Some?
    ensures NobodyRecovers(Run(c, s, actions).value)
    decreases |actions|
  {
    if actions != [] {
      DisabledMeansNone(c, Next(c, s, actions[0]).value, actions[1..]);
    }
  }

  /**
   Mutual exclusion. In every interleaving, with failures, crashes and a two-step release, in which
   no lock was recovered as stale, at most one runner is between `acquire` and the end of its
   `release`; and recovery never happens when staleness is off or the action is not to remove.
   */
  lemma MutualExclusion(c: Config, s: State, actions: seq<Action>)
    requires Initial(s) && Run(c, s, actions).Some?
    ensures var t := Run(c, s, actions).value;
            && (c.staleAfter.None? || !c.removeStale ==> t.recovered == [])
            && (t.recovered == [] ==>
                forall p: Runner, q: Runner :: Holds(At(t, p)) && Holds(At(t, q)) ==> p == q)
  {
    if c.staleAfter.None? || !c.removeStale {
      DisabledMeansNone(c, s, actions);
    }
    var t := Run(c, s, actions).value;
    if t.recovered == [] {
      RecoveriesGrow(c, s, actions);
      RecoveryIsSafe(c, s, actions);
      forall p: Runner | Holds(At(t, p)) ensures HoldsUndisplaced(c, t, p) {
      }
    }
  }

  // ----- the two-step release is the only hole -----

  lemma {:induction false} RunAppend(c: Config, s: State, a: seq<Action>, b: seq<Action>)
    requires Run(c, s, a).Some?
    ensures Run(c, s, a + b) == Run(c, Run(c, s, a).value, b)
    decreases |a|
  {
    if a == [] {
      assert a + b == b;
    } else {
      assert (a + b)[0] == a[0] && (a + b)[1..] == a[1..] + b;
      RunAppend(c, Next(c, s, a[0]).value, a[1..], b);
    }
  }

  /** Action i leads from state i to state i + 1. */
  ghost predicate Steps(c: Config, states: seq<State>, actions: seq<Action>) {
    && |states| == |actions| + 1
    && forall i :: 0 <= i < |actions| ==> Next(c, states[i], actions[i]) == Some(states[i + 1])
  }

  lemma {:induction false} StepsRun(c: Config, states: seq<State>, actions: seq<Action>)
    requires Steps(c, states, actions)
    ensures Run(c, states[0], actions) == Some(states[|actions|])
    ensures (forall i :: 0 <= i < |actions| ==> !actions[i].Remove?) ==> Clean(c, states[0], actions)
    decreases |actions|
  {
    hide Next;
    if actions != [] {
      assert Next(c, states[0], actions[0]) == Some(states[0 + 1]);
      StepsRun(c, states[1..], actions[1..]);
    }
  }

  /** The recoverer finishes its acquire; the displaced owner's pending unlink then takes the new lock away. */
  function Hijack(p: Runner, q: Runner): seq<Action> {
    [Remove(q), Create(q), Write(q), DropGuard(q), Unlink(p)]
  }

  /** A third runner acquires the lock that is no longer there. */
  function Enter(r: Runner): seq<Action> {
    [Begin(r), TakeGuard(r), Create(r), Write(r)]
  }

  lemma HijackRuns(c: Config, s: State, p: Runner, q: Runner)
    requires s.guard == Some(q) && At(s, q).Confirmed? && s.file.Some? && s.file.value.creator == p && At(s, p).Matched?
    ensures var t := Run(c, s, Hijack(p, q));
            && t.Some? && t.value.file == None && t.value.guard == None
            && At(t.value, q) == Running(At(s, q).start)
            && (forall r: Runner :: r != p && r != q ==> At(t.value, r) == At(s, r))
            && t.value.recovered == s.recovered + [Recovery(s.file.value, At(s, q).at)]
  {
    hide Run, Clean;
    var acts := Hijack(p, q);
    var s1 := Next(c, s, acts[0]).value;
    var s2 := Next(c, s1, acts[1]).value;
    var s3 := Next(c, s2, acts[2]).value;
    var s4 := Next(c, s3, acts[3]).value;
    var s5 := Next(c, s4, acts[4]).value;
    StepsRun(c, [s, s1, s2, s3, s4, s5], acts);
  }

  lemma EnterRuns(c: Config, s: State, r: Runner)
    requires At(s, r).Fresh? && s.file == None && s.guard == None
    ensures var t := Run(c, s, Enter(r));
            && t.Some? && Holds(At(t.value, r)) && t.value.recovered == s.recovered
            && Owns(t.value, r, s.now) && t.value.entries == s.entries + [r]
            && (forall p: Runner :: p != r ==> At(t.value, p) == At(s, p))
  {
    hide Run, Clean;
    var acts := Enter(r);
    var s1 := Next(c, s, acts[0]).value;
    var s2 := Next(c, s1, acts[1]).value;
    var s3 := Next(c, s2, acts[2]).value;
    var s4 := Next(c, s3, acts[3]).value;
    StepsRun(c, [s, s1, s2, s3, s4], acts);
  }

  /**
   The exclusion of `RecoveryIsSafe` is exact: from any reachable state in which a recoverer is about to remove
   a lock whose owner is between reading its token and unlinking, there is a continuation after
   which two runners hold the lock and neither was ever displaced.
   */
  lemma UncleanRemovalBreaksExclusion(c: Config, s0: State, past: seq<Action>, s: State,
                                      p: Runner, q: Runner, r: Runner)
    requires Initial(s0) && Run(c, s0, past) == Some(s)
    requires At(s, q).Confirmed? && s.file.Some? && s.file.value.creator == p && At(s, p).Matched? && At(s, r).Fresh?
    ensures var t := Run(c, s, Hijack(p, q) + Enter(r));
            t.Some? && q != r && HoldsUndisplaced(c, t.value, q) && HoldsUndisplaced(c, t.value, r)
  {
    InitialInv(c, s0);
    InvGuards(c, s0);
    RunKeepsGuarding(c, s0, past);
    assert GuardOk(s, q);
    HijackRuns(c, s, p, q);
    var m := Run(c, s, Hijack(p, q)).value;
    EnterRuns(c, m, r);
    RunAppend(c, s, Hijack(p, q), Enter(r));
    var t := Run(c, m, Enter(r)).value;
    forall i | 0 <= i < |t.recovered|
      ensures t.recovered[i].victim.creator != q && t.recovered[i].victim.creator != r
    {
      if i < |s.recovered| {
        assert PastAcquire(s, s.recovered[i].victim);
      }
    }
  }

  /** The first runner acquires, and its lock ages to `k`. */
  function Acquire(k: int): seq<Action> {
    [Begin(0), TakeGuard(0), Create(0), Write(0), DropGuard(0), Tick(k)]
  }

  /** A second runner finds that lock. */
  const APPROACH: seq<Action> := [Begin(1), TakeGuard(1), Create(1)]

  /** It judges the lock stale, and the first runner then starts its release. */
  const JUDGE: seq<Action> := [ReadExisting(1), ReadAgain(1), ReadToken(0)]

  const EMPTY := State(0, None, None, map[], [], [])

  /** The first runner runs, its lock has age `k`, and nobody else has begun. */
  ghost predicate Aged(s: State, k: int) {
    && s.now == k && s.guard == None && s.file == Some(LockFile(0, Some(Metadata(0, Some(0)))))
    && At(s, 0) == Running(0) && forall p: Runner :: p != 0 ==> At(s, p).Fresh?
  }

  ghost predicate Approached(s: State, k: int) {
    && s.now == k && s.file == Some(LockFile(0, Some(Metadata(0, Some(0)))))
    && At(s, 0) == Running(0) && At(s, 1) == Exists(k) && At(s, 2).Fresh?
  }

  /** Its lock was judged stale and is about to be removed while it is being released. */
  ghost predicate Racing(s: State) {
    s.file.Some? && s.file.value.creator == 0 && At(s, 0).Matched? && At(s, 1).Confirmed? && At(s, 2).Fresh?
  }

  lemma AcquireRuns(c: Config, k: int) returns (t: State)
    ensures Run(c, EMPTY, Acquire(k)) == Some(t) && Clean(c, EMPTY, Acquire(k)) && Aged(t, k)
  {
    hide Run, Clean;
    var acts := Acquire(k);
    var s1 := Next(c, EMPTY, acts[0]).value;
    var s2 := Next(c, s1, acts[1]).value;
    var s3 := Next(c, s2, acts[2]).value;
    var s4 := Next(c, s3, acts[3]).value;
    var s5 := Next(c, s4, acts[4]).value;
    t := Next(c, s5, acts[5]).value;
    StepsRun(c, [EMPTY, s1, s2, s3, s4, s5, t], acts);
  }

  lemma ApproachRuns(c: Config, k: int, s: State) returns (t: State)
    requires Aged(s, k)
    ensures Run(c, s, APPROACH) == Some(t) && Clean(c, s, APPROACH) && Approached(t, k)
  {
    hide Run, Clean;
    assert At(s, 1).Fresh? && At(s, 2).Fresh?;
    var s1 := Next(c, s, APPROACH[0]).value;
    var s2 := Next(c, s1, APPROACH[1]).value;
    t := Next(c, s2, APPROACH[2]).value;
    StepsRun(c, [s, s1, s2, t], APPROACH);
  }

  lemma JudgeRuns(c: Config, k: int, s: State) returns (t: State)
    requires c.removeStale && c.staleAfter.Some? && k > c.staleAfter.value && Approached(s, k)
    ensures Run(c, s, JUDGE) == Some(t) && Clean(c, s, JUDGE) && Racing(t)
  {
    hide Run, Clean;
    var s1 := Next(c, s, JUDGE[0]).value;
    var s2 := Next(c, s1, JUDGE[1]).value;
    t := Next(c, s2, JUDGE[2]).value;
    StepsRun(c, [s, s1, s2, t], JUDGE);
  }

  lemma {:induction false} CleanAppend(c: Config, s: State, a: seq<Action>, b: seq<Action>)
    requires Run(c, s, a).Some? && Clean(c, s, a) && Clean(c, Run(c, s, a).value, b)
    ensures Clean(c, s, a + b)
    decreases |a|
  {
    if a == [] {
      assert a + b == b;
    } else {
      assert (a + b)[0] == a[0] && (a + b)[1..] == a[1..] + b;
      CleanAppend(c, Next(c, s, a[0]).value, a[1..], b);
    }
  }

  /** The whole run, for a lock that is removed as stale at age `k`, up to the race. */
  function ToRace(k: int): seq<Action> {
    Acquire(k) + (APPROACH + JUDGE)
  }

  lemma RaceRuns(c: Config, k: int) returns (t: State)
    requires c.removeStale && c.staleAfter.Some? && k > c.staleAfter.value
    ensures Run(c, EMPTY, ToRace(k)) == Some(t) && Clean(c, EMPTY, ToRace(k)) && Racing(t)
  {
    hide Next, Run, Clean;
    var aged := AcquireRuns(c, k);
    var near := ApproachRuns(c, k, aged);
    t := JudgeRuns(c, k, near);
    RunAppend(c, aged, APPROACH, JUDGE);
    CleanAppend(c, aged, APPROACH, JUDGE);
    RunAppend(c, EMPTY, Acquire(k), APPROACH + JUDGE);
    CleanAppend(c, EMPTY, Acquire(k), APPROACH + JUDGE);
  }

  /** Whenever stale locks are removed such a state is reachable, so two undisplaced holders do occur. */
  lemma ExclusionCanFail(c: Config, k: int)
    requires c.removeStale && c.staleAfter.Some? && k > c.staleAfter.value
    ensures Initial(EMPTY) && Clean(c, EMPTY, ToRace(k))
    ensures var t := Run(c, EMPTY, ToRace(k) + (Hijack(0, 1) + Enter(2)));
            t.Some? && HoldsUndisplaced(c, t.value, 1) && HoldsUndisplaced(c, t.value, 2)
  {
    hide Next, Run, Clean, HoldsUndisplaced;
    var racing := RaceRuns(c, k);
    UncleanRemovalBreaksExclusion(c, EMPTY, ToRace(k), racing, 0, 1, 2);
    RunAppend(c, EMPTY, ToRace(k), Hijack(0, 1) + Enter(2));
  }

  /** At most one runner holds the lock without ever having been displaced. */
  ghost predicate OneHolder(c: Config, s: State) {
    forall p: Runner, q: Runner :: HoldsUndisplaced(c, s, p) && HoldsUndisplaced(c, s, q) ==> p == q
  }

  /** No run whatever leads to two undisplaced holders. */
  ghost predicate AlwaysExcludes(c: Config) {
    forall s, actions :: Initial(s) && Run(c, s, actions).Some? ==> OneHolder(c, Run(c, s, actions).value)
  }

  /**
   What the configuration guarantees: no interleaving has two undisplaced holders if and only if stale
   locks are never removed, because staleness is off or the action is not to remove.
   */
  lemma ExclusionIffNoRemoval(c: Config)
    ensures AlwaysExcludes(c) <==> c.staleAfter.None? || !c.removeStale
  {
    hide Run, Initial, HoldsUndisplaced;
    if c.staleAfter.None? || !c.removeStale {
      forall s, actions | Initial(s) && Run(c, s, actions).Some? ensures OneHolder(c, Run(c, s, actions).value) {
        NoRemovalExcludes(c, s, actions);
      }
    } else {
      var k := c.staleAfter.value + 1;
      ExclusionCanFail(c, k);
      assert !OneHolder(c, Run(c, EMPTY, ToRace(k) + (Hijack(0, 1) + Enter(2))).value);
    }
  }

  lemma NoRemovalExcludes(c: Config, s: State, actions: seq<Action>)
    requires (c.staleAfter.None? || !c.removeStale) && Initial(s) && Run(c, s, actions).Some?
    ensures OneHolder(c, Run(c, s, actions).value)
  {
    hide Run;
    MutualExclusion(c, s, actions);
  }

  // ----- what one runner achieves when the others stand still -----

  /** The step a guarded runner takes when nothing fails. */
  function OwnStep(phase: Phase, p: Runner): Action {
    if phase.Entered? || phase.Retry? then Create(p)
    else if phase.Exists? then ReadExisting(p)
    else if phase.Judged? then ReadAgain(p)
    else if phase.Confirmed? then Remove(p)
    else if phase.Writing? then Write(p)
    else if phase.Failing? then Discard(p)
    else DropGuard(p)
  }

  /** How many steps at most are left until the guard is given back. */
  function Remaining(phase: Phase): nat {
    match phase
    case Entered(_) => 8
    case Exists(_) => 7
    case Judged(_, _, _) => 6
    case Confirmed(_, _, _) => 5
    case Retry(_) => 4
    case Writing(_) => 3
    case Failing => 2
    case Written(_) => 1
    case Leaving => 1
    case _ => 0
  }

  lemma OwnStepRuns(c: Config, s: State, p: Runner)
    requires s.guard == Some(p) && Guarded(At(s, p))
    ensures var a := OwnStep(At(s, p), p);
            && !a.Crash? && !a.Fail? && Next(c, s, a).Some?
            && var t := Next(c, s, a).value;
               t.guard.None? || (t.guard == Some(p) && Guarded(At(t, p)) && Remaining(At(t, p)) < Remaining(At(s, p)))
  {
  }

  /** Left to itself, a guarded runner steps on, without failing or crashing, until the guard is free. */
  lemma {:induction false} OwnStepsEnd(c: Config, s: State, p: Runner) returns (actions: seq<Action>)
    requires s.guard == Some(p) && Guarded(At(s, p))
    ensures |actions| <= Remaining(At(s, p)) && Run(c, s, actions).Some? && Run(c, s, actions).value.guard.None?
    ensures forall i :: 0 <= i < |actions| ==> !actions[i].Crash? && !actions[i].Fail?
    decreases Remaining(At(s, p))
  {
    OwnStepRuns(c, s, p);
    var a := OwnStep(At(s, p), p);
    var t := Next(c, s, a).value;
    hide Next, Guarded, Remaining;
    var rest := [];
    if t.guard.Some? {
      rest := OwnStepsEnd(c, t, p);
    }
    actions := [a] + rest;
    assert actions[1..] == rest;
  }

  /**
   The guard is never lost: in every reachable state whoever holds it is a runner still in its guarded
   section, and that runner alone, without failing or crashing, gives it back within eight steps.
   */
  lemma GuardIsGivenBack(c: Config, s0: State, past: seq<Action>, s: State) returns (actions: seq<Action>)
    requires Initial(s0) && Run(c, s0, past) == Some(s)
    ensures s.guard.Some? ==> Guarded(At(s, s.guard.value))
    ensures |actions| <= 8 && (forall i :: 0 <= i < |actions| ==> !actions[i].Crash? && !actions[i].Fail?)
    ensures Run(c, s, actions).Some? && Run(c, s, actions).value.guard.None?
  {
    InitialInv(c, s0);
    InvGuards(c, s0);
    RunKeepsGuarding(c, s0, past);
    actions := [];
    if s.guard.Some? {
      assert GuardOk(s, s.guard.value);
      actions := OwnStepsEnd(c, s, s.guard.value);
    }
  }

  lemma NobodyGuards(c: Config, s0: State, past: seq<Action>, s: State)
    requires Initial(s0) && Run(c, s0, past) == Some(s) && forall p: Runner :: !Guarded(At(s, p))
    ensures s.guard.None?
  {
    var actions := GuardIsGivenBack(c, s0, past, s);
  }

  /** From any reachable state without a lock file and with nobody in the guarded section, a new runner acquires. */
  lemma FreeLockIsAcquired(c: Config, s0: State, past: seq<Action>, s: State, r: Runner)
    requires Initial(s0) && Run(c, s0, past) == Some(s)
    requires s.file.None? && (forall p: Runner :: !Guarded(At(s, p))) && At(s, r).Fresh?
    ensures var t := Run(c, s, Enter(r));
            t.Some? && Holds(At(t.value, r)) && Owns(t.value, r, s.now) && t.value.entries == s.entries + [r]
  {
    NobodyGuards(c, s0, past, s);
    EnterRuns(c, s, r);
  }

  /** A new runner meets the lock file. */
  function Meet(r: Runner): seq<Action> {
    [Begin(r), TakeGuard(r), Create(r)]
  }

  lemma MeetRuns(c: Config, s: State, r: Runner) returns (t: State)
    requires s.file.Some? && s.guard.None? && At(s, r).Fresh?
    ensures Run(c, s, Meet(r)) == Some(t) && At(t, r) == Exists(s.now) && t.guard == Some(r)
    ensures t.file == s.file && t.now == s.now && t.entries == s.entries && t.recovered == s.recovered
    ensures forall p: Runner :: p != r ==> At(t, p) == At(s, p)
  {
    hide Run, Clean;
    var s1 := Next(c, s, Begin(r)).value;
    var s2 := Next(c, s1, TakeGuard(r)).value;
    t := Next(c, s2, Create(r)).value;
    StepsRun(c, [s, s1, s2, t], Meet(r));
  }

  /**
   A lock file that is incomplete, or not stale, or not to be removed, is left alone: a new runner is
   refused, and the guard is free again.
   */
  lemma ActiveLockRefuses(c: Config, s0: State, past: seq<Action>, s: State, r: Runner)
    requires Initial(s0) && Run(c, s0, past) == Some(s)
    requires s.file.Some? && (forall p: Runner :: !Guarded(At(s, p))) && At(s, r).Fresh?
    requires var m := s.file.value.metadata;
             || m.None? || c.staleAfter.None? || !c.removeStale
             || (m.value.start.Some? && s.now - m.value.start.value <= c.staleAfter.value)
    ensures var t := Run(c, s, Meet(r) + [ReadExisting(r), DropGuard(r)]);
            && t.Some? && At(t.value, r).Done? && t.value.guard.None?
            && t.value.file == s.file && t.value.entries == s.entries && t.value.recovered == s.recovered
  {
    NobodyGuards(c, s0, past, s);
    var met := MeetRuns(c, s, r);
    var left := Next(c, met, ReadExisting(r)).value;
    var t := Next(c, left, DropGuard(r)).value;
    RunAppend(c, s, Meet(r), [ReadExisting(r), DropGuard(r)]);
    hide Run, Clean;
    StepsRun(c, [met, left, t], [ReadExisting(r), DropGuard(r)]);
  }

  function Recover(r: Runner): seq<Action> {
    [ReadExisting(r), ReadAgain(r), Remove(r), Create(r), Write(r)]
  }

  /** A complete lock file that is stale and to be removed is recovered: a new runner acquires. */
  lemma StaleLockIsRecovered(c: Config, s0: State, past: seq<Action>, s: State, r: Runner)
    requires Initial(s0) && Run(c, s0, past) == Some(s)
    requires s.file.Some? && s.file.value.metadata.Some? && (forall p: Runner :: !Guarded(At(s, p))) && At(s, r).Fresh?
    requires c.removeStale && c.staleAfter.Some?
    requires var start := s.file.value.metadata.value.start; start.None? || s.now - start.value > c.staleAfter.value
    ensures var t := Run(c, s, Meet(r) + Recover(r));
            && t.Some? && Holds(At(t.value, r)) && Owns(t.value, r, s.now) && t.value.entries == s.entries + [r]
            && t.value.recovered == s.recovered + [Recovery(s.file.value, s.now)]
  {
    NobodyGuards(c, s0, past, s);
    var met := MeetRuns(c, s, r);
    RunAppend(c, s, Meet(r), Recover(r));
    RecoverRuns(c, met, r);
  }

  lemma RecoverRuns(c: Config, s: State, r: Runner)
    requires At(s, r).Exists? && s.guard == Some(r) && s.file.Some? && s.file.value.metadata.Some?
    requires c.removeStale && c.staleAfter.Some?
    requires var start := s.file.value.metadata.value.start; start.None? || s.now - start.value > c.staleAfter.value
    ensures var t := Run(c, s, Recover(r));
            && t.Some? && Holds(At(t.value, r)) && Owns(t.value, r, At(s, r).start) && t.value.entries == s.entries + [r]
            && t.value.recovered == s.recovered + [Recovery(s.file.value, s.now)]
  {
    hide Run, Clean;
    var acts := Recover(r);
    var s1 := Next(c, s, acts[0]).value;
    var s2 := Next(c, s1, acts[1]).value;
    var s3 := Next(c, s2, acts[2]).value;
    var s4 := Next(c, s3, acts[3]).value;
    var s5 := Next(c, s4, acts[4]).value;
    StepsRun(c, [s, s1, s2, s3, s4, s5], acts);
  }

  /** A running owner's release removes its lock, and any other runner's release leaves the file as it is. */
  lemma ReleaseRemovesOwn(c: Config, s: State, p: Runner)
    requires At(s, p).Running?
    ensures Owns(s, p, At(s, p).start) ==>
              var t := Run(c, s, [ReadToken(p), Unlink(p)]);
              t.Some? && At(t.value, p).Done? && t.value.file.None? && t.value.guard == s.guard
    ensures Owns(s, p, At(s, p).start) ==>
              var t := Run(c, s, [ReadToken(p), UnlinkFails(p)]);
              t.Some? && At(t.value, p).Done? && t.value.file == s.file && t.value.guard == s.guard
    ensures s.file.None? || s.file.value.metadata.None? || s.file.value.metadata.value.token != p ==>
              var t := Run(c, s, [ReadToken(p)]);
              t.Some? && At(t.value, p).Done? && t.value.file == s.file && t.value.guard == s.guard
  {
    var s1 := Next(c, s, ReadToken(p)).value;
    if Owns(s, p, At(s, p).start) {
      var s2 := Next(c, s1, Unlink(p)).value;
      var s3 := Next(c, s1, UnlinkFails(p)).value;
      hide Run, Clean;
      StepsRun(c, [s, s1, s2], [ReadToken(p), Unlink(p)]);
      StepsRun(c, [s, s1, s3], [ReadToken(p), UnlinkFails(p)]);
    } else {
      hide Run, Clean;
      StepsRun(c, [s, s1], [ReadToken(p)]);
    }
  }

  /**
   A runner may die at any moment once it has begun, which frees the guard if it had it and leaves the
   file; and time may take any value.
   */
  lemma CrashesAreCovered(c: Config, s: State, p: Runner, now: int)
    ensures Next(c, s, Tick(now)) == Some(s.(now := now))
    ensures At(s, p).Fresh? <==> Next(c, s, Crash(p)).None?
    ensures Next(c, s, Crash(p)).Some? ==>
              var t := Next(c, s, Crash(p)).value;
              At(t, p).Crashed? && t.file == s.file && (t.guard.None? <==> s.guard.None? || s.guard == Some(p))
  {
  }

  /** A failure before the file is created gives up: a waiting runner at once, a guarded one through the guard. */
  lemma FailuresAreCovered(c: Config, s: State, p: Runner)
    requires At(s, p).Waiting? || At(s, p).Entered? || At(s, p).Exists? || At(s, p).Judged? || At(s, p).Confirmed? || At(s, p).Retry?
    ensures Next(c, s, Fail(p)).Some?
    ensures var t := Next(c, s, Fail(p)).value;
            && t.file == s.file && t.guard == s.guard
            && if At(s, p).Waiting? then At(t, p).Done?
               else Next(c, t, DropGuard(p)).Some? && At(Next(c, t, DropGuard(p)).value, p).Done?
                    && Next(c, t, DropGuard(p)).value.guard.None?
  {
  }

  /** A runner that cannot write its metadata takes its file away again and gives the guard back. */
  lemma FailedWriteCleansUp(c: Config, s: State, p: Runner)
    requires At(s, p).Writing?
    ensures var t := Run(c, s, [WriteFails(p), Discard(p), DropGuard(p)]);
            t.Some? && At(t.value, p).Done? && t.value.file.None? && t.value.guard.None? && t.value.entries == s.entries
  {
    var acts := [WriteFails(p), Discard(p), DropGuard(p)];
    var s1 := Next(c, s, acts[0]).value;
    var s2 := Next(c, s1, acts[1]).value;
    var s3 := Next(c, s2, acts[2]).value;
    hide Run, Clean;
    StepsRun(c, [s, s1, s2, s3], acts);
  }

  // ----- an orphaned lock without metadata -----

  /** A file without metadata whose creator is no longer writing it. */
  predicate Orphaned(s: State) {
    && s.file.Some? && s.file.value.metadata.None?
    && (s.file.value.creator >= 0 ==> At(s, s.file.value.creator).Crashed?)
  }

  /**
   A runner that crashes before its metadata reaches the disk blocks every later runner for good,
   whatever `staleAfter` is: the file is never removed and nobody enters again.
   */
  lemma {:induction false} OrphanBlocksForever(c: Config, s: State, actions: seq<Action>)
    requires Inv(c, s) && Orphaned(s) && Run(c, s, actions).Some?
    ensures var t := Run(c, s, actions).value; t.file == s.file && t.entries == s.entries
    decreases |actions|
  {
    if actions != [] {
      var a := actions[0];
      assert !a.Tick? ==> RunnerOk(c, s, a.p);
      NextKeepsInv(c, s, a);
      OrphanBlocksForever(c, Next(c, s, a).value, actions[1..]);
    }
  }
}
