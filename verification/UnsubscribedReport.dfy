/**
 The standalone unsubscribed report of the Constant Contact sync (src/parishkit/pk_sync_ps_to_cc.py):
 any number of runs sharing one state file under its lock, with failures and crashes.
 */
module UnsubscribedReport {
  import opened Results

  type Process = nat

  /** The state file: which mapping keys were sent for each date, and the last completed date. */
  datatype Disk = Disk(sent: map<int, set<string>>, last: Option<int>)

  /** What one run has to report: its date, and each mapping's key with whether it has contacts to report. */
  datatype Job = Job(date: int, keys: seq<string>, pending: seq<bool>)

  datatype Phase =
    | Fresh
    | Due                                // decided that the report is due; lock not yet held
    | Working(k: nat, view: Disk)        // lock held; about to treat mapping k
    | Unmarked(k: nat, view: Disk)       // mapping k's mail was sent and is not yet recorded
    | Done
    | Crashed

  /** `mails` is every report sent; `required` what the run that last set the date had to report. */
  datatype State = State(disk: Disk, lock: Option<Process>, phases: map<Process, Phase>,
                         mails: seq<(int, string)>, required: set<string>)

  datatype Action =
    | Decide(p: Process)
    | Skip(p: Process)       // outside the schedule's day or window
    | Enter(p: Process)
    | Treat(p: Process)      // skip mapping k, or send its mail
    | SendFails(p: Process)
    | Mark(p: Process)
    | Finish(p: Process)
    | Crash(p: Process)

  type Jobs = Process -> Job

  predicate ValidJobs(jobs: Jobs, p: Process) {
    |jobs(p).keys| == |jobs(p).pending|
  }

  function At(s: State, p: Process): Phase {
    if p in s.phases then s.phases[p] else Fresh
  }

  function Go(s: State, p: Process, phase: Phase): State {
    s.(phases := s.phases[p := phase])
  }

  /** `unsubscribed_report_mapping_sent` */
  predicate Recorded(d: Disk, date: int, key: string) {
    date in d.sent && key in d.sent[date]
  }

  /** `mark_unsubscribed_report_mapping_sent` */
  function Record(d: Disk, date: int, key: string): Disk {
    var keys := if date in d.sent then d.sent[date] else {};
    d.(sent := d.sent[date := keys + {key}])
  }

  predicate NeedsMail(job: Job, k: nat, view: Disk)
    requires k < |job.keys| == |job.pending|
  {
    job.pending[k] && !Recorded(view, job.date, job.keys[k])
  }

  /** The mappings a run has to report. */
  function Pending(job: Job): set<string>
    requires |job.keys| == |job.pending|
  {
    set k | 0 <= k < |job.keys| && job.pending[k] :: job.keys[k]
  }

  function Next(jobs: Jobs, s: State, a: Action): Option<State> {
    var p := a.p;
    var job := jobs(p);
    var phase := At(s, p);
    if |job.keys| != |job.pending| then None else
    match a
    case Decide(_) =>
      if !phase.Fresh? then None
      // A run with nothing to report returns before it takes the lock.
      else Some(Go(s, p, if s.disk.last == Some(job.date) || Pending(job) == {} then Done else Due))
    case Skip(_) => if phase.Fresh? then Some(Go(s, p, Done)) else None
    case Enter(_) =>
      if phase.Due? && s.lock.None? then Some(Go(s, p, Working(0, s.disk)).(lock := Some(p))) else None
    case Treat(_) =>
      if !phase.Working? || phase.k >= |job.keys| then None
      else if NeedsMail(job, phase.k, phase.view) then
        Some(Go(s, p, Unmarked(phase.k, phase.view)).(mails := s.mails + [(job.date, job.keys[phase.k])]))
      else Some(Go(s, p, Working(phase.k + 1, phase.view)))
    case SendFails(_) =>
      if phase.Working? && phase.k < |job.keys| then Some(Go(s, p, Done).(lock := None)) else None
    case Mark(_) =>
      if !phase.Unmarked? || phase.k >= |job.keys| then None else
      var view := Record(phase.view, job.date, job.keys[phase.k]);
      Some(Go(s, p, Working(phase.k + 1, view)).(disk := view))
    case Finish(_) =>
      if !phase.Working? || phase.k < |job.keys| then None
      else if forall key :: key in Pending(job) ==> Recorded(phase.view, job.date, key) then
        Some(Go(s, p, Done).(lock := None, disk := phase.view.(last := Some(job.date)), required := Pending(job)))
      else Some(Go(s, p, Done).(lock := None))
    case Crash(_) =>
      if phase.Fresh? then None
      else Some(Go(s, p, Crashed).(lock := if s.lock == Some(p) then None else s.lock))
  }

  function Run(jobs: Jobs, s: State, actions: seq<Action>): Option<State>
    decreases |actions|
  {
    if actions == [] then Some(s) else
    match Next(jobs, s, actions[0])
    case None => None
    case Some(t) => Run(jobs, t, actions[1..])
  }

  /** No run dies between sending a mail and recording it. */
  predicate Clean(jobs: Jobs, s: State, actions: seq<Action>)
    decreases |actions|
  {
    actions == [] ||
    (!(actions[0].Crash? && At(s, actions[0].p).Unmarked?)
     && var t := Next(jobs, s, actions[0]); t.Some? ==> Clean(jobs, t.value, actions[1..]))
  }

  /** Any state file from earlier days, nothing running, nothing sent yet by these runs. */
  predicate Initial(s: State) {
    s.lock == None && s.phases == map[] && s.mails == [] && s.required == {}
  }

  // ----- the invariant -----

  ghost predicate ProcessOk(jobs: Jobs, s: State, p: Process) {
    var phase := At(s, p);
    && (!phase.Fresh? ==> ValidJobs(jobs, p))
    && (phase.Due? || phase.Working? || phase.Unmarked? ==> Pending(jobs(p)) != {})
    && (phase.Working? || phase.Unmarked? <==> s.lock == Some(p))
    && (phase.Working? || phase.Unmarked? ==> phase.view == s.disk && Treated(jobs(p), s.disk, phase.k))
    && (phase.Unmarked? ==> JustSent(jobs(p), s, phase.k))
  }

  /** What the first `k` mappings had to report is recorded. */
  ghost predicate Treated(job: Job, d: Disk, k: nat) {
    k <= |job.keys| == |job.pending| && forall j :: 0 <= j < k && job.pending[j] ==> Recorded(d, job.date, job.keys[j])
  }

  /** Mapping k's mail is the last one sent, and is not recorded. */
  ghost predicate JustSent(job: Job, s: State, k: nat) {
    && k < |job.keys| && s.mails != []
    && s.mails[|s.mails| - 1] == (job.date, job.keys[k])
    && !Recorded(s.disk, job.date, job.keys[k])
  }

  /** Mail i is recorded on disk, unless it is the last one and its sender is about to record it. */
  ghost predicate MailOk(s: State, i: nat)
    requires i < |s.mails|
  {
    Recorded(s.disk, s.mails[i].0, s.mails[i].1)
    || (i == |s.mails| - 1 && s.lock.Some? && At(s, s.lock.value).Unmarked?)
  }

  /** What every step keeps, crashes included. */
  ghost predicate ProcessesOk(jobs: Jobs, s: State) {
    forall p: Process :: ProcessOk(jobs, s, p)
  }

  /** What every step keeps but a crash between sending a mail and recording it. */
  ghost predicate Inv(jobs: Jobs, s: State) {
    && ProcessesOk(jobs, s)
    && (forall i: nat :: i < |s.mails| ==> MailOk(s, i))
    && (forall i, j :: 0 <= i < j < |s.mails| ==> s.mails[i] != s.mails[j])
  }

  /** The last completed date covers everything the completing run had to report. */
  ghost predicate LastOk(s: State) {
    s.disk.last.Some? ==> forall key :: key in s.required ==> Recorded(s.disk, s.disk.last.value, key)
  }

  lemma NextKeepsProcess(jobs: Jobs, s: State, a: Action, p: Process)
    requires ProcessesOk(jobs, s) && Next(jobs, s, a).Some?
    ensures ProcessOk(jobs, Next(jobs, s, a).value, p)
  {
    assert ProcessOk(jobs, s, p) && ProcessOk(jobs, s, a.p);
  }

  lemma NextKeepsProcesses(jobs: Jobs, s: State, a: Action)
    requires ProcessesOk(jobs, s) && Next(jobs, s, a).Some?
    ensures ProcessesOk(jobs, Next(jobs, s, a).value)
  {
    hide Next, ProcessOk;
    forall p: Process ensures ProcessOk(jobs, Next(jobs, s, a).value, p) {
      NextKeepsProcess(jobs, s, a, p);
    }
  }

  lemma {:induction false} RunKeepsProcesses(jobs: Jobs, s: State, actions: seq<Action>)
    requires ProcessesOk(jobs, s) && Run(jobs, s, actions).Some?
    ensures ProcessesOk(jobs, Run(jobs, s, actions).value)
    decreases |actions|
  {
    hide Next, ProcessesOk;
    if actions != [] {
      NextKeepsProcesses(jobs, s, actions[0]);
      RunKeepsProcesses(jobs, Next(jobs, s, actions[0]).value, actions[1..]);
    }
  }

  lemma InitialOk(jobs: Jobs, s: State)
    requires Initial(s)
    ensures Inv(jobs, s)
  {
    forall p: Process ensures ProcessOk(jobs, s, p) {
    }
  }

  lemma NextKeepsMails(jobs: Jobs, s: State, a: Action)
    requires Inv(jobs, s) && Next(jobs, s, a).Some? && !(a.Crash? && At(s, a.p).Unmarked?)
    ensures var t := Next(jobs, s, a).value;
            && (forall i: nat :: i < |t.mails| ==> MailOk(t, i))
            && (forall i, j :: 0 <= i < j < |t.mails| ==> t.mails[i] != t.mails[j])
  {
    var t := Next(jobs, s, a).value;
    assert ProcessOk(jobs, s, a.p);
    forall i: nat | i < |t.mails| ensures MailOk(t, i) {
      assert i < |s.mails| ==> MailOk(s, i);
    }
    if a.Treat? && t.mails != s.mails {
      forall i | 0 <= i < |s.mails| ensures s.mails[i] != t.mails[|s.mails|] {
        assert MailOk(s, i);
      }
    }
  }

  lemma {:induction false} RunKeepsInv(jobs: Jobs, s: State, actions: seq<Action>)
    requires Inv(jobs, s) && Run(jobs, s, actions).Some? && Clean(jobs, s, actions)
    ensures Inv(jobs, Run(jobs, s, actions).value)
    decreases |actions|
  {
    if actions != [] {
      var a := actions[0];
      NextKeepsMails(jobs, s, a);
      NextKeepsProcesses(jobs, s, a);
      RunKeepsInv(jobs, Next(jobs, s, a).value, actions[1..]);
    }
  }

  /** The new disk records all that the old one does, and a mail sent in between was not recorded. */
  lemma NextNeverResends(jobs: Jobs, s: State, a: Action)
    requires ProcessesOk(jobs, s) && Next(jobs, s, a).Some?
    ensures var t := Next(jobs, s, a).value;
            && (forall d, x :: Recorded(s.disk, d, x) ==> Recorded(t.disk, d, x))
            && (t.mails == s.mails || exists m: (int, string) :: !Recorded(s.disk, m.0, m.1) && t.mails == s.mails + [m])
  {
    assert ProcessOk(jobs, s, a.p);
    var t := Next(jobs, s, a).value;
    if t.mails != s.mails {
      var m := (jobs(a.p).date, jobs(a.p).keys[At(s, a.p).k]);
      assert !Recorded(s.disk, m.0, m.1) && t.mails == s.mails + [m];
    }
  }

  /** Whatever crashes, a report that the state file records is not sent by any continuation. */
  lemma {:induction false} RecordedIsNeverSent(jobs: Jobs, s: State, actions: seq<Action>)
    requires ProcessesOk(jobs, s) && Run(jobs, s, actions).Some?
    ensures var t := Run(jobs, s, actions).value;
            && s.mails <= t.mails
            && forall i :: |s.mails| <= i < |t.mails| ==> !Recorded(s.disk, t.mails[i].0, t.mails[i].1)
    decreases |actions|
  {
    hide Next, Recorded, ProcessesOk;
    if actions != [] {
      NextNeverResends(jobs, s, actions[0]);
      NextKeepsProcesses(jobs, s, actions[0]);
      RecordedIsNeverSent(jobs, Next(jobs, s, actions[0]).value, actions[1..]);
    }
  }

  /**
   At most once. Over any interleaving of runs sharing the state file, with send failures and with
   crashes anywhere but between sending a mail and recording it, no report is sent twice for the same
   date and mapping; and, wherever runs crash, none that the initial state file records is sent at all.
   */
  lemma SentAtMostOnce(jobs: Jobs, s: State, actions: seq<Action>)
    requires Initial(s) && Run(jobs, s, actions).Some?
    ensures var t := Run(jobs, s, actions).value;
            && (Clean(jobs, s, actions) ==> forall i, j :: 0 <= i < j < |t.mails| ==> t.mails[i] != t.mails[j])
            && forall i :: 0 <= i < |t.mails| ==> !Recorded(s.disk, t.mails[i].0, t.mails[i].1)
  {
    hide Next, Recorded, ProcessesOk;
    InitialOk(jobs, s);
    RecordedIsNeverSent(jobs, s, actions);
    if Clean(jobs, s, actions) {
      RunKeepsInv(jobs, s, actions);
    }
  }

  // ----- the last completed date -----

  /** What a working run sees is on disk, or the disk has moved on by recording more. */
  ghost predicate LockOk(s: State) {
    && LastOk(s)
    && forall p :: p in s.phases && (s.phases[p].Working? || s.phases[p].Unmarked?) ==> s.lock == Some(p) && s.phases[p].view == s.disk
  }

  lemma {:induction false} RunKeepsLast(jobs: Jobs, s: State, actions: seq<Action>)
    requires LockOk(s) && Run(jobs, s, actions).Some?
    ensures LockOk(Run(jobs, s, actions).value)
    decreases |actions|
  {
    if actions != [] {
      RunKeepsLast(jobs, Next(jobs, s, actions[0]).value, actions[1..]);
    }
  }

  /**
   Whatever crashes, once a run has set the last sent date, every mapping that run had contacts to
   report for is recorded as sent for that date, and stays so until another run sets the date.
   */
  lemma LastDateIsComplete(jobs: Jobs, s: State, actions: seq<Action>)
    requires Initial(s) && Run(jobs, s, actions).Some?
    ensures LastOk(Run(jobs, s, actions).value)
  {
    RunKeepsLast(jobs, s, actions);
  }

  // ----- the excluded crash -----

  /** The run has this report to send. */
  ghost predicate Reports(jobs: Jobs, q: Process, mail: (int, string)) {
    ValidJobs(jobs, q) && jobs(q).date == mail.0 && mail.1 in Pending(jobs(q))
  }

  /** The run has something to report for another date: completing, it would overwrite the last date. */
  ghost predicate Reopener(jobs: Jobs, r: Process, date: int) {
    ValidJobs(jobs, r) && jobs(r).date != date && Pending(jobs(r)) != {}
  }

  /** Some such run has not begun to send. */
  ghost predicate CanReopen(jobs: Jobs, s: State, date: int) {
    exists r: Process :: Reopener(jobs, r, date) && (At(s, r).Fresh? || At(s, r).Due?)
  }

  /** The date is open to a run that has not decided yet, or another date's run can open it again. */
  ghost predicate Open(jobs: Jobs, s: State, date: int) {
    s.disk.last != Some(date) || CanReopen(jobs, s, date)
  }

  /** Some run with this report is already due, or is still to come and finds the date open. */
  ghost predicate MayResend(jobs: Jobs, s: State, mail: (int, string)) {
    exists q: Process :: Reports(jobs, q, mail) && (At(s, q).Due? || (At(s, q).Fresh? && Open(jobs, s, mail.0)))
  }

  /** This continuation sends the report. */
  ghost predicate Resends(jobs: Jobs, s: State, actions: seq<Action>, mail: (int, string)) {
    && Run(jobs, s, actions).Some?
    && var mails := Run(jobs, s, actions).value.mails; |s.mails| <= |mails| && mail in mails[|s.mails|..]
  }

  predicate Crashless(actions: seq<Action>) {
    forall i :: 0 <= i < |actions| ==> !actions[i].Crash?
  }

  // Otherwise nobody ever sends it again.

  ghost predicate Quiet(jobs: Jobs, s: State, mail: (int, string)) {
    && (forall q: Process :: Reports(jobs, q, mail) ==> At(s, q).Fresh? || At(s, q).Done? || At(s, q).Crashed?)
    && ((forall q: Process :: Reports(jobs, q, mail) ==> !At(s, q).Fresh?) || Closed(jobs, s, mail.0))
  }

  /** The date is the last one, and only its own runs can still complete. */
  ghost predicate Closed(jobs: Jobs, s: State, date: int) {
    && s.disk.last == Some(date)
    && (forall p: Process :: At(s, p).Working? || At(s, p).Unmarked? ==> At(s, p).view.last == Some(date))
    && forall r: Process :: ValidJobs(jobs, r) && jobs(r).date != date ==> Finished(jobs, s, r)
  }

  /** The run has ended, or will end without taking the lock because it has nothing to report. */
  ghost predicate Finished(jobs: Jobs, s: State, r: Process)
    requires ValidJobs(jobs, r)
  {
    At(s, r).Done? || At(s, r).Crashed? || (At(s, r).Fresh? && Pending(jobs(r)) == {})
  }

  lemma ClosedStays(jobs: Jobs, s: State, a: Action, date: int)
    requires Next(jobs, s, a).Some? && Closed(jobs, s, date)
    ensures Closed(jobs, Next(jobs, s, a).value, date)
  {
    hide Recorded, Pending;
    assert At(s, a.p).Working? || At(s, a.p).Unmarked? ==> At(s, a.p).view.last == Some(date) && jobs(a.p).date == date;
    var t := Next(jobs, s, a).value;
    forall p: Process
      ensures At(t, p).Working? || At(t, p).Unmarked? ==> At(t, p).view.last == Some(date)
      ensures ValidJobs(jobs, p) && jobs(p).date != date ==> Finished(jobs, t, p)
    {
      assert ValidJobs(jobs, p) && jobs(p).date != date ==> Finished(jobs, s, p);
      assert p != a.p ==> At(t, p) == At(s, p);
    }
  }

  lemma QuietSends(jobs: Jobs, s: State, a: Action, mail: (int, string))
    requires Next(jobs, s, a).Some? && Quiet(jobs, s, mail)
    ensures var t := Next(jobs, s, a).value; t.mails == s.mails || exists m :: m != mail && t.mails == s.mails + [m]
  {
    var t := Next(jobs, s, a).value;
    if t.mails != s.mails {
      var k := At(s, a.p).k;
      var m := (jobs(a.p).date, jobs(a.p).keys[k]);
      assert jobs(a.p).keys[k] in Pending(jobs(a.p));
      assert t.mails == s.mails + [m];
      assert m == mail ==> Reports(jobs, a.p, mail);
    }
  }

  lemma QuietStays(jobs: Jobs, s: State, a: Action, mail: (int, string))
    requires Next(jobs, s, a).Some? && Quiet(jobs, s, mail)
    ensures Quiet(jobs, Next(jobs, s, a).value, mail)
  {
    hide Recorded, Pending, Closed;
    if Closed(jobs, s, mail.0) {
      ClosedStays(jobs, s, a, mail.0);
      ClosedDate(jobs, s, mail.0);
    }
  }

  lemma ClosedDate(jobs: Jobs, s: State, date: int)
    requires Closed(jobs, s, date)
    ensures s.disk.last == Some(date)
  {
  }

  lemma {:induction false} QuietNeverSends(jobs: Jobs, s: State, actions: seq<Action>, mail: (int, string))
    requires Run(jobs, s, actions).Some? && Quiet(jobs, s, mail)
    ensures s.mails <= Run(jobs, s, actions).value.mails && !Resends(jobs, s, actions, mail)
    decreases |actions|
  {
    hide Next, Quiet;
    if actions != [] {
      var t := Next(jobs, s, actions[0]).value;
      QuietSends(jobs, s, actions[0], mail);
      QuietStays(jobs, s, actions[0], mail);
      QuietNeverSends(jobs, t, actions[1..], mail);
      var mails := Run(jobs, s, actions).value.mails;
      var sent := t.mails[|s.mails|..];
      assert mails[|s.mails|..] == sent + mails[|t.mails|..];
    }
  }

  // If so, some crashless continuation sends it.

  lemma RunFirst(jobs: Jobs, s: State, a: Action, rest: seq<Action>)
    requires Next(jobs, s, a).Some?
    ensures Run(jobs, s, [a] + rest) == Run(jobs, Next(jobs, s, a).value, rest)
  {
    assert ([a] + rest)[1..] == rest;
  }

  lemma {:induction false} RunAppend(jobs: Jobs, s: State, a: seq<Action>, b: seq<Action>)
    requires Run(jobs, s, a).Some?
    ensures Run(jobs, s, a + b) == Run(jobs, Run(jobs, s, a).value, b)
    decreases |a|
  {
    if a == [] {
      assert a + b == b;
    } else {
      assert (a + b)[0] == a[0] && (a + b)[1..] == a[1..] + b;
      RunAppend(jobs, Next(jobs, s, a[0]).value, a[1..], b);
    }
  }

  /** The run holds the lock, has treated the first `k` mappings and sees what is on disk. */
  ghost predicate Treating(jobs: Jobs, s: State, q: Process, k: nat) {
    ValidJobs(jobs, q) && k <= |jobs(q).keys| && At(s, q) == Working(k, s.disk) && s.lock == Some(q)
  }

  lemma TreatingIsValid(jobs: Jobs, s: State, q: Process, k: nat)
    requires Treating(jobs, s, q, k)
    ensures k <= |jobs(q).keys| == |jobs(q).pending|
  {
  }

  /** Treating one mapping: at most its own report is sent and recorded. */
  lemma TreatOne(jobs: Jobs, s: State, q: Process, k: nat) returns (actions: seq<Action>, t: State)
    requires Treating(jobs, s, q, k) && k < |jobs(q).keys|
    ensures Run(jobs, s, actions) == Some(t) && Crashless(actions) && Treating(jobs, t, q, k + 1) && s.mails <= t.mails
    ensures var (job, key) := (jobs(q), jobs(q).keys[k]);
            && (job.pending[k] ==> Recorded(t.disk, job.date, key))
            && t.mails == s.mails + (if job.pending[k] && !Recorded(s.disk, job.date, key) then [(job.date, key)] else [])
            && (forall d, x :: (d, x) != (job.date, key) || !job.pending[k] ==> (Recorded(t.disk, d, x) <==> Recorded(s.disk, d, x)))
            && (forall d, x :: Recorded(s.disk, d, x) ==> Recorded(t.disk, d, x))
    ensures forall p: Process :: p != q ==> At(t, p) == At(s, p)
  {
    var t1 := Next(jobs, s, Treat(q)).value;
    if NeedsMail(jobs(q), k, s.disk) {
      t := Next(jobs, t1, Mark(q)).value;
      actions := [Treat(q)] + [Mark(q)];
      RunFirst(jobs, s, Treat(q), [Mark(q)]);
    } else {
      t := t1;
      actions := [Treat(q)];
    }
  }

  /** The same for one report: it is sent now, or still to be sent. */
  lemma TreatOneFor(jobs: Jobs, s: State, q: Process, k: nat, mail: (int, string)) returns (actions: seq<Action>, t: State)
    requires Treating(jobs, s, q, k) && k < |jobs(q).keys| && mail.0 == jobs(q).date && !Recorded(s.disk, mail.0, mail.1)
    ensures Run(jobs, s, actions) == Some(t) && Crashless(actions) && Treating(jobs, t, q, k + 1) && s.mails <= t.mails
    ensures if jobs(q).pending[k] && jobs(q).keys[k] == mail.1 then mail in t.mails[|s.mails|..]
            else !Recorded(t.disk, mail.0, mail.1)
  {
    actions, t := TreatOne(jobs, s, q, k);
  }

  lemma {:induction false} SendsInTurn(jobs: Jobs, s: State, q: Process, k: nat, mail: (int, string), at: nat)
    returns (actions: seq<Action>)
    requires Treating(jobs, s, q, k) && !Recorded(s.disk, mail.0, mail.1)
    requires k <= at < |jobs(q).keys| && jobs(q).pending[at] && mail == (jobs(q).date, jobs(q).keys[at])
    ensures Crashless(actions) && Run(jobs, s, actions).Some?
    ensures s.mails <= Run(jobs, s, actions).value.mails && Resends(jobs, s, actions, mail)
    decreases at - k
  {
    var t: State;
    TreatingIsValid(jobs, s, q, k);
    actions, t := TreatOneFor(jobs, s, q, k, mail);
    hide Treating, Run, Recorded, Next, At, Pending;
    if !(jobs(q).pending[k] && jobs(q).keys[k] == mail.1) {
      var more := SendsInTurn(jobs, t, q, k + 1, mail, at);
      RunAppend(jobs, s, actions, more);
      actions := actions + more;
      var mails := Run(jobs, s, actions).value.mails;
      assert mails[|s.mails|..] == mails[|s.mails|..|t.mails|] + mails[|t.mails|..];
    }
  }

  /** The run has reported everything from mapping `k` on, and nothing else, closed its date and left. */
  ghost predicate Completed(jobs: Jobs, s: State, t: State, r: Process, k: nat) {
    var job := jobs(r);
    && s.mails <= t.mails && t.lock == None && t.disk.last == Some(job.date) && At(t, r).Done?
    && |job.keys| == |job.pending|
    && (forall j :: 0 <= j < |job.keys| && job.pending[j] ==> Recorded(t.disk, job.date, job.keys[j]))
    && (forall j :: k <= j < |job.keys| && job.pending[j] && !Recorded(s.disk, job.date, job.keys[j]) ==>
          (job.date, job.keys[j]) in t.mails[|s.mails|..])
    && (forall m :: m in t.mails[|s.mails|..] ==> m.0 == job.date && m.1 in Pending(job))
    && (forall d, x :: d != job.date ==> (Recorded(t.disk, d, x) <==> Recorded(s.disk, d, x)))
    && (forall p: Process :: p != r ==> At(t, p) == At(s, p))
  }

  lemma FinishCompletes(jobs: Jobs, s: State, r: Process) returns (t: State)
    requires Treating(jobs, s, r, |jobs(r).keys|) && Treated(jobs(r), s.disk, |jobs(r).keys|)
    ensures Run(jobs, s, [Finish(r)]) == Some(t) && Completed(jobs, s, t, r, |jobs(r).keys|)
  {
    assert forall key :: key in Pending(jobs(r)) ==> Recorded(s.disk, jobs(r).date, key);
    t := Next(jobs, s, Finish(r)).value;
    RunFirst(jobs, s, Finish(r), []);
  }

  /** One more mapping treated before the rest were completed. */
  lemma CompletedNext(jobs: Jobs, s: State, done: State, t: State, r: Process, k: nat)
    requires k < |jobs(r).keys| == |jobs(r).pending| && Completed(jobs, done, t, r, k + 1)
    requires var (job, key) := (jobs(r), jobs(r).keys[k]);
             && done.mails == s.mails + (if job.pending[k] && !Recorded(s.disk, job.date, key) then [(job.date, key)] else [])
             && (forall d, x :: (d, x) != (job.date, key) || !job.pending[k] ==> (Recorded(done.disk, d, x) <==> Recorded(s.disk, d, x)))
    requires forall p: Process :: p != r ==> At(done, p) == At(s, p)
    ensures Completed(jobs, s, t, r, k)
  {
    hide Recorded, At;
    var (job, key) := (jobs(r), jobs(r).keys[k]);
    var first, rest := done.mails[|s.mails|..], t.mails[|done.mails|..];
    assert t.mails[|s.mails|..] == first + rest;
    assert first == if job.pending[k] && !Recorded(s.disk, job.date, key) then [(job.date, key)] else [];
    assert job.pending[k] ==> key in Pending(job);
    forall j | k <= j < |job.keys| && job.pending[j] && !Recorded(s.disk, job.date, job.keys[j])
      ensures (job.date, job.keys[j]) in t.mails[|s.mails|..]
    {
      if job.keys[j] == key && job.pending[k] {
        assert (job.date, key) in first;
      } else {
        assert j > k && !Recorded(done.disk, job.date, job.keys[j]);
      }
    }
  }

  lemma TreatedNext(job: Job, d: Disk, e: Disk, k: nat)
    requires k < |job.keys| && Treated(job, d, k) && (job.pending[k] ==> Recorded(e, job.date, job.keys[k]))
    requires forall date, x :: Recorded(d, date, x) ==> Recorded(e, date, x)
    ensures Treated(job, e, k + 1)
  {
    hide Recorded;
  }

  lemma {:induction false} CompletesInTurn(jobs: Jobs, s: State, r: Process, k: nat) returns (actions: seq<Action>, t: State)
    requires Treating(jobs, s, r, k) && Treated(jobs(r), s.disk, k)
    ensures Crashless(actions) && Run(jobs, s, actions) == Some(t) && Completed(jobs, s, t, r, k)
    decreases |jobs(r).keys| - k
  {
    if k == |jobs(r).keys| {
      actions := [Finish(r)];
      t := FinishCompletes(jobs, s, r);
    } else {
      TreatingIsValid(jobs, s, r, k);
      var done: State;
      actions, done := TreatOne(jobs, s, r, k);
      TreatedNext(jobs(r), s.disk, done.disk, k);
      hide Treating, Treated, Run, Recorded, Next, At, Completed, Pending;
      var more: seq<Action>;
      more, t := CompletesInTurn(jobs, done, r, k + 1);
      RunAppend(jobs, s, actions, more);
      actions := actions + more;
      CompletedNext(jobs, s, done, t, r, k);
    }
  }

  /**
   What a run achieves. From every reachable state with the lock free, a new run whose date is open,
   left to itself and without failing, mails each report that it has and the state file does not record,
   records them all, closes the date and frees the lock; and a run whose date is closed, or that has
   nothing to report, does nothing.
   */
  lemma RunReports(jobs: Jobs, s: State, q: Process) returns (actions: seq<Action>)
    requires At(s, q).Fresh? && ValidJobs(jobs, q) && s.lock.None?
    ensures Crashless(actions) && Run(jobs, s, actions).Some?
    ensures var (t, job) := (Run(jobs, s, actions).value, jobs(q));
            if s.disk.last == Some(job.date) || (forall k :: 0 <= k < |job.pending| ==> !job.pending[k]) then
              At(t, q).Done? && t.disk == s.disk && t.mails == s.mails && t.lock.None?
            else
              && t.disk.last == Some(job.date) && t.lock.None? && s.mails <= t.mails
              && (forall k :: 0 <= k < |job.keys| && job.pending[k] ==> Recorded(t.disk, job.date, job.keys[k]))
              && (forall k :: 0 <= k < |job.keys| && job.pending[k] && !Recorded(s.disk, job.date, job.keys[k]) ==>
                    (job.date, job.keys[k]) in t.mails[|s.mails|..])
              && (forall m :: m in t.mails[|s.mails|..] ==> m.0 == job.date && m.1 in Pending(job))
  {
    var job := jobs(q);
    var decided := Next(jobs, s, Decide(q)).value;
    assert Pending(job) == {} <==> forall k :: 0 <= k < |job.pending| ==> !job.pending[k] by {
      if k :| 0 <= k < |job.pending| && job.pending[k] {
        assert job.keys[k] in Pending(job);
      }
    }
    if At(decided, q).Done? {
      actions := [Decide(q)];
      RunFirst(jobs, s, Decide(q), []);
    } else {
      var working := Next(jobs, decided, Enter(q)).value;
      var more, t := CompletesInTurn(jobs, working, q, 0);
      RunFirst(jobs, decided, Enter(q), more);
      RunFirst(jobs, s, Decide(q), [Enter(q)] + more);
      actions := [Decide(q)] + ([Enter(q)] + more);
      forall k | 0 <= k < |job.keys| && job.pending[k] ensures job.keys[k] in Pending(job) {
      }
    }
  }

  /**
   In every reachable state the lock is held exactly by a run between entering and leaving, and a run
   that has treated all its mappings finds every report it had recorded, so that finishing closes its date.
   */
  lemma FinishClosesDate(jobs: Jobs, s0: State, past: seq<Action>, s: State, p: Process)
    requires Initial(s0) && Run(jobs, s0, past) == Some(s)
    ensures s.lock == Some(p) <==> At(s, p).Working? || At(s, p).Unmarked?
    ensures Next(jobs, s, Finish(p)).Some? ==>
              var t := Next(jobs, s, Finish(p)).value;
              && t.disk.last == Some(jobs(p).date) && t.lock.None? && t.mails == s.mails
              && (forall k :: 0 <= k < |jobs(p).keys| && jobs(p).pending[k] ==> jobs(p).keys[k] in t.required)
              && forall k :: 0 <= k < |jobs(p).keys| && jobs(p).pending[k] ==> Recorded(t.disk, jobs(p).date, jobs(p).keys[k])
  {
    InitialOk(jobs, s0);
    RunKeepsProcesses(jobs, s0, past);
    assert ProcessOk(jobs, s, p);
  }

  /** Only finishing sets the last date, and what is required of it. */
  lemma OnlyFinishSetsDate(jobs: Jobs, s0: State, past: seq<Action>, s: State, a: Action)
    requires Initial(s0) && Run(jobs, s0, past) == Some(s) && Next(jobs, s, a).Some? && !a.Finish?
    ensures Next(jobs, s, a).value.disk.last == s.disk.last && Next(jobs, s, a).value.required == s.required
  {
    InitialOk(jobs, s0);
    RunKeepsProcesses(jobs, s0, past);
    assert ProcessOk(jobs, s, a.p);
  }

  /** A run outside its schedule ends without a trace, and a run may die at any moment once it has begun. */
  lemma RunsMayEnd(jobs: Jobs, s: State, p: Process)
    requires ValidJobs(jobs, p)
    ensures At(s, p).Fresh? ==> Next(jobs, s, Skip(p)) == Some(s.(phases := s.phases[p := Done]))
    ensures !At(s, p).Fresh? ==> Next(jobs, s, Crash(p)).Some?
    ensures Next(jobs, s, Crash(p)).Some? ==>
              var t := Next(jobs, s, Crash(p)).value;
              At(t, p).Crashed? && t.disk == s.disk && t.mails == s.mails && t.lock != Some(p)
  {
  }

  /** A send that fails ends the run, frees the lock, and leaves what was recorded. */
  lemma FailedSendFreesLock(jobs: Jobs, s: State, p: Process)
    requires ValidJobs(jobs, p) && At(s, p).Working? && At(s, p).k < |jobs(p).keys|
    ensures Next(jobs, s, SendFails(p)).Some?
    ensures var t := Next(jobs, s, SendFails(p)).value;
            t.lock.None? && At(t, p).Done? && t.disk == s.disk && t.mails == s.mails
  {
  }

  /** A run that is due takes the free lock and sends. */
  lemma DueSends(jobs: Jobs, s: State, q: Process, mail: (int, string)) returns (actions: seq<Action>)
    requires Reports(jobs, q, mail) && At(s, q).Due? && s.lock.None? && !Recorded(s.disk, mail.0, mail.1)
    ensures Crashless(actions) && Resends(jobs, s, actions, mail)
  {
    var t := Next(jobs, s, Enter(q)).value;
    var at :| 0 <= at < |jobs(q).keys| && jobs(q).pending[at] && jobs(q).keys[at] == mail.1;
    var more := SendsInTurn(jobs, t, q, 0, mail, at);
    RunFirst(jobs, s, Enter(q), more);
    actions := [Enter(q)] + more;
  }

  /** A run that finds the date open decides that it is due, and sends. */
  lemma FreshSends(jobs: Jobs, s: State, q: Process, mail: (int, string)) returns (actions: seq<Action>)
    requires Reports(jobs, q, mail) && At(s, q).Fresh? && s.lock.None? && !Recorded(s.disk, mail.0, mail.1)
    requires s.disk.last != Some(mail.0)
    ensures Crashless(actions) && Resends(jobs, s, actions, mail)
  {
    var t := Next(jobs, s, Decide(q)).value;
    var more := DueSends(jobs, t, q, mail);
    RunFirst(jobs, s, Decide(q), more);
    actions := [Decide(q)] + more;
  }

  /** A run for another date completes, which makes that the last date. */
  lemma Reopens(jobs: Jobs, s: State, r: Process, date: int) returns (actions: seq<Action>, t: State)
    requires Reopener(jobs, r, date) && s.lock.None? && s.disk.last == Some(date)
    requires At(s, r).Fresh? || At(s, r).Due?
    ensures Crashless(actions) && Run(jobs, s, actions) == Some(t) && s.mails <= t.mails
    ensures t.lock == None && t.disk.last != Some(date)
    ensures forall x :: Recorded(t.disk, date, x) <==> Recorded(s.disk, date, x)
    ensures forall p: Process :: p != r ==> At(t, p) == At(s, p)
  {
    var first := if At(s, r).Fresh? then [Decide(r)] else [];
    var due := if At(s, r).Fresh? then Next(jobs, s, Decide(r)).value else s;
    assert Run(jobs, s, first) == Some(due);
    var working := Next(jobs, due, Enter(r)).value;
    var more: seq<Action>;
    more, t := CompletesInTurn(jobs, working, r, 0);
    RunFirst(jobs, due, Enter(r), more);
    RunAppend(jobs, s, first, [Enter(r)] + more);
    actions := first + ([Enter(r)] + more);
  }

  lemma MaySends(jobs: Jobs, s: State, mail: (int, string)) returns (actions: seq<Action>)
    requires MayResend(jobs, s, mail) && s.lock.None? && !Recorded(s.disk, mail.0, mail.1)
    ensures Crashless(actions) && Resends(jobs, s, actions, mail)
  {
    var q: Process :| Reports(jobs, q, mail) && (At(s, q).Due? || (At(s, q).Fresh? && Open(jobs, s, mail.0)));
    if At(s, q).Due? {
      actions := DueSends(jobs, s, q, mail);
    } else if s.disk.last != Some(mail.0) {
      actions := FreshSends(jobs, s, q, mail);
    } else {
      var r: Process :| Reopener(jobs, r, mail.0) && (At(s, r).Fresh? || At(s, r).Due?);
      var t: State;
      actions, t := Reopens(jobs, s, r, mail.0);
      var more := FreshSends(jobs, t, q, mail);
      RunAppend(jobs, s, actions, more);
      actions := actions + more;
      hide Run, Recorded;
      var mails := Run(jobs, s, actions).value.mails;
      SendsLater(s.mails, t.mails, mails, mail);
    }
  }

  lemma SendsLater(a: seq<(int, string)>, b: seq<(int, string)>, c: seq<(int, string)>, mail: (int, string))
    requires |a| <= |b| <= |c| && mail in c[|b|..]
    ensures mail in c[|a|..]
  {
    assert c[|a|..] == c[|a|..|b|] + c[|b|..];
  }

  /** After the crash nobody holds the lock, and the report is still unrecorded. */
  lemma AfterCrash(jobs: Jobs, s: State, p: Process)
    requires ProcessesOk(jobs, s) && At(s, p).Unmarked?
    ensures Next(jobs, s, Crash(p)).Some? && s.mails != []
    ensures var t, mail := Next(jobs, s, Crash(p)).value, s.mails[|s.mails| - 1];
            && t.lock.None? && t.mails == s.mails && !Recorded(t.disk, mail.0, mail.1)
            && At(s, p).k < |jobs(p).keys| && mail == (jobs(p).date, jobs(p).keys[At(s, p).k])
            && forall q: Process :: !At(t, q).Working? && !At(t, q).Unmarked?
  {
    assert ProcessOk(jobs, s, p);
    forall q: Process | q != p ensures !At(s, q).Working? && !At(s, q).Unmarked? {
      assert ProcessOk(jobs, s, q);
    }
    var t := Next(jobs, s, Crash(p)).value;
    assert forall q: Process :: At(t, q) == if q == p then Crashed else At(s, q);
  }

  lemma QuietUnlessMay(jobs: Jobs, s: State, mail: (int, string))
    requires ProcessesOk(jobs, s) && !MayResend(jobs, s, mail)
    requires forall q: Process :: !At(s, q).Working? && !At(s, q).Unmarked?
    ensures Quiet(jobs, s, mail)
  {
    forall q: Process | Reports(jobs, q, mail) ensures At(s, q).Fresh? || At(s, q).Done? || At(s, q).Crashed? {
    }
    if q: Process :| Reports(jobs, q, mail) && At(s, q).Fresh? {
      assert !Open(jobs, s, mail.0);
      forall r: Process | ValidJobs(jobs, r) && jobs(r).date != mail.0 ensures Finished(jobs, s, r) {
        assert ProcessOk(jobs, s, r);
        assert !Reopener(jobs, r, mail.0) || !(At(s, r).Fresh? || At(s, r).Due?);
      }
    }
  }

  /**
   The exclusion is exact. After a crash between sending a report and recording it, in any reachable
   state, some continuation sends that report again if and only if a run with it is already due, or is
   still to come and the date is open to it: it is not the last completed date, or a run with contacts
   to report for another date can still complete and overwrite it. No further crash is needed.
   */
  lemma CrashRepeatsMail(jobs: Jobs, s0: State, past: seq<Action>, s: State, p: Process)
    requires Initial(s0) && Run(jobs, s0, past) == Some(s) && At(s, p).Unmarked?
    ensures Next(jobs, s, Crash(p)).Some? && s.mails != [] && At(s, p).k < |jobs(p).keys|
    ensures var t, mail := Next(jobs, s, Crash(p)).value, s.mails[|s.mails| - 1];
            && t.mails == s.mails && mail == (jobs(p).date, jobs(p).keys[At(s, p).k])
            && (MayResend(jobs, t, mail) <==> exists actions :: Resends(jobs, t, actions, mail))
            && (MayResend(jobs, t, mail) ==> exists actions :: Resends(jobs, t, actions, mail) && Crashless(actions))
  {
    InitialOk(jobs, s0);
    RunKeepsProcesses(jobs, s0, past);
    AfterCrash(jobs, s, p);
    NextKeepsProcesses(jobs, s, Crash(p));
    hide Run, Next, Resends, MayResend, Inv, ProcessesOk;
    var t, mail := Next(jobs, s, Crash(p)).value, s.mails[|s.mails| - 1];
    if MayResend(jobs, t, mail) {
      var actions := MaySends(jobs, t, mail);
    } else {
      QuietUnlessMay(jobs, t, mail);
      forall actions ensures !Resends(jobs, t, actions, mail) {
        NeverSends(jobs, t, actions, mail);
      }
    }
  }

  lemma NeverSends(jobs: Jobs, s: State, actions: seq<Action>, mail: (int, string))
    requires Quiet(jobs, s, mail)
    ensures !Resends(jobs, s, actions, mail)
  {
    if Run(jobs, s, actions).Some? {
      QuietNeverSends(jobs, s, actions, mail);
    }
  }

  /** One run of a job with a single report, up to its mail. */
  function Sending(q: Process): seq<Action> {
    [Decide(q), Enter(q), Treat(q)]
  }

  lemma SendingRuns(jobs: Jobs, s: State, q: Process, date: int, key: string) returns (t: State)
    requires jobs(q) == Job(date, [key], [true]) && At(s, q).Fresh? && s.lock.None?
    requires s.disk.last != Some(date) && !Recorded(s.disk, date, key)
    ensures Run(jobs, s, Sending(q)) == Some(t) && At(t, q).Unmarked? && t.disk == s.disk && t.lock == Some(q)
    ensures t.mails == s.mails + [(date, key)] && forall p: Process :: p != q ==> At(t, p) == At(s, p)
  {
    assert jobs(q).keys[0] in Pending(jobs(q));
    var s1 := Next(jobs, s, Decide(q)).value;
    var s2 := Next(jobs, s1, Enter(q)).value;
    t := Next(jobs, s2, Treat(q)).value;
    RunFirst(jobs, s2, Treat(q), []);
    RunFirst(jobs, s1, Enter(q), [Treat(q)]);
    RunFirst(jobs, s, Decide(q), [Enter(q)] + [Treat(q)]);
    assert [Treat(q)] + [] == [Treat(q)];
    assert [Decide(q)] + ([Enter(q)] + [Treat(q)]) == Sending(q);
  }

  /** A run that dies in the excluded window, and the next run of the same job. */
  const REPEAT: seq<Action> := Sending(0) + ([Crash(0)] + Sending(1))

  /** The failing run, for every report that is neither recorded nor closed when the first run starts. */
  lemma CrashCanRepeat(date: int, key: string, disk: Disk)
    requires disk.last != Some(date) && !Recorded(disk, date, key)
    ensures var s := State(disk, None, map[], [], {});
            var t := Run(p => Job(date, [key], [true]), s, REPEAT);
            Initial(s) && t.Some? && t.value.mails == [(date, key), (date, key)]
  {
    var jobs: Jobs := p => Job(date, [key], [true]);
    var s := State(disk, None, map[], [], {});
    var sent := SendingRuns(jobs, s, 0, date, key);
    var crashed := Next(jobs, sent, Crash(0)).value;
    assert At(sent, 1).Fresh? && At(crashed, 1).Fresh?;
    var again := SendingRuns(jobs, crashed, 1, date, key);
    hide Run;
    RunFirst(jobs, sent, Crash(0), Sending(1));
    RunAppend(jobs, s, Sending(0), [Crash(0)] + Sending(1));
  }
}
