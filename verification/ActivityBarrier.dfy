/**
 The completion barrier of an Activity: deriveActivityBarrier (src/activity.ts), the
 job counts it is fed and the completion outbox that its decisions fill
 (reconcileActivity, countActivityJobs and sealActivity of src/stateStore.ts).
 */
module ActivityBarrier {
  import opened Wrappers

  datatype Lifecycle = Open | Sealed | Terminating | Completed | Cancelled | Abandoned

  datatype WaitingOn = Nothing | Codex | Orchestrator | User | Verifier

  datatype Verification = NotRequired | Pending | Verifying | Verified | VerificationFailed

  datatype HandoffPolicy = NoHandoff | Notify | Verify

  datatype Trigger = Manual | SealedJobsTerminal

  datatype JobStatus =
    | Running | JobTerminating | TerminationFailed
    | JobCompleted | Failed | Interrupted | JobCancelled

  datatype Channel = NotifyChannel | VerifyChannel

  datatype Counts = Counts(
    total: nat, running: nat, completed: nat, failed: nat, interrupted: nat, cancelled: nat, terminal: nat)

  datatype Activity = Activity(
    lifecycle: Lifecycle,
    waitingOn: WaitingOn,
    verification: Verification,
    handoffPolicy: HandoffPolicy,
    completionTrigger: Trigger)

  datatype Decision = Decision(
    lifecycle: Lifecycle,
    waitingOn: WaitingOn,
    verification: Verification,
    completionChannel: Option<Channel>,
    attentionRequired: bool)

  predicate IsActiveJobStatus(s: JobStatus) { s == Running || s == JobTerminating || s == TerminationFailed }

  predicate IsTerminalJobStatus(s: JobStatus) {
    s == JobCompleted || s == Failed || s == Interrupted || s == JobCancelled
  }

  predicate IsFinal(l: Lifecycle) { l == Completed || l == Cancelled || l == Abandoned }

  function DeriveActivityBarrier(a: Activity, c: Counts): Decision {
    if IsFinal(a.lifecycle) then Decision(a.lifecycle, a.waitingOn, a.verification, None, false)
    else
      var attentionRequired := c.failed + c.interrupted + c.cancelled > 0;
      if c.running > 0 then Decision(a.lifecycle, Codex, a.verification, None, attentionRequired)
      else
        var barrierReached := c.total > 0 && c.terminal == c.total;
        if a.lifecycle != Sealed || a.completionTrigger != SealedJobsTerminal || !barrierReached || attentionRequired then
          Decision(a.lifecycle, if c.total > 0 then Orchestrator else Nothing, a.verification, None, attentionRequired)
        else
          match a.handoffPolicy
          case Notify => Decision(Completed, Nothing, NotRequired, Some(NotifyChannel), false)
          case Verify => Decision(Sealed, Verifier, Pending, Some(VerifyChannel), false)
          case NoHandoff => Decision(Sealed, Orchestrator, a.verification, None, false)
  }

  // ------------------------------------------------------------ counting jobs

  type Jobs = map<string, JobStatus>

  function JobsWith(jobs: Jobs, wanted: set<JobStatus>): set<string> {
    set j | j in jobs && jobs[j] in wanted
  }

  const ACTIVE: set<JobStatus> := {Running, JobTerminating, TerminationFailed}
  const TERMINAL: set<JobStatus> := {JobCompleted, Failed, Interrupted, JobCancelled}

  /** countActivityJobs. */
  function CountActivityJobs(jobs: Jobs): Counts {
    Counts(
      |jobs.Keys|, |JobsWith(jobs, ACTIVE)|, |JobsWith(jobs, {JobCompleted})|, |JobsWith(jobs, {Failed})|,
      |JobsWith(jobs, {Interrupted})|, |JobsWith(jobs, {JobCancelled})|, |JobsWith(jobs, TERMINAL)|)
  }

  predicate AllTerminal(jobs: Jobs) { forall j :: j in jobs ==> IsTerminalJobStatus(jobs[j]) }

  /** At least one job, and every job completed. */
  predicate AllCompleted(jobs: Jobs) {
    jobs.Keys != {} && forall j :: j in jobs ==> jobs[j] == JobCompleted
  }

  lemma CountZero(jobs: Jobs, wanted: set<JobStatus>)
    ensures |JobsWith(jobs, wanted)| == 0 <==> forall j :: j in jobs ==> jobs[j] !in wanted
  {
    if |JobsWith(jobs, wanted)| == 0 {
      assert JobsWith(jobs, wanted) == {};
      forall j | j in jobs ensures jobs[j] !in wanted {
        assert j !in JobsWith(jobs, wanted);
      }
    } else {
      var j :| j in JobsWith(jobs, wanted);
    }
  }

  /** The counts decide what the barrier asks about the jobs. */
  lemma CountsDecide(jobs: Jobs)
    ensures CountActivityJobs(jobs).running == 0 <==> AllTerminal(jobs)
    ensures CountActivityJobs(jobs).running > 0 <==> exists j :: j in jobs && IsActiveJobStatus(jobs[j])
    ensures
      var c := CountActivityJobs(jobs);
      c.running == 0 && c.total > 0 && c.terminal == c.total && c.failed + c.interrupted + c.cancelled == 0
      <==> AllCompleted(jobs)
  {
    CountZero(jobs, ACTIVE);
    CountZero(jobs, {Failed});
    CountZero(jobs, {Interrupted});
    CountZero(jobs, {JobCancelled});
    if AllTerminal(jobs) {
      assert JobsWith(jobs, TERMINAL) == jobs.Keys;
    }
  }

  /** How many jobs have exactly this status. */
  function CountStatus(jobs: Jobs, s: JobStatus): nat { |JobsWith(jobs, {s})| }

  /** Every counted column counts its own statuses, and the columns add up. */
  lemma CountsAddUp(jobs: Jobs)
    ensures
      var c := CountActivityJobs(jobs);
      && c.total == |jobs| && c.total == c.running + c.terminal
      && c.terminal == c.completed + c.failed + c.interrupted + c.cancelled
      && c.completed == CountStatus(jobs, JobCompleted) && c.failed == CountStatus(jobs, Failed)
      && c.interrupted == CountStatus(jobs, Interrupted) && c.cancelled == CountStatus(jobs, JobCancelled)
      && c.running == CountStatus(jobs, Running) + CountStatus(jobs, JobTerminating) + CountStatus(jobs, TerminationFailed)
  {
    CountSplit(jobs, {JobCompleted}, {Failed});
    CountSplit(jobs, {JobCompleted, Failed}, {Interrupted});
    CountSplit(jobs, {JobCompleted, Failed, Interrupted}, {JobCancelled});
    CountSplit(jobs, {Running}, {JobTerminating});
    CountSplit(jobs, {Running, JobTerminating}, {TerminationFailed});
    CountSplit(jobs, ACTIVE, TERMINAL);
    assert {JobCompleted} + {Failed} == {JobCompleted, Failed};
    assert {JobCompleted, Failed} + {Interrupted} == {JobCompleted, Failed, Interrupted};
    assert {JobCompleted, Failed, Interrupted} + {JobCancelled} == TERMINAL;
    assert {Running} + {JobTerminating} == {Running, JobTerminating};
    assert {Running, JobTerminating} + {TerminationFailed} == ACTIVE;
    assert forall j :: j in jobs ==> IsActiveJobStatus(jobs[j]) || IsTerminalJobStatus(jobs[j]);
    assert JobsWith(jobs, ACTIVE + TERMINAL) == jobs.Keys;
    assert |jobs.Keys| == |jobs|;
  }

  lemma CountSplit(jobs: Jobs, a: set<JobStatus>, b: set<JobStatus>)
    requires a !! b
    ensures |JobsWith(jobs, a + b)| == |JobsWith(jobs, a)| + |JobsWith(jobs, b)|
  {
    assert JobsWith(jobs, a + b) == JobsWith(jobs, a) + JobsWith(jobs, b);
    assert JobsWith(jobs, a) !! JobsWith(jobs, b);
  }

  predicate NeedsAttention(jobs: Jobs) {
    exists j :: j in jobs && jobs[j] in {Failed, Interrupted, JobCancelled}
  }

  /** The barrier is due: a sealed Activity that its jobs complete, all of at least one completed. */
  predicate BarrierDue(a: Activity, jobs: Jobs) {
    a.lifecycle == Sealed && a.completionTrigger == SealedJobsTerminal && AllCompleted(jobs)
  }

  /** What the derived state tells about the jobs themselves. */
  lemma DerivedSays(a: Activity, jobs: Jobs)
    requires !IsFinal(a.lifecycle)
    ensures
      var d := DeriveActivityBarrier(a, CountActivityJobs(jobs));
      && (d.waitingOn == Codex <==> !AllTerminal(jobs))
      && (d.attentionRequired <==> NeedsAttention(jobs))
      && (d.completionChannel.Some? <==> BarrierDue(a, jobs) && a.handoffPolicy != NoHandoff)
      && (d.waitingOn == Verifier <==> BarrierDue(a, jobs) && a.handoffPolicy == Verify)
      && (d.lifecycle != a.lifecycle <==> BarrierDue(a, jobs) && a.handoffPolicy == Notify)
      && (d.waitingOn == Nothing <==> jobs.Keys == {} || (BarrierDue(a, jobs) && a.handoffPolicy == Notify))
      && (d.waitingOn == Orchestrator <==>
            jobs.Keys != {} && AllTerminal(jobs) && !(BarrierDue(a, jobs) && a.handoffPolicy in {Notify, Verify}))
      && d.waitingOn != User
      && d.verification == (if BarrierDue(a, jobs) && a.handoffPolicy == Notify then NotRequired
                            else if BarrierDue(a, jobs) && a.handoffPolicy == Verify then Pending
                            else a.verification)
      && d.completionChannel == (if BarrierDue(a, jobs) && a.handoffPolicy == Notify then Some(NotifyChannel)
                                 else if BarrierDue(a, jobs) && a.handoffPolicy == Verify then Some(VerifyChannel)
                                 else None)
      && d.lifecycle == (if BarrierDue(a, jobs) && a.handoffPolicy == Notify then Completed else a.lifecycle)
  {
    CountsDecide(jobs);
    CountZero(jobs, {Failed});
    CountZero(jobs, {Interrupted});
    CountZero(jobs, {JobCancelled});
  }

  // ----------------------------------------------------- deriving again, later

  /** The activity with a decision stored. */
  function Stored(a: Activity, d: Decision): Activity {
    a.(lifecycle := d.lifecycle, waitingOn := d.waitingOn, verification := d.verification)
  }

  function Derived(a: Activity, jobs: Jobs): Activity {
    Stored(a, DeriveActivityBarrier(a, CountActivityJobs(jobs)))
  }

  /** One job of a fixed set changes; a terminal status never changes again. */
  predicate Change(before: Jobs, after: Jobs) {
    && before.Keys == after.Keys
    && forall j :: j in before && IsTerminalJobStatus(before[j]) ==> after[j] == before[j]
  }

  /** Deriving on the way makes no difference to deriving at the end. */
  lemma DeriveAgain(a: Activity, before: Jobs, after: Jobs)
    requires Change(before, after)
    ensures Derived(Derived(a, before), after) == Derived(a, after)
  {
    CountsDecide(before);
    if AllTerminal(before) {
      assert after == before;
    }
  }

  /** Derivations after each of the given snapshots. */
  function DerivedThrough(a: Activity, snapshots: seq<Jobs>): Activity {
    if snapshots == [] then a
    else Derived(DerivedThrough(a, snapshots[..|snapshots| - 1]), snapshots[|snapshots| - 1])
  }

  ghost predicate Evolves(snapshots: seq<Jobs>) {
    forall i :: 0 < i < |snapshots| ==> Change(snapshots[i - 1], snapshots[i])
  }

  /** Incremental equals one-shot: only the last snapshot matters. */
  lemma {:induction false} IncrementalIsOneShot(a: Activity, snapshots: seq<Jobs>)
    requires snapshots != [] && Evolves(snapshots)
    ensures DerivedThrough(a, snapshots) == Derived(a, snapshots[|snapshots| - 1])
  {
    var init, last := snapshots[..|snapshots| - 1], snapshots[|snapshots| - 1];
    if init != [] {
      IncrementalIsOneShot(a, init);
      assert Change(snapshots[|snapshots| - 2], snapshots[|snapshots| - 1]);
      DeriveAgain(a, init[|init| - 1], last);
    }
  }

  /** A derived state is a fixed point, for the same counts. */
  lemma DerivedIsFixed(a: Activity, jobs: Jobs)
    ensures Derived(Derived(a, jobs), jobs) == Derived(a, jobs)
  {
    DeriveAgain(a, jobs, jobs);
  }

  // -------------------------------------------------- the outbox over whole runs

  datatype Notice = Notice(channel: Channel, completionVersion: nat)

  datatype State = State(activity: Activity, jobs: Jobs, completionVersion: nat, outbox: seq<Notice>)

  /** reconcileActivity: a channel is written to the outbox only when the stored state changes. */
  function Reconcile(s: State): State {
    var d := DeriveActivityBarrier(s.activity, CountActivityJobs(s.jobs));
    var next := Stored(s.activity, d);
    if d.completionChannel.Some? && next != s.activity then
      State(next, s.jobs, s.completionVersion + 1,
            s.outbox + [Notice(d.completionChannel.value, s.completionVersion + 1)])
    else s.(activity := next)
  }

  datatype Event =
    | JobChanged(job: string, status: JobStatus)
    | SealRequested
    | Rederived

  /** Jobs are added or changed by upsert; sealing needs an open Activity with a job, and reconciles. */
  function Apply(s: State, e: Event): State {
    match e
    case JobChanged(job, status) => Reconcile(s.(jobs := s.jobs[job := status]))
    case SealRequested =>
      if s.activity.lifecycle != Open || s.jobs.Keys == {} then s
      else Reconcile(s.(activity := s.activity.(lifecycle := Sealed)))
    case Rederived => Reconcile(s)
  }

  /** Sealing takes effect exactly on an open Activity with a job, and never seals anything else. */
  lemma SealingIs(s: State)
    ensures s.activity.lifecycle != Open || s.jobs.Keys == {} ==> Apply(s, SealRequested) == s
    ensures s.activity.lifecycle == Open && s.jobs.Keys != {} ==>
      var after, sealed := Apply(s, SealRequested), s.activity.(lifecycle := Sealed);
      && after.jobs == s.jobs
      && after.activity.lifecycle == (if BarrierDue(sealed, s.jobs) && sealed.handoffPolicy == Notify then Completed else Sealed)
  {
    if s.activity.lifecycle == Open && s.jobs.Keys != {} {
      DerivedSays(s.activity.(lifecycle := Sealed), s.jobs);
    }
  }

  function ApplyAll(s: State, events: seq<Event>): State {
    if events == [] then s else Apply(ApplyAll(s, events[..|events| - 1]), events[|events| - 1])
  }

  function CountNotices(outbox: seq<Notice>, channel: Channel): nat {
    if outbox == [] then 0
    else CountNotices(outbox[..|outbox| - 1], channel) + (if outbox[|outbox| - 1].channel == channel then 1 else 0)
  }

  /** The state the event's reconciliation looks at, or None when the event is refused. */
  function Examined(s: State, e: Event): Option<State> {
    match e
    case JobChanged(job, status) => Some(s.(jobs := s.jobs[job := status]))
    case SealRequested =>
      if s.activity.lifecycle != Open || s.jobs.Keys == {} then None
      else Some(s.(activity := s.activity.(lifecycle := Sealed)))
    case Rederived => Some(s)
  }

  /** Sealed, triggered by its jobs, to be notified, and all of at least one job completed. */
  predicate NotifyDue(s: State) {
    BarrierDue(s.activity, s.jobs) && s.activity.handoffPolicy == Notify
  }

  /** A notice goes out exactly when it is due, and completes the Activity. */
  lemma NotifyExactlyWhenDue(s: State)
    ensures
      var r := Reconcile(s);
      if NotifyDue(s) then
        && r.outbox == s.outbox + [Notice(NotifyChannel, s.completionVersion + 1)]
        && r.activity.lifecycle == Completed
      else CountNotices(r.outbox, NotifyChannel) == CountNotices(s.outbox, NotifyChannel)
           && (r.activity.lifecycle == Completed <==> s.activity.lifecycle == Completed)
  {
    CountsDecide(s.jobs);
    if Reconcile(s).outbox != s.outbox {
      assert Reconcile(s).outbox[..|s.outbox|] == s.outbox;
    }
  }

  /** Verification is asked for exactly when the barrier is due and it has not been asked for already. */
  lemma VerifyExactlyWhenDue(s: State)
    ensures
      var r := Reconcile(s);
      var asked := s.activity.waitingOn == Verifier && s.activity.verification == Pending;
      (exists n: Notice :: n.channel == VerifyChannel && r.outbox == s.outbox + [n])
      <==> BarrierDue(s.activity, s.jobs) && s.activity.handoffPolicy == Verify && !asked
  {
    CountsDecide(s.jobs);
    var r := Reconcile(s);
    assert forall n: Notice :: s.outbox != s.outbox + [n];
    if r.outbox != s.outbox {
      var n := r.outbox[|s.outbox|];
      assert r.outbox == s.outbox + [n];
    }
  }

  /** What every run keeps, from an Activity that is not completed and has an empty outbox. */
  ghost predicate Consistent(s: State) {
    && CountNotices(s.outbox, NotifyChannel) == (if s.activity.lifecycle == Completed then 1 else 0)
    && |s.outbox| == s.completionVersion
    && forall i :: 0 <= i < |s.outbox| ==> s.outbox[i].completionVersion == i + 1
  }

  lemma ReconcileConsistent(s: State)
    requires Consistent(s)
    ensures Consistent(Reconcile(s))
  {
    NotifyExactlyWhenDue(s);
    if NotifyDue(s) {
      assert Reconcile(s).outbox[..|s.outbox|] == s.outbox;
    }
  }

  /** Notify at most once, and outbox rows numbered consecutively, over every run. */
  lemma {:induction false} NotifyAtMostOnce(s: State, events: seq<Event>)
    requires s.activity.lifecycle != Completed && s.outbox == [] && s.completionVersion == 0
    ensures
      var r := ApplyAll(s, events);
      && CountNotices(r.outbox, NotifyChannel) <= 1
      && (CountNotices(r.outbox, NotifyChannel) == 1 <==> r.activity.lifecycle == Completed)
      && |r.outbox| == r.completionVersion
      && forall i :: 0 <= i < |r.outbox| ==> r.outbox[i].completionVersion == i + 1
  {
    RunConsistent(s, events);
  }

  lemma {:induction false} RunConsistent(s: State, events: seq<Event>)
    requires s.activity.lifecycle != Completed && s.outbox == [] && s.completionVersion == 0
    ensures Consistent(ApplyAll(s, events))
  {
    if events != [] {
      var before, e := ApplyAll(s, events[..|events| - 1]), events[|events| - 1];
      RunConsistent(s, events[..|events| - 1]);
      if Examined(before, e).Some? {
        ReconcileConsistent(Examined(before, e).value);
      }
    }
  }

  lemma LastEventNotice(s: State, events: seq<Event>)
    requires events != []
    ensures CountNotices(ApplyAll(s, events).outbox, NotifyChannel)
         == CountNotices(ApplyAll(s, events[..|events| - 1]).outbox, NotifyChannel)
            + (if DueAt(s, events, |events| - 1) then 1 else 0)
  {
    var before := ApplyAll(s, events[..|events| - 1]);
    var examined := Examined(before, events[|events| - 1]);
    if examined.Some? {
      NotifyExactlyWhenDue(examined.value);
      if NotifyDue(examined.value) {
        assert Reconcile(examined.value).outbox[..|before.outbox|] == before.outbox;
      }
    }
  }

  lemma DueInPrefix(s: State, events: seq<Event>, k: int)
    requires 0 <= k < |events| - 1
    ensures DueAt(s, events, k) <==> DueAt(s, events[..|events| - 1], k)
  {
    assert events[..k] == events[..|events| - 1][..k];
  }

  /** The notice of a run is written by the event that makes it due: there is one exactly when such an event is. */
  lemma {:induction false} NotifyWhenFirstDue(s: State, events: seq<Event>)
    requires CountNotices(s.outbox, NotifyChannel) == 0
    ensures CountNotices(ApplyAll(s, events).outbox, NotifyChannel) > 0 <==>
      exists k :: 0 <= k < |events| && DueAt(s, events, k)
  {
    if events != [] {
      var init := events[..|events| - 1];
      NotifyWhenFirstDue(s, init);
      LastEventNotice(s, events);
      if CountNotices(ApplyAll(s, init).outbox, NotifyChannel) > 0 {
        var k :| 0 <= k < |init| && DueAt(s, init, k);
        DueInPrefix(s, events, k);
      }
      if k :| 0 <= k < |events| && DueAt(s, events, k) {
        if k < |events| - 1 {
          DueInPrefix(s, events, k);
        }
      }
    }
  }

  /** Event k of the run is examined in a state where the notice is due. */
  predicate DueAt(s: State, events: seq<Event>, k: int)
    requires 0 <= k < |events|
  {
    var examined := Examined(ApplyAll(s, events[..k]), events[k]);
    examined.Some? && NotifyDue(examined.value)
  }

  /** A final Activity is absorbing: later events change its jobs only. */
  lemma {:induction false} FinalIsAbsorbing(s: State, events: seq<Event>)
    requires IsFinal(s.activity.lifecycle)
    ensures
      var r := ApplyAll(s, events);
      r.activity == s.activity && r.outbox == s.outbox && r.completionVersion == s.completionVersion
  {
    if events != [] {
      FinalIsAbsorbing(s, events[..|events| - 1]);
    }
  }

  /** Reconciling again without a job change writes nothing, for either channel. */
  lemma ReconcileIdempotent(s: State)
    ensures Reconcile(Reconcile(s)) == Reconcile(s)
  {
    DerivedIsFixed(s.activity, s.jobs);
  }
}
