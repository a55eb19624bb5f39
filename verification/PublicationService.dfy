/** Orchestration: publication followed by its audit, its rollback where policy says so, and retention. */
module PublicationServices {
  import opened Options
  import opened Failures
  import opened Remotes
  import opened Stores
  import opened CertificateServices
  import opened Protocol
  import opened Sessions
  import opened Reconcilers
  import opened Rollbacks
  import opened RetentionPlans
  import Audits

  /** Some versions' deletion was scheduled and nothing else about the certificate changed. */
  predicate OnlyScheduled(before: Remote, after: Remote, numbers: seq<nat>, at: int) {
    && after == before.(versions := after.versions, etag := after.etag)
    && after.versions.Keys == before.versions.Keys
    && forall n | n in before.versions ::
         after.versions[n] == if n in numbers then before.versions[n].(deletion := Some(at)) else before.versions[n]
  }

  lemma ScheduledOneMore(before: Remote, now: Remote, numbers: seq<nat>, at: int, n: nat)
    requires OnlyScheduled(before, now, numbers, at) && n in now.versions
    ensures OnlyScheduled(before, Schedule(now, n, at), numbers + [n], at)
  {
  }

  /** What a planned number may be scheduled under: listed once, unprotected, unreferenced, not yet scheduled. */
  predicate Schedulable(r: Remote, n: nat, referenced: set<nat>) {
    n in r.versions && r.versions[n].deletion.None? && Unprotected(r, n) && n !in referenced
  }

  lemma PlannedAreSchedulable(r: Remote, listed: seq<VersionView>, config: RetentionConfig,
                              referenced: set<nat>, now: int)
    requires Lists(r, listed)
    ensures var plan := PlanRetention(config, listed, referenced, now).versions;
            && (forall i, j | 0 <= i < j < |plan| :: plan[i] != plan[j])
            && (forall n | n in plan :: Schedulable(r, n, referenced))
  {
    PlanIsSafe(config, listed, referenced, now);
    forall n | n in PlanRetention(config, listed, referenced, now).versions ensures Schedulable(r, n, referenced) {
      var v :| v in listed && v.number == n && Eligible(v, config, referenced, now);
      assert v == View(r, n);
    }
  }

  function Planned(c: Context, config: RetentionConfig, now: int, listed: seq<VersionView>, t: Tables): RetentionPlan {
    PlanRetention(config, listed, ReferencedVersions(t, c.certificate), now)
  }

  /** The first `done` deletions of the plan for this listing were scheduled, and nothing else changed. */
  ghost predicate ScheduledByPlan(c: Context, config: RetentionConfig, now: int, listed: seq<VersionView>, done: nat,
                                  t: Tables, before: Remote, after: Remote)
  {
    var plan := Planned(c, config, now, listed, t);
    Lists(before, listed) && done <= |plan.versions|
    && OnlyScheduled(before, after, plan.versions[..done], plan.deletionTime)
  }

  /** What makes a version's deletion due: no stage but DEPRECATED, old enough, not scheduled, in nobody's use. */
  predicate Due(r: Remote, n: nat, config: RetentionConfig, referenced: set<nat>, now: int) {
    && n in r.versions && Unprotected(r, n) && n !in referenced
    && r.versions[n].deletion.None?
    && r.versions[n].created.Some? && r.versions[n].created.value + config.minimumAgeDays * 86_400 <= now
  }

  function DueVersions(r: Remote, config: RetentionConfig, referenced: set<nat>, now: int): set<nat> {
    set n | n in r.versions && Due(r, n, config, referenced, now)
  }

  /** Only due versions were scheduled, each for after the configured delay, and nothing else changed. */
  predicate OnlyDueScheduled(config: RetentionConfig, referenced: set<nat>, now: int, before: Remote, after: Remote) {
    && SamePointers(before, after) && after.next == before.next
    && after.versions.Keys == before.versions.Keys
    && forall n | n in before.versions && after.versions[n] != before.versions[n] ::
         && Due(before, n, config, referenced, now)
         && after.versions[n] == before.versions[n].(deletion := Some(now + config.deletionDelayDays * 86_400))
  }

  /** Of the versions that were due, as many are left as are to be kept. */
  predicate KeepsNewest(config: RetentionConfig, referenced: set<nat>, now: int, before: Remote, after: Remote) {
    var was := |DueVersions(before, config, referenced, now)|;
    |DueVersions(after, config, referenced, now)| == if was <= config.keep then was else config.keep
  }

  lemma EligibleIsDue(r: Remote, n: nat, config: RetentionConfig, referenced: set<nat>, now: int)
    requires n in r.versions
    ensures Eligible(View(r, n), config, referenced, now) <==> Due(r, n, config, referenced, now)
  {
  }

  lemma PlannedIsDue(r: Remote, listed: seq<VersionView>, config: RetentionConfig, referenced: set<nat>, now: int,
                     n: nat)
    requires Lists(r, listed) && n in PlanRetention(config, listed, referenced, now).versions
    ensures Due(r, n, config, referenced, now)
  {
    PlanIsSafe(config, listed, referenced, now);
    var v :| v in listed && v.number == n && Eligible(v, config, referenced, now);
    assert v == View(r, n);
    EligibleIsDue(r, n, config, referenced, now);
  }

  lemma SchedulingDueVersions(before: Remote, after: Remote, numbers: seq<nat>, at: int,
                              config: RetentionConfig, referenced: set<nat>, now: int)
    requires OnlyScheduled(before, after, numbers, at) && at == now + config.deletionDelayDays * 86_400
    requires forall n | n in numbers :: Due(before, n, config, referenced, now)
    ensures OnlyDueScheduled(config, referenced, now, before, after)
  {
  }

  lemma PlannedAreDue(c: Context, config: RetentionConfig, now: int, listed: seq<VersionView>, done: nat,
                      t: Tables, before: Remote, after: Remote)
    requires ScheduledByPlan(c, config, now, listed, done, t, before, after)
    ensures OnlyDueScheduled(config, ReferencedVersions(t, c.certificate), now, before, after)
  {
    var referenced := ReferencedVersions(t, c.certificate);
    var plan := PlanRetention(config, listed, referenced, now);
    var numbers := plan.versions[..done];
    forall n | n in numbers ensures Due(before, n, config, referenced, now) {
      PlannedIsDue(before, listed, config, referenced, now, n);
    }
    SchedulingDueVersions(before, after, numbers, plan.deletionTime, config, referenced, now);
  }

  lemma EligibleAreDue(r: Remote, listed: seq<VersionView>, config: RetentionConfig, referenced: set<nat>, now: int)
    requires Lists(r, listed)
    ensures DueVersions(r, config, referenced, now) == Numbers(EligibleVersions(listed, config, referenced, now))
  {
    var eligible := EligibleVersions(listed, config, referenced, now);
    EligibleMembers(listed, config, referenced, now);
    forall n ensures n in DueVersions(r, config, referenced, now) <==> n in Numbers(eligible) {
      if n in r.versions {
        EligibleIsDue(r, n, config, referenced, now);
        assert View(r, n) in listed;
      }
      if n in Numbers(eligible) {
        var v :| v in eligible && v.number == n;
        assert v in listed && v == View(r, n);
      }
    }
  }

  lemma StillDue(before: Remote, after: Remote, plan: RetentionPlan, config: RetentionConfig,
                 referenced: set<nat>, now: int)
    requires OnlyScheduled(before, after, plan.versions, plan.deletionTime)
    ensures forall n :: n in DueVersions(after, config, referenced, now) <==>
                        n in DueVersions(before, config, referenced, now) && n !in plan.versions
  {
  }

  lemma KeptAreStillDue(listed: seq<VersionView>, config: RetentionConfig, referenced: set<nat>, now: int,
                        before: Remote, after: Remote)
    requires Lists(before, listed) && config.enabled
    requires var plan := PlanRetention(config, listed, referenced, now);
             OnlyScheduled(before, after, plan.versions, plan.deletionTime)
    ensures DueVersions(after, config, referenced, now) ==
            Numbers(Retained(EligibleVersions(listed, config, referenced, now), config.keep))
  {
    var plan := PlanRetention(config, listed, referenced, now);
    var eligible := EligibleVersions(listed, config, referenced, now);
    var retained := Retained(eligible, config.keep);
    StillDue(before, after, plan, config, referenced, now);
    EligibleAreDue(before, listed, config, referenced, now);
    KeptAreRetained(config, listed, referenced, now);
    forall n ensures n in DueVersions(after, config, referenced, now) <==> n in Numbers(retained) {
      if n in Numbers(eligible) && n !in plan.versions {
        var v :| v in eligible && v.number == n;
        assert v in retained;
      }
      if n in Numbers(retained) {
        var v :| v in retained && v.number == n;
        assert v in eligible && v.number !in plan.versions;
      }
    }
  }

  /** Once a whole plan is scheduled, what is still due is what was to be kept of what was due. */
  lemma PlanLeavesTheKept(listed: seq<VersionView>, config: RetentionConfig, referenced: set<nat>, now: int,
                          before: Remote, after: Remote)
    requires Lists(before, listed) && config.enabled
    requires var plan := PlanRetention(config, listed, referenced, now);
             OnlyScheduled(before, after, plan.versions, plan.deletionTime)
    ensures KeepsNewest(config, referenced, now, before, after)
  {
    var eligible := EligibleVersions(listed, config, referenced, now);
    KeptAreStillDue(listed, config, referenced, now, before, after);
    EligibleAreDue(before, listed, config, referenced, now);
    EligibleNewestFirst(listed, config, referenced, now);
    DistinctNumbers(eligible);
    DistinctNumbers(Retained(eligible, config.keep));
  }

  datatype AuditPolicy = AuditPolicy(mode: Audits.Mode, rollbackOnFailure: bool)

  /** A successful audit closed its own row and every stale one of the certificate, and touched no other. */
  predicate Audited(c: Context, before: Tables, after: Tables) {
    var operation := |before.operations|;
    && |after.operations| == operation + 1
    && after.operations[operation].kind == AUDIT && after.operations[operation].state == COMPLETED
    && (forall i | 0 <= i < operation ::
          if StaleAudit(before.operations[i], c.certificate)
          then after.operations[i].state == COMPLETED && after.operations[i].version == before.operations[i].version
          else after.operations[i] == before.operations[i])
    && after.certificates.Keys == before.certificates.Keys + {c.certificate}
    && (var was, now := StateOf(before, c.certificate), StateOf(after, c.certificate);
        now.auditedAt.Some? && now == was.(auditedAt := now.auditedAt))
  }

  predicate AuditRejected(c: Context, before: Tables, after: Tables) {
    var operation := |before.operations|;
    && |after.operations| == operation + 1
    && after.operations[..operation] == before.operations && after.certificates == before.certificates
    && after.operations[operation].kind == AUDIT && after.operations[operation].state == AUDIT_FAILED
    && after.operations[operation].error == Some("AUDIT_FAILED")
  }

  /** A fault leaves the audit row pending, for a later successful audit to close. */
  predicate AuditLeftOpen(c: Context, before: Tables, after: Tables) {
    Underway(c, AUDIT, before, after) && StaleAudit(after.operations[|before.operations|], c.certificate)
  }

  lemma AuditStatements(c: Context, before: Tables, succeeded: Tables, noted: int, finished: int, closed: int)
    requires Underway(c, AUDIT, before, succeeded)
    ensures var operation := |before.operations|;
            var recorded := AuditRecorded(succeeded, c.certificate, noted);
            var completed := Transitioned(recorded, operation, To(COMPLETED), finished);
            Audited(c, before, AuditsClosed(completed, c.certificate, operation, closed))
  {
    var operation := |before.operations|;
    forall i | 0 <= i < operation ensures succeeded.operations[i] == before.operations[i] {
      assert succeeded.operations[..operation][i] == before.operations[i];
    }
  }

  /** What the audit command reports: a mismatch as false, an audit error and any other fault as raised. */
  function Reported(verdict: Audits.Verdict): Result<bool, Failure> {
    match verdict
    case Converged => Ok(true)
    case Mismatched => Ok(false)
    case Raised => Err(AuditUnsuccessful)
    case Faulted => Err(Transport)
  }

  predicate SamePointers(r: Remote, after: Remote) {
    after.current == r.current && after.previous == r.previous
    && after.pending == r.pending && after.latest == r.latest
  }

  /** A failed audit that policy answers with a rollback. */
  predicate RollsBack(policy: AuditPolicy, verdict: Audits.Verdict) {
    policy.mode.ENFORCE? && policy.rollbackOnFailure && (verdict.Mismatched? || verdict.Raised?)
  }

  /** When the audit after a publication lets the command succeed. */
  predicate Passes(policy: AuditPolicy, verdict: Audits.Verdict, rollbackVerdict: Audits.Verdict) {
    match policy.mode
    case DISABLED => true
    case OBSERVE => !verdict.Faulted?
    case ENFORCE => verdict.Converged? || (RollsBack(policy, verdict) && rollbackVerdict.Converged?)
  }

  /** CURRENT and PREVIOUS changed places. */
  predicate Exchanged(r: Remote, after: Remote) {
    && r.previous.Some? && EligiblePrevious(r) == {r.previous.value}
    && after.current == r.previous && after.previous == r.current
  }

  /** An audit can find out what to expect. */
  predicate Auditable(c: Context, r: Remote, accepts: Acceptance) {
    c.ocid.Some? && r.current.Some? && Acceptable(r, r.current, accepts)
  }

  /** No more versions are due than are to be kept. */
  predicate Tidy(c: Context, config: RetentionConfig, now: int, t: Tables, r: Remote) {
    |DueVersions(r, config, ReferencedVersions(t, c.certificate), now)| <= config.keep
  }

  lemma RollbackTargetSurvives(r: Remote)
    requires WellFormed(r) && ScheduledAreDeprecated(r) && r.previous.Some?
    ensures EligiblePrevious(r) == {r.previous.value}
  {
    PreviousIsUnique(r);
    assert PREVIOUS in Stages(r, r.previous.value);
  }

  /** A run of the only writer that moved CURRENT, wherever it stops, leaves one version to roll back to. */
  lemma MovedKeepsTarget(only: bool, c: Context, before: World, after: World)
    requires only ==> Reaches(c, before, after)
    ensures only && Sound(before, c.certificate) && before.remote.current.Some?
            && after.remote.current != before.remote.current ==>
              |EligiblePrevious(after.remote)| == 1
  {
    if only && Sound(before, c.certificate) && before.remote.current.Some? {
      RunKeepsTarget(c, before, after);
      RunKeepsSound(c, before, after);
      if after.remote.current != before.remote.current {
        RollbackTargetSurvives(after.remote);
      }
    }
  }

  /** After a publication that moved CURRENT, what was CURRENT can be restored. */
  lemma PublishedIsRestorable(only: bool, c: Context, before: World, after: World, accepts: Acceptance, changed: bool)
    requires only ==> Reaches(c, before, after)
    ensures only && changed && Sound(before, c.certificate) && before.remote.current.Some?
            && Acceptable(before.remote, before.remote.current, accepts)
            && after.remote.previous == before.remote.current ==>
              Restorable(after.remote, accepts)
  {
    if only && changed && Sound(before, c.certificate) && after.remote.previous == before.remote.current
       && before.remote.current.Some?
    {
      RunKeepsSound(c, before, after);
      assert PREVIOUS in Stages(after.remote, after.remote.previous.value);
    }
  }

  /** What follows a publication changes the material of no version and forgets no renewal. */
  lemma FollowedKeeps(c: Context, before: World, after: World)
    requires Reaches(c, before, after) && WellFormed(before.remote) && WellFormed(after.remote)
    ensures Serves(before.remote, c.local) && after.remote.current == before.remote.current ==>
              Serves(after.remote, c.local)
    ensures StateOf(before.tables, c.certificate).renewedAt.Some? ==>
              StateOf(after.tables, c.certificate).renewedAt.Some?
  {
    RunKeepsMaterial(c, before, after);
    if StateOf(before.tables, c.certificate).renewedAt.Some? {
      RunKeepsRenewal(c, before, after);
    }
  }

  /** A publication and what follows it are one run, with what either of them keeps. */
  lemma WholeCommand(c: Context, start: World, middle: World, last: World)
    requires Reaches(c, start, middle) && Reaches(c, middle, last)
    requires WellFormed(middle.remote) && WellFormed(last.remote)
    ensures Reaches(c, start, last)
    ensures Serves(middle.remote, c.local) && last.remote.current == middle.remote.current ==>
              Serves(last.remote, c.local)
    ensures StateOf(middle.tables, c.certificate).renewedAt.Some? ==>
              StateOf(last.tables, c.certificate).renewedAt.Some?
    ensures Sound(start, c.certificate)
            && (last.remote.previous.Some?
                || (start.remote.current.Some? && last.remote.current != start.remote.current)) ==>
              |EligiblePrevious(last.remote)| == 1
  {
    FollowedKeeps(c, middle, last);
    ReachesThrough(c, start, middle, last);
    MovedKeepsTarget(true, c, start, last);
    if Sound(start, c.certificate) && last.remote.previous.Some? {
      RunKeepsSound(c, start, last);
      RollbackTargetSurvives(last.remote);
    }
  }

  class PublicationService {
    const service: CertificateService
    const store: StateStore

    constructor (service: CertificateService, store: StateStore)
      ensures this.service == service && this.store == store
    {
      this.service, this.store := service, store;
    }

    ghost function At(live: Option<Live>): World
      reads service, store
    {
      WorldAt(service, store, live)
    }

    /** The versions open operations of the certificate refer to. */
    method Referenced(certificate: string) returns (referenced: set<nat>)
      ensures referenced == ReferencedVersions(store.Contents(), certificate)
    {
      var ids := store.ActiveIds(certificate);
      referenced := {};
      for k := 0 to |ids|
        invariant referenced == set i | i in ids[..k] && i < |store.operations| && store.operations[i].version.Some?
                                     :: store.operations[i].version.value
      {
        assert ids[k] in ActiveOperations(store.Contents(), certificate);
        assert ids[..k + 1] == ids[..k] + [ids[k]];
        if store.operations[ids[k]].version.Some? {
          referenced := referenced + {store.operations[ids[k]].version.value};
        }
      }
      assert ids[..|ids|] == ids;
    }

    /** Schedule the planned deletions one by one, reading the tag anew before each request. */
    method ScheduleAll(c: Context, numbers: seq<nat>, at: int, ghost start: World)
      returns (r: Result<(), Failure>, ghost done: nat)
      requires WellFormed(service.remote)
      requires forall i, j | 0 <= i < j < |numbers| :: numbers[i] != numbers[j]
      requires service.exclusive ==>
                 forall n | n in numbers ::
                   Schedulable(service.remote, n, ReferencedVersions(store.Contents(), c.certificate))
      requires service.exclusive ==> Reaches(c, start, At(None))
      modifies service`remote, service`requests
      ensures WellFormed(service.remote) && done <= |numbers|
      ensures service.exclusive ==> Reaches(c, start, At(None))
      ensures service.exclusive ==> OnlyScheduled(old(service.remote), service.remote, numbers[..done], at)
      ensures service.exclusive && numbers == [] ==> service.remote == old(service.remote)
      ensures r.Ok? ==> done == |numbers|
      ensures service.exclusive && service.steady ==> r.Ok?
    {
      done := 0;
      for i := 0 to |numbers|
        invariant WellFormed(service.remote) && done == i
        invariant service.exclusive && i == 0 ==> service.remote == old(service.remote)
        invariant service.exclusive ==> Reaches(c, start, At(None))
        invariant service.exclusive ==> OnlyScheduled(old(service.remote), service.remote, numbers[..i], at)
      {
        assert numbers[i] !in numbers[..i] && numbers[i] in numbers;
        assert numbers[..i + 1] == numbers[..i] + [numbers[i]];
        var version :- service.GetVersion(numbers[i]);
        ghost var unscheduled := service.remote;
        if service.exclusive {
          ScheduledOneMore(old(service.remote), unscheduled, numbers[..i], at, numbers[i]);
        }
        var scheduled, sent := service.ScheduleVersionDeletion(numbers[i], at, version.etag);
        StepSchedule(service.exclusive, c, start, World(unscheduled, store.Contents(), None),
                     sent.applied, numbers[i], at);
        done := if sent.applied then i + 1 else i;
        if scheduled.Err? {
          return Err(scheduled.error), done;
        }
      }
      return Ok(()), |numbers|;
    }

    /** Schedule deletion only for due versions, and for all of them but the newest to be kept. */
    method Retention(c: Context, config: RetentionConfig, now: int) returns (r: Result<seq<nat>, Failure>)
      requires WellFormed(service.remote)
      modifies service`remote, service`requests
      ensures WellFormed(service.remote)
      ensures c.ocid.None? ==>
                r.Err? && service.remote == old(service.remote) && service.requests == old(service.requests)
      ensures service.exclusive ==> Reaches(c, old(At(None)), At(None))
      ensures service.exclusive ==>
                OnlyDueScheduled(config, ReferencedVersions(store.Contents(), c.certificate), now,
                                 old(service.remote), service.remote)
      ensures service.exclusive && !config.enabled ==> service.remote == old(service.remote)
      ensures service.exclusive && r.Ok? && config.enabled ==>
                KeepsNewest(config, ReferencedVersions(store.Contents(), c.certificate), now,
                            old(service.remote), service.remote)
      ensures service.exclusive && service.steady && c.ocid.Some? ==> r.Ok?
    {
      ghost var before := service.remote;
      var scheduled, listed, done := SchedulePlan(c, config, now);
      if service.exclusive {
        if service.remote != before {
          PlannedAreDue(c, config, now, listed, done, store.Contents(), before, service.remote);
        }
        if scheduled.Ok? {
          ghost var plan := Planned(c, config, now, listed, store.Contents());
          assert plan.versions[..done] == plan.versions;
          if config.enabled {
            PlanLeavesTheKept(listed, config, ReferencedVersions(store.Contents(), c.certificate), now,
                              before, service.remote);
          }
        }
      }
      return scheduled;
    }

    /** List the versions, plan, and schedule the plan. */
    method SchedulePlan(c: Context, config: RetentionConfig, now: int)
      returns (r: Result<seq<nat>, Failure>, ghost listed: seq<VersionView>, ghost done: nat)
      requires WellFormed(service.remote)
      modifies service`remote, service`requests
      ensures WellFormed(service.remote)
      ensures service.exclusive ==> Reaches(c, old(At(None)), At(None))
      ensures service.exclusive ==>
                || service.remote == old(service.remote)
                || ScheduledByPlan(c, config, now, listed, done, store.Contents(), old(service.remote), service.remote)
      ensures service.exclusive && r.Ok? ==>
                && ScheduledByPlan(c, config, now, listed, done, store.Contents(), old(service.remote), service.remote)
                && r.value == Planned(c, config, now, listed, store.Contents()).versions && done == |r.value|
      ensures c.ocid.None? ==>
                r.Err? && service.remote == old(service.remote) && service.requests == old(service.requests)
      ensures service.exclusive && !config.enabled ==> service.remote == old(service.remote)
      ensures service.exclusive && service.steady && c.ocid.Some? ==> r.Ok?
    {
      listed, done := [], 0;
      ghost var start := At(None);
      ReachesItself(c, start);
      if c.ocid.None? {
        return Err(PublicationFailed("retention requires a configured OCI certificate OCID")), listed, done;
      }
      var versions :- service.ListVersions();
      listed := versions;
      var referenced := Referenced(c.certificate);
      var plan := PlanRetention(config, versions, referenced, now);
      PlannedAreSchedulable(service.remote, versions, config, referenced, now);
      var scheduled, count := ScheduleAll(c, plan.versions, plan.deletionTime, start);
      done := count;
      if scheduled.Err? {
        return Err(scheduled.error), listed, done;
      }
      assert plan.versions[..done] == plan.versions;
      return Ok(plan.versions), listed, done;
    }

    /** Audit the endpoints against CURRENT; the verdict is what probing them yields. */
    method Audit(c: Context, accepts: Acceptance, verdict: Audits.Verdict)
      returns (r: Result<bool, Failure>, ghost last: Option<Live>)
      requires WellFormed(service.remote)
      modifies service`remote, store
      ensures WellFormed(service.remote)
      ensures service.exclusive ==> Reaches(c, old(At(None)), At(last)) && service.remote == old(service.remote)
      ensures r == Ok(true) ==>
                && last.None? && verdict.Converged? && Audited(c, old(store.Contents()), store.Contents())
                && var operation := |old(store.operations)|;
                   store.journal == old(store.journal)
                                    + [(operation, AUDIT_PENDING), (operation, AUDIT_SUCCESS), (operation, COMPLETED)]
      ensures r == Ok(false) ==>
                last.None? && verdict.Mismatched? && AuditRejected(c, old(store.Contents()), store.Contents())
      ensures r == Err(AuditUnsuccessful) ==> verdict.Raised?
      ensures r.Ok? && service.exclusive ==>
                service.remote.current.Some? && Acceptable(service.remote, service.remote.current, accepts)
      ensures c.ocid.None? ==> r.Err? && store.Contents() == old(store.Contents())
      ensures service.exclusive && service.steady && store.reliable && c.ocid.Some?
              && service.remote.current.Some? && Acceptable(service.remote, service.remote.current, accepts) ==>
                && r == Reported(verdict)
                && (verdict.Raised? ==> AuditRejected(c, old(store.Contents()), store.Contents()))
                && (verdict.Faulted? ==> AuditLeftOpen(c, old(store.Contents()), store.Contents()))
    {
      ghost var start, before := At(None), store.Contents();
      var opening, live := OpenAudit(c);
      last := live;
      var operation :- opening;
      var _ :- ReadExpected(accepts);
      r, last := RecordAudit(c, operation, verdict, before, start);
    }

    /** Log the audit and that it is pending. */
    method OpenAudit(c: Context) returns (r: Result<nat, Failure>, ghost last: Option<Live>)
      modifies store
      ensures service.exclusive ==> Reaches(c, old(At(None)), At(last))
      ensures r.Ok? ==>
                && r.value == |old(store.operations)| && last == Some(Live(r.value, false))
                && AuditLeftOpen(c, old(store.Contents()), store.Contents())
                && store.journal == old(store.journal) + [(r.value, AUDIT_PENDING)]
      ensures r.Err? ==> !r.error.AuditUnsuccessful?
      ensures c.ocid.None? ==> r.Err? && store.Contents() == old(store.Contents())
      ensures store.reliable && c.ocid.Some? ==> r.Ok?
    {
      ghost var start, before := At(None), store.Contents();
      var opening, live := OpenOperation(service, store, c, AUDIT,
                                         PublicationFailed("audit requires a configured OCI certificate OCID"));
      last := live;
      var operation :- opening;
      var _ :- Persist(service, store, c, AUDIT, operation, To(AUDIT_PENDING), before, start, last.value);
      return Ok(operation), last;
    }

    /** The fingerprint the endpoints are to serve: CURRENT's, once its bundle validates. */
    method ReadExpected(accepts: Acceptance) returns (r: Result<Fingerprint, Failure>)
      requires WellFormed(service.remote)
      modifies service`remote
      ensures WellFormed(service.remote) && (service.exclusive ==> service.remote == old(service.remote))
      ensures r.Ok? ==> Serves(service.remote, r.value) && accepts(r.value)
      ensures r.Err? ==> !r.error.AuditUnsuccessful?
      ensures service.exclusive && service.steady
              && service.remote.current.Some? && Acceptable(service.remote, service.remote.current, accepts) ==>
                r.Ok?
    {
      var bundle :- service.GetPublicBundle(None);
      return if accepts(bundle.fingerprint) then Ok(bundle.fingerprint) else Err(Validation);
    }

    method RecordAudit(c: Context, operation: nat, verdict: Audits.Verdict, ghost before: Tables, ghost start: World)
      returns (r: Result<bool, Failure>, ghost last: Option<Live>)
      requires operation == |before.operations| && Underway(c, AUDIT, before, store.Contents())
      requires service.exclusive ==> Reaches(c, start, At(Some(Live(operation, false))))
      modifies store
      ensures service.exclusive ==> Reaches(c, start, At(last))
      ensures r == Ok(true) ==>
                && last.None? && verdict.Converged? && Audited(c, before, store.Contents())
                && store.journal == old(store.journal) + [(operation, AUDIT_SUCCESS), (operation, COMPLETED)]
      ensures r == Ok(false) ==> last.None? && verdict.Mismatched? && AuditRejected(c, before, store.Contents())
      ensures r == Err(AuditUnsuccessful) ==> verdict.Raised?
      ensures store.reliable ==>
                && r == Reported(verdict)
                && (verdict.Raised? ==> AuditRejected(c, before, store.Contents()))
                && (verdict.Faulted? ==> last.Some? && store.Contents() == old(store.Contents()))
    {
      ghost var live := Live(operation, false);
      last := Some(live);
      if verdict.Faulted? {
        return Err(Transport), last;
      }
      if verdict.Converged? {
        r, last := CompleteAudit(c, operation, before, start);
      } else {
        ghost var pending := store.Contents();
        var failed := Change(AUDIT_FAILED, None, None, Some("AUDIT_FAILED"));
        var _ :- store.Transition(operation, failed);
        StepFinish(service.exclusive, c, start, World(service.remote, pending, last), failed, store.clock);
        return if verdict.Raised? then Err(AuditUnsuccessful) else Ok(false), None;
      }
    }

    /** Record a successful audit, close its operation and then every stale one. */
    method CompleteAudit(c: Context, operation: nat, ghost before: Tables, ghost start: World)
      returns (r: Result<bool, Failure>, ghost last: Option<Live>)
      requires operation == |before.operations| && Underway(c, AUDIT, before, store.Contents())
      requires service.exclusive ==> Reaches(c, start, At(Some(Live(operation, false))))
      modifies store
      ensures service.exclusive ==> Reaches(c, start, At(last))
      ensures r.Ok? ==>
                && r.value && last.None? && Audited(c, before, store.Contents())
                && store.journal == old(store.journal) + [(operation, AUDIT_SUCCESS), (operation, COMPLETED)]
      ensures r.Err? ==> OfStore(r.error)
      ensures store.reliable ==> r.Ok?
    {
      ghost var live := Live(operation, false);
      last := Some(live);
      var _ :- Persist(service, store, c, AUDIT, operation, To(AUDIT_SUCCESS), before, start, live);
      ghost var succeeded := store.Contents();
      var _ :- store.RecordAuditSuccess(c.certificate);
      ghost var noted := store.clock;
      StepRecordAudit(service.exclusive, c, start, World(service.remote, succeeded, last), noted);
      ghost var recorded := store.Contents();
      var _ :- store.Transition(operation, To(COMPLETED));
      ghost var finished := store.clock;
      StepFinish(service.exclusive, c, start, World(service.remote, recorded, last), To(COMPLETED), finished);
      last := None;
      ghost var completed := store.Contents();
      var _ :- store.CompleteInterruptedAudits(c.certificate, operation);
      StepCloseAudits(service.exclusive, c, start, World(service.remote, completed, last), operation, store.clock);
      AuditStatements(c, before, succeeded, noted, finished, store.clock);
      return Ok(true), None;
    }

    /** Audit and treat an audit error as a mismatch; any other exception is raised. */
    method AuditOutcome(c: Context, accepts: Acceptance, verdict: Audits.Verdict)
      returns (r: Result<bool, Failure>, ghost last: Option<Live>)
      requires WellFormed(service.remote)
      modifies service`remote, store
      ensures WellFormed(service.remote)
      ensures service.exclusive ==> Reaches(c, old(At(None)), At(last)) && service.remote == old(service.remote)
      ensures r.Ok? ==> last.None?
      ensures r.Ok? ==> if r.value then verdict.Converged? else verdict.Mismatched? || verdict.Raised?
      ensures service.exclusive && Auditable(c, old(service.remote), accepts) && service.steady && store.reliable ==>
                if verdict.Faulted? then r.Err? else r == Ok(verdict.Converged?)
    {
      ghost var start := At(None);
      var audited, ending := Audit(c, accepts, verdict);
      last := ending;
      if audited.Err? && audited.error != AuditUnsuccessful {
        return Err(audited.error), last;
      }
      StepStop(service.exclusive, c, start, At(last));
      assert audited.Ok? ==> audited == Ok(audited.value);
      return Ok(audited.Ok? && audited.value), None;
    }

    /** Audit in enforce mode: where it fails, raise, or roll back if policy says so. */
    method EnforcePostPublicationAudit(c: Context, accepts: Acceptance, readAttempts: nat, policy: AuditPolicy,
                                       verdict: Audits.Verdict, rollbackVerdict: Audits.Verdict)
      returns (r: Result<(), Failure>, ghost last: Option<Live>)
      requires WellFormed(service.remote) && 1 <= readAttempts && policy.mode.ENFORCE?
      modifies service`remote, service`requests, store
      ensures WellFormed(service.remote)
      ensures service.exclusive ==> Reaches(c, old(At(None)), At(last))
      ensures service.exclusive ==>
                || service.remote == old(service.remote)
                || (RollsBack(policy, verdict) && EligiblePrevious(old(service.remote)) != {}
                    && service.remote == RolledBack(old(service.remote)))
      ensures r.Ok? ==> last.None?
      ensures r.Ok? && !policy.rollbackOnFailure ==> verdict.Converged?
      // an enforced audit that failed succeeds only by restoring PREVIOUS
      ensures service.exclusive && r.Ok? && RollsBack(policy, verdict) ==>
                && EligiblePrevious(old(service.remote)) != {}
                && service.remote == RolledBack(old(service.remote))
      ensures service.exclusive && Auditable(c, old(service.remote), accepts) && service.reliable && store.reliable
              && (RollsBack(policy, verdict) ==> Restorable(old(service.remote), accepts)) ==>
                && (r.Ok? <==> Passes(policy, verdict, rollbackVerdict))
                && (RollsBack(policy, verdict) ==>
                      old(service.remote).previous.Some? && service.remote == RolledBack(old(service.remote)))
    {
      ghost var start := At(None);
      var audited, ending := AuditOutcome(c, accepts, verdict);
      last := ending;
      var successful :- audited;
      if successful {
        return Ok(()), None;
      }
      if !policy.rollbackOnFailure {
        return Err(AuditUnsuccessful), None;
      }
      ghost var middle := At(None);
      var rollback := new RollbackService(service, store);
      var restored, settled, sent := rollback.Rollback(c, accepts, readAttempts, Some(rollbackVerdict));
      last := settled;
      if service.exclusive {
        ReachesThrough(c, start, middle, At(last));
      }
      r := if restored.Ok? then Ok(()) else Err(restored.error);
    }

    /** Audit after a publication as policy says: not at all, only to observe, or to enforce. */
    method RunPostPublicationAudit(c: Context, accepts: Acceptance, readAttempts: nat, policy: AuditPolicy,
                                   verdict: Audits.Verdict, rollbackVerdict: Audits.Verdict)
      returns (r: Result<(), Failure>, ghost last: Option<Live>)
      requires WellFormed(service.remote) && 1 <= readAttempts
      modifies service`remote, service`requests, store
      ensures WellFormed(service.remote)
      ensures service.exclusive ==> Reaches(c, old(At(None)), At(last))
      ensures service.exclusive ==>
                || service.remote == old(service.remote)
                || (RollsBack(policy, verdict) && EligiblePrevious(old(service.remote)) != {}
                    && service.remote == RolledBack(old(service.remote)))
      ensures r.Ok? ==> last.None?
      ensures r.Ok? && policy == AuditPolicy(Audits.ENFORCE, false) ==> verdict.Converged?
      ensures policy.mode.DISABLED? ==>
                && r.Ok? && service.remote == old(service.remote)
                && service.requests == old(service.requests) && store.Contents() == old(store.Contents())
      ensures service.exclusive && r.Ok? && RollsBack(policy, verdict) ==>
                && EligiblePrevious(old(service.remote)) != {}
                && service.remote == RolledBack(old(service.remote))
      ensures service.exclusive && Auditable(c, old(service.remote), accepts) && service.reliable && store.reliable
              && (RollsBack(policy, verdict) ==> Restorable(old(service.remote), accepts)) ==>
                && (r.Ok? <==> Passes(policy, verdict, rollbackVerdict))
                && (RollsBack(policy, verdict) ==>
                      old(service.remote).previous.Some? && service.remote == RolledBack(old(service.remote)))
    {
      if policy.mode == Audits.DISABLED {
        ReachesItself(c, At(None));
        return Ok(()), None;
      }
      if policy.mode == Audits.ENFORCE {
        r, last := EnforcePostPublicationAudit(c, accepts, readAttempts, policy, verdict, rollbackVerdict);
        return;
      }
      var audited, ending := AuditOutcome(c, accepts, verdict);
      r, last := if audited.Ok? then Ok(()) else Err(audited.error), ending;
    }

    /** Retention after publication; the failures it may meet never invalidate CURRENT. */
    method RunPostPublicationRetention(c: Context, config: RetentionConfig, now: int)
      returns (r: Result<(), Failure>, ghost met: Result<seq<nat>, Failure>)
      requires WellFormed(service.remote)
      modifies service`remote, service`requests
      ensures WellFormed(service.remote)
      ensures service.exclusive ==> Reaches(c, old(At(None)), At(None))
      ensures service.exclusive ==>
                OnlyDueScheduled(config, ReferencedVersions(store.Contents(), c.certificate), now,
                                 old(service.remote), service.remote)
      ensures !config.enabled ==>
                r.Ok? && service.remote == old(service.remote) && service.requests == old(service.requests)
      ensures service.exclusive && config.enabled && met.Ok? ==>
                KeepsNewest(config, ReferencedVersions(store.Contents(), c.certificate), now,
                            old(service.remote), service.remote)
      // what retention met is raised exactly when it is none of the failures to be swallowed
      ensures config.enabled ==>
                if met.Ok? || met.error.OciCertificate? || met.error.Transport?
                   || met.error.PublicationFailed? || met.error.Database?
                then r.Ok?
                else r == Err(met.error)
      ensures service.exclusive && service.steady && c.ocid.Some? && config.enabled ==> met.Ok?
    {
      met := Ok([]);
      ReachesItself(c, At(None));
      if !config.enabled {
        return Ok(()), met;
      }
      var scheduled := Retention(c, config, now);
      met := scheduled;
      if scheduled.Err? {
        match scheduled.error
        case OciCertificate(_) =>
        case Transport =>
        case PublicationFailed(_) =>
        case Database =>
        case _ => return Err(scheduled.error), met;
      }
      return Ok(()), met;
    }

    /** The audit and the retention that follow a publication. */
    method FollowUp(c: Context, accepts: Acceptance, readAttempts: nat, policy: AuditPolicy,
                    verdict: Audits.Verdict, rollbackVerdict: Audits.Verdict, retention: RetentionConfig, now: int)
      returns (r: Result<(), Failure>, ghost last: Option<Live>)
      requires WellFormed(service.remote) && 1 <= readAttempts
      modifies service`remote, service`requests, store
      ensures WellFormed(service.remote)
      ensures service.exclusive ==> Reaches(c, old(At(None)), At(last))
      ensures r.Ok? ==> last.None?
      ensures policy.mode.DISABLED? ==> store.Contents() == old(store.Contents())
      ensures r.Ok? && policy == AuditPolicy(Audits.ENFORCE, false) ==> verdict.Converged?
      ensures service.exclusive ==>
                || SamePointers(old(service.remote), service.remote)
                || (RollsBack(policy, verdict) && Exchanged(old(service.remote), service.remote))
      ensures service.exclusive && r.Ok? && RollsBack(policy, verdict) ==>
                Exchanged(old(service.remote), service.remote)
      ensures service.exclusive && Auditable(c, old(service.remote), accepts) && service.reliable && store.reliable
              && (RollsBack(policy, verdict) ==> Restorable(old(service.remote), accepts)) ==>
                && (r.Ok? <==> Passes(policy, verdict, rollbackVerdict))
                && (RollsBack(policy, verdict) ==> Exchanged(old(service.remote), service.remote))
                && (r.Ok? && retention.enabled ==> Tidy(c, retention, now, store.Contents(), service.remote))
    {
      ghost var start, before := At(None), service.remote;
      PreviousIsUnique(before);
      var audited, ending := RunPostPublicationAudit(c, accepts, readAttempts, policy, verdict, rollbackVerdict);
      last := ending;
      if audited.Err? {
        return Err(audited.error), last;
      }
      ghost var middle := At(None);
      var retained, met := RunPostPublicationRetention(c, retention, now);
      r := retained;
      if service.exclusive {
        ReachesThrough(c, start, middle, At(None));
      }
    }

    /** Converge the certificate to the local material, and what the audit that follows may rely on. */
    method Converge(c: Context, kind: OperationType, accepts: Acceptance, promoteAttempts: nat, readAttempts: nat)
      returns (r: Result<PublicationResult, Failure>, ghost last: Option<Live>)
      requires WellFormed(service.remote) && Publishes(kind)
      requires 1 <= promoteAttempts <= 10 && 1 <= readAttempts
      modifies service`remote, service`requests, store
      ensures WellFormed(service.remote)
      ensures service.exclusive ==> Reaches(c, old(At(None)), At(last))
      ensures service.exclusive && Sound(old(At(None)), c.certificate)
              && old(service.remote).current.Some? && service.remote.current != old(service.remote).current ==>
                |EligiblePrevious(service.remote)| == 1
      ensures r.Ok? ==>
                && r.value.fingerprint == c.local && last.None? && accepts(c.local) && c.ocid.Some?
                && service.remote.current == Some(r.value.version) && Serves(service.remote, c.local)
                && Published(c, kind, old(store.Contents()), store.Contents(), r.value.version)
                && (kind.RENEW? ==> StateOf(store.Contents(), c.certificate).renewedAt.Some?)
      ensures service.exclusive && r.Ok? && !r.value.changed ==> service.remote == old(service.remote)
      ensures service.exclusive && r.Ok? && r.value.changed ==>
                && old(service.remote).current.Some? && service.remote.previous == old(service.remote).current
                && !Serves(old(service.remote), c.local)
                && (Sound(old(At(None)), c.certificate) ==> Restorable(service.remote, accepts))
      ensures service.exclusive && service.reliable && store.reliable && c.ocid.Some?
              && Publishable(old(service.remote), c.local, accepts) ==>
                r.Ok?
    {
      ghost var start := At(None);
      var reconciler := new PublicationReconciler(service, store);
      var published, live, uploads, promotions :=
        reconciler.Publish(c, kind, accepts, promoteAttempts, readAttempts);
      r, last := published, live;
      MovedKeepsTarget(service.exclusive, c, start, At(last));
      if r.Ok? {
        PublishedIsRestorable(service.exclusive, c, start, At(None), accepts, r.value.changed);
      }
    }

    /** Publish validated local material, audit it, and tidy up old versions. */
    method Publish(c: Context, kind: OperationType, accepts: Acceptance, promoteAttempts: nat, readAttempts: nat,
                   policy: AuditPolicy, verdict: Audits.Verdict, rollbackVerdict: Audits.Verdict,
                   retention: RetentionConfig, now: int)
      returns (r: Result<PublicationResult, Failure>, ghost last: Option<Live>)
      requires WellFormed(service.remote) && Publishes(kind)
      requires 1 <= promoteAttempts <= 10 && 1 <= readAttempts
      modifies service`remote, service`requests, store
      ensures WellFormed(service.remote)
      ensures service.exclusive ==> Reaches(c, old(At(None)), At(last))
      ensures r.Ok? ==> r.value.fingerprint == c.local && last.None? && accepts(c.local)
      ensures r.Ok? && policy == AuditPolicy(Audits.ENFORCE, false) ==> verdict.Converged?
      ensures service.exclusive && r.Ok? && kind.RENEW? ==>
                StateOf(store.Contents(), c.certificate).renewedAt.Some?
      // a success serves the local material, unless policy rolled it back: then it is PREVIOUS
      ensures service.exclusive && r.Ok? && !RollsBack(policy, verdict) ==>
                service.remote.current == Some(r.value.version) && Serves(service.remote, c.local)
      ensures service.exclusive && r.Ok? && RollsBack(policy, verdict) ==>
                && service.remote.previous == Some(r.value.version)
                && (r.value.changed ==> service.remote.current == old(service.remote).current)
      // a publication that moved CURRENT leaves exactly one version to roll back to
      ensures service.exclusive && r.Ok? && r.value.changed && Sound(old(At(None)), c.certificate) ==>
                |EligiblePrevious(service.remote)| == 1
      // as does a command that failed or died after it moved CURRENT
      ensures service.exclusive && Sound(old(At(None)), c.certificate)
              && old(service.remote).current.Some? && service.remote.current != old(service.remote).current ==>
                |EligiblePrevious(service.remote)| == 1
      // without faults it succeeds exactly when the policy is content, and leaves no more old versions than are kept
      ensures service.exclusive && service.reliable && store.reliable && c.ocid.Some?
              && Publishable(old(service.remote), c.local, accepts) && Sound(old(At(None)), c.certificate)
              && (RollsBack(policy, verdict) && Serves(old(service.remote), c.local) ==>
                    Restorable(old(service.remote), accepts)) ==>
                && (r.Ok? <==> Passes(policy, verdict, rollbackVerdict))
                && (r.Ok? && retention.enabled ==> Tidy(c, retention, now, store.Contents(), service.remote))
    {
      ghost var start := At(None);
      var published, live := Converge(c, kind, accepts, promoteAttempts, readAttempts);
      last := live;
      if published.Err? {
        return Err(published.error), last;
      }
      ghost var middle := At(None);
      var followed, ending := FollowUp(c, accepts, readAttempts, policy, verdict, rollbackVerdict, retention, now);
      last := ending;
      if service.exclusive {
        WholeCommand(c, start, middle, At(last));
      }
      r := if followed.Ok? then Ok(published.value) else Err(followed.error);
    }
  }
}
