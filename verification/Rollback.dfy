/** Verified rollback to the PREVIOUS version. */
module Rollbacks {
  import opened Options
  import opened Failures
  import opened Remotes
  import opened Stores
  import opened CertificateServices
  import opened Protocol
  import opened Sessions
  import Audits

  datatype RollbackResult = RollbackResult(version: nat, fingerprint: Fingerprint)

  /** The versions a rollback may restore. */
  function EligiblePrevious(r: Remote): set<nat> {
    set n | n in r.versions && PREVIOUS in Stages(r, n) && r.versions[n].deletion.None?
  }

  /** PREVIOUS exists, is not scheduled for deletion, and its bundle validates. */
  predicate Restorable(r: Remote, accepts: Acceptance) {
    && r.previous.Some? && r.previous.value in r.versions
    && r.versions[r.previous.value].deletion.None? && accepts(r.versions[r.previous.value].fingerprint)
  }

  lemma PreviousIsUnique(r: Remote)
    requires WellFormed(r)
    ensures EligiblePrevious(r) ==
            if r.previous.Some? && r.versions[r.previous.value].deletion.None? then {r.previous.value} else {}
  {
  }

  predicate Candidate(v: VersionView) {
    PREVIOUS in v.stages && v.deletion.None?
  }

  lemma ListedCandidates(r: Remote, listed: seq<VersionView>)
    requires WellFormed(r) && Lists(r, listed)
    ensures forall i, j | 0 <= i < |listed| && 0 <= j < |listed| && Candidate(listed[i]) && Candidate(listed[j]) ::
              i == j
    ensures forall i | 0 <= i < |listed| && Candidate(listed[i]) :: EligiblePrevious(r) == {listed[i].number}
    ensures EligiblePrevious(r) != {} ==> exists i :: 0 <= i < |listed| && Candidate(listed[i])
  {
    PreviousIsUnique(r);
    forall i | 0 <= i < |listed| && Candidate(listed[i]) ensures r.previous == Some(listed[i].number) {
    }
    if EligiblePrevious(r) != {} {
      assert View(r, r.previous.value) in listed;
    }
  }

  /** What a rollback leaves: CURRENT and PREVIOUS exchanged. */
  function RolledBack(r: Remote): Remote
    requires r.previous.Some?
  {
    Promote(r, r.previous.value)
  }

  /** Two rollbacks in a row restore every pointer and version; only the entity tag moved on. */
  lemma RollbackIsAnInvolution(r: Remote)
    requires WellFormed(r) && r.current.Some? && r.previous.Some?
    ensures var once := RolledBack(r);
            && once.current == r.previous && once.previous == r.current
            && RolledBack(once) == r.(etag := r.etag + 2)
  {
  }

  /** Material that was CURRENT and LATEST is still offered after a rollback, so nothing is uploaded again. */
  lemma RollbackKeepsLatestOffered(r: Remote, local: Fingerprint)
    requires WellFormed(r) && r.previous.Some? && Serves(r, local) && r.latest == r.current
    ensures Offers(RolledBack(r), local) && PendingOrLatest(RolledBack(r), r.current.value)
  {
  }

  /** Only this run's operation row and the recorded remote version changed. */
  predicate RecordedRollback(c: Context, before: Tables, after: Tables, version: nat, fingerprint: Fingerprint) {
    var operation := |before.operations|;
    && |after.operations| == operation + 1
    && after.operations[..operation] == before.operations
    && after.operations[operation].kind == ROLLBACK && after.operations[operation].certificate == c.certificate
    && after.operations[operation].fingerprint.None? && after.operations[operation].ocid == c.ocid
    && after.operations[operation].error.None? && after.operations[operation].completedAt.Some?
    && after.operations[operation].state == COMPLETED && after.operations[operation].version == Some(version)
    && after.certificates == before.certificates[c.certificate := StateOf(before, c.certificate).(
                               currentFingerprint := Some(fingerprint), currentVersion := Some(version))]
  }

  /** The states a confirmed rollback's operation ends with. */
  function Closing(operation: nat, audited: bool): seq<(nat, OperationState)> {
    (if audited then [(operation, AUDIT_PENDING), (operation, AUDIT_SUCCESS)] else []) + [(operation, COMPLETED)]
  }

  class RollbackService {
    const service: CertificateService
    const store: StateStore

    constructor (service: CertificateService, store: StateStore)
      ensures this.service == service && this.store == store
    {
      this.service, this.store := service, store;
    }

    ghost function At(live: Option<Live>): World
      reads service, store
    {
      WorldAt(service, store, live)
    }

    /** The one listed version that is PREVIOUS and not scheduled for deletion. */
    method PreviousVersion() returns (r: Result<nat, Failure>)
      requires WellFormed(service.remote)
      modifies service`remote
      ensures WellFormed(service.remote)
      ensures service.exclusive ==> service.remote == old(service.remote)
      ensures r.Ok? ==> EligiblePrevious(service.remote) == {r.value}
      ensures service.exclusive && service.reliable && EligiblePrevious(service.remote) != {} ==> r.Ok?
    {
      var listed :- service.ListVersions();
      PreviousIsUnique(service.remote);
      ListedCandidates(service.remote, listed);
      var candidates: seq<nat> := [];
      ghost var found := -1;
      for i := 0 to |listed|
        invariant -1 <= found < i
        invariant candidates == if found == -1 then [] else [listed[found].number]
        invariant found != -1 ==> Candidate(listed[found])
        invariant forall j | 0 <= j < i && Candidate(listed[j]) :: j == found
      {
        if Candidate(listed[i]) {
          candidates := candidates + [listed[i].number];
          found := i;
        }
      }
      if |candidates| != 1 {
        return Err(RollbackFailed("OCI does not expose exactly one eligible PREVIOUS version"));
      }
      return Ok(candidates[0]);
    }

    method ValidateBundle(bundle: Bundle, accepts: Acceptance) returns (r: Result<Fingerprint, Failure>)
      ensures r == if accepts(bundle.fingerprint) then Ok(bundle.fingerprint)
                   else Err(RollbackFailed("OCI rollback bundle failed local validation"))
    {
      return if accepts(bundle.fingerprint) then Ok(bundle.fingerprint)
             else Err(RollbackFailed("OCI rollback bundle failed local validation"));
    }

    /** The validated bundle of PREVIOUS, then the entity tag to promote it under. */
    method ReadPrevious(accepts: Acceptance) returns (r: Result<(nat, Bundle), Failure>)
      requires WellFormed(service.remote)
      modifies service`remote
      ensures WellFormed(service.remote) && (service.exclusive ==> service.remote == old(service.remote))
      ensures r.Ok? ==> r.value.0 == service.remote.etag && accepts(r.value.1.fingerprint)
      ensures service.exclusive && r.Ok? ==>
                && EligiblePrevious(service.remote) == {r.value.1.version}
                && Names(service.remote, Some(r.value.1.version), r.value.1.fingerprint)
      ensures service.exclusive && service.reliable && Restorable(service.remote, accepts) ==> r.Ok?
    {
      PreviousIsUnique(service.remote);
      var candidate :- PreviousVersion();
      var bundle :- service.GetPublicBundle(Some(candidate));
      var _ :- ValidateBundle(bundle, accepts);
      var remote :- service.GetCertificate();
      return Ok((remote.etag, bundle));
    }

    /** Read CURRENT until it shows the version and insist on version and fingerprint. */
    method ReadRestored(chosen: Bundle, accepts: Acceptance, readAttempts: nat) returns (r: Result<(), Failure>)
      requires WellFormed(service.remote) && 1 <= readAttempts
      modifies service`remote
      ensures WellFormed(service.remote) && (service.exclusive ==> service.remote == old(service.remote))
      ensures r.Ok? ==>
                service.remote.current == Some(chosen.version) && Serves(service.remote, chosen.fingerprint)
      ensures service.exclusive && service.reliable && accepts(chosen.fingerprint)
              && service.remote.current == Some(chosen.version) && Serves(service.remote, chosen.fingerprint)
              ==> r.Ok?
    {
      var shown, calls := ReadUntilCurrent(service, chosen.version, readAttempts);
      var confirmed :- shown;
      var fingerprint :- ValidateBundle(confirmed, accepts);
      if confirmed.version != chosen.version || fingerprint != chosen.fingerprint {
        return Err(RollbackFailed("OCI rollback promotion was not confirmed"));
      }
      return Ok(());
    }

    /** Open the operation and settle on a validated PREVIOUS version and the entity tag to promote it under. */
    method Choose(c: Context, accepts: Acceptance)
      returns (r: Result<(nat, nat, Bundle), Failure>, ghost last: Option<Live>)
      requires WellFormed(service.remote)
      modifies service`remote, store
      ensures WellFormed(service.remote)
      ensures service.exclusive ==> service.remote == old(service.remote) && Reaches(c, old(At(None)), At(last))
      ensures r.Ok? ==>
                && r.value.0 == |old(store.operations)| && last == Some(Live(r.value.0, false)) && c.ocid.Some?
                && Underway(c, ROLLBACK, old(store.Contents()), store.Contents())
                && store.operations[r.value.0].version == Some(r.value.2.version)
                && r.value.1 == service.remote.etag && accepts(r.value.2.fingerprint)
                && store.journal == old(store.journal) + [(r.value.0, OCI_RECONCILED)]
      ensures c.ocid.None? ==> r.Err? && store.Contents() == old(store.Contents())
      ensures service.exclusive && r.Ok? ==>
                && EligiblePrevious(service.remote) == {r.value.2.version}
                && Names(service.remote, Some(r.value.2.version), r.value.2.fingerprint)
      ensures service.exclusive && service.reliable && store.reliable && c.ocid.Some?
              && Restorable(service.remote, accepts)
              ==> r.Ok?
    {
      ghost var start, before := At(None), store.Contents();
      var opening, live := OpenOperation(service, store, c, ROLLBACK,
                                         RollbackFailed("rollback requires a configured OCI certificate OCID"));
      last := live;
      var operation :- opening;
      var read :- ReadPrevious(accepts);
      var (etag, bundle) := read;
      var _ :- Persist(service, store, c, ROLLBACK, operation, Stores.At(OCI_RECONCILED, bundle.version),
                       before, start, last.value);
      return Ok((operation, etag, bundle)), last;
    }

    /** Promote the chosen version, read CURRENT back and insist on version and fingerprint. */
    method Restore(c: Context, accepts: Acceptance, readAttempts: nat, operation: nat, etag: nat, chosen: Bundle,
                   ghost before: Tables, ghost start: World)
      returns (r: Result<(), Failure>, ghost live: Live, ghost sent: Request)
      requires WellFormed(service.remote) && operation == |before.operations| && 1 <= readAttempts
      requires Underway(c, ROLLBACK, before, store.Contents())
      requires store.operations[operation].version == Some(chosen.version)
      requires service.exclusive ==> Reaches(c, start, At(Some(Live(operation, false))))
      requires service.exclusive ==> service.remote.previous == Some(chosen.version)
      modifies service`remote, service`requests, store
      ensures WellFormed(service.remote) && live.operation == operation
      ensures service.requests == old(service.requests) + [sent] && sent.PromoteRequest?
      ensures Underway(c, ROLLBACK, before, store.Contents())
      ensures service.exclusive ==> Reaches(c, start, At(Some(live)))
      ensures service.exclusive ==>
                service.remote == old(service.remote) || service.remote == RolledBack(old(service.remote))
      ensures r.Ok? ==>
                service.remote.current == Some(chosen.version) && Serves(service.remote, chosen.fingerprint)
      ensures service.exclusive && r.Ok? ==> service.remote == RolledBack(old(service.remote))
      ensures r.Ok? ==> store.journal == old(store.journal) + [(operation, OCI_CURRENT_CONFIRMED)]
      ensures service.exclusive && service.reliable && store.reliable && etag == old(service.remote).etag
              && Names(old(service.remote), Some(chosen.version), chosen.fingerprint) && accepts(chosen.fingerprint)
              ==> r.Ok?
    {
      live := Live(operation, false);
      ghost var reconciled := At(Some(live));
      var promoted, request := service.PromoteCurrent(chosen.version, etag);
      sent := request;
      StepPromotion(service.exclusive, c, start, reconciled, sent.applied, chosen.version);
      live := Live(operation, service.exclusive && sent.applied);
      if promoted.Err? {
        return Err(promoted.error), live, sent;
      }
      var _ :- ReadRestored(chosen, accepts, readAttempts);
      var _ :- Persist(service, store, c, ROLLBACK, operation, Stores.At(OCI_CURRENT_CONFIRMED, chosen.version),
                       before, start, live);
      return Ok(()), live, sent;
    }

    lemma SettledRollback(c: Context, before: Tables, now: Tables, version: nat, fingerprint: Fingerprint, at: int)
      requires var recorded := RollbackRecorded(before, c.certificate, fingerprint, version);
               Underway(c, ROLLBACK, recorded, now)
      ensures RecordedRollback(c, before, Transitioned(now, |before.operations|, Stores.At(COMPLETED, version), at),
                               version, fingerprint)
    {
    }

    /** Record how the endpoint audit of a restored version ended; a failed one closes the operation. */
    method RecordVerdict(c: Context, operation: nat, verdict: Audits.Verdict,
                         ghost before: Tables, ghost start: World, ghost live: Live)
      returns (r: Result<(), Failure>, ghost last: Option<Live>)
      requires operation == |before.operations| && live.operation == operation
      requires Underway(c, ROLLBACK, before, store.Contents())
      requires Recorded(before, c.certificate) == service.remote.current
      requires service.exclusive ==> Reaches(c, start, At(Some(live)))
      modifies store
      ensures service.exclusive ==> Reaches(c, start, At(last))
      ensures r.Ok? ==> verdict.Converged? && last == Some(live) && Underway(c, ROLLBACK, before, store.Contents())
      ensures r.Ok? ==> store.journal == old(store.journal) + [(operation, AUDIT_PENDING), (operation, AUDIT_SUCCESS)]
      ensures store.reliable && verdict.Converged? ==> r.Ok?
      ensures store.reliable && verdict.Faulted? ==> 
                && r == Err(Transport) && last == Some(live)
                && operation < |store.operations| && store.operations[operation].state == AUDIT_PENDING
      ensures store.reliable && !verdict.Converged? && !verdict.Faulted? ==>
                && r == Err(RollbackFailed("rollback completed but endpoint audit did not converge"))
                && last.None? && operation < |store.operations|
                && store.operations[operation].state == ROLLBACK_FAILED
    {
      last := Some(live);
      var _ :- Persist(service, store, c, ROLLBACK, operation, To(AUDIT_PENDING), before, start, live);
      if verdict.Faulted? {
        return Err(Transport), last;
      }
      if !verdict.Converged? {
        ghost var pending := store.Contents();
        var _ :- store.Transition(operation, To(ROLLBACK_FAILED));
        StepFinish(service.exclusive, c, start, World(service.remote, pending, last), To(ROLLBACK_FAILED), store.clock);
        return Err(RollbackFailed("rollback completed but endpoint audit did not converge")), None;
      }
      r := Persist(service, store, c, ROLLBACK, operation, To(AUDIT_SUCCESS), before, start, live);
    }

    /** Record the restored version, audit the endpoints if asked, and close the operation. */
    method Settle(c: Context, operation: nat, restored: Bundle, audit: Option<Audits.Verdict>,
                  ghost before: Tables, ghost start: World, ghost live: Live)
      returns (r: Result<(), Failure>, ghost last: Option<Live>)
      requires operation == |before.operations| && live.operation == operation
      requires Underway(c, ROLLBACK, before, store.Contents())
      requires service.remote.current == Some(restored.version) && Serves(service.remote, restored.fingerprint)
      requires service.exclusive ==> Reaches(c, start, At(Some(live)))
      modifies store
      ensures service.exclusive ==> Reaches(c, start, At(last))
      ensures r.Ok? ==>
                && (audit.Some? ==> audit.value.Converged?) && last.None?
                && RecordedRollback(c, before, store.Contents(), restored.version, restored.fingerprint)
      ensures r.Ok? ==> store.journal == old(store.journal) + Closing(operation, audit.Some?)
      ensures store.reliable && (audit.Some? ==> audit.value.Converged?) ==> r.Ok?
    {
      last := Some(live);
      ghost var confirmed := store.Contents();
      var _ :- store.RecordRollbackSuccess(c.certificate, restored.fingerprint, restored.version);
      StepRecordRollback(service.exclusive, c, start, World(service.remote, confirmed, last),
                         restored.fingerprint, restored.version);
      ghost var recorded := RollbackRecorded(before, c.certificate, restored.fingerprint, restored.version);
      if audit.Some? {
        var audited, ending := RecordVerdict(c, operation, audit.value, recorded, start, live);
        last := ending;
        if audited.Err? {
          return Err(audited.error), last;
        }
      }
      ghost var audited := store.Contents();
      var _ :- store.Transition(operation, Stores.At(COMPLETED, restored.version));
      StepFinish(service.exclusive, c, start, World(service.remote, audited, last),
                 Stores.At(COMPLETED, restored.version), store.clock);
      SettledRollback(c, before, audited, restored.version, restored.fingerprint, store.clock);
      return Ok(()), None;
    }

    /** Everything a rollback does to the certificate, up to the confirmation. */
    method ChooseAndRestore(c: Context, accepts: Acceptance, readAttempts: nat)
      returns (r: Result<(nat, Bundle), Failure>, ghost last: Option<Live>, ghost sent: seq<Request>)
      requires WellFormed(service.remote) && 1 <= readAttempts
      modifies service`remote, service`requests, store
      ensures WellFormed(service.remote)
      ensures service.requests == old(service.requests) + sent
      ensures |sent| <= 1 && forall e | e in sent :: e.PromoteRequest?
      ensures service.exclusive && sent != [] ==>
                && old(service.remote).previous.Some?
                && Acceptable(old(service.remote), old(service.remote).previous, accepts)
      ensures c.ocid.None? ==> r.Err? && store.Contents() == old(store.Contents()) && sent == []
      ensures r.Ok? ==>
                && r.value.0 == |old(store.operations)| && last.Some? && last.value.operation == r.value.0
                && Underway(c, ROLLBACK, old(store.Contents()), store.Contents())
                && service.remote.current == Some(r.value.1.version)
                && Serves(service.remote, r.value.1.fingerprint) && accepts(r.value.1.fingerprint)
                && store.journal == old(store.journal)
                                    + [(r.value.0, OCI_RECONCILED), (r.value.0, OCI_CURRENT_CONFIRMED)]
      ensures service.exclusive ==> Reaches(c, old(At(None)), At(last))
      ensures service.exclusive ==>
                || service.remote == old(service.remote)
                || (EligiblePrevious(old(service.remote)) != {} && service.remote == RolledBack(old(service.remote)))
      ensures service.exclusive && r.Ok? ==>
                && EligiblePrevious(old(service.remote)) == {r.value.1.version}
                && service.remote == RolledBack(old(service.remote))
      ensures service.exclusive && service.reliable && store.reliable && c.ocid.Some?
              && Restorable(old(service.remote), accepts)
              ==> r.Ok?
    {
      sent := [];
      ghost var start, before := At(None), store.Contents();
      PreviousIsUnique(service.remote);
      var chosen, opening := Choose(c, accepts);
      last := opening;
      if chosen.Err? {
        return Err(chosen.error), last, sent;
      }
      var (operation, etag, bundle) := chosen.value;
      var restored, live, asked := Restore(c, accepts, readAttempts, operation, etag, bundle, before, start);
      last, sent := Some(live), [asked];
      r := if restored.Ok? then Ok((operation, bundle)) else Err(restored.error);
    }

    /** Restore a valid undeleted PREVIOUS version and confirm it is CURRENT. */
    method Rollback(c: Context, accepts: Acceptance, readAttempts: nat, audit: Option<Audits.Verdict>)
      returns (r: Result<RollbackResult, Failure>, ghost last: Option<Live>, ghost sent: seq<Request>)
      requires WellFormed(service.remote) && 1 <= readAttempts
      modifies service`remote, service`requests, store
      ensures WellFormed(service.remote)
      ensures service.requests == old(service.requests) + sent
      ensures |sent| <= 1 && forall e | e in sent :: e.PromoteRequest?
      ensures service.exclusive && sent != [] ==>
                && old(service.remote).previous.Some?
                && Acceptable(old(service.remote), old(service.remote).previous, accepts)
      ensures c.ocid.None? ==> r.Err? && store.Contents() == old(store.Contents()) && sent == []
      ensures r.Ok? ==>
                && service.remote.current == Some(r.value.version) && Serves(service.remote, r.value.fingerprint)
                && accepts(r.value.fingerprint) && last.None?
                && RecordedRollback(c, old(store.Contents()), store.Contents(), r.value.version, r.value.fingerprint)
      ensures r.Ok? ==>
                var operation := |old(store.operations)|;
                store.journal == old(store.journal) + [(operation, OCI_RECONCILED), (operation, OCI_CURRENT_CONFIRMED)]
                                 + Closing(operation, audit.Some?)
      // as the only writer
      ensures service.exclusive ==> Reaches(c, old(At(None)), At(last))
      ensures service.exclusive ==>
                || service.remote == old(service.remote)
                || (EligiblePrevious(old(service.remote)) != {} && service.remote == RolledBack(old(service.remote)))
      ensures service.exclusive && r.Ok? ==>
                && EligiblePrevious(old(service.remote)) == {r.value.version}
                && service.remote == RolledBack(old(service.remote))
      // and without faults
      ensures service.exclusive && service.reliable && store.reliable && c.ocid.Some?
              && Restorable(old(service.remote), accepts)
              ==> && service.remote == RolledBack(old(service.remote))
                  && (r.Ok? <==> audit.None? || audit.value.Converged?)
    {
      ghost var start, before := At(None), store.Contents();
      var restored, live, asked := ChooseAndRestore(c, accepts, readAttempts);
      last, sent := live, asked;
      if restored.Err? {
        return Err(restored.error), last, sent;
      }
      var (operation, bundle) := restored.value;
      var settled, ending := Settle(c, operation, bundle, audit, before, start, live.value);
      last := ending;
      r := if settled.Ok? then Ok(RollbackResult(bundle.version, bundle.fingerprint)) else Err(settled.error);
    }
  }
}
