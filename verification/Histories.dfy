/**
 What any number of publishers and the service itself did to one certificate, in
 the order the service handled it.  Where every upload that took effect was
 guarded, at most one version of one material is created.
 */
module Histories {
  import opened Options
  import opened Remotes
  import opened CertificateServices
  import opened Reconcilers

  /** A request somebody sent, or the removal of a version by the service. */
  datatype Event = Handled(request: Request) | Purged(before: Remote, version: nat)

  function Before(e: Event): Remote {
    match e
    case Handled(request) => request.before
    case Purged(before, _) => before
  }

  /** The certificate after a request, applied or not. */
  function Answered(request: Request): Remote {
    if !request.applied then request.before
    else match request
      case UploadRequest(before, fingerprint, created, _) => Upload(before, fingerprint, created)
      case PromoteRequest(before, version, _, _) => Promote(before, version)
      case ScheduleRequest(before, version, at, _) =>
        if version in before.versions then Schedule(before, version, at) else before
  }

  function Outcome(e: Event): Remote {
    match e
    case Handled(request) => Answered(request)
    case Purged(before, version) => Purge(before, version)
  }

  /** A promotion takes effect only for a version that exists. */
  predicate Possible(request: Request) {
    request.PromoteRequest? && request.applied ==> request.version in request.before.versions
  }

  /** The service removes only versions whose deletion is due and that no pointer names. */
  predicate Removable(r: Remote, version: nat) {
    version in r.versions && r.versions[version].deletion.Some? && Unprotected(r, version)
  }

  /** Publishers of one fingerprint only, rollbacks, retention and the service alongside. */
  predicate Lawful(e: Event, fingerprint: Fingerprint) {
    match e
    case Handled(request) => Possible(request) && (request.UploadRequest? ==> GuardedUpload(request, fingerprint))
    case Purged(before, version) => Removable(before, version)
  }

  predicate AllLawful(log: seq<Event>, fingerprint: Fingerprint) {
    forall e | e in log :: Lawful(e, fingerprint)
  }

  /** Each event met the state the one before it left. */
  ghost predicate History(r: Remote, log: seq<Event>)
    decreases |log|
  {
    log == [] || (Before(log[0]) == r && History(Outcome(log[0]), log[1..]))
  }

  function Final(r: Remote, log: seq<Event>): Remote {
    if log == [] then r else Outcome(log[|log| - 1])
  }

  lemma FinalOfRest(r: Remote, log: seq<Event>)
    requires log != []
    ensures Final(r, log) == Final(Outcome(log[0]), log[1..])
  {
  }

  lemma {:induction false} HistoryExtends(r: Remote, log: seq<Event>, e: Event)
    requires History(r, log) && Before(e) == Final(r, log)
    ensures History(r, log + [e])
    decreases |log|
  {
    if log != [] {
      FinalOfRest(r, log);
      HistoryExtends(Outcome(log[0]), log[1..], e);
      assert (log + [e])[1..] == log[1..] + [e];
    }
  }

  /**
   Every lawful event is interference the adapters tolerate: the certificate
   stays well formed and either is the same or has a later tag.  So the
   guarantee each publisher gives under any interference holds among the others.
   */
  lemma EventIsInterference(e: Event, fingerprint: Fingerprint)
    requires Lawful(e, fingerprint) && WellFormed(Before(e))
    ensures WellFormed(Outcome(e)) && Later(Before(e), Outcome(e))
  {
  }

  function VersionsOf(r: Remote, fingerprint: Fingerprint): set<nat> {
    set n | n in r.versions && r.versions[n].fingerprint == fingerprint
  }

  predicate AppliedUpload(e: Event) {
    e.Handled? && e.request.UploadRequest? && e.request.applied
  }

  lemma VersionsAfter(e: Event, fingerprint: Fingerprint)
    requires Lawful(e, fingerprint)
    ensures VersionsOf(Outcome(e), fingerprint) <=
            VersionsOf(Before(e), fingerprint) + if AppliedUpload(e) then {Before(e).next} else {}
    ensures Names(Before(e), Before(e).latest, fingerprint) || AppliedUpload(e) ==>
              Names(Outcome(e), Outcome(e).latest, fingerprint)
  {
  }

  predicate NoneApplied(log: seq<Event>) {
    forall e | e in log :: !AppliedUpload(e)
  }

  /** At most one upload of the log took effect. */
  predicate OneApplied(log: seq<Event>) {
    forall i, j | 0 <= i < j < |log| :: !AppliedUpload(log[i]) || !AppliedUpload(log[j])
  }

  lemma OneMoreApplied(log: seq<Event>)
    requires log != [] && OneApplied(log[1..])
    requires AppliedUpload(log[0]) ==> NoneApplied(log[1..])
    ensures OneApplied(log)
  {
    forall i, j | 0 <= i < j < |log| ensures !AppliedUpload(log[i]) || !AppliedUpload(log[j]) {
      assert log[j] == log[1..][j - 1];
      if i > 0 {
        assert log[i] == log[1..][i - 1];
      }
    }
  }

  /** Once a version of the material is LATEST it stays LATEST, so no later upload takes effect. */
  lemma {:induction false} OfferedMeansNoUpload(r: Remote, log: seq<Event>, fingerprint: Fingerprint)
    requires History(r, log) && AllLawful(log, fingerprint)
    requires Names(r, r.latest, fingerprint)
    ensures VersionsOf(Final(r, log), fingerprint) <= VersionsOf(r, fingerprint)
    ensures NoneApplied(log)
    decreases |log|
  {
    if log != [] {
      assert log[0] in log;
      VersionsAfter(log[0], fingerprint);
      FinalOfRest(r, log);
      OfferedMeansNoUpload(Outcome(log[0]), log[1..], fingerprint);
      assert forall e | e in log :: e == log[0] || e in log[1..];
    }
  }

  /**
   However many publishers of one fingerprint interleave, each possibly crashing
   or losing answers, at most one upload takes effect and at most one new
   version of the fingerprint exists at the end.
   */
  lemma {:induction false} AtMostOneUpload(r: Remote, log: seq<Event>, fingerprint: Fingerprint)
    returns (created: set<nat>)
    requires History(r, log) && AllLawful(log, fingerprint)
    ensures |created| <= 1
    ensures VersionsOf(Final(r, log), fingerprint) <= VersionsOf(r, fingerprint) + created
    ensures OneApplied(log)
    decreases |log|
  {
    created := {};
    if log != [] {
      assert log[0] in log;
      VersionsAfter(log[0], fingerprint);
      FinalOfRest(r, log);
      if AppliedUpload(log[0]) {
        created := {r.next};
        OfferedMeansNoUpload(Outcome(log[0]), log[1..], fingerprint);
      } else {
        created := AtMostOneUpload(Outcome(log[0]), log[1..], fingerprint);
      }
      OneMoreApplied(log);
    }
  }
}
