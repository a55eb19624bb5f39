/** A publication that stopped anywhere, the one that takes it up again, and the one after that. */
module Reentries {
  import opened Options
  import opened Failures
  import opened Remotes
  import opened Stores
  import opened CertificateServices
  import opened Protocol
  import opened Sessions
  import opened Reconcilers
  import opened Rollbacks
  import Audits
  import opened Histories

  /** CURRENT exists, and every version a pointer names validates. */
  predicate PointersValidate(r: Remote, accepts: Acceptance) {
    && r.current.Some?
    && Acceptable(r, r.current, accepts) && Acceptable(r, r.previous, accepts)
    && Acceptable(r, r.pending, accepts) && Acceptable(r, r.latest, accepts)
  }

  lemma RunKeepsPointersValid(c: Context, before: World, after: World, accepts: Acceptance)
    requires Reaches(c, before, after) && accepts(c.local) && PointersValidate(before.remote, accepts)
    ensures PointersValidate(after.remote, accepts)
  {
    var worlds: seq<World>, actions: seq<Action> :|
      Run(c, worlds, actions) && worlds[0] == before && worlds[|actions|] == after;
    for i := 0 to |actions|
      invariant PointersValidate(worlds[i].remote, accepts)
    {
      assert Enabled(c, actions[i], worlds[i]);
    }
  }

  /** At most one version of the material was added, and if one was, the material is LATEST. */
  ghost predicate AddedAtMostOne(first: Remote, now: Remote, fingerprint: Fingerprint) {
    || VersionsOf(now, fingerprint) <= VersionsOf(first, fingerprint)
    || (Names(now, now.latest, fingerprint)
        && exists n :: VersionsOf(now, fingerprint) <= VersionsOf(first, fingerprint) + {n})
  }

  lemma ActionAddsAtMostOne(c: Context, a: Action, w: World, first: Remote)
    requires Enabled(c, a, w) && Sound(w, c.certificate) && AddedAtMostOne(first, w.remote, c.local)
    ensures AddedAtMostOne(first, Apply(c, a, w).remote, c.local)
  {
    var r, after := w.remote, Apply(c, a, w).remote;
    if a.SendUpload? {
      assert VersionsOf(r, c.local) <= VersionsOf(first, c.local);
      assert VersionsOf(after, c.local) <= VersionsOf(first, c.local) + {r.next};
    } else {
      assert VersionsOf(after, c.local) <= VersionsOf(r, c.local);
      if a.ServicePurges? {
        assert Stages(r, a.version) == {DEPRECATED};
      }
    }
  }

  lemma RunAddsAtMostOne(c: Context, before: World, after: World, first: Remote)
    requires Reaches(c, before, after) && Sound(before, c.certificate)
    requires AddedAtMostOne(first, before.remote, c.local)
    ensures AddedAtMostOne(first, after.remote, c.local)
  {
    var worlds: seq<World>, actions: seq<Action> :|
      Run(c, worlds, actions) && worlds[0] == before && worlds[|actions|] == after;
    for i := 0 to |actions|
      invariant Sound(worlds[i], c.certificate) && AddedAtMostOne(first, worlds[i].remote, c.local)
    {
      ActionKeepsSound(c, actions[i], worlds[i]);
      ActionAddsAtMostOne(c, actions[i], worlds[i], first);
    }
  }

  lemma AtMostOneMember(more: set<nat>, fewer: set<nat>, n: nat)
    requires more <= fewer + {n}
    ensures |more - fewer| <= 1
  {
    assert more - fewer == {} || more - fewer == {n};
  }

  lemma AddedIsCounted(first: Remote, now: Remote, fingerprint: Fingerprint)
    requires AddedAtMostOne(first, now, fingerprint)
    ensures |VersionsOf(now, fingerprint) - VersionsOf(first, fingerprint)| <= 1
  {
    var fewer, more := VersionsOf(first, fingerprint), VersionsOf(now, fingerprint);
    if more <= fewer {
      assert more - fewer == {};
    } else {
      var n :| more <= fewer + {n};
      AtMostOneMember(more, fewer, n);
    }
  }

  /**
   However many commands for one material run under the host lock, each
   publishing, rolling back, auditing or retaining and each stopped anywhere,
   the certificate gains at most one version of that material.
   */
  lemma {:induction false} HostRunAddsAtMostOne(certificate: string, commands: seq<Command>, worlds: seq<World>,
                                                fingerprint: Fingerprint, i: nat)
    requires HostRun(certificate, commands, worlds) && Sound(worlds[0], certificate)
    requires forall k | 0 <= k < |commands| :: commands[k].On? ==> commands[k].context.local == fingerprint
    requires i < |worlds|
    ensures AddedAtMostOne(worlds[0].remote, worlds[i].remote, fingerprint)
    ensures |VersionsOf(worlds[i].remote, fingerprint) - VersionsOf(worlds[0].remote, fingerprint)| <= 1
  {
    if i > 0 {
      HostRunAddsAtMostOne(certificate, commands, worlds, fingerprint, i - 1);
      HostRunFollows(certificate, commands, worlds, i - 1, i - 1);
      if commands[i - 1].On? {
        RunAddsAtMostOne(commands[i - 1].context, worlds[i - 1], worlds[i], worlds[0].remote);
      }
    }
    AddedIsCounted(worlds[0].remote, worlds[i].remote, fingerprint);
  }

  /** Without faults a publication settles, and repeating it sends nothing. */
  method PublishTwice(service: CertificateService, store: StateStore, c: Context, kind: OperationType,
                      accepts: Acceptance, promoteAttempts: nat, readAttempts: nat)
    returns (settled: Result<PublicationResult, Failure>, repeated: Result<PublicationResult, Failure>)
    requires WellFormed(service.remote) && service.exclusive && Publishes(kind) && c.ocid.Some?
    requires service.reliable && store.reliable
    requires 1 <= promoteAttempts <= 10 && 1 <= readAttempts
    requires Publishable(service.remote, c.local, accepts)
    modifies service`remote, service`requests, store
    ensures settled.Ok? && repeated == Ok(PublicationResult(settled.value.version, c.local, false))
    ensures service.remote.current == Some(settled.value.version) && Serves(service.remote, c.local)
    ensures forall i | 0 <= i < |store.operations| :: !Reconcilable(store.operations[i], c.certificate, c.local)
    ensures |service.requests| == |old(service.requests)| +
              if Serves(old(service.remote), c.local) then 0 else if Offers(old(service.remote), c.local) then 1 else 2
    ensures Reaches(c, old(WorldAt(service, store, None)), WorldAt(service, store, None))
  {
    ghost var start := WorldAt(service, store, None);
    var reconciler := new PublicationReconciler(service, store);
    ghost var last, uploads, promotions;
    settled, last, uploads, promotions := reconciler.Publish(c, kind, accepts, promoteAttempts, readAttempts);
    ghost var agreed := WorldAt(service, store, None);
    repeated, last, uploads, promotions := reconciler.Publish(c, kind, accepts, promoteAttempts, readAttempts);
    ReachesThrough(c, start, agreed, WorldAt(service, store, None));
  }

  /**
   One process publishes and stops wherever its faults take it; a second one,
   with the database and certificate it finds, meets no fault and settles; a
   third finds nothing to do.
   */
  method PublishAgain(service: CertificateService, store: StateStore, c: Context, kind: OperationType,
                      accepts: Acceptance, promoteAttempts: nat, readAttempts: nat)
    returns (adapters: CertificateService, reopened: StateStore,
             settled: Result<PublicationResult, Failure>, repeated: Result<PublicationResult, Failure>)
    requires service.exclusive && Publishes(kind) && c.ocid.Some?
    requires 1 <= promoteAttempts <= 10 && 1 <= readAttempts
    requires Publishable(service.remote, c.local, accepts)
    requires Sound(WorldAt(service, store, None), c.certificate)
    modifies service`remote, service`requests, store
    ensures settled.Ok? && repeated == Ok(PublicationResult(settled.value.version, c.local, false))
    ensures adapters.remote.current == Some(settled.value.version) && Serves(adapters.remote, c.local)
    ensures forall i | 0 <= i < |reopened.operations| :: !Reconcilable(reopened.operations[i], c.certificate, c.local)
    // the later processes send exactly what the first left undone
    ensures |adapters.requests| ==
              if Serves(service.remote, c.local) then 0 else if Offers(service.remote, c.local) then 1 else 2
    ensures |VersionsOf(adapters.remote, c.local) - VersionsOf(old(service.remote), c.local)| <= 1
    ensures Sound(WorldAt(adapters, reopened, None), c.certificate)
  {
    ghost var start := WorldAt(service, store, None);
    var reconciler := new PublicationReconciler(service, store);
    var first, last, uploads, promotions := reconciler.Publish(c, kind, accepts, promoteAttempts, readAttempts);
    ghost var stopped := WorldAt(service, store, None);
    StepStop(true, c, start, WorldAt(service, store, last));

    adapters := new CertificateService(service.remote, true, NoFaults);
    reopened := new StateStore.Reopen(store.Contents(), true);
    assert WorldAt(adapters, reopened, None) == stopped;
    settled, repeated := PublishTwice(adapters, reopened, c, kind, accepts, promoteAttempts, readAttempts);
    ghost var agreed := WorldAt(adapters, reopened, None);
    ReachesThrough(c, start, stopped, agreed);
    RunKeepsSound(c, start, agreed);
    RunAddsAtMostOne(c, start, agreed, start.remote);
    AddedIsCounted(start.remote, agreed.remote, c.local);
  }

  lemma RolledBackOffers(r: Remote, local: Fingerprint, accepts: Acceptance)
    requires WellFormed(r) && PointersValidate(r, accepts) && Serves(r, local) && r.latest == r.current
    requires EligiblePrevious(r) != {}
    ensures r.previous.Some? && accepts(r.versions[r.previous.value].fingerprint)
    ensures Offers(RolledBack(r), local) && Publishable(RolledBack(r), local, accepts)
    ensures Serves(RolledBack(r), local) <==> r.versions[r.previous.value].fingerprint == local
  {
    PreviousIsUnique(r);
    RollbackKeepsLatestOffered(r, local);
  }

  /** A fault-free rollback from LATEST material leaves it offered and everything a publish needs valid. */
  method Displace(service: CertificateService, store: StateStore, c: Context, accepts: Acceptance, readAttempts: nat)
    returns (restored: Result<RollbackResult, Failure>, ghost sent: seq<Request>)
    requires WellFormed(service.remote) && service.exclusive && service.reliable && store.reliable && c.ocid.Some?
    requires 1 <= readAttempts
    requires PointersValidate(service.remote, accepts) && EligiblePrevious(service.remote) != {}
    requires Serves(service.remote, c.local) && service.remote.latest == service.remote.current
    modifies service`remote, service`requests, store
    ensures WellFormed(service.remote)
    ensures restored.Ok? && restored.value.version in EligiblePrevious(old(service.remote))
    ensures Offers(service.remote, c.local) && Publishable(service.remote, c.local, accepts)
    ensures Serves(service.remote, c.local) <==> restored.value.fingerprint == c.local
    ensures service.requests == old(service.requests) + sent && forall e | e in sent :: e.PromoteRequest?
  {
    RolledBackOffers(service.remote, c.local, accepts);
    var rollback := new RollbackService(service, store);
    ghost var last;
    restored, last, sent := rollback.Rollback(c, accepts, readAttempts, None);
  }

  /** Publishing the LATEST material again after a rollback displaced it promotes it without an upload. */
  method PublishAfterRollback(service: CertificateService, store: StateStore, c: Context, accepts: Acceptance,
                              promoteAttempts: nat, readAttempts: nat)
    returns (restored: Result<RollbackResult, Failure>, published: Result<PublicationResult, Failure>,
             ghost sent: seq<Request>)
    requires WellFormed(service.remote) && service.exclusive && service.reliable && store.reliable && c.ocid.Some?
    requires 1 <= promoteAttempts <= 10 && 1 <= readAttempts
    requires PointersValidate(service.remote, accepts) && EligiblePrevious(service.remote) != {}
    requires Serves(service.remote, c.local) && service.remote.latest == service.remote.current
    modifies service`remote, service`requests, store
    ensures restored.Ok? && restored.value.version in EligiblePrevious(old(service.remote))
    ensures published.Ok? && Serves(service.remote, c.local)
    ensures published.value.changed <==> restored.value.fingerprint != c.local
    ensures service.requests == old(service.requests) + sent && forall e | e in sent :: e.PromoteRequest?
  {
    ghost var earlier := service.requests;
    ghost var asked, last, uploads, promotions;
    restored, asked := Displace(service, store, c, accepts, readAttempts);
    var reconciler := new PublicationReconciler(service, store);
    published, last, uploads, promotions :=
      reconciler.Publish(c, PUBLISH, accepts, promoteAttempts, readAttempts);
    sent := asked + promotions;
    assert service.requests == earlier + sent;
  }

  /**
   Two rollbacks in a row that succeed, whatever else failed before them or in
   between, restore the certificate as it was but for its entity tag; the
   recorded version is the original CURRENT and the recorded local material
   was never touched.
   */
  method RollBackTwice(service: CertificateService, store: StateStore, c: Context, accepts: Acceptance,
                       readAttempts: nat, audit: Option<Audits.Verdict>)
    returns (once: Result<RollbackResult, Failure>, twice: Result<RollbackResult, Failure>)
    requires WellFormed(service.remote) && service.exclusive && service.remote.current.Some? && 1 <= readAttempts
    modifies service`remote, service`requests, store
    ensures once.Ok? && twice.Ok? ==>
              && service.remote == old(service.remote).(etag := old(service.remote).etag + 2)
              && Some(twice.value.version) == old(service.remote).current
              && Recorded(store.Contents(), c.certificate) == old(service.remote).current
              && StateOf(store.Contents(), c.certificate).localFingerprint ==
                 old(StateOf(store.Contents(), c.certificate)).localFingerprint
  {
    ghost var before := service.remote;
    var rollback := new RollbackService(service, store);
    ghost var last, sent;
    once, last, sent := rollback.Rollback(c, accepts, readAttempts, audit);
    if once.Err? {
      return once, once;
    }
    PreviousIsUnique(before);
    RollbackIsAnInvolution(before);
    twice, last, sent := rollback.Rollback(c, accepts, readAttempts, audit);
  }
}
