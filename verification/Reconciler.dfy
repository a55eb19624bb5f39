/** Idempotent local-to-remote publication of one certificate. */
module Reconcilers {
  import opened Options
  import opened Failures
  import opened Remotes
  import opened Stores
  import opened CertificateServices
  import opened Protocol
  import opened Retries
  import opened Sessions

  datatype PublicationResult = PublicationResult(version: nat, fingerprint: Fingerprint, changed: bool)

  /** What a run knows before it decides: its operation, the entity tag, then CURRENT. */
  datatype Examined = Examined(operation: nat, etag: nat, current: Bundle)

  predicate Publishes(kind: OperationType) {
    kind.PUBLISH? || kind.RENEW? || kind.RECONCILE?
  }

  /** CURRENT exists and every bundle a run may have to look at validates. */
  predicate Publishable(r: Remote, local: Fingerprint, accepts: Acceptance) {
    && r.current.Some? && accepts(local)
    && Acceptable(r, r.current, accepts) && Acceptable(r, r.pending, accepts) && Acceptable(r, r.latest, accepts)
  }

  /** The upload took effect only where its fingerprint was neither CURRENT nor offered. */
  predicate GuardedUpload(e: Request, fingerprint: Fingerprint) {
    && e.UploadRequest? && e.fingerprint == fingerprint
    && (e.applied ==> !Serves(e.before, fingerprint) && !Offers(e.before, fingerprint))
  }

  /** The tables agree that this operation brought CURRENT and the local material together. */
  predicate Published(c: Context, kind: OperationType, before: Tables, after: Tables, version: nat) {
    var operation := |before.operations|;
    && |after.operations| == operation + 1
    && Closed(after.operations[operation], kind, c, version) && after.operations[operation].ocid == c.ocid
    && (forall i | 0 <= i < operation ::
          if Reconcilable(before.operations[i], c.certificate, c.local)
          then && Closed(after.operations[i], before.operations[i].kind, c, version)
          else after.operations[i] == before.operations[i])
    && (forall i | 0 <= i < |after.operations| :: !Reconcilable(after.operations[i], c.certificate, c.local))
    && StateOf(after, c.certificate).localFingerprint == Some(c.local)
    && StateOf(after, c.certificate).currentFingerprint == Some(c.local)
    && StateOf(after, c.certificate).currentVersion == Some(version)
    && StateOf(after, c.certificate).publishedAt.Some?
    && StateOf(after, c.certificate).auditedAt == StateOf(before, c.certificate).auditedAt
    && (if kind.RENEW? then StateOf(after, c.certificate).renewedAt.Some?
        else StateOf(after, c.certificate).renewedAt == StateOf(before, c.certificate).renewedAt)
    && (forall k | k != c.certificate :: k in before.certificates ==>
          k in after.certificates && after.certificates[k] == before.certificates[k])
  }

  /** The states a successful run's operation passes through once it is reconciled. */
  function Remainder(operation: nat, uploaded: bool, changed: bool): seq<(nat, OperationState)> {
    (if uploaded then [(operation, OCI_PENDING_UPLOADED)] else [])
    + (if changed then [(operation, OCI_PENDING_VERIFIED), (operation, OCI_CURRENT_CONFIRMED)] else [])
    + [(operation, COMPLETED)]
  }

  predicate Closed(row: Row, kind: OperationType, c: Context, version: nat) {
    && row.certificate == c.certificate && row.kind == kind && row.fingerprint == Some(c.local)
    && row.state == COMPLETED && row.version == Some(version) && row.completedAt.Some? && row.error.None?
  }

  /** Of a series of promotion requests by the only writer, at most the last took effect. */
  function Promoted(r: Remote, version: nat, sent: seq<Request>): Remote
    requires forall e | e in sent :: e.PromoteRequest?
  {
    if TookEffect(sent) then Promote(r, version) else r
  }

  predicate TookEffect(sent: seq<Request>)
    requires forall e | e in sent :: e.PromoteRequest?
  {
    |sent| > 0 && sent[|sent| - 1].applied
  }

  /** A pass that looked, saw another version CURRENT and asked for a promotion. */
  predicate AskedAfter(version: nat, look: Result<CertificateView, Failure>, sent: Request) {
    look.Ok? && look.value.current != Some(version) && sent.PromoteRequest? && sent.version == version
  }

  /** Passes that all looked first, asked, and got an answer that leaves the outcome open. */
  ghost predicate AllUnsettled(version: nat, looks: seq<Result<CertificateView, Failure>>, sent: seq<Request>) {
    && |looks| == |sent|
    && forall i | 0 <= i < |sent| ::
         AskedAfter(version, looks[i], sent[i]) && sent[i].answer.Err? && Transient(sent[i].answer.error)
  }

  /**
   How a promotion goes: after every unsettled answer but the last allowed one the
   certificate is looked at again; a look that shows the version, or a positive
   answer, is success; a failed look, any other answer and the last allowed one end it.
   */
  ghost predicate PromotionGoes(version: nat, attempts: nat, looks: seq<Result<CertificateView, Failure>>,
                                sent: seq<Request>, r: Result<(), Failure>)
  {
    if |looks| == |sent| + 1 then
      && |sent| < attempts && AllUnsettled(version, looks[..|sent|], sent)
      && match looks[|sent|]
         case Err(error) => r == Err(error)
         case Ok(view) => view.current == Some(version) && r == Ok(())
    else
      var last := |sent| - 1;
      && |looks| == |sent| && 0 <= last < attempts && AllUnsettled(version, looks[..last], sent[..last])
      && AskedAfter(version, looks[last], sent[last])
      && r == sent[last].answer && (r.Ok? || !Transient(r.error) || |sent| == attempts)
  }

  predicate Candidate(v: VersionView) {
    PENDING in v.stages || LATEST in v.stages
  }

  lemma CandidatesArePointedTo(r: Remote, n: nat)
    requires n in r.versions
    ensures Candidate(View(r, n)) <==> PendingOrLatest(r, n)
  {
  }

  /** The material validates and is not the one looked for. */
  predicate Excluded(fingerprint: Fingerprint, local: Fingerprint, accepts: Acceptance) {
    fingerprint != local && accepts(fingerprint)
  }

  lemma NothingOffered(r: Remote, versions: seq<VersionView>, local: Fingerprint, accepts: Acceptance)
    requires Lists(r, versions)
    requires forall j | 0 <= j < |versions| :: Candidate(versions[j]) ==>
               Excluded(r.versions[versions[j].number].fingerprint, local, accepts)
    ensures !Offers(r, local) && Acceptable(r, r.pending, accepts) && Acceptable(r, r.latest, accepts)
  {
    forall n | n in r.versions && PendingOrLatest(r, n)
      ensures Excluded(r.versions[n].fingerprint, local, accepts)
    {
      CandidatesArePointedTo(r, n);
      assert View(r, n) in versions;
    }
  }

  /** After an upload the material is PENDING and LATEST, alone, and whatever could be published still can. */
  lemma UploadIsOffered(r: Remote, local: Fingerprint, created: Option<int>, accepts: Acceptance)
    ensures var after := Upload(r, local, created);
      && Offers(after, local)
      && (forall n | PendingOrLatest(after, n) :: n == r.next && after.versions[n].fingerprint == local)
      && (accepts(local) ==> Acceptable(after, after.pending, accepts) && Acceptable(after, after.latest, accepts))
      && (WellFormed(r) && Publishable(r, local, accepts) ==> Publishable(after, local, accepts))
  {
    var after := Upload(r, local, created);
    if WellFormed(r) && r.current.Some? {
      assert after.versions[r.current.value] == r.versions[r.current.value];
    }
  }

  /** The statements that close a publication, in their order, leave what `Published` says. */
  lemma CompletionPublishes(c: Context, kind: OperationType, before: Tables, begun: Tables, version: nat,
                            published: int, closing: int, settled: Tables, finished: int)
    requires Publishes(kind) && Underway(c, kind, before, begun)
    requires
      var operation := |before.operations|;
      var recorded := PublicationRecorded(begun, c.certificate, c.local, c.local, version, published);
      var closed := ReconciledClosed(recorded, c.certificate, c.local, version, operation, closing);
      && settled.operations == closed.operations
      && if kind.RENEW? then exists renewed: int :: settled == RenewalRecorded(closed, c.certificate, renewed)
         else settled == closed
    ensures
      var operation := |before.operations|;
      && operation < |settled.operations|
      && Published(c, kind, before, Transitioned(settled, operation, Stores.At(COMPLETED, version), finished), version)
  {
    var operation := |before.operations|;
    forall i | 0 <= i < operation ensures begun.operations[i] == before.operations[i] {
      assert begun.operations[..operation][i] == before.operations[i];
    }
  }

  class PublicationReconciler {
    const service: CertificateService
    const store: StateStore

    constructor (service: CertificateService, store: StateStore)
      ensures this.service == service && this.store == store
    {
      this.service, this.store := service, store;
    }

    ghost function At(live: Option<Live>): World
      reads service, store
    {
      WorldAt(service, store, live)
    }

    method VerifyBundle(bundle: Bundle, accepts: Acceptance) returns (r: Result<Fingerprint, Failure>)
      ensures r == if accepts(bundle.fingerprint) then Ok(bundle.fingerprint)
                   else Err(Reconciliation("OCI public bundle failed local identity validation"))
    {
      return if accepts(bundle.fingerprint) then Ok(bundle.fingerprint)
             else Err(Reconciliation("OCI public bundle failed local identity validation"));
    }

    /** The fingerprint of a listed version, once its bundle validates. */
    method FetchFingerprint(version: nat, accepts: Acceptance) returns (r: Result<Fingerprint, Failure>)
      requires WellFormed(service.remote)
      modifies service`remote
      ensures WellFormed(service.remote) && Later(old(service.remote), service.remote)
      ensures service.exclusive ==> service.remote == old(service.remote)
      ensures r.Ok? ==> Names(service.remote, Some(version), r.value) && accepts(r.value)
      ensures service.exclusive && service.steady && version in service.remote.versions
              && accepts(service.remote.versions[version].fingerprint)
              ==> r.Ok?
    {
      var bundle :- service.GetPublicBundle(Some(version));
      r := VerifyBundle(bundle, accepts);
    }

    /** The first listed PENDING or LATEST version whose bundle is the local material. */
    method FindMatchingPending(local: Fingerprint, accepts: Acceptance) returns (r: Result<Option<nat>, Failure>)
      requires WellFormed(service.remote)
      modifies service`remote
      ensures WellFormed(service.remote) && Later(old(service.remote), service.remote)
      ensures service.exclusive ==> service.remote == old(service.remote)
      ensures r == Ok(None) && service.remote.etag == old(service.remote).etag ==>
                && !Offers(service.remote, local)
                && Acceptable(service.remote, service.remote.pending, accepts)
                && Acceptable(service.remote, service.remote.latest, accepts)
      ensures r.Ok? && r.value.Some? ==> accepts(local)
      ensures r.Ok? && r.value.Some? && service.exclusive ==>
                && PendingOrLatest(service.remote, r.value.value)
                && Names(service.remote, r.value, local)
      ensures service.exclusive && service.steady
              && Acceptable(service.remote, service.remote.pending, accepts)
              && Acceptable(service.remote, service.remote.latest, accepts) ==>
                r.Ok? && (r.value.Some? <==> Offers(service.remote, local))
    {
      var candidates :- service.ListVersions();
      ghost var listed := service.remote;
      for i := 0 to |candidates|
        invariant WellFormed(service.remote) && Later(listed, service.remote)
        invariant service.exclusive ==> service.remote == listed
        invariant service.remote == listed ==> forall j | 0 <= j < i ::
          Candidate(candidates[j]) ==> Excluded(listed.versions[candidates[j].number].fingerprint, local, accepts)
      {
        var candidate := candidates[i];
        if !Candidate(candidate) {
          continue;
        }
        CandidatesArePointedTo(listed, candidate.number);
        var fingerprint :- FetchFingerprint(candidate.number, accepts);
        if fingerprint == local {
          return Ok(Some(candidate.number));
        }
      }
      if service.remote == listed {
        NothingOffered(listed, candidates, local, accepts);
      }
      return Ok(None);
    }

    /** One pass: look at the certificate and, unless it shows the version, ask for its promotion under the tag seen. */
    method LookAndAsk(version: nat)
      returns (look: Result<CertificateView, Failure>, answer: Option<Result<(), Failure>>,
               ghost sent: Option<Request>)
      requires WellFormed(service.remote)
      modifies service`remote, service`requests
      ensures WellFormed(service.remote) && Later(old(service.remote), service.remote)
      ensures answer.Some? <==> look.Ok? && look.value.current != Some(version)
      ensures service.requests == old(service.requests) + if sent.Some? then [sent.value] else []
      ensures answer.Some? <==> sent.Some?
      ensures sent.Some? ==> AskedAfter(version, look, sent.value) && sent.value.answer == answer.value
      ensures service.exclusive && look.Ok? ==> look.value.current == old(service.remote).current
      ensures service.exclusive ==>
                service.remote == if sent.Some? && sent.value.applied then Promote(old(service.remote), version)
                                  else old(service.remote)
      ensures service.exclusive && answer.Some? && answer.value.Ok? ==> sent.value.applied
      ensures service.steady ==> look.Ok?
      ensures service.exclusive && service.steady && version in old(service.remote).versions && answer.Some? ==>
                if service.reliable then answer.value.Ok? else answer.value.Err? ==> Transient(answer.value.error)
    {
      look := service.GetCertificate();
      if look.Err? || look.value.current == Some(version) {
        return look, None, None;
      }
      var asked, request := service.PromoteCurrent(version, look.value.etag);
      return look, Some(asked), Some(request);
    }

    /** Promote after the service settles, looking again before every ambiguous retry. */
    method PromoteCurrent(version: nat, attempts: nat)
      returns (r: Result<(), Failure>, ghost looks: seq<Result<CertificateView, Failure>>,
               ghost sent: seq<Request>, ghost slept: real)
      requires WellFormed(service.remote) && 1 <= attempts <= 10
      modifies service`remote, service`requests
      ensures WellFormed(service.remote) && Later(old(service.remote), service.remote)
      ensures service.requests == old(service.requests) + sent && |sent| <= attempts
      ensures forall i | 0 <= i < |sent| :: sent[i].PromoteRequest? && sent[i].version == version
      ensures PromotionGoes(version, attempts, looks, sent, r)
      ensures service.exclusive ==> forall i | 0 <= i < |sent| - 1 :: !sent[i].applied
      ensures service.exclusive ==> service.remote == Promoted(old(service.remote), version, sent)
      ensures service.exclusive && r.Ok? ==> service.remote.current == Some(version)
      ensures service.exclusive && old(service.remote).current == Some(version) ==> sent == []
      ensures service.exclusive && service.reliable && version in old(service.remote).versions ==>
                r.Ok? && |sent| == if old(service.remote).current == Some(version) then 0 else 1
      // where only promotions are unsettled, it gives up only after the last attempt
      ensures service.exclusive && service.steady && version in old(service.remote).versions && |sent| < attempts ==>
                r.Ok?
      ensures 0.0 <= slept <= 90.0
    {
      looks, sent, slept := [], [], 0.0;
      for attempt := 0 to attempts
        invariant attempt < attempts
        invariant WellFormed(service.remote) && Later(old(service.remote), service.remote)
        invariant service.requests == old(service.requests) + sent && |sent| == attempt
        invariant AllUnsettled(version, looks, sent)
        invariant service.exclusive ==> forall i | 0 <= i < |sent| - 1 :: !sent[i].applied
        invariant service.exclusive ==> service.remote == Promoted(old(service.remote), version, sent)
        invariant service.exclusive && old(service.remote).current == Some(version) ==> sent == []
        invariant service.exclusive && service.reliable && version in old(service.remote).versions ==> attempt == 0
        invariant 0.0 <= slept <= SleepCeiling(PromotionPolicy(attempts), attempt)
      {
        PromotionBound(attempts, attempt);
        var look, answer, request := LookAndAsk(version);
        looks := looks + [look];
        assert looks[..attempt] == looks[..|looks| - 1];
        if look.Err? {
          return Err(look.error), looks, sent, slept;
        }
        if answer.None? {
          return Ok(()), looks, sent, slept;
        }
        sent := sent + [request.value];
        assert sent[..attempt] == sent[..|sent| - 1];
        if answer.value.Ok? {
          return answer.value, looks, sent, slept;
        }
        var retryable := Classify(answer.value.error);
        if !retryable || attempt + 1 >= attempts {
          return answer.value, looks, sent, slept;
        }
        var delay := Pause(PromotionPolicy(attempts), attempt, None);
        slept := slept + delay;
      }
      assert false;
    }

    /** The loop's own classification, which also retries a conflict the service calls IncorrectState. */
    method Classify(error: Failure) returns (retryable: bool)
      ensures retryable <==> Transient(error)
    {
      match error
      case Service(status, code) =>
        return status in {429, 500, 502, 503, 504} || (status == 409 && code == "IncorrectState");
      case Transport =>
        return true;
      case _ =>
        return false;
    }

    lemma PromotionBound(attempts: nat, attempt: nat)
      requires 1 <= attempts <= 10 && attempt < attempts
      ensures SleepCeiling(PromotionPolicy(attempts), attempt) <= 90.0
    {
      PromotionSleepsAtMostNinetySeconds(attempts);
      SleepCeilingMonotone(PromotionPolicy(attempts), attempt, attempts - 1);
    }

    /** Record the agreement, close every interrupted operation it settles, then close this one. */
    method Complete(c: Context, operation: nat, version: nat, kind: OperationType, ghost before: Tables,
                    ghost start: World, ghost live: Live)
      returns (r: Result<(), Failure>, ghost last: Option<Live>)
      requires service.remote.current == Some(version) && Serves(service.remote, c.local)
      requires Publishes(kind) && live.operation == operation == |before.operations|
      requires Underway(c, kind, before, store.Contents())
      requires service.exclusive ==> Reaches(c, start, At(Some(live)))
      modifies store
      ensures service.exclusive ==> Reaches(c, start, At(last))
      ensures r.Ok? ==> last.None? && Published(c, kind, before, store.Contents(), version)
      ensures r.Ok? ==> store.journal == old(store.journal) + [(operation, COMPLETED)]
      ensures store.reliable ==> r.Ok?
    {
      last := Some(live);
      ghost var begun := store.Contents();
      var _ :- store.RecordPublicationSuccess(c.certificate, c.local, c.local, version);
      ghost var recorded := store.Contents();
      ghost var published := store.clock;
      StepRecordPublication(service.exclusive, c, start, World(service.remote, begun, last), version, published);
      var _ :- store.CompleteReconciledOperations(c.certificate, c.local, version, operation);
      ghost var closed := store.Contents();
      ghost var closing := store.clock;
      StepCloseReconciled(service.exclusive, c, start, World(service.remote, recorded, last), version, closing);
      if kind == RENEW {
        var _ :- store.RecordRenewalSuccess(c.certificate);
        StepRecordRenewal(service.exclusive, c, start, World(service.remote, closed, last), store.clock);
      }
      ghost var settled := store.Contents();
      var _ :- store.Transition(operation, Stores.At(COMPLETED, version));
      StepFinish(service.exclusive, c, start, World(service.remote, settled, last),
                 Stores.At(COMPLETED, version), store.clock);
      CompletionPublishes(c, kind, before, begun, version, published, closing, settled, store.clock);
      return Ok(()), None;
    }

    /** Upload under the tag and log that it was done. */
    method SendUpload(c: Context, kind: OperationType, operation: nat, etag: nat,
                      ghost before: Tables, ghost start: World)
      returns (r: Result<(), Failure>, ghost sent: Request)
      requires WellFormed(service.remote) && operation == |before.operations|
      requires service.remote.etag == etag ==> !Serves(service.remote, c.local) && !Offers(service.remote, c.local)
      requires etag <= service.remote.etag && (service.exclusive ==> service.remote.etag == etag)
      requires Underway(c, kind, before, store.Contents())
      requires service.exclusive ==> Reaches(c, start, At(Some(Live(operation, false))))
      modifies service`remote, service`requests, store
      ensures WellFormed(service.remote)
      ensures service.requests == old(service.requests) + [sent] && GuardedUpload(sent, c.local)
      ensures Underway(c, kind, before, store.Contents())
      ensures service.exclusive ==> Reaches(c, start, At(Some(Live(operation, false))))
      ensures service.exclusive ==>
                service.remote == if sent.applied then Upload(old(service.remote), c.local, sent.created)
                                  else old(service.remote)
      ensures r.Ok? ==> sent.applied && store.journal == old(store.journal) + [(operation, OCI_PENDING_UPLOADED)]
      ensures service.exclusive && service.steady && store.reliable ==> r.Ok?
    {
      ghost var live, searched := Live(operation, false), service.remote;
      var uploaded, request := service.UploadPendingVersion(etag, c.local);
      sent := request;
      StepUpload(service.exclusive, c, start, World(searched, store.Contents(), Some(live)),
                 sent.applied, sent.created);
      if uploaded.Err? {
        return Err(uploaded.error), sent;
      }
      r := Persist(service, store, c, kind, operation, To(OCI_PENDING_UPLOADED), before, start, live);
    }

    /** Nothing offered matches: upload under the tag, then look again. */
    method UploadAndFind(c: Context, kind: OperationType, operation: nat, etag: nat, accepts: Acceptance,
                         ghost before: Tables, ghost start: World)
      returns (r: Result<nat, Failure>, ghost sent: Request)
      requires WellFormed(service.remote) && operation == |before.operations|
      requires service.remote.etag == etag ==> !Serves(service.remote, c.local) && !Offers(service.remote, c.local)
      requires etag <= service.remote.etag && (service.exclusive ==> service.remote.etag == etag)
      requires Underway(c, kind, before, store.Contents())
      requires service.exclusive ==> Reaches(c, start, At(Some(Live(operation, false))))
      modifies service`remote, service`requests, store
      ensures WellFormed(service.remote)
      ensures service.requests == old(service.requests) + [sent] && GuardedUpload(sent, c.local)
      ensures Underway(c, kind, before, store.Contents())
      ensures service.exclusive ==> Reaches(c, start, At(Some(Live(operation, false))))
      ensures r.Ok? ==> accepts(c.local)
      ensures service.exclusive && r.Ok? ==>
                && PendingOrLatest(service.remote, r.value) && Names(service.remote, Some(r.value), c.local)
                && service.remote == Upload(old(service.remote), c.local, sent.created)
      ensures service.exclusive && Publishable(old(service.remote), c.local, accepts) ==>
                Publishable(service.remote, c.local, accepts)
      ensures r.Ok? ==> store.journal == old(store.journal) + [(operation, OCI_PENDING_UPLOADED)]
      ensures service.exclusive && service.steady && store.reliable && accepts(c.local) ==> r.Ok?
    {
      ghost var searched := service.remote;
      var uploaded, request := SendUpload(c, kind, operation, etag, before, start);
      sent := request;
      UploadIsOffered(searched, c.local, sent.created, accepts);
      if uploaded.Err? {
        return Err(uploaded.error), sent;
      }
      var candidate :- FindMatchingPending(c.local, accepts);
      if candidate.None? {
        return Err(Reconciliation("OCI upload outcome is not yet visible; reconcile before retry")), sent;
      }
      return Ok(candidate.value), sent;
    }

    /** Reuse a version the service already offers, or upload one and look again. */
    method SelectCandidate(c: Context, kind: OperationType, operation: nat, etag: nat, accepts: Acceptance,
                           ghost tagged: Remote, ghost before: Tables, ghost start: World)
      returns (r: Result<nat, Failure>, ghost uploads: seq<Request>)
      requires WellFormed(service.remote) && Publishes(kind) && operation == |before.operations|
      requires etag == tagged.etag && Later(tagged, service.remote)
      requires service.remote == tagged ==> !Serves(tagged, c.local)
      requires service.exclusive ==> service.remote == tagged
      requires Underway(c, kind, before, store.Contents())
      requires service.exclusive ==> Reaches(c, start, At(Some(Live(operation, false))))
      modifies service`remote, service`requests, store
      ensures WellFormed(service.remote)
      ensures service.requests == old(service.requests) + uploads
      ensures |uploads| <= 1 && forall e | e in uploads :: GuardedUpload(e, c.local)
      ensures Underway(c, kind, before, store.Contents())
      ensures service.exclusive && Publishable(old(service.remote), c.local, accepts) ==>
                Publishable(service.remote, c.local, accepts)
      ensures service.exclusive ==> Reaches(c, start, At(Some(Live(operation, false))))
      ensures service.exclusive && Offers(tagged, c.local) ==> uploads == []
      // nothing is uploaded before every offered bundle validated, and no candidate is selected that does not
      ensures service.exclusive && uploads != [] ==>
                Acceptable(tagged, tagged.pending, accepts) && Acceptable(tagged, tagged.latest, accepts)
      ensures r.Ok? ==> accepts(c.local)
      ensures r.Ok? ==>
                store.journal == old(store.journal) + if uploads == [] then [] else [(operation, OCI_PENDING_UPLOADED)]
      ensures service.exclusive && r.Ok? ==>
                && PendingOrLatest(service.remote, r.value)
                && Names(service.remote, Some(r.value), c.local)
                && service.remote.current == tagged.current
                && (tagged.current.Some? ==>
                      Names(service.remote, tagged.current, tagged.versions[tagged.current.value].fingerprint))
      ensures service.exclusive && service.steady && store.reliable && Publishable(tagged, c.local, accepts) ==>
                r.Ok? && |uploads| == if Offers(tagged, c.local) then 0 else 1
    {
      uploads := [];
      var candidate :- FindMatchingPending(c.local, accepts);
      if candidate.Some? {
        return Ok(candidate.value), uploads;
      }
      var found, sent := UploadAndFind(c, kind, operation, etag, accepts, before, start);
      return found, [sent];
    }

    /** Read CURRENT until it shows the candidate, validate it and insist that it is the local material. */
    method ReadConfirmed(local: Fingerprint, candidate: nat, accepts: Acceptance, readAttempts: nat)
      returns (r: Result<nat, Failure>)
      requires WellFormed(service.remote) && 1 <= readAttempts
      modifies service`remote
      ensures WellFormed(service.remote) && (service.exclusive ==> service.remote == old(service.remote))
      ensures r.Ok? ==> service.remote.current == Some(r.value) && Serves(service.remote, local) && accepts(local)
      ensures service.exclusive && service.steady && accepts(local)
              && service.remote.current == Some(candidate) && Serves(service.remote, local)
              ==> r.Ok?
    {
      var shown, calls := ReadUntilCurrent(service, candidate, readAttempts);
      var confirmed :- shown;
      var fingerprint :- VerifyBundle(confirmed, accepts);
      if fingerprint != local {
        return Err(Reconciliation("OCI CURRENT fingerprint does not match local certificate"));
      }
      return Ok(confirmed.version);
    }

    /** Read CURRENT back after a promotion, and persist that it is the local material. */
    method Confirm(c: Context, kind: OperationType, operation: nat, candidate: nat, accepts: Acceptance,
                   readAttempts: nat, ghost before: Tables, ghost start: World, ghost live: Live)
      returns (r: Result<nat, Failure>)
      requires WellFormed(service.remote) && Publishes(kind) && live.operation == operation == |before.operations|
      requires 1 <= readAttempts
      requires Underway(c, kind, before, store.Contents())
      requires live.promoted ==> service.exclusive
      requires service.exclusive ==> Reaches(c, start, At(Some(live)))
      modifies service`remote, store
      ensures WellFormed(service.remote)
      ensures Underway(c, kind, before, store.Contents())
      ensures r.Ok? ==>
                service.remote.current == Some(r.value) && Serves(service.remote, c.local) && accepts(c.local)
      ensures service.exclusive ==> Reaches(c, start, At(Some(live))) && service.remote == old(service.remote)
      ensures r.Ok? ==> store.journal == old(store.journal) + [(operation, OCI_CURRENT_CONFIRMED)]
      ensures service.exclusive && service.steady && store.reliable && accepts(c.local)
              && service.remote.current == Some(candidate) && Serves(service.remote, c.local)
              ==> r.Ok?
    {
      var version :- ReadConfirmed(c.local, candidate, accepts, readAttempts);
      var _ :- Persist(service, store, c, kind, operation, Stores.At(OCI_CURRENT_CONFIRMED, version),
                       before, start, live);
      return Ok(version);
    }

    /** Persist the verified candidate, promote it and read CURRENT back. */
    method PromoteAndConfirm(c: Context, kind: OperationType, operation: nat, candidate: nat, accepts: Acceptance,
                             promoteAttempts: nat, readAttempts: nat, ghost before: Tables, ghost start: World)
      returns (r: Result<nat, Failure>, ghost live: Live, ghost promotions: seq<Request>)
      requires WellFormed(service.remote) && Publishes(kind) && operation == |before.operations|
      requires 1 <= promoteAttempts <= 10 && 1 <= readAttempts
      requires Underway(c, kind, before, store.Contents())
      requires service.exclusive ==> Reaches(c, start, At(Some(Live(operation, false))))
      requires service.exclusive ==>
                 PendingOrLatest(service.remote, candidate) && Names(service.remote, Some(candidate), c.local)
      modifies service`remote, service`requests, store
      ensures WellFormed(service.remote) && live.operation == operation
      ensures service.requests == old(service.requests) + promotions
      ensures |promotions| <= promoteAttempts && forall e | e in promotions :: e.PromoteRequest?
      ensures Underway(c, kind, before, store.Contents())
      ensures r.Ok? ==>
                service.remote.current == Some(r.value) && Serves(service.remote, c.local) && accepts(c.local)
      ensures service.exclusive && Publishable(old(service.remote), c.local, accepts) ==>
                Publishable(service.remote, c.local, accepts)
      ensures service.exclusive ==> Reaches(c, start, At(Some(live)))
      ensures service.exclusive ==> forall i | 0 <= i < |promotions| - 1 :: !promotions[i].applied
      ensures service.exclusive && r.Ok? ==>
                r.value == candidate && service.remote == Promoted(old(service.remote), candidate, promotions)
      ensures r.Ok? ==>
                store.journal == old(store.journal)
                                 + [(operation, OCI_PENDING_VERIFIED), (operation, OCI_CURRENT_CONFIRMED)]
      ensures service.exclusive && service.steady && store.reliable && accepts(c.local)
              && |promotions| < promoteAttempts ==>
                r.Ok?
      ensures service.exclusive && service.reliable && store.reliable && accepts(c.local) ==>
                r.Ok? && |promotions| == if old(service.remote).current == Some(candidate) then 0 else 1
    {
      live, promotions := Live(operation, false), [];
      var _ :- Persist(service, store, c, kind, operation, Stores.At(OCI_PENDING_VERIFIED, candidate),
                       before, start, live);
      ghost var verified := At(Some(live));
      var promoted, looks, sent, slept := PromoteCurrent(candidate, promoteAttempts);
      promotions := sent;
      StepPromotion(service.exclusive, c, start, verified, TookEffect(sent), candidate);
      live := Live(operation, service.exclusive && TookEffect(sent));
      if promoted.Err? {
        return Err(promoted.error), live, promotions;
      }
      r := Confirm(c, kind, operation, candidate, accepts, readAttempts, before, start, live);
    }

    /** Take the entity tag first, then read and validate CURRENT. */
    method ReadTagged(accepts: Acceptance) returns (r: Result<(nat, Bundle), Failure>, ghost tagged: Remote)
      requires WellFormed(service.remote)
      modifies service`remote
      ensures WellFormed(service.remote) && (service.exclusive ==> service.remote == old(service.remote))
      ensures r.Ok? ==>
                && r.value.0 == tagged.etag && Later(tagged, service.remote)
                && service.remote.current == Some(r.value.1.version)
                && Names(service.remote, service.remote.current, r.value.1.fingerprint)
                && accepts(r.value.1.fingerprint)
      ensures service.exclusive ==> tagged == service.remote
      ensures service.exclusive && service.steady
              && service.remote.current.Some? && Acceptable(service.remote, service.remote.current, accepts) ==>
                r.Ok?
    {
      tagged := service.remote;
      var remote :- service.GetCertificate();
      tagged := service.remote;
      var current :- service.GetPublicBundle(None);
      var _ :- VerifyBundle(current, accepts);
      return Ok((remote.etag, current)), tagged;
    }

    /** Open the operation, take the entity tag, then look at CURRENT: in that order. */
    method Examine(c: Context, kind: OperationType, accepts: Acceptance)
      returns (r: Result<Examined, Failure>, ghost last: Option<Live>, ghost tagged: Remote)
      requires WellFormed(service.remote) && Publishes(kind)
      modifies service`remote, store
      ensures WellFormed(service.remote)
      ensures service.exclusive ==> service.remote == old(service.remote)
      ensures service.exclusive ==> Reaches(c, old(At(None)), At(last))
      ensures r.Ok? ==>
                && r.value.operation == |old(store.operations)| && last == Some(Live(r.value.operation, false))
                && Underway(c, kind, old(store.Contents()), store.Contents())
                && r.value.etag == tagged.etag && Later(tagged, service.remote)
                && service.remote.current == Some(r.value.current.version)
                && Names(service.remote, service.remote.current, r.value.current.fingerprint)
                && accepts(r.value.current.fingerprint)
      ensures c.ocid.None? ==> r.Err? && store.Contents() == old(store.Contents())
      ensures r.Ok? ==> store.journal == old(store.journal) + [(r.value.operation, OCI_RECONCILED)]
      ensures service.exclusive && r.Ok? ==> tagged == service.remote
      ensures service.exclusive && service.steady && store.reliable && c.ocid.Some?
              && service.remote.current.Some? && Acceptable(service.remote, service.remote.current, accepts) ==>
                r.Ok?
    {
      tagged := service.remote;
      ghost var start, before := At(None), store.Contents();
      var opening, live := OpenOperation(service, store, c, kind,
                                         Reconciliation("publish requires a configured OCI certificate OCID"));
      last := live;
      var operation :- opening;
      var found, met := ReadTagged(accepts);
      tagged := met;
      var read :- found;
      var (etag, current) := read;
      var _ :- Persist(service, store, c, kind, operation, Stores.At(OCI_RECONCILED, current.version),
                       before, start, last.value);
      return Ok(Examined(operation, etag, current)), last, tagged;
    }

    /** Select a candidate, promote it and confirm it: all of a replacement but its settlement. */
    method BringToCurrent(c: Context, kind: OperationType, operation: nat, etag: nat, accepts: Acceptance,
                          promoteAttempts: nat, readAttempts: nat,
                          ghost tagged: Remote, ghost before: Tables, ghost start: World)
      returns (r: Result<nat, Failure>, ghost live: Live,
               ghost uploads: seq<Request>, ghost promotions: seq<Request>)
      requires WellFormed(service.remote) && Publishes(kind) && operation == |before.operations|
      requires 1 <= promoteAttempts <= 10 && 1 <= readAttempts
      requires etag == tagged.etag && Later(tagged, service.remote)
      requires service.remote == tagged ==>
                 tagged.current.Some? && Known(tagged, tagged.current) && !Serves(tagged, c.local)
      requires service.exclusive ==> service.remote == tagged
      requires Underway(c, kind, before, store.Contents())
      requires service.exclusive ==> Reaches(c, start, At(Some(Live(operation, false))))
      modifies service`remote, service`requests, store
      ensures WellFormed(service.remote) && live.operation == operation
      ensures service.requests == old(service.requests) + uploads + promotions
      ensures |uploads| <= 1 && forall e | e in uploads :: GuardedUpload(e, c.local)
      ensures |promotions| <= promoteAttempts && forall e | e in promotions :: e.PromoteRequest?
      ensures Underway(c, kind, before, store.Contents())
      ensures r.Ok? ==> service.remote.current == Some(r.value) && Serves(service.remote, c.local)
      ensures service.exclusive ==> Reaches(c, start, At(Some(live)))
      ensures service.exclusive && Publishable(old(service.remote), c.local, accepts) ==>
                Publishable(service.remote, c.local, accepts)
      ensures service.exclusive ==> forall i | 0 <= i < |promotions| - 1 :: !promotions[i].applied
      ensures service.exclusive && Offers(tagged, c.local) ==> uploads == []
      ensures service.exclusive && uploads != [] ==>
                Acceptable(tagged, tagged.pending, accepts) && Acceptable(tagged, tagged.latest, accepts)
      ensures r.Ok? || promotions != [] ==> accepts(c.local)
      ensures service.exclusive && r.Ok? ==> service.remote.previous == tagged.current
      ensures r.Ok? ==>
                store.journal == old(store.journal)
                                 + (if uploads != [] then [(operation, OCI_PENDING_UPLOADED)] else [])
                                 + [(operation, OCI_PENDING_VERIFIED), (operation, OCI_CURRENT_CONFIRMED)]
      ensures service.exclusive && service.steady && store.reliable && Publishable(tagged, c.local, accepts)
              && |promotions| < promoteAttempts ==>
                r.Ok? && |uploads| == if Offers(tagged, c.local) then 0 else 1
      ensures service.exclusive && service.reliable && store.reliable && Publishable(tagged, c.local, accepts) ==>
                r.Ok? && |uploads| == (if Offers(tagged, c.local) then 0 else 1) && |promotions| == 1
    {
      live, promotions := Live(operation, false), [];
      var candidate, sent := SelectCandidate(c, kind, operation, etag, accepts, tagged, before, start);
      uploads := sent;
      if candidate.Err? {
        return Err(candidate.error), live, uploads, promotions;
      }
      assert service.exclusive ==> service.remote.current != Some(candidate.value);
      r, live, promotions := PromoteAndConfirm(c, kind, operation, candidate.value, accepts,
                                               promoteAttempts, readAttempts, before, start);
    }

    /** CURRENT is other material: bring the local material to CURRENT and settle the operation. */
    method Replace(c: Context, kind: OperationType, operation: nat, etag: nat, accepts: Acceptance,
                   promoteAttempts: nat, readAttempts: nat,
                   ghost tagged: Remote, ghost before: Tables, ghost start: World)
      returns (r: Result<nat, Failure>, ghost last: Option<Live>,
               ghost uploads: seq<Request>, ghost promotions: seq<Request>)
      requires WellFormed(service.remote) && Publishes(kind) && operation == |before.operations|
      requires 1 <= promoteAttempts <= 10 && 1 <= readAttempts
      requires etag == tagged.etag && Later(tagged, service.remote)
      requires service.remote == tagged ==>
                 tagged.current.Some? && Known(tagged, tagged.current) && !Serves(tagged, c.local)
      requires service.exclusive ==> service.remote == tagged
      requires Underway(c, kind, before, store.Contents())
      requires service.exclusive ==> Reaches(c, start, At(Some(Live(operation, false))))
      modifies service`remote, service`requests, store
      ensures WellFormed(service.remote)
      ensures service.requests == old(service.requests) + uploads + promotions
      ensures |uploads| <= 1 && forall e | e in uploads :: GuardedUpload(e, c.local)
      ensures |promotions| <= promoteAttempts && forall e | e in promotions :: e.PromoteRequest?
      ensures r.Ok? ==>
                && service.remote.current == Some(r.value) && Serves(service.remote, c.local)
                && last.None? && Published(c, kind, before, store.Contents(), r.value)
      ensures service.exclusive ==> Reaches(c, start, At(last))
      ensures service.exclusive && Publishable(old(service.remote), c.local, accepts) ==>
                Publishable(service.remote, c.local, accepts)
      ensures service.exclusive ==> forall i | 0 <= i < |promotions| - 1 :: !promotions[i].applied
      ensures service.exclusive && Offers(tagged, c.local) ==> uploads == []
      ensures service.exclusive && uploads != [] ==>
                Acceptable(tagged, tagged.pending, accepts) && Acceptable(tagged, tagged.latest, accepts)
      ensures r.Ok? || promotions != [] ==> accepts(c.local)
      ensures service.exclusive && r.Ok? ==> service.remote.previous == tagged.current
      ensures r.Ok? ==> store.journal == old(store.journal) + Remainder(operation, uploads != [], true)
      ensures service.exclusive && service.steady && store.reliable && Publishable(tagged, c.local, accepts)
              && |promotions| < promoteAttempts ==>
                r.Ok? && |uploads| == if Offers(tagged, c.local) then 0 else 1
      ensures service.exclusive && service.reliable && store.reliable && Publishable(tagged, c.local, accepts) ==>
                r.Ok? && |uploads| == (if Offers(tagged, c.local) then 0 else 1) && |promotions| == 1
    {
      var confirmed, live, sent, asked := BringToCurrent(c, kind, operation, etag, accepts,
                                                         promoteAttempts, readAttempts, tagged, before, start);
      last, uploads, promotions := Some(live), sent, asked;
      if confirmed.Err? {
        return Err(confirmed.error), last, uploads, promotions;
      }
      var done, ending := Complete(c, operation, confirmed.value, kind, before, start, live);
      last := ending;
      if done.Err? {
        return Err(done.error), last, uploads, promotions;
      }
      return Ok(confirmed.value), last, uploads, promotions;
    }

    /** Converge one existing remote certificate to validated local material. */
    method Publish(c: Context, kind: OperationType, accepts: Acceptance, promoteAttempts: nat, readAttempts: nat)
      returns (r: Result<PublicationResult, Failure>, ghost last: Option<Live>,
               ghost uploads: seq<Request>, ghost promotions: seq<Request>)
      requires WellFormed(service.remote) && Publishes(kind)
      requires 1 <= promoteAttempts <= 10 && 1 <= readAttempts
      modifies service`remote, service`requests, store
      ensures WellFormed(service.remote)
      // whoever else writes
      ensures service.requests == old(service.requests) + uploads + promotions
      ensures |uploads| <= 1 && forall e | e in uploads :: GuardedUpload(e, c.local)
      ensures |promotions| <= promoteAttempts && forall e | e in promotions :: e.PromoteRequest?
      ensures r.Ok? ==>
                && r.value.fingerprint == c.local
                && service.remote.current == Some(r.value.version) && Serves(service.remote, c.local)
                && last.None? && Published(c, kind, old(store.Contents()), store.Contents(), r.value.version)
      ensures r.Ok? ==>
                var operation := |old(store.operations)|;
                store.journal == old(store.journal) + [(operation, OCI_RECONCILED)]
                                 + Remainder(operation, uploads != [], r.value.changed)
      ensures r.Ok? || promotions != [] ==> accepts(c.local)
      ensures c.ocid.None? ==>
                r.Err? && store.Contents() == old(store.Contents()) && uploads == [] && promotions == []
      // as the only writer
      ensures service.exclusive ==> Reaches(c, old(At(None)), At(last))
      ensures service.exclusive && Publishable(old(service.remote), c.local, accepts) ==>
                Publishable(service.remote, c.local, accepts)
      ensures service.exclusive ==> forall i | 0 <= i < |promotions| - 1 :: !promotions[i].applied
      ensures service.exclusive && (Serves(old(service.remote), c.local) || Offers(old(service.remote), c.local))
              ==> uploads == []
      ensures service.exclusive && (r.Ok? || uploads != [] || promotions != []) ==>
                Acceptable(old(service.remote), old(service.remote).current, accepts)
      ensures service.exclusive && uploads != [] ==>
                && Acceptable(old(service.remote), old(service.remote).pending, accepts)
                && Acceptable(old(service.remote), old(service.remote).latest, accepts)
      ensures service.exclusive && Serves(old(service.remote), c.local) ==>
                promotions == [] && service.remote == old(service.remote)
      ensures service.exclusive && r.Ok? ==> (r.value.changed <==> !Serves(old(service.remote), c.local))
      ensures service.exclusive && r.Ok? && r.value.changed ==>
                && old(service.remote).current.Some? && service.remote.previous == old(service.remote).current
      // where only promotions are unsettled: whatever was answered, it fails only after the last attempt
      ensures service.exclusive && service.steady && store.reliable && c.ocid.Some?
              && Publishable(old(service.remote), c.local, accepts) && |promotions| < promoteAttempts ==>
                r.Ok?
      // and without faults
      ensures service.exclusive && service.reliable && store.reliable && c.ocid.Some?
              && Publishable(old(service.remote), c.local, accepts) ==>
                && r.Ok?
                && |uploads| == (if Serves(old(service.remote), c.local) || Offers(old(service.remote), c.local)
                                 then 0 else 1)
                && |promotions| == (if Serves(old(service.remote), c.local) then 0 else 1)
    {
      uploads, promotions := [], [];
      ghost var start, before := At(None), store.Contents();
      var examined, live, tagged := Examine(c, kind, accepts);
      last := live;
      if examined.Err? {
        return Err(examined.error), last, uploads, promotions;
      }
      var Examined(operation, etag, current) := examined.value;
      if current.fingerprint == c.local {
        var done, ending := Complete(c, operation, current.version, kind, before, start, last.value);
        last := ending;
        r := if done.Ok? then Ok(PublicationResult(current.version, c.local, false)) else Err(done.error);
      } else {
        var version, ending, sent, asked := Replace(c, kind, operation, etag, accepts,
                                                    promoteAttempts, readAttempts, tagged, before, start);
        last, uploads, promotions := ending, sent, asked;
        r := if version.Ok? then Ok(PublicationResult(version.value, c.local, true)) else Err(version.error);
      }
    }
  }
}
