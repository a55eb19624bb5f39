/**
 The management and retrieval adapters in front of one remote certificate.  A
 request may be lost before or after the service applies it, and the caller may
 die at any call.  How much of this happens is a constant of the object.  Unless
 the publisher is the only writer, others may mutate the certificate before each
 request is served; each of their mutations advances the entity tag.
 */
module CertificateServices {
  import opened Options
  import opened Remotes
  import opened Failures

  datatype CertificateView = CertificateView(etag: nat, current: Option<nat>)

  datatype VersionView = VersionView(
    number: nat, stages: set<Stage>, created: Option<int>, deletion: Option<int>, etag: nat)

  datatype Bundle = Bundle(version: nat, fingerprint: Fingerprint)

  /** What may go wrong: nothing, promotions alone and only for a while, or anything anywhere. */
  datatype Faults = NoFaults | UnsettledPromotions | AnyFaults

  /** A promotion answered like this may or may not have taken effect, and may go through if sent again. */
  predicate Transient(f: Failure) {
    || f == Transport
    || (f.Service? && (f.status == 429 || f.status == 500 || f.status == 502 || f.status == 503 || f.status == 504))
    || f == Service(409, "IncorrectState")
  }

  /** A mutation request: the state it met, whether it took effect, and for a promotion what its sender was told. */
  datatype Request =
    | UploadRequest(before: Remote, fingerprint: Fingerprint, created: Option<int>, applied: bool)
    | PromoteRequest(before: Remote, version: nat, applied: bool, answer: Result<(), Failure>)
    | ScheduleRequest(before: Remote, version: nat, at: int, applied: bool)

  predicate Later(r: Remote, after: Remote) {
    after == r || r.etag < after.etag
  }

  function View(r: Remote, n: nat): VersionView
    requires n in r.versions
  {
    VersionView(n, Stages(r, n), r.versions[n].created, r.versions[n].deletion, r.etag)
  }

  /** Every version listed once, in whatever order the service chooses. */
  predicate Lists(r: Remote, versions: seq<VersionView>) {
    && (forall i | 0 <= i < |versions| ::
          versions[i].number in r.versions && versions[i] == View(r, versions[i].number))
    && (forall n | n in r.versions :: View(r, n) in versions)
    && (forall i, j | 0 <= i < j < |versions| :: versions[i].number != versions[j].number)
  }

  class CertificateService {
    var remote: Remote
    const exclusive: bool
    const faults: Faults
    const reliable := faults.NoFaults?
    const steady := !faults.AnyFaults?
    ghost var requests: seq<Request>

    constructor (remote: Remote, exclusive: bool, faults: Faults)
      requires WellFormed(remote)
      ensures this.remote == remote && this.exclusive == exclusive && this.faults == faults
      ensures requests == []
    {
      this.remote, this.exclusive, this.faults, this.requests := remote, exclusive, faults, [];
    }

    /** Other writers act, unless there are none. */
    method Interfere()
      requires WellFormed(remote)
      modifies this`remote
      ensures WellFormed(remote) && Later(old(remote), remote)
      ensures exclusive ==> remote == old(remote)
    {
      var others: Remote := *;
      if !exclusive && remote.etag < others.etag && WellFormed(others) {
        remote := others;
      }
    }

    method Deliver() returns (delivered: bool, answered: bool, why: Failure)
      ensures !why.AuditUnsuccessful?
      ensures steady ==> delivered && answered
    {
      delivered, answered, why := *, *, *;
      if why.AuditUnsuccessful? {
        why := Crashed;
      }
      if steady {
        delivered, answered := true, true;
      }
    }

    method GetCertificate() returns (r: Result<CertificateView, Failure>)
      requires WellFormed(remote)
      modifies this`remote
      ensures WellFormed(remote) && Later(old(remote), remote)
      ensures exclusive ==> remote == old(remote)
      ensures r.Ok? ==> r.value == CertificateView(remote.etag, remote.current)
      ensures steady ==> r.Ok?
    {
      Interfere();
      var delivered, answered, why := Deliver();
      return if answered then Ok(CertificateView(remote.etag, remote.current)) else Err(why);
    }

    /** The bundle of a numbered version, or of CURRENT. */
    method GetPublicBundle(version: Option<nat>) returns (r: Result<Bundle, Failure>)
      requires WellFormed(remote)
      modifies this`remote
      ensures WellFormed(remote) && Later(old(remote), remote)
      ensures exclusive ==> remote == old(remote)
      ensures r.Err? ==> !r.error.AuditUnsuccessful?
      ensures r.Ok? ==>
                && r.value.version in remote.versions
                && r.value.fingerprint == remote.versions[r.value.version].fingerprint
                && Some(r.value.version) == if version.Some? then version else remote.current
      ensures steady && (if version.Some? then version.value in remote.versions else remote.current.Some?)
              ==> r.Ok?
    {
      Interfere();
      var delivered, answered, why := Deliver();
      var wanted := if version.Some? then version else remote.current;
      if !answered {
        return Err(why);
      }
      if wanted.None? || wanted.value !in remote.versions {
        return Err(OciCertificate("OCI public bundle retrieval failed"));
      }
      return Ok(Bundle(wanted.value, remote.versions[wanted.value].fingerprint));
    }

    method ListVersions() returns (r: Result<seq<VersionView>, Failure>)
      requires WellFormed(remote)
      modifies this`remote
      ensures WellFormed(remote) && Later(old(remote), remote)
      ensures exclusive ==> remote == old(remote)
      ensures r.Ok? ==> Lists(remote, r.value)
      ensures steady ==> r.Ok?
    {
      Interfere();
      var delivered, answered, why := Deliver();
      if !answered {
        return Err(why);
      }
      var versions: seq<VersionView> := [];
      var left := remote.versions.Keys;
      while left != {}
        invariant left <= remote.versions.Keys
        invariant forall i | 0 <= i < |versions| ::
          && versions[i].number in remote.versions && versions[i].number !in left
          && versions[i] == View(remote, versions[i].number)
        invariant forall n | n in remote.versions && n !in left :: View(remote, n) in versions
        invariant forall i, j | 0 <= i < j < |versions| :: versions[i].number != versions[j].number
      {
        var n :| n in left;
        versions := versions + [View(remote, n)];
        left := left - {n};
      }
      return Ok(versions);
    }

    method GetVersion(version: nat) returns (r: Result<VersionView, Failure>)
      requires WellFormed(remote)
      modifies this`remote
      ensures WellFormed(remote) && Later(old(remote), remote)
      ensures exclusive ==> remote == old(remote)
      ensures r.Ok? ==> version in remote.versions && r.value == View(remote, version)
      ensures steady && version in remote.versions ==> r.Ok?
    {
      Interfere();
      var delivered, answered, why := Deliver();
      if !answered {
        return Err(why);
      }
      if version !in remote.versions {
        return Err(Service(404, "NotAuthorizedOrNotFound"));
      }
      return Ok(View(remote, version));
    }

    /** Import a new PENDING version if the tag still matches; the answer may be lost. */
    method UploadPendingVersion(etag: nat, fingerprint: Fingerprint)
      returns (r: Result<(), Failure>, ghost sent: Request)
      requires WellFormed(remote)
      modifies this`remote, this`requests
      ensures sent.UploadRequest? && requests == old(requests) + [sent]
      ensures WellFormed(sent.before) && Later(old(remote), sent.before)
      ensures exclusive ==> sent.before == old(remote)
      ensures sent.fingerprint == fingerprint && (sent.applied ==> etag == sent.before.etag)
      ensures WellFormed(remote) && remote == if sent.applied then Upload(sent.before, fingerprint, sent.created)
                                              else sent.before
      ensures r.Ok? ==> sent.applied
      ensures steady && etag == sent.before.etag ==> r.Ok?
    {
      Interfere();
      var delivered, answered, why := Deliver();
      var created: Option<int> := *;
      sent := UploadRequest(remote, fingerprint, created, delivered && etag == remote.etag);
      requests := requests + [sent];
      if delivered && etag == remote.etag {
        UploadStages(remote, fingerprint, created);
        remote := Upload(remote, fingerprint, created);
        return if answered then Ok(()) else Err(why), sent;
      }
      return Err(if delivered then Service(412, "NoEtagMatch") else why), sent;
    }

    /** Make a version CURRENT if the tag still matches; the answer may be lost, and the request may be put off. */
    method PromoteCurrent(version: nat, etag: nat) returns (r: Result<(), Failure>, ghost sent: Request)
      requires WellFormed(remote)
      modifies this`remote, this`requests
      ensures sent.PromoteRequest? && requests == old(requests) + [sent]
      ensures WellFormed(sent.before) && Later(old(remote), sent.before)
      ensures exclusive ==> sent.before == old(remote)
      ensures sent.version == version && sent.answer == r
      ensures sent.applied ==> etag == sent.before.etag && version in sent.before.versions
      ensures WellFormed(remote) && remote == if sent.applied then Promote(sent.before, version) else sent.before
      ensures r.Ok? ==> sent.applied
      ensures steady && etag == sent.before.etag && version in sent.before.versions ==>
                if reliable then r.Ok? else r.Err? ==> Transient(r.error)
    {
      Interfere();
      var delivered: bool, answered: bool, why: Failure := *, *, *;
      var possible := etag == remote.etag && version in remote.versions;
      if reliable {
        delivered, answered := true, true;
      } else if steady {
        why := if !possible then Service(412, "NoEtagMatch") else if Transient(why) then why else Transport;
      }
      r := if delivered && possible && answered then Ok(())
           else Err(if delivered && !possible then Service(412, "NoEtagMatch") else why);
      sent := PromoteRequest(remote, version, delivered && possible, r);
      requests := requests + [sent];
      if delivered && possible {
        PromoteStages(remote, version);
        remote := Promote(remote, version);
      }
    }

    method ScheduleVersionDeletion(version: nat, at: int, etag: nat)
      returns (r: Result<(), Failure>, ghost sent: Request)
      requires WellFormed(remote)
      modifies this`remote, this`requests
      ensures sent.ScheduleRequest? && requests == old(requests) + [sent]
      ensures WellFormed(sent.before) && Later(old(remote), sent.before)
      ensures exclusive ==> sent.before == old(remote)
      ensures sent.version == version && sent.at == at
      ensures sent.applied ==> etag == sent.before.etag && version in sent.before.versions
      ensures WellFormed(remote)
      ensures remote == if sent.applied then Schedule(sent.before, version, at) else sent.before
      ensures r.Ok? ==> sent.applied
      ensures steady && etag == sent.before.etag && version in sent.before.versions ==> r.Ok?
    {
      Interfere();
      var delivered, answered, why := Deliver();
      var accepted := delivered && etag == remote.etag && version in remote.versions;
      sent := ScheduleRequest(remote, version, at, accepted);
      requests := requests + [sent];
      if accepted {
        remote := Schedule(remote, version, at);
        return if answered then Ok(()) else Err(OciCertificate("OCI version deletion scheduling failed")), sent;
      }
      return Err(OciCertificate("OCI version deletion scheduling failed")), sent;
    }
  }
}
