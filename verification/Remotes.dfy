/**
 The remote certificate and the contract its mutations obey.  The stages of a
 version are derived from four pointers, so a version is CURRENT, PREVIOUS,
 PENDING or LATEST exactly when that pointer names it, and DEPRECATED when
 neither CURRENT, PREVIOUS nor PENDING does.  An entity tag is a counter that
 every applied mutation advances, so a tag is never used twice.
 */
module Remotes {
  import opened Options

  type Fingerprint = string

  /** An opaque certificate identity the service hands out. */
  type Ocid = nat

  datatype Stage = CURRENT | PENDING | LATEST | PREVIOUS | DEPRECATED | PENDING_ACTIVATION

  datatype Version = Version(fingerprint: Fingerprint, created: Option<int>, deletion: Option<int>)

  datatype Remote = Remote(
    versions: map<nat, Version>,
    current: Option<nat>,
    previous: Option<nat>,
    pending: Option<nat>,
    latest: Option<nat>,
    next: nat,
    etag: nat)

  predicate Known(r: Remote, pointer: Option<nat>) {
    pointer.Some? ==> pointer.value in r.versions
  }

  predicate WellFormed(r: Remote) {
    && Known(r, r.current) && Known(r, r.previous) && Known(r, r.pending) && Known(r, r.latest)
    && (forall n | n in r.versions :: n < r.next)
    && (r.current.Some? ==> r.current != r.previous && r.current != r.pending)
    && (r.previous.Some? ==> r.previous != r.pending)
  }

  function Stages(r: Remote, n: nat): set<Stage> {
    (if r.current == Some(n) then {CURRENT} else {})
    + (if r.pending == Some(n) then {PENDING} else {})
    + (if r.previous == Some(n) then {PREVIOUS} else {})
    + (if r.latest == Some(n) then {LATEST} else {})
    + (if r.current != Some(n) && r.pending != Some(n) && r.previous != Some(n) then {DEPRECATED} else {})
  }

  predicate Unprotected(r: Remote, n: nat) {
    r.current != Some(n) && r.pending != Some(n) && r.previous != Some(n) && r.latest != Some(n)
  }

  predicate PendingOrLatest(r: Remote, n: nat) {
    r.pending == Some(n) || r.latest == Some(n)
  }

  predicate Names(r: Remote, pointer: Option<nat>, fingerprint: Fingerprint) {
    pointer.Some? && pointer.value in r.versions && r.versions[pointer.value].fingerprint == fingerprint
  }

  /** CURRENT has this fingerprint. */
  predicate Serves(r: Remote, fingerprint: Fingerprint) {
    Names(r, r.current, fingerprint)
  }

  /** Some PENDING or LATEST version has this fingerprint. */
  predicate Offers(r: Remote, fingerprint: Fingerprint) {
    Names(r, r.pending, fingerprint) || Names(r, r.latest, fingerprint)
  }

  // ----- mutations, as the service applies them -----

  function Upload(r: Remote, fingerprint: Fingerprint, created: Option<int>): Remote {
    r.(versions := r.versions[r.next := Version(fingerprint, created, None)],
       pending := Some(r.next),
       latest := Some(r.next),
       next := r.next + 1,
       etag := r.etag + 1)
  }

  function Promote(r: Remote, version: nat): Remote {
    r.(current := Some(version),
       previous := if r.current.Some? && r.current != Some(version) then r.current
                   else if r.previous == Some(version) then None
                   else r.previous,
       pending := if r.pending == Some(version) then None else r.pending,
       etag := r.etag + 1)
  }

  function Schedule(r: Remote, version: nat, at: int): Remote
    requires version in r.versions
  {
    r.(versions := r.versions[version := r.versions[version].(deletion := Some(at))],
       etag := r.etag + 1)
  }

  /** The service removes a version whose deletion was scheduled. */
  function Purge(r: Remote, version: nat): Remote {
    r.(versions := r.versions - {version}, etag := r.etag + 1)
  }

  /** What an upload does, read off the stages a client sees. */
  lemma UploadStages(r: Remote, fingerprint: Fingerprint, created: Option<int>)
    requires WellFormed(r)
    ensures var after := Upload(r, fingerprint, created);
      && WellFormed(after)
      && r.next !in r.versions && (forall n | n in r.versions :: n < r.next)
      && Stages(after, r.next) == {PENDING, LATEST}
      && forall n | n in r.versions ::
           && after.versions[n] == r.versions[n]
           && Stages(after, n) ==
              if PENDING in Stages(r, n) then {DEPRECATED} else Stages(r, n) - {LATEST}
  {
    var after := Upload(r, fingerprint, created);
    forall n | n in r.versions
      ensures Stages(after, n) == if PENDING in Stages(r, n) then {DEPRECATED} else Stages(r, n) - {LATEST}
    {
      assert n != r.next;
    }
  }

  /** What a promotion does, read off the stages a client sees. */
  lemma PromoteStages(r: Remote, version: nat)
    requires WellFormed(r) && version in r.versions
    ensures var after := Promote(r, version);
      && WellFormed(after)
      && after.versions == r.versions
      && Stages(after, version) == {CURRENT} + (Stages(r, version) * {LATEST})
      && forall n | n in r.versions && n != version ::
           Stages(after, n) ==
             if CURRENT in Stages(r, n) then Stages(r, n) - {CURRENT} + {PREVIOUS}
             else if PREVIOUS in Stages(r, n) && r.current.Some? && r.current != Some(version)
             then Stages(r, n) - {PREVIOUS} + {DEPRECATED}
             else Stages(r, n)
  {
    var after := Promote(r, version);
    forall n | n in r.versions && n != version
      ensures Stages(after, n) ==
              if CURRENT in Stages(r, n) then Stages(r, n) - {CURRENT} + {PREVIOUS}
              else if PREVIOUS in Stages(r, n) && r.current.Some? && r.current != Some(version)
              then Stages(r, n) - {PREVIOUS} + {DEPRECATED}
              else Stages(r, n)
    {
    }
  }
}
