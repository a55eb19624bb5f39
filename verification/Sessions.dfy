/** What the services share: the state they see together, and the steps they all take. */
module Sessions {
  import opened Options
  import opened Failures
  import opened Remotes
  import opened Stores
  import opened CertificateServices
  import opened Protocol
  import opened Retries

  /** What validating a public bundle at this run's time accepts. */
  type Acceptance = Fingerprint -> bool

  /** The bundle of the version a pointer names validates. */
  predicate Acceptable(r: Remote, pointer: Option<nat>, accepts: Acceptance) {
    pointer.Some? && pointer.value in r.versions ==> accepts(r.versions[pointer.value].fingerprint)
  }

  ghost function WorldAt(service: CertificateService, store: StateStore, live: Option<Live>): World
    reads service, store
  {
    World(service.remote, store.Contents(), live)
  }

  /** A run has opened its operation and changed nothing else in the tables. */
  predicate Underway(c: Context, kind: OperationType, before: Tables, now: Tables) {
    var operation := |before.operations|;
    && |now.operations| == operation + 1
    && now.operations[..operation] == before.operations
    && now.certificates == before.certificates
    && var row := now.operations[operation];
       && row.certificate == c.certificate && row.kind == kind && !Terminal(row.state)
       && row.fingerprint == Fingerprinted(kind, c.local) && row.ocid == c.ocid
  }

  lemma StartedIsUnderway(c: Context, kind: OperationType, before: Tables)
    ensures Underway(c, kind, before, Started(before, c.certificate, kind, Fingerprinted(kind, c.local), c.ocid))
  {
    var now := Started(before, c.certificate, kind, Fingerprinted(kind, c.local), c.ocid);
    assert now.operations[..|before.operations|] == before.operations;
  }

  lemma TransitionedIsUnderway(c: Context, kind: OperationType, before: Tables, now: Tables, change: Change, at: int)
    requires Underway(c, kind, before, now) && !Terminal(change.state) && change.ocid.None?
    ensures Underway(c, kind, before, Transitioned(now, |before.operations|, change, at))
  {
    var after := Transitioned(now, |before.operations|, change, at);
    assert after.operations[..|before.operations|] == now.operations[..|before.operations|];
  }

  /** Log the intent of a run before it does anything else. */
  method OpenOperation(service: CertificateService, store: StateStore, c: Context, kind: OperationType,
                       unconfigured: Failure)
    returns (r: Result<nat, Failure>, ghost last: Option<Live>)
    requires kind != BOOTSTRAP
    modifies store
    ensures service.exclusive ==> Reaches(c, old(WorldAt(service, store, None)), WorldAt(service, store, last))
    ensures r.Ok? ==>
              && r.value == |old(store.operations)| && last == Some(Live(r.value, false))
              && Underway(c, kind, old(store.Contents()), store.Contents())
    ensures r.Err? ==> r.error == unconfigured || OfStore(r.error)
    ensures c.ocid.None? ==> r == Err(unconfigured) && store.Contents() == old(store.Contents())
    ensures store.journal == old(store.journal)
    ensures store.reliable && c.ocid.Some? ==> r.Ok?
  {
    last := None;
    ghost var start, before := WorldAt(service, store, None), store.Contents();
    ReachesItself(c, start);
    if c.ocid.None? {
      return Err(unconfigured), last;
    }
    var operation :- store.StartOperation(c.certificate, kind, Fingerprinted(kind, c.local), c.ocid);
    last := Some(Live(operation, false));
    StepBegin(service.exclusive, c, start, start, kind);
    StartedIsUnderway(c, kind, before);
    return Ok(operation), last;
  }

  /** Persist a step of the running operation. */
  method Persist(service: CertificateService, store: StateStore, c: Context, kind: OperationType, operation: nat,
              change: Change, ghost before: Tables, ghost start: World, ghost live: Live)
    returns (r: Result<(), Failure>)
    requires !Terminal(change.state) && change.ocid.None?
    requires kind.AUDIT? ==> change.version.None?
    requires live.operation == operation == |before.operations|
    requires live.promoted ==> change.version.None? || change.version == service.remote.current
    requires Underway(c, kind, before, store.Contents())
    requires service.exclusive ==> Reaches(c, start, WorldAt(service, store, Some(live)))
    modifies store
    ensures Underway(c, kind, before, store.Contents())
    ensures service.exclusive ==> Reaches(c, start, WorldAt(service, store, Some(live)))
    ensures r.Ok? && change.version.Some? ==> store.operations[operation].version == change.version
    ensures r.Err? ==> OfStore(r.error)
    ensures r.Ok? ==> store.operations[operation].state == change.state
    ensures r.Ok? ==> store.journal == old(store.journal) + [(operation, change.state)]
    ensures store.reliable ==> r.Ok?
  {
    ghost var noted := store.Contents();
    r := store.Transition(operation, change);
    if r.Ok? {
      StepNote(service.exclusive, c, start, World(service.remote, noted, Some(live)), change, store.clock);
      TransitionedIsUnderway(c, kind, before, noted, change, store.clock);
    }
  }

  /** Repeat the read of CURRENT until it shows the version; the last attempt may show another. */
  method ReadUntilCurrent(service: CertificateService, version: nat, attempts: nat)
    returns (r: Result<Bundle, Failure>, ghost calls: nat)
    requires WellFormed(service.remote) && 1 <= attempts
    modifies service`remote
    ensures WellFormed(service.remote) && Later(old(service.remote), service.remote)
    ensures service.exclusive ==> service.remote == old(service.remote)
    ensures r.Ok? ==>
              && service.remote.current == Some(r.value.version)
              && Names(service.remote, service.remote.current, r.value.fingerprint)
    ensures 1 <= calls <= attempts
    ensures (r.Ok? && r.value.version != version) || (r.Err? && Retryable(r.error)) ==> calls == attempts
    ensures service.exclusive && service.steady && service.remote.current == Some(version) ==> r.Ok? && calls == 1
  {
    calls := 0;
    for attempt := 0 to attempts
      invariant attempt < attempts && calls == attempt
      invariant service.exclusive && service.steady && service.remote.current == Some(version) ==> attempt == 0
      invariant WellFormed(service.remote) && Later(old(service.remote), service.remote)
      invariant service.exclusive ==> service.remote == old(service.remote)
    {
      r := service.GetPublicBundle(None);
      calls := attempt + 1;
      if attempt + 1 >= attempts {
        return;
      }
      if r.Ok? && r.value.version == version {
        return;
      }
      if r.Err? && RetryableException(r.error, None).None? {
        return;
      }
    }
    assert false;
  }
}
