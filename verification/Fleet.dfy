/**
 Any number of publishers of one material that no lock serializes, step by step:
 each takes the entity tag, reads CURRENT, lists the versions, fetches one
 candidate after another and uploads under its tag, while it may stop anywhere,
 while rollbacks, promotions and retention requests of anybody come in between,
 and while the service removes versions.
 */
module Fleets {
  import opened Options
  import opened Failures
  import opened Remotes
  import opened CertificateServices
  import opened Reconcilers
  import opened Histories

  /** How far a publisher is, and under which tag: `left` are the candidates it has still to fetch. */
  datatype Phase =
    | Idle
    | Tagged(etag: nat)
    | Differs(etag: nat)
    | Searching(etag: nat, left: set<nat>)
    | Clear(etag: nat)

  datatype Fleet = Fleet(remote: Remote, phases: seq<Phase>, log: seq<Event>)

  datatype Move =
    | TakeTag(p: nat)
    | ReadCurrent(p: nat)
    | List(p: nat)
    | Fetch(p: nat, version: nat)
    | Conclude(p: nat)
    | SendUpload(p: nat, created: Option<int>, delivered: bool)
    | Stop(p: nat)
    | SendPromotion(version: nat, etag: nat, delivered: bool, answer: Result<(), Failure>)
    | SendSchedule(version: nat, at: int, etag: nat, delivered: bool)
    | ServicePurges(version: nat)

  predicate At(f: Fleet, p: nat) {
    p < |f.phases|
  }

  predicate Enabled(m: Move, f: Fleet) {
    match m
    case TakeTag(p) => At(f, p) && f.phases[p].Idle?
    case ReadCurrent(p) => At(f, p) && f.phases[p].Tagged? && f.remote.current.Some?
    case List(p) => At(f, p) && f.phases[p].Differs?
    case Fetch(p, version) =>
      At(f, p) && f.phases[p].Searching? && version in f.phases[p].left && version in f.remote.versions
    case Conclude(p) => At(f, p) && f.phases[p].Searching? && f.phases[p].left == {}
    case SendUpload(p, _, _) => At(f, p) && f.phases[p].Clear?
    case Stop(p) => At(f, p)
    case ServicePurges(version) => Removable(f.remote, version)
    case _ => true
  }

  function Handle(f: Fleet, e: Event): Fleet {
    f.(remote := Outcome(e), log := f.log + [e])
  }

  function Into(f: Fleet, p: nat, phase: Phase): Fleet
    requires At(f, p)
  {
    f.(phases := f.phases[p := phase])
  }

  function Candidates(r: Remote): set<nat> {
    set n | n in r.versions && PendingOrLatest(r, n)
  }

  /** A read that shows the local material, and a candidate that is it, end the search; other reads go on. */
  function Apply(local: Fingerprint, m: Move, f: Fleet): Fleet
    requires Enabled(m, f)
  {
    match m
    case TakeTag(p) => Into(f, p, Tagged(f.remote.etag))
    case ReadCurrent(p) => Into(f, p, if Serves(f.remote, local) then Idle else Differs(f.phases[p].etag))
    case List(p) => Into(f, p, Searching(f.phases[p].etag, Candidates(f.remote)))
    case Fetch(p, version) =>
      Into(f, p, if f.remote.versions[version].fingerprint == local then Idle
                 else Searching(f.phases[p].etag, f.phases[p].left - {version}))
    case Conclude(p) => Into(f, p, Clear(f.phases[p].etag))
    case SendUpload(p, created, delivered) =>
      Into(Handle(f, Handled(UploadRequest(f.remote, local, created, delivered && f.phases[p].etag == f.remote.etag))),
           p, Idle)
    case Stop(p) => Into(f, p, Idle)
    case SendPromotion(version, etag, delivered, answer) =>
      var applied := delivered && etag == f.remote.etag && version in f.remote.versions;
      Handle(f, Handled(PromoteRequest(f.remote, version, applied, answer)))
    case SendSchedule(version, at, etag, delivered) =>
      var applied := delivered && etag == f.remote.etag && version in f.remote.versions;
      Handle(f, Handled(ScheduleRequest(f.remote, version, at, applied)))
    case ServicePurges(version) => Handle(f, Purged(f.remote, version))
  }

  /** What a publisher learned is still true as long as its tag is the current one. */
  predicate Informed(r: Remote, local: Fingerprint, phase: Phase) {
    match phase
    case Idle => true
    case Tagged(etag) => etag <= r.etag
    case Differs(etag) => etag <= r.etag && (etag == r.etag ==> !Serves(r, local))
    case Searching(etag, left) =>
      etag <= r.etag && (etag == r.etag ==>
        && !Serves(r, local)
        && forall n | n in r.versions && PendingOrLatest(r, n) && n !in left :: r.versions[n].fingerprint != local)
    case Clear(etag) => etag <= r.etag && (etag == r.etag ==> !Serves(r, local) && !Offers(r, local))
  }

  /** The log is what happened, lawfully, and every publisher is informed. */
  ghost predicate Sound(first: Remote, local: Fingerprint, f: Fleet) {
    && WellFormed(f.remote)
    && History(first, f.log) && Final(first, f.log) == f.remote
    && AllLawful(f.log, local)
    && forall p | 0 <= p < |f.phases| :: Informed(f.remote, local, f.phases[p])
  }

  /** An event handled elsewhere leaves every publisher informed. */
  lemma EventKeepsInformed(e: Event, local: Fingerprint, phase: Phase)
    requires Lawful(e, local) && WellFormed(Before(e)) && Informed(Before(e), local, phase)
    ensures Informed(Outcome(e), local, phase)
  {
    EventIsInterference(e, local);
  }

  lemma HandleKeepsSound(first: Remote, local: Fingerprint, f: Fleet, e: Event)
    requires Sound(first, local, f) && Before(e) == f.remote && Lawful(e, local)
    ensures Sound(first, local, Handle(f, e))
  {
    EventIsInterference(e, local);
    HistoryExtends(first, f.log, e);
    forall p | 0 <= p < |f.phases| ensures Informed(Outcome(e), local, f.phases[p]) {
      EventKeepsInformed(e, local, f.phases[p]);
    }
  }

  /** An upload is sent only on what was learned, so where it takes effect it is guarded. */
  lemma ClearMeansGuarded(r: Remote, local: Fingerprint, phase: Phase, created: Option<int>, delivered: bool)
    requires phase.Clear? && Informed(r, local, phase)
    ensures GuardedUpload(UploadRequest(r, local, created, delivered && phase.etag == r.etag), local)
  {
  }

  lemma MoveKeepsSound(first: Remote, local: Fingerprint, f: Fleet, m: Move)
    requires Sound(first, local, f) && Enabled(m, f)
    ensures Sound(first, local, Apply(local, m, f))
  {
    match m {
      case SendUpload(p, created, delivered) =>
        ClearMeansGuarded(f.remote, local, f.phases[p], created, delivered);
        var sent := UploadRequest(f.remote, local, created, delivered && f.phases[p].etag == f.remote.etag);
        HandleKeepsSound(first, local, f, Handled(sent));
      case SendPromotion(version, etag, delivered, answer) =>
        var applied := delivered && etag == f.remote.etag && version in f.remote.versions;
        HandleKeepsSound(first, local, f, Handled(PromoteRequest(f.remote, version, applied, answer)));
      case SendSchedule(version, at, etag, delivered) =>
        var applied := delivered && etag == f.remote.etag && version in f.remote.versions;
        HandleKeepsSound(first, local, f, Handled(ScheduleRequest(f.remote, version, at, applied)));
      case ServicePurges(version) =>
        HandleKeepsSound(first, local, f, Purged(f.remote, version));
      case _ =>
    }
  }

  ghost predicate Run(local: Fingerprint, fleets: seq<Fleet>, moves: seq<Move>) {
    && |fleets| == |moves| + 1
    && forall i {:trigger moves[i]} | 0 <= i < |moves| ::
         Enabled(moves[i], fleets[i]) && fleets[i + 1] == Apply(local, moves[i], fleets[i])
  }

  /**
   In every interleaving of any number of publishers of one material, from
   wherever the certificate is when they are all idle, every upload that took
   effect met a state where the material was neither CURRENT nor offered; at
   most one did; and at most one new version of the material exists.
   */
  lemma FleetUploadsAtMostOnce(local: Fingerprint, fleets: seq<Fleet>, moves: seq<Move>) returns (created: set<nat>)
    requires Run(local, fleets, moves) && WellFormed(fleets[0].remote) && fleets[0].log == []
    requires forall p | 0 <= p < |fleets[0].phases| :: fleets[0].phases[p].Idle?
    ensures var last := fleets[|moves|];
            && AllLawful(last.log, local) && OneApplied(last.log)
            && |created| <= 1
            && VersionsOf(last.remote, local) <= VersionsOf(fleets[0].remote, local) + created
  {
    var first := fleets[0].remote;
    for i := 0 to |moves|
      invariant Sound(first, local, fleets[i])
    {
      MoveKeepsSound(first, local, fleets[i], moves[i]);
    }
    created := AtMostOneUpload(first, fleets[|moves|].log, local);
  }
}
