/**
 The publication protocol of one certificate as guarded atomic actions: every
 remote mutation and every store write is one action, and a process may stop
 between any two of them.  The host lock lets one process run at a time, so at
 most one operation is live.  The guards are what the publisher must have
 established before it acts; what the guards buy over whole runs is proved here.
 */
module Protocol {
  import opened Options
  import opened Remotes
  import opened Stores

  /** What one command works on: a certificate, its remote identity and the local material. */
  datatype Context = Context(certificate: string, ocid: Option<Ocid>, local: Fingerprint)

  /** The operation of the running process, and whether a promotion of its target took effect. */
  datatype Live = Live(operation: nat, promoted: bool)

  datatype World = World(remote: Remote, tables: Tables, live: Option<Live>)

  datatype Action =
    | Begin(kind: OperationType)
    | Note(change: Change, now: int)
    | SendUpload(created: Option<int>)
    | SendPromotion(version: nat)
    | SendSchedule(version: nat, at: int)
    | RecordPublication(version: nat, now: int)
    | RecordRollback(current: Fingerprint, version: nat)
    | RecordRenewal(now: int)
    | RecordAudit(now: int)
    | CloseReconciled(version: nat, now: int)
    | CloseAudits(excluding: nat, now: int)
    | Finish(change: Change, now: int)
    | Stop
    | ServicePurges(version: nat)

  function Fingerprinted(kind: OperationType, local: Fingerprint): Option<Fingerprint> {
    if kind.AUDIT? || kind.ROLLBACK? then None else Some(local)
  }

  function Recorded(t: Tables, certificate: string): Option<nat> {
    StateOf(t, certificate).currentVersion
  }

  predicate Enabled(c: Context, a: Action, w: World) {
    match a
    case Begin(kind) =>
      w.live.None? && kind != BOOTSTRAP && c.ocid.Some?
    case Note(change, _) =>
      && LiveRow(w) && !Terminal(change.state) && change.ocid.None?
      && (w.live.value.promoted ==> change.version.None? || change.version == w.remote.current)
      && (w.tables.operations[w.live.value.operation].kind == AUDIT ==> change.version.None?)
    case SendUpload(_) =>
      LiveRow(w) && !Serves(w.remote, c.local) && !Offers(w.remote, c.local)
    case SendPromotion(version) =>
      && LiveRow(w)
      && w.tables.operations[w.live.value.operation].version == Some(version)
      && (PendingOrLatest(w.remote, version) || w.remote.previous == Some(version))
    case SendSchedule(version, _) =>
      && version in w.remote.versions && w.remote.versions[version].deletion.None?
      && Unprotected(w.remote, version)
      && version !in ReferencedVersions(w.tables, c.certificate)
    case RecordPublication(version, _) =>
      w.remote.current == Some(version) && Serves(w.remote, c.local)
    case RecordRollback(current, version) =>
      w.remote.current == Some(version) && Serves(w.remote, current)
    case RecordRenewal(_) => true
    case RecordAudit(_) => true
    case CloseReconciled(version, _) =>
      LiveRow(w) && Recorded(w.tables, c.certificate) == w.remote.current == Some(version)
    case CloseAudits(excluding, _) =>
      w.live.None?
    case Finish(change, _) =>
      && LiveRow(w) && Terminal(change.state) && change.ocid.None?
      && (w.live.value.promoted ==> Recorded(w.tables, c.certificate) == w.remote.current)
      && (w.tables.operations[w.live.value.operation].kind == AUDIT ==> change.version.None?)
    case Stop => true
    case ServicePurges(version) =>
      version in w.remote.versions && w.remote.versions[version].deletion.Some?
  }

  predicate LiveRow(w: World) {
    w.live.Some? && w.live.value.operation < |w.tables.operations|
  }

  function Apply(c: Context, a: Action, w: World): World
    requires Enabled(c, a, w)
  {
    match a
    case Begin(kind) =>
      w.(tables := Started(w.tables, c.certificate, kind, Fingerprinted(kind, c.local), c.ocid),
         live := Some(Live(|w.tables.operations|, false)))
    case Note(change, now) =>
      w.(tables := Transitioned(w.tables, w.live.value.operation, change, now))
    case SendUpload(created) =>
      w.(remote := Upload(w.remote, c.local, created))
    case SendPromotion(version) =>
      w.(remote := Promote(w.remote, version), live := Some(w.live.value.(promoted := true)))
    case SendSchedule(version, at) =>
      w.(remote := Schedule(w.remote, version, at))
    case RecordPublication(version, now) =>
      w.(tables := PublicationRecorded(w.tables, c.certificate, c.local, c.local, version, now))
    case RecordRollback(current, version) =>
      w.(tables := RollbackRecorded(w.tables, c.certificate, current, version))
    case RecordRenewal(now) =>
      w.(tables := RenewalRecorded(w.tables, c.certificate, now))
    case RecordAudit(now) =>
      w.(tables := AuditRecorded(w.tables, c.certificate, now))
    case CloseReconciled(version, now) =>
      w.(tables := ReconciledClosed(w.tables, c.certificate, c.local, version, w.live.value.operation, now))
    case CloseAudits(excluding, now) =>
      w.(tables := AuditsClosed(w.tables, c.certificate, excluding, now))
    case Finish(change, now) =>
      w.(tables := Transitioned(w.tables, w.live.value.operation, change, now), live := None)
    case Stop =>
      w.(live := None)
    case ServicePurges(version) =>
      w.(remote := Purge(w.remote, version))
  }

  // ----- runs -----

  /** The actions taken and the worlds before, between and after them. */
  ghost predicate Run(c: Context, worlds: seq<World>, actions: seq<Action>) {
    && |worlds| == |actions| + 1
    && forall i {:trigger actions[i]} | 0 <= i < |actions| ::
         Enabled(c, actions[i], worlds[i]) && worlds[i + 1] == Apply(c, actions[i], worlds[i])
  }

  /** `after` is a state some run of one command passes through. */
  ghost predicate Reaches(c: Context, before: World, after: World) {
    exists worlds: seq<World>, actions: seq<Action> ::
      Run(c, worlds, actions) && worlds[0] == before && worlds[|actions|] == after
  }

  lemma ReachesItself(c: Context, w: World)
    ensures Reaches(c, w, w)
  {
    var worlds, actions: seq<Action> := [w], [];
    assert Run(c, worlds, actions) && worlds[0] == w && worlds[|actions|] == w;
  }

  lemma Advance(c: Context, first: World, w: World, a: Action, next: World)
    requires Reaches(c, first, w) && Enabled(c, a, w) && next == Apply(c, a, w)
    ensures Reaches(c, first, next)
  {
    var worlds: seq<World>, actions: seq<Action> :|
      Run(c, worlds, actions) && worlds[0] == first && worlds[|actions|] == w;
    var worlds', actions' := worlds + [next], actions + [a];
    forall i | 0 <= i < |actions'|
      ensures Enabled(c, actions'[i], worlds'[i]) && worlds'[i + 1] == Apply(c, actions'[i], worlds'[i])
    {
      if i < |actions| {
        assert actions'[i] == actions[i];
      }
    }
    assert Run(c, worlds', actions') && worlds'[0] == first && worlds'[|actions'|] == next;
  }

  lemma ReachesThrough(c: Context, first: World, middle: World, last: World)
    requires Reaches(c, first, middle) && Reaches(c, middle, last)
    ensures Reaches(c, first, last)
  {
    var worlds: seq<World>, actions: seq<Action> :|
      Run(c, worlds, actions) && worlds[0] == middle && worlds[|actions|] == last;
    for i := 0 to |actions|
      invariant Reaches(c, first, worlds[i])
    {
      Advance(c, first, worlds[i], actions[i], worlds[i + 1]);
    }
  }

  // ----- one action at a time; each holds for the only writer -----

  lemma StepBegin(only: bool, c: Context, first: World, w: World, kind: OperationType)
    requires w.live.None? && kind != BOOTSTRAP && c.ocid.Some?
    requires only ==> Reaches(c, first, w)
    ensures only ==> Reaches(c, first, World(
              w.remote, Started(w.tables, c.certificate, kind, Fingerprinted(kind, c.local), c.ocid),
              Some(Live(|w.tables.operations|, false))))
  {
    if only {
      Advance(c, first, w, Begin(kind), Apply(c, Begin(kind), w));
    }
  }

  lemma StepNote(only: bool, c: Context, first: World, w: World, change: Change, now: int)
    requires LiveRow(w) && !Terminal(change.state) && change.ocid.None?
    requires only && w.live.value.promoted ==> change.version.None? || change.version == w.remote.current
    requires w.tables.operations[w.live.value.operation].kind == AUDIT ==> change.version.None?
    requires only ==> Reaches(c, first, w)
    ensures only ==> Reaches(c, first, World(
              w.remote, Transitioned(w.tables, w.live.value.operation, change, now), w.live))
  {
    if only {
      Advance(c, first, w, Note(change, now), Apply(c, Note(change, now), w));
    }
  }

  lemma StepUpload(only: bool, c: Context, first: World, w: World, applied: bool, created: Option<int>)
    requires LiveRow(w)
    requires only && applied ==> !Serves(w.remote, c.local) && !Offers(w.remote, c.local)
    requires only ==> Reaches(c, first, w)
    ensures only ==> Reaches(c, first, World(
              if applied then Upload(w.remote, c.local, created) else w.remote, w.tables, w.live))
  {
    if only && applied {
      Advance(c, first, w, SendUpload(created), Apply(c, SendUpload(created), w));
    }
  }

  lemma StepPromotion(only: bool, c: Context, first: World, w: World, applied: bool, version: nat)
    requires LiveRow(w) && w.tables.operations[w.live.value.operation].version == Some(version)
    requires only ==> (PendingOrLatest(w.remote, version) || w.remote.previous == Some(version))
    requires only ==> Reaches(c, first, w)
    ensures only ==> Reaches(c, first, World(
              if applied then Promote(w.remote, version) else w.remote, w.tables,
              Some(if applied then w.live.value.(promoted := true) else w.live.value)))
  {
    if only && applied {
      Advance(c, first, w, SendPromotion(version), Apply(c, SendPromotion(version), w));
    }
  }

  lemma StepSchedule(only: bool, c: Context, first: World, w: World, applied: bool, version: nat, at: int)
    requires version in w.remote.versions
    requires only && applied ==> Enabled(c, SendSchedule(version, at), w)
    requires only ==> Reaches(c, first, w)
    ensures only ==> Reaches(c, first, World(
              if applied then Schedule(w.remote, version, at) else w.remote, w.tables, w.live))
  {
    if only && applied {
      Advance(c, first, w, SendSchedule(version, at), Apply(c, SendSchedule(version, at), w));
    }
  }

  lemma StepRecordPublication(only: bool, c: Context, first: World, w: World, version: nat, now: int)
    requires only ==> w.remote.current == Some(version) && Serves(w.remote, c.local)
    requires only ==> Reaches(c, first, w)
    ensures only ==> Reaches(c, first, World(
              w.remote, PublicationRecorded(w.tables, c.certificate, c.local, c.local, version, now), w.live))
  {
    if only {
      Advance(c, first, w, RecordPublication(version, now), Apply(c, RecordPublication(version, now), w));
    }
  }

  lemma StepRecordRollback(only: bool, c: Context, first: World, w: World, current: Fingerprint, version: nat)
    requires only ==> w.remote.current == Some(version) && Serves(w.remote, current)
    requires only ==> Reaches(c, first, w)
    ensures only ==> Reaches(c, first, World(
              w.remote, RollbackRecorded(w.tables, c.certificate, current, version), w.live))
  {
    if only {
      Advance(c, first, w, RecordRollback(current, version), Apply(c, RecordRollback(current, version), w));
    }
  }

  lemma StepCloseReconciled(only: bool, c: Context, first: World, w: World, version: nat, now: int)
    requires LiveRow(w)
    requires only ==> Recorded(w.tables, c.certificate) == w.remote.current == Some(version)
    requires only ==> Reaches(c, first, w)
    ensures only ==> Reaches(c, first, World(
              w.remote,
              ReconciledClosed(w.tables, c.certificate, c.local, version, w.live.value.operation, now),
              w.live))
  {
    if only {
      Advance(c, first, w, CloseReconciled(version, now), Apply(c, CloseReconciled(version, now), w));
    }
  }

  lemma StepRecordRenewal(only: bool, c: Context, first: World, w: World, now: int)
    requires only ==> Reaches(c, first, w)
    ensures only ==> Reaches(c, first, World(w.remote, RenewalRecorded(w.tables, c.certificate, now), w.live))
  {
    if only {
      Advance(c, first, w, RecordRenewal(now), Apply(c, RecordRenewal(now), w));
    }
  }

  lemma StepRecordAudit(only: bool, c: Context, first: World, w: World, now: int)
    requires only ==> Reaches(c, first, w)
    ensures only ==> Reaches(c, first, World(w.remote, AuditRecorded(w.tables, c.certificate, now), w.live))
  {
    if only {
      Advance(c, first, w, RecordAudit(now), Apply(c, RecordAudit(now), w));
    }
  }

  lemma StepFinish(only: bool, c: Context, first: World, w: World, change: Change, now: int)
    requires LiveRow(w) && Terminal(change.state) && change.ocid.None?
    requires only && w.live.value.promoted ==> Recorded(w.tables, c.certificate) == w.remote.current
    requires w.tables.operations[w.live.value.operation].kind == AUDIT ==> change.version.None?
    requires only ==> Reaches(c, first, w)
    ensures only ==> Reaches(c, first, World(
              w.remote, Transitioned(w.tables, w.live.value.operation, change, now), None))
  {
    if only {
      Advance(c, first, w, Finish(change, now), Apply(c, Finish(change, now), w));
    }
  }

  lemma StepCloseAudits(only: bool, c: Context, first: World, w: World, excluding: nat, now: int)
    requires w.live.None?
    requires only ==> Reaches(c, first, w)
    ensures only ==> Reaches(c, first, World(
              w.remote, AuditsClosed(w.tables, c.certificate, excluding, now), None))
  {
    if only {
      Advance(c, first, w, CloseAudits(excluding, now), Apply(c, CloseAudits(excluding, now), w));
    }
  }

  lemma StepStop(only: bool, c: Context, first: World, w: World)
    requires only ==> Reaches(c, first, w)
    ensures only ==> Reaches(c, first, World(w.remote, w.tables, None))
  {
    if only {
      Advance(c, first, w, Stop, Apply(c, Stop, w));
    }
  }

  // ----- what every reachable state satisfies -----

  /** Some active operation, other than `except`, carries the version CURRENT has. */
  predicate Carried(w: World, certificate: string, except: Option<Live>) {
    exists i :: && 0 <= i < |w.tables.operations|
                && Active(w.tables.operations[i], certificate)
                && w.tables.operations[i].version.Some?
                && w.tables.operations[i].version == w.remote.current
                && (except.Some? ==> i != except.value.operation)
  }

  predicate Backed(w: World, certificate: string, except: Option<Live>) {
    var recorded := Recorded(w.tables, certificate);
    recorded.Some? ==> recorded == w.remote.current || Carried(w, certificate, except)
  }

  /** The write-ahead property: a recorded version that CURRENT left is explained by an open operation. */
  predicate WriteAhead(w: World, certificate: string) {
    Backed(w, certificate, None)
  }

  /** A version with a scheduled deletion has no stage but DEPRECATED. */
  predicate ScheduledAreDeprecated(r: Remote) {
    forall n | n in r.versions && r.versions[n].deletion.Some? :: Stages(r, n) == {DEPRECATED}
  }

  /** The row of the running operation is open, and carries CURRENT once its promotion took effect. */
  predicate LiveIsOpen(w: World, certificate: string) {
    w.live.Some? ==>
      && LiveRow(w)
      && Active(w.tables.operations[w.live.value.operation], certificate)
      && (w.live.value.promoted ==>
            && w.remote.current.Some?
            && w.tables.operations[w.live.value.operation].version == w.remote.current)
  }

  predicate Sound(w: World, certificate: string) {
    && WellFormed(w.remote)
    && ScheduledAreDeprecated(w.remote)
    && Consistent(w.tables)
    && LiveIsOpen(w, certificate)
    && (w.live.None? || !w.live.value.promoted ==> Backed(w, certificate, w.live))
  }

  /** No version changes its material, no scheduled deletion is revoked, and no version number comes back. */
  predicate VersionsPreserved(before: Remote, after: Remote) {
    && before.next <= after.next
    && (forall n | n in after.versions :: n in before.versions || before.next <= n)
    && (forall n | n in before.versions && n in after.versions ::
          && after.versions[n].fingerprint == before.versions[n].fingerprint
          && after.versions[n].created == before.versions[n].created
          && (before.versions[n].deletion.Some? ==> after.versions[n] == before.versions[n]))
  }

  lemma ActionKeepsRemote(c: Context, a: Action, w: World)
    requires Enabled(c, a, w) && WellFormed(w.remote) && ScheduledAreDeprecated(w.remote)
    ensures var after := Apply(c, a, w).remote;
            WellFormed(after) && ScheduledAreDeprecated(after) && VersionsPreserved(w.remote, after)
  {
    var r, after := w.remote, Apply(c, a, w).remote;
    forall n | n in after.versions && after.versions[n].deletion.Some? ensures Stages(after, n) == {DEPRECATED} {
      assert n in r.versions;
      if r.versions[n].deletion.Some? {
        assert Stages(r, n) == {DEPRECATED};
        assert Unprotected(r, n);
      }
      assert Unprotected(after, n);
    }
    if a.ServicePurges? {
      assert Stages(r, a.version) == {DEPRECATED};
    }
  }

  /** The operation of the running process, if there is one, is an open row of its certificate. */
  predicate OpenLive(w: World, certificate: string) {
    w.live.Some? ==> LiveRow(w) && Active(w.tables.operations[w.live.value.operation], certificate)
  }

  lemma ActionTouchesOwn(c: Context, a: Action, w: World)
    requires Enabled(c, a, w) && OpenLive(w, c.certificate)
    ensures OpenLive(Apply(c, a, w), c.certificate)
    ensures OnlyTouches(c.certificate, w.tables, Apply(c, a, w).tables)
  {
    match a {
      case Begin(kind) =>
        LogStatementsTouch(w.tables, c.certificate, kind, Fingerprinted(kind, c.local), c.ocid,
                           |w.tables.operations|, To(DISCOVERED), 0);
      case Note(change, now) =>
        LogStatementsTouch(w.tables, c.certificate, PUBLISH, None, None, w.live.value.operation, change, now);
      case Finish(change, now) =>
        LogStatementsTouch(w.tables, c.certificate, PUBLISH, None, None, w.live.value.operation, change, now);
      case CloseReconciled(version, now) =>
        ClosersTouch(w.tables, c.certificate, c.local, version, w.live.value.operation, now);
      case CloseAudits(excluding, now) =>
        ClosersTouch(w.tables, c.certificate, c.local, 0, excluding, now);
      case RecordPublication(version, now) =>
        RecordsTouch(w.tables, c.certificate, c.local, c.local, version, now);
      case RecordRollback(current, version) =>
        RecordsTouch(w.tables, c.certificate, c.local, current, version, 0);
      case RecordRenewal(now) =>
        RecordsTouch(w.tables, c.certificate, c.local, c.local, 0, now);
      case RecordAudit(now) =>
        RecordsTouch(w.tables, c.certificate, c.local, c.local, 0, now);
      case _ =>
    }
  }

  /** A run of one command absorbs and touches its own certificate alone, from any tables whatever. */
  lemma RunTouchesOwn(c: Context, before: World, after: World)
    requires Reaches(c, before, after) && OpenLive(before, c.certificate)
    ensures OpenLive(after, c.certificate) && OnlyTouches(c.certificate, before.tables, after.tables)
  {
    var worlds: seq<World>, actions: seq<Action> :|
      Run(c, worlds, actions) && worlds[0] == before && worlds[|actions|] == after;
    for i := 0 to |actions|
      invariant OpenLive(worlds[i], c.certificate) && OnlyTouches(c.certificate, before.tables, worlds[i].tables)
    {
      ActionTouchesOwn(c, actions[i], worlds[i]);
      OnlyTouchesThrough(c.certificate, before.tables, worlds[i].tables, worlds[i + 1].tables);
    }
  }

  /** A running operation carries CURRENT once its promotion took effect. */
  lemma ActionKeepsLive(c: Context, a: Action, w: World)
    requires Enabled(c, a, w) && LiveIsOpen(w, c.certificate)
    ensures LiveIsOpen(Apply(c, a, w), c.certificate)
  {
  }

  lemma ActionKeepsBacked(c: Context, a: Action, w: World)
    requires Enabled(c, a, w) && Sound(w, c.certificate)
    ensures var after := Apply(c, a, w);
            after.live.None? || !after.live.value.promoted ==> Backed(after, c.certificate, after.live)
  {
    var after := Apply(c, a, w);
    if a.Stop? && w.live.Some? && w.live.value.promoted {
      assert Active(after.tables.operations[w.live.value.operation], c.certificate);
    } else if Carried(w, c.certificate, w.live) && (w.live.None? || !w.live.value.promoted) {
      var i :| 0 <= i < |w.tables.operations| && Active(w.tables.operations[i], c.certificate)
               && w.tables.operations[i].version.Some?
               && w.tables.operations[i].version == w.remote.current
               && (w.live.Some? ==> i != w.live.value.operation);
      if !a.CloseReconciled? {
        assert after.tables.operations[i] == w.tables.operations[i];
      }
    }
  }

  lemma ActionKeepsSound(c: Context, a: Action, w: World)
    requires Enabled(c, a, w) && Sound(w, c.certificate)
    ensures Sound(Apply(c, a, w), c.certificate)
    ensures VersionsPreserved(w.remote, Apply(c, a, w).remote)
  {
    ActionKeepsRemote(c, a, w);
    ActionTouchesOwn(c, a, w);
    ActionKeepsLive(c, a, w);
    ActionKeepsBacked(c, a, w);
  }

  // ----- whole runs -----

  /** Sound states and what lies between two of them: nothing terminal or scheduled was touched. */
  predicate Follows(certificate: string, before: World, after: World) {
    && Sound(after, certificate)
    && VersionsPreserved(before.remote, after.remote)
    && Absorbs(before.tables, after.tables)
  }

  lemma FollowsThrough(certificate: string, first: World, middle: World, last: World)
    requires Sound(first, certificate)
    requires Follows(certificate, first, middle) && Follows(certificate, middle, last)
    ensures Follows(certificate, first, last)
  {
    AbsorbsThrough(first.tables, middle.tables, last.tables);
  }

  /** Where runs begin: nothing recorded, nothing open, no deletion scheduled. */
  lemma FirstWorldIsSound(remote: Remote, certificate: string)
    requires WellFormed(remote) && forall n | n in remote.versions :: remote.versions[n].deletion.None?
    ensures Sound(World(remote, Tables([], map[]), None), certificate)
  {
  }

  /** A certificate whose recorded version is CURRENT, with nothing live and no scheduled pointer, is sound. */
  lemma SettledIsSound(remote: Remote, tables: Tables, certificate: string)
    requires WellFormed(remote) && ScheduledAreDeprecated(remote) && Consistent(tables)
    requires Recorded(tables, certificate) == remote.current
    ensures Sound(World(remote, tables, None), certificate)
  {
  }

  lemma RunKeepsRemote(c: Context, before: World, after: World)
    requires Reaches(c, before, after) && WellFormed(before.remote) && ScheduledAreDeprecated(before.remote)
    ensures WellFormed(after.remote) && ScheduledAreDeprecated(after.remote)
    ensures VersionsPreserved(before.remote, after.remote)
  {
    var worlds: seq<World>, actions: seq<Action> :|
      Run(c, worlds, actions) && worlds[0] == before && worlds[|actions|] == after;
    for i := 0 to |actions|
      invariant WellFormed(worlds[i].remote) && ScheduledAreDeprecated(worlds[i].remote)
      invariant VersionsPreserved(before.remote, worlds[i].remote)
    {
      ActionKeepsRemote(c, actions[i], worlds[i]);
    }
  }

  /** No number is ever given to other material, and a version that is still there is what it was. */
  predicate MaterialPreserved(before: Remote, after: Remote) {
    && before.next <= after.next
    && forall n | n in after.versions && n < before.next ::
         n in before.versions && after.versions[n].fingerprint == before.versions[n].fingerprint
  }

  lemma RunKeepsMaterial(c: Context, before: World, after: World)
    requires Reaches(c, before, after) && WellFormed(before.remote)
    ensures MaterialPreserved(before.remote, after.remote)
  {
    var worlds: seq<World>, actions: seq<Action> :|
      Run(c, worlds, actions) && worlds[0] == before && worlds[|actions|] == after;
    for i := 0 to |actions|
      invariant MaterialPreserved(before.remote, worlds[i].remote)
    {
      assert Enabled(c, actions[i], worlds[i]);
    }
  }

  /** A recorded renewal stays recorded. */
  lemma RunKeepsRenewal(c: Context, before: World, after: World)
    requires Reaches(c, before, after) && StateOf(before.tables, c.certificate).renewedAt.Some?
    ensures StateOf(after.tables, c.certificate).renewedAt.Some?
  {
    var worlds: seq<World>, actions: seq<Action> :|
      Run(c, worlds, actions) && worlds[0] == before && worlds[|actions|] == after;
    for i := 0 to |actions|
      invariant StateOf(worlds[i].tables, c.certificate).renewedAt.Some?
    {
      assert Enabled(c, actions[i], worlds[i]);
    }
  }

  /** Where CURRENT was set and has moved, what it was before is PREVIOUS. */
  lemma RunKeepsTarget(c: Context, before: World, after: World)
    requires Reaches(c, before, after) && Sound(before, c.certificate) && before.remote.current.Some?
    ensures after.remote.current.Some?
    ensures after.remote.current == before.remote.current || after.remote.previous.Some?
  {
    var worlds: seq<World>, actions: seq<Action> :|
      Run(c, worlds, actions) && worlds[0] == before && worlds[|actions|] == after;
    for i := 0 to |actions|
      invariant Sound(worlds[i], c.certificate) && worlds[i].remote.current.Some?
      invariant worlds[i].remote.current == before.remote.current || worlds[i].remote.previous.Some?
    {
      ActionKeepsSound(c, actions[i], worlds[i]);
    }
  }

  /** Every state a command passes through, and so every state a crash can leave, is sound. */
  lemma RunKeepsSound(c: Context, before: World, after: World)
    requires Reaches(c, before, after) && Sound(before, c.certificate)
    ensures Follows(c.certificate, before, after)
  {
    var worlds: seq<World>, actions: seq<Action> :|
      Run(c, worlds, actions) && worlds[0] == before && worlds[|actions|] == after;
    RunTouchesOwn(c, before, after);
    for i := 0 to |actions|
      invariant Sound(worlds[i], c.certificate) && VersionsPreserved(before.remote, worlds[i].remote)
    {
      ActionKeepsSound(c, actions[i], worlds[i]);
    }
  }

  /**
   One command under the host lock, seen from one certificate: its own, on the
   way its run took until it ended or died, or any command at all on other
   certificates of the same database.
   */
  datatype Command = On(context: Context) | Elsewhere

  ghost predicate HostStep(certificate: string, command: Command, before: World, after: World) {
    match command
    case On(c) => c.certificate == certificate && Reaches(c, before, after)
    case Elsewhere =>
      after.remote == before.remote && after.live.None? && Spared(certificate, before.tables, after.tables)
  }

  /** Commands one after another; each may stop anywhere and the next starts from there. */
  ghost predicate HostRun(certificate: string, commands: seq<Command>, worlds: seq<World>) {
    && |worlds| == |commands| + 1
    && forall i | 0 <= i < |commands| :: HostStep(certificate, commands[i], worlds[i], worlds[i + 1])
  }

  /** What touches only another certificate is such a step: bootstraps, recoveries and batches promise it. */
  lemma TouchingOthersIsElsewhere(certificate: string, other: string, remote: Remote, before: Tables, after: Tables)
    requires other != certificate && OnlyTouches(other, before, after)
    ensures HostStep(certificate, Elsewhere, World(remote, before, None), World(remote, after, None))
  {
    OthersAreSpared(other, certificate, before, after);
  }

  /** A run on another certificate is such a step too. */
  lemma RunIsElsewhere(certificate: string, c: Context, remote: Remote, other: Remote, before: Tables, after: World)
    requires c.certificate != certificate && Reaches(c, World(other, before, None), after)
    ensures HostStep(certificate, Elsewhere, World(remote, before, None), World(remote, after.tables, None))
  {
    RunTouchesOwn(c, World(other, before, None), after);
    TouchingOthersIsElsewhere(certificate, c.certificate, remote, before, after.tables);
  }

  lemma SparedIsBacked(certificate: string, before: World, after: World)
    requires Sound(before, certificate) && HostStep(certificate, Elsewhere, before, after)
    ensures Backed(after, certificate, None)
  {
    if before.live.Some? && before.live.value.promoted {
      assert Active(after.tables.operations[before.live.value.operation], certificate);
    } else if Carried(before, certificate, before.live) {
      var i :| 0 <= i < |before.tables.operations| && Active(before.tables.operations[i], certificate)
               && before.tables.operations[i].version.Some?
               && before.tables.operations[i].version == before.remote.current;
      assert after.tables.operations[i] == before.tables.operations[i];
    }
  }

  lemma HostStepFollows(certificate: string, command: Command, before: World, after: World)
    requires HostStep(certificate, command, before, after) && Sound(before, certificate)
    ensures Follows(certificate, before, after)
  {
    match command {
      case On(c) => RunKeepsSound(c, before, after);
      case Elsewhere => SparedIsBacked(certificate, before, after);
    }
  }

  lemma {:induction false} HostRunFollows(certificate: string, commands: seq<Command>, worlds: seq<World>,
                                          i: nat, j: nat)
    requires HostRun(certificate, commands, worlds) && Sound(worlds[0], certificate)
    requires i <= j < |worlds|
    ensures Sound(worlds[i], certificate) && Follows(certificate, worlds[i], worlds[j])
    decreases j
  {
    if j > 0 {
      HostRunFollows(certificate, commands, worlds, if i < j then i else j - 1, j - 1);
      HostStepFollows(certificate, commands[j - 1], worlds[j - 1], worlds[j]);
      if i < j {
        FollowsThrough(certificate, worlds[i], worlds[j - 1], worlds[j]);
      }
    }
  }

  /** Whatever commands ran and wherever they stopped, the write-ahead property holds. */
  lemma WriteAheadAlways(certificate: string, commands: seq<Command>, worlds: seq<World>, i: nat)
    requires HostRun(certificate, commands, worlds) && Sound(worlds[0], certificate)
    requires i < |worlds|
    ensures WriteAhead(worlds[i], certificate)
  {
    HostRunFollows(certificate, commands, worlds, i, i);
    var w := worlds[i];
    if w.live.Some? && w.live.value.promoted {
      assert Active(w.tables.operations[w.live.value.operation], certificate);
    }
  }

  /**
   A version whose deletion was once scheduled is from then on gone or
   DEPRECATED: never again CURRENT, PREVIOUS, PENDING or LATEST.
   */
  lemma ScheduledStaysDeprecated(certificate: string, commands: seq<Command>, worlds: seq<World>,
                                 i: nat, j: nat, version: nat)
    requires HostRun(certificate, commands, worlds) && Sound(worlds[0], certificate)
    requires i <= j < |worlds|
    requires version in worlds[i].remote.versions && worlds[i].remote.versions[version].deletion.Some?
    ensures version in worlds[j].remote.versions ==>
              && worlds[j].remote.versions[version] == worlds[i].remote.versions[version]
              && Stages(worlds[j].remote, version) == {DEPRECATED}
    ensures worlds[j].remote.current != Some(version) && worlds[j].remote.previous != Some(version)
  {
    HostRunFollows(certificate, commands, worlds, i, j);
  }

  /** A terminal operation of any certificate never changes again, and terminal is the same as completed. */
  lemma TerminalIsAbsorbing(certificate: string, commands: seq<Command>, worlds: seq<World>,
                            i: nat, j: nat, operation: nat)
    requires HostRun(certificate, commands, worlds) && Sound(worlds[0], certificate)
    requires i <= j < |worlds| && operation < |worlds[i].tables.operations|
    ensures operation < |worlds[j].tables.operations|
    ensures worlds[i].tables.operations[operation].completedAt.Some? ==>
              worlds[j].tables.operations[operation] == worlds[i].tables.operations[operation]
    ensures worlds[j].tables.operations[operation].completedAt.Some? <==>
              Terminal(worlds[j].tables.operations[operation].state)
  {
    HostRunFollows(certificate, commands, worlds, i, j);
  }
}
