/** Bootstrap, its recovery, and the renewal of certificates whose identity is not configured. */
module Bootstraps {
  import opened Options
  import opened Failures
  import opened Remotes
  import opened Stores
  import opened CertificateServices
  import opened Protocol
  import opened Sessions
  import opened Rollbacks
  import opened Reconcilers
  import opened RetentionPlans
  import opened PublicationServices
  import Audits

  /** A row that carries an identity and belongs to the local material or to no material. */
  predicate Relevant(row: Row, certificate: string, local: Option<Fingerprint>) {
    && Active(row, certificate) && row.ocid.Some?
    && (row.fingerprint.None? || row.fingerprint == local)
  }

  predicate AnyConfirmed(t: Tables, certificate: string) {
    exists i :: 0 <= i < |t.operations| && Confirmed(t.operations[i], certificate)
  }

  /** Every completed operation, and every open one that could still complete, agrees on one identity. */
  ghost predicate Identified(t: Tables, certificate: string, local: Option<Fingerprint>, ocid: Ocid) {
    && (forall i | 0 <= i < |t.operations| && Confirmed(t.operations[i], certificate) ::
          t.operations[i].ocid == Some(ocid))
    && (forall i | 0 <= i < |t.operations| && Relevant(t.operations[i], certificate, local) ::
          t.operations[i].ocid == Some(ocid))
  }

  /** Nothing is confirmed yet, and at most one open bootstrap could be. */
  ghost predicate Unidentified(t: Tables, certificate: string, local: Option<Fingerprint>) {
    && !AnyConfirmed(t, certificate)
    && (forall i | 0 <= i < |t.operations| && Relevant(t.operations[i], certificate, local) ::
          t.operations[i].kind == BOOTSTRAP && t.operations[i].fingerprint.Some?)
    && (forall i, j | 0 <= i < |t.operations| && 0 <= j < |t.operations|
          && Relevant(t.operations[i], certificate, local) && Relevant(t.operations[j], certificate, local) :: i == j)
  }

  ghost predicate OneIdentity(t: Tables, certificate: string, local: Option<Fingerprint>) {
    || Unidentified(t, certificate, local)
    || (AnyConfirmed(t, certificate) && exists ocid: Ocid :: Identified(t, certificate, local, ocid))
  }

  /** Every fingerprint the log mentions was issued, and audits carry none. */
  predicate Accounted(t: Tables, issued: set<Fingerprint>) {
    forall i | 0 <= i < |t.operations| ::
      && (t.operations[i].fingerprint.Some? ==> t.operations[i].fingerprint.value in issued)
      && (t.operations[i].kind == AUDIT ==> t.operations[i].fingerprint.None?)
  }

  /** A new fingerprint appears in no row, so it brings no new claim to an identity. */
  lemma FreshRelevance(t: Tables, certificate: string, before: Option<Fingerprint>, issued: set<Fingerprint>,
                       renewed: Fingerprint)
    requires Accounted(t, issued) && renewed !in issued
    ensures forall i | 0 <= i < |t.operations| && Relevant(t.operations[i], certificate, Some(renewed)) ::
              Relevant(t.operations[i], certificate, before)
  {
  }

  lemma FreshUnidentified(t: Tables, certificate: string, before: Option<Fingerprint>, issued: set<Fingerprint>,
                          renewed: Fingerprint)
    requires Accounted(t, issued) && renewed !in issued && Unidentified(t, certificate, before)
    ensures Unidentified(t, certificate, Some(renewed))
  {
    FreshRelevance(t, certificate, before, issued, renewed);
  }

  lemma FreshIdentified(t: Tables, certificate: string, before: Option<Fingerprint>, issued: set<Fingerprint>,
                        renewed: Fingerprint, ocid: Ocid)
    requires Accounted(t, issued) && renewed !in issued && Identified(t, certificate, before, ocid)
    ensures Identified(t, certificate, Some(renewed), ocid)
  {
    FreshRelevance(t, certificate, before, issued, renewed);
  }

  // ----- a publication under one identity keeps it -----

  ghost predicate IdentifiedWorld(c: Context, w: World, anchor: nat, issued: set<Fingerprint>) {
    && c.ocid.Some? && c.local in issued
    && Accounted(w.tables, issued)
    && anchor < |w.tables.operations| && Confirmed(w.tables.operations[anchor], c.certificate)
    && Identified(w.tables, c.certificate, Some(c.local), c.ocid.value)
    && (w.live.Some? ==>
          && LiveRow(w)
          && Relevant(w.tables.operations[w.live.value.operation], c.certificate, Some(c.local)))
  }

  lemma ActionKeepsIdentity(c: Context, a: Action, w: World, anchor: nat, issued: set<Fingerprint>)
    requires Enabled(c, a, w) && IdentifiedWorld(c, w, anchor, issued)
    ensures IdentifiedWorld(c, Apply(c, a, w), anchor, issued)
  {
  }

  lemma RunKeepsIdentity(c: Context, before: World, after: World, anchor: nat, issued: set<Fingerprint>)
    requires Reaches(c, before, after) && IdentifiedWorld(c, before, anchor, issued)
    ensures IdentifiedWorld(c, after, anchor, issued)
  {
    var worlds: seq<World>, actions: seq<Action> :|
      Run(c, worlds, actions) && worlds[0] == before && worlds[|actions|] == after;
    for i := 0 to |actions|
      invariant IdentifiedWorld(c, worlds[i], anchor, issued)
    {
      ActionKeepsIdentity(c, actions[i], worlds[i], anchor, issued);
    }
  }

  /** What a publication works in: accounted tables and at most its own open operation. */
  predicate OwnWorld(c: Context, w: World, issued: set<Fingerprint>) {
    c.local in issued && Accounted(w.tables, issued) && OpenLive(w, c.certificate)
  }

  lemma ActionKeepsAccounted(c: Context, a: Action, w: World, issued: set<Fingerprint>)
    requires Enabled(c, a, w) && OwnWorld(c, w, issued)
    ensures OwnWorld(c, Apply(c, a, w), issued)
  {
    ActionTouchesOwn(c, a, w);
  }

  lemma RunLeavesOthers(c: Context, before: World, after: World, issued: set<Fingerprint>)
    requires Reaches(c, before, after) && OwnWorld(c, before, issued)
    ensures OwnWorld(c, after, issued)
    ensures OnlyTouches(c.certificate, before.tables, after.tables)
  {
    var worlds: seq<World>, actions: seq<Action> :|
      Run(c, worlds, actions) && worlds[0] == before && worlds[|actions|] == after;
    RunTouchesOwn(c, before, after);
    for i := 0 to |actions|
      invariant OwnWorld(c, worlds[i], issued)
    {
      ActionKeepsAccounted(c, actions[i], worlds[i], issued);
    }
  }

  lemma UntouchedKeepsIdentity(certificate: string, other: string, before: Tables, after: Tables,
                               local: Option<Fingerprint>)
    requires OnlyTouches(certificate, before, after) && other != certificate
    ensures AnyConfirmed(before, other) ==> AnyConfirmed(after, other)
    ensures forall ocid: Ocid :: Identified(before, other, local, ocid) ==> Identified(after, other, local, ocid)
    ensures Unidentified(before, other, local) ==> Unidentified(after, other, local)
    ensures OneIdentity(before, other, local) ==> OneIdentity(after, other, local)
  {
    OthersAreSpared(certificate, other, before, after);
    if AnyConfirmed(before, other) {
      var i :| 0 <= i < |before.operations| && Confirmed(before.operations[i], other);
      assert Confirmed(after.operations[i], other);
    }
    forall ocid: Ocid | Identified(before, other, local, ocid) ensures Identified(after, other, local, ocid) {
    }
  }

  /** What a command under one identity keeps, for whatever it did before it ended or died. */
  lemma CommandKeeps(c: Context, before: World, after: World, issued: set<Fingerprint>)
    requires Reaches(c, before, after) && OwnWorld(c, before, issued) && before.live.None? && c.ocid.Some?
    requires WellFormed(before.remote) && ScheduledAreDeprecated(before.remote)
    ensures Accounted(after.tables, issued) && OnlyTouches(c.certificate, before.tables, after.tables)
    ensures AnyConfirmed(before.tables, c.certificate)
            && Identified(before.tables, c.certificate, Some(c.local), c.ocid.value)
            ==> AnyConfirmed(after.tables, c.certificate)
                && Identified(after.tables, c.certificate, Some(c.local), c.ocid.value)
    ensures WellFormed(after.remote) && ScheduledAreDeprecated(after.remote)
    ensures Sound(before, c.certificate) ==> Sound(World(after.remote, after.tables, None), c.certificate)
  {
    RunLeavesOthers(c, before, after, issued);
    RunKeepsRemote(c, before, after);
    if AnyConfirmed(before.tables, c.certificate)
       && Identified(before.tables, c.certificate, Some(c.local), c.ocid.value)
    {
      var anchor :| 0 <= anchor < |before.tables.operations|
                    && Confirmed(before.tables.operations[anchor], c.certificate);
      RunKeepsIdentity(c, before, after, anchor, issued);
    }
    if Sound(before, c.certificate) {
      StepStop(true, c, before, after);
      RunKeepsSound(c, before, World(after.remote, after.tables, None));
    }
  }

  // ----- one bootstrap operation at a time may claim an identity -----

  /** An open bootstrap operation of the local material, and no other row claims an identity. */
  ghost predicate OnlyClaim(t: Tables, certificate: string, local: Fingerprint, operation: nat) {
    && !AnyConfirmed(t, certificate)
    && operation < |t.operations|
    && Active(t.operations[operation], certificate)
    && t.operations[operation].kind == BOOTSTRAP && t.operations[operation].fingerprint == Some(local)
    && (forall i | 0 <= i < |t.operations| && Relevant(t.operations[i], certificate, Some(local)) :: i == operation)
  }

  lemma ClaimIsUnidentified(t: Tables, certificate: string, local: Fingerprint, operation: nat)
    requires OnlyClaim(t, certificate, local, operation)
    ensures Unidentified(t, certificate, Some(local))
  {
  }

  lemma ClaimStarts(t: Tables, certificate: string, local: Fingerprint)
    requires Unidentified(t, certificate, Some(local)) && !OpenBootstrap(t, certificate, local)
    ensures OnlyClaim(Started(t, certificate, BOOTSTRAP, Some(local), None), certificate, local, |t.operations|)
  {
    var after := Started(t, certificate, BOOTSTRAP, Some(local), None);
    forall i | 0 <= i < |after.operations| ensures !Confirmed(after.operations[i], certificate) {
      if i < |t.operations| {
        assert after.operations[i] == t.operations[i];
      }
    }
  }

  lemma ClaimRecovered(t: Tables, certificate: string, local: Fingerprint, operation: nat)
    requires Unidentified(t, certificate, Some(local)) && operation < |t.operations|
    requires OpensBootstrap(t.operations[operation], certificate, local)
    ensures OnlyClaim(t, certificate, local, operation)
  {
  }

  lemma ClaimAdvances(t: Tables, certificate: string, local: Fingerprint, operation: nat, change: Change, now: int)
    requires OnlyClaim(t, certificate, local, operation)
    ensures var after := Transitioned(t, operation, change, now);
            if !Terminal(change.state) then OnlyClaim(after, certificate, local, operation)
            else if change.state == COMPLETED && after.operations[operation].ocid.Some?
            then AnyConfirmed(after, certificate)
                 && Identified(after, certificate, Some(local), after.operations[operation].ocid.value)
            else Unidentified(after, certificate, Some(local))
  {
    var after := Transitioned(t, operation, change, now);
    assert forall i | 0 <= i < |t.operations| && i != operation :: after.operations[i] == t.operations[i];
    forall i | 0 <= i < |t.operations| && i != operation ensures !Confirmed(after.operations[i], certificate) {
    }
    if change.state == COMPLETED && after.operations[operation].ocid.Some? {
      assert Confirmed(after.operations[operation], certificate);
    }
  }

  predicate OpensBootstrap(row: Row, certificate: string, local: Fingerprint) {
    Active(row, certificate) && row.kind == BOOTSTRAP && row.fingerprint == Some(local) && row.ocid.Some?
  }

  /** An interrupted bootstrap of this material already carries an identity. */
  predicate OpenBootstrap(t: Tables, certificate: string, local: Fingerprint) {
    exists i :: 0 <= i < |t.operations| && OpensBootstrap(t.operations[i], certificate, local)
  }

  /** Exactly one interrupted bootstrap of this material carries an identity. */
  ghost predicate SoleOpenBootstrap(t: Tables, id: string, fingerprint: Fingerprint, operation: nat) {
    && operation < |t.operations| && OpensBootstrap(t.operations[operation], id, fingerprint)
    && forall i | 0 <= i < |t.operations| && OpensBootstrap(t.operations[i], id, fingerprint) :: i == operation
  }

  lemma OnlyMember(s: seq<nat>, n: nat)
    requires n in s && forall i | i in s :: i == n
    ensures (forall a, b | 0 <= a < b < |s| :: s[a] != s[b]) ==> s == [n]
  {
    assert forall k | 0 <= k < |s| :: s[k] in s;
    assert |s| > 1 ==> s[0] == s[1];
  }

  /** The operation is completed at the version, the certificate state records it, and nothing else changed. */
  predicate BootstrapSettled(id: string, fingerprint: Fingerprint, operation: nat, version: nat,
                             before: Tables, after: Tables)
  {
    && |after.operations| == |before.operations| && operation < |before.operations|
    && (forall i | 0 <= i < |before.operations| && i != operation :: after.operations[i] == before.operations[i])
    && after.operations[operation] == before.operations[operation].(
         state := COMPLETED, version := Some(version), error := None,
         completedAt := after.operations[operation].completedAt)
    && after.operations[operation].completedAt.Some?
    && after.certificates == before.certificates[id := StateOf(before, id).(
         localFingerprint := Some(fingerprint), currentFingerprint := Some(fingerprint),
         currentVersion := Some(version), publishedAt := StateOf(after, id).publishedAt)]
    && StateOf(after, id).publishedAt.Some?
  }

  /** A certificate of this identity serves the material at the version. */
  predicate ServesAt(remotes: map<Ocid, Remote>, ocid: Ocid, fingerprint: Fingerprint, version: nat) {
    ocid in remotes && remotes[ocid].current == Some(version) && Serves(remotes[ocid], fingerprint)
  }

  /** Every certificate that was there is there unchanged. */
  predicate RemotesKept(before: map<Ocid, Remote>, after: map<Ocid, Remote>) {
    forall ocid | ocid in before :: ocid in after && after[ocid] == before[ocid]
  }

  /** The one interrupted bootstrap of the material names a certificate that serves it. */
  ghost predicate Recoverable(t: Tables, remotes: map<Ocid, Remote>, id: string, fingerprint: Fingerprint) {
    exists operation: nat ::
      && SoleOpenBootstrap(t, id, fingerprint, operation)
      && t.operations[operation].ocid.value in remotes
      && Serves(remotes[t.operations[operation].ocid.value], fingerprint)
  }

  // ----- the orchestration -----

  /** A create request, with the tables it was sent in. */
  datatype Creation = Creation(tables: Tables, certificate: string, fingerprint: Fingerprint)

  /** No certificate is created over an open bootstrap of the same material, nor over a confirmed identity. */
  ghost predicate ProperCreation(e: Creation, id: string, fingerprint: Fingerprint, unconfirmed: bool) {
    && e.certificate == id && e.fingerprint == fingerprint
    && !OpenBootstrap(e.tables, id, fingerprint)
    && (unconfirmed ==> !AnyConfirmed(e.tables, id))
  }

  /** What was created since was created properly, for a certificate without confirmed identity. */
  ghost predicate ProperCreations(before: seq<Creation>, after: seq<Creation>) {
    before <= after && forall e | e in after[|before|..] :: ProperCreation(e, e.certificate, e.fingerprint, true)
  }

  lemma StartedHasNoOpenBootstrap(t: Tables, id: string, fingerprint: Fingerprint)
    requires !OpenBootstrap(t, id, fingerprint)
    ensures var started := Started(t, id, BOOTSTRAP, Some(fingerprint), None);
            && !OpenBootstrap(started, id, fingerprint)
            && (!AnyConfirmed(t, id) ==> !AnyConfirmed(started, id))
            && forall now :: var noted := Transitioned(started, |t.operations|, To(LOCAL_CERT_VALIDATED), now);
                 && !OpenBootstrap(noted, id, fingerprint)
                 && (!AnyConfirmed(t, id) ==> !AnyConfirmed(noted, id))
  {
    var started := Started(t, id, BOOTSTRAP, Some(fingerprint), None);
    forall i | 0 <= i < |t.operations| ensures started.operations[i] == t.operations[i] {
    }
  }

  datatype CertificateSet = CertificateSet(id: string, ocid: Option<Ocid>)

  /** The configuration, and what the endpoints of each certificate show an audit, or one after an enforced rollback. */
  datatype Settings = Settings(accepts: Acceptance, promoteAttempts: nat, readAttempts: nat,
                               policy: AuditPolicy, retention: RetentionConfig, now: int,
                               verdict: string -> Audits.Verdict, rollbackVerdict: string -> Audits.Verdict)

  predicate ValidSettings(s: Settings) {
    1 <= s.promoteAttempts <= 10 && 1 <= s.readAttempts <= 30
  }

  /** What a command does under a known identity. */
  datatype Task = Publishing(kind: OperationType) | RollingBack | Retaining | Auditing

  /** A command as the host lock admits it. */
  datatype HostCommand =
    | Bootstrapping(entry: CertificateSet)
    | RenewingAll(sets: seq<CertificateSet>)
    | Renewing(id: string, ocid: Ocid)
    | Serving(id: string, ocid: Ocid, task: Task)

  /** What a task that succeeded did to its certificate. */
  predicate Accomplished(task: Task, c: Context, settings: Settings, now: Tables, before: Remote, after: Remote,
                         version: Option<nat>)
  {
    match task
    case Publishing(_) =>
      && version.Some?
      && (settings.policy != AuditPolicy(Audits.ENFORCE, true) ==>
            after.current == version && Serves(after, c.local))
      && settings.accepts(c.local)
      && (task.kind.RENEW? ==> StateOf(now, c.certificate).renewedAt.Some?)
    case RollingBack => Exchanged(before, after) && after.current == version
    case Retaining => settings.retention.enabled ==> Tidy(c, settings.retention, settings.now, now, after)
    case Auditing => after == before
  }

  /** What a task may do to its certificate however it ends. */
  predicate Confined(task: Task, c: Context, settings: Settings, now: Tables, before: Remote, after: Remote) {
    match task
    case Publishing(_) => true
    case RollingBack => after == before || Exchanged(before, after)
    case Retaining =>
      OnlyDueScheduled(settings.retention, ReferencedVersions(now, c.certificate), settings.now, before, after)
    case Auditing => after == before
  }

  /** What a task needs to succeed where nothing fails. */
  predicate Achievable(task: Task, c: Context, settings: Settings, t: Tables, r: Remote) {
    var verdict := settings.verdict(c.certificate);
    match task
    case Publishing(_) =>
      && Publishable(r, c.local, settings.accepts) && Sound(World(r, t, None), c.certificate)
      && Passes(settings.policy, verdict, settings.rollbackVerdict(c.certificate))
      && (RollsBack(settings.policy, verdict) && Serves(r, c.local) ==> Restorable(r, settings.accepts))
    case RollingBack => Restorable(r, settings.accepts) && verdict.Converged?
    case Retaining => true
    case Auditing => Auditable(c, r, settings.accepts) && (verdict.Converged? || verdict.Mismatched?)
  }

  /** Nothing stands in the way of a renewal of this material on this certificate. */
  ghost predicate Attainable(id: string, ocid: Ocid, local: Option<Fingerprint>, settings: Settings, t: Tables,
                             remotes: map<Ocid, Remote>)
  {
    && local.Some? && ocid in remotes
    && Achievable(Publishing(RENEW), Context(id, Some(ocid), local.value), settings, t, remotes[ocid])
  }

  predicate ValidTask(task: Task) {
    task.Publishing? ==> Publishes(task.kind)
  }

  predicate DistinctSets(sets: seq<CertificateSet>) {
    forall i, j | 0 <= i < j < |sets| :: sets[i].id != sets[j].id
  }

  predicate ValidCommand(command: HostCommand) {
    match command
    case RenewingAll(sets) => DistinctSets(sets)
    case Serving(_, _, task) => ValidTask(task)
    case _ => true
  }

  /** The failures that prove a created certificate does not serve the local material. */
  predicate RejectsCreated(f: Failure) {
    f.OciCertificate? || f.Validation? || f.PublicationFailed?
  }

  /** The failures one certificate set may have without stopping the batch. */
  predicate Renewable(f: Failure) {
    f.AuditUnsuccessful? || f.Validation? || f.OciCertificate? || f.PublicationFailed?
    || f.Reconciliation? || f.RollbackFailed? || f.Issuance?
  }

  /** An identity agreed on stays agreed on, and once confirmed it never changes. */
  ghost predicate KeepsIdentity(id: string, before: Tables, from: Option<Fingerprint>,
                                after: Tables, to: Option<Fingerprint>)
  {
    && (OneIdentity(before, id, from) ==> OneIdentity(after, id, to))
    && (forall ocid: Ocid :: AnyConfirmed(before, id) && Identified(before, id, from, ocid) ==>
          AnyConfirmed(after, id) && Identified(after, id, to, ocid))
  }

  /** A certificate the renewal of this set may work on: the configured one, or one a completed row confirmed. */
  predicate MayServe(entry: CertificateSet, t: Tables, ocid: Ocid) {
    if entry.ocid.Some? then entry.ocid == Some(ocid)
    else
      exists i :: 0 <= i < |t.operations| && Confirmed(t.operations[i], entry.id) && t.operations[i].ocid == Some(ocid)
  }

  /** The certificate its renewal has to work on: there is no other candidate. */
  predicate Designates(entry: CertificateSet, t: Tables, ocid: Ocid) {
    && MayServe(entry, t, ocid)
    && (entry.ocid.None? ==>
          forall i | 0 <= i < |t.operations| && Confirmed(t.operations[i], entry.id) ::
            t.operations[i].ocid == Some(ocid))
  }

  lemma SparedDesignates(entry: CertificateSet, before: Tables, after: Tables, ocid: Ocid)
    requires Spared(entry.id, before, after)
    ensures MayServe(entry, after, ocid) <==> MayServe(entry, before, ocid)
    ensures Designates(entry, after, ocid) <==> Designates(entry, before, ocid)
  {
    if entry.ocid.None? && MayServe(entry, before, ocid) {
      var i :| 0 <= i < |before.operations| && Confirmed(before.operations[i], entry.id)
               && before.operations[i].ocid == Some(ocid);
      assert Confirmed(after.operations[i], entry.id);
    }
    forall i | 0 <= i < |before.operations| ensures before.operations[i].certificate == entry.id ==>
      after.operations[i] == before.operations[i]
    {
    }
  }

  /** The tables and the local material between batches; every batch keeps identities. */
  ghost predicate Batches(id: string, tables: seq<Tables>, locals: seq<Option<Fingerprint>>) {
    && |tables| == |locals|
    && forall i | 0 < i < |tables| :: KeepsIdentity(id, tables[i - 1], locals[i - 1], tables[i], locals[i])
  }

  /** Over any number of batches, each of which may have crashed, a confirmed identity is the identity for good. */
  lemma {:induction false} IdentityNeverChanges(id: string, tables: seq<Tables>, locals: seq<Option<Fingerprint>>,
                                                i: nat, j: nat, row: nat, later: nat)
    requires Batches(id, tables, locals) && i <= j < |tables|
    requires OneIdentity(tables[0], id, locals[0])
    requires row < |tables[i].operations| && Confirmed(tables[i].operations[row], id)
    requires later < |tables[j].operations| && Confirmed(tables[j].operations[later], id)
    ensures tables[j].operations[later].ocid == tables[i].operations[row].ocid
  {
    for k := 0 to i
      invariant OneIdentity(tables[k], id, locals[k])
    {
    }
    var ocid := tables[i].operations[row].ocid.value;
    for k := i to j
      invariant AnyConfirmed(tables[k], id) && Identified(tables[k], id, locals[k], ocid)
    {
    }
  }

  /** No set of the batch is on this certificate. */
  predicate Outside(sets: seq<CertificateSet>, certificate: string) {
    forall k | 0 <= k < |sets| :: sets[k].id != certificate
  }

  function MaterialOf(local: map<string, Fingerprint>, id: string): Option<Fingerprint> {
    if id in local then Some(local[id]) else None
  }

  /** A batch absorbs, spares every other certificate and keeps the identity of every set without a configured one. */
  ghost predicate BatchKeeps(sets: seq<CertificateSet>, before: Tables, from: map<string, Fingerprint>,
                             after: Tables, to: map<string, Fingerprint>)
  {
    && Absorbs(before, after)
    && (forall other | Outside(sets, other) :: Spared(other, before, after))
    && (forall k | 0 <= k < |sets| && sets[k].ocid.None? ::
          KeepsIdentity(sets[k].id, before, MaterialOf(from, sets[k].id), after, MaterialOf(to, sets[k].id)))
  }

  lemma BatchGoesOn(sets: seq<CertificateSet>, i: nat, first: Tables, from: map<string, Fingerprint>,
                    before: Tables, local: map<string, Fingerprint>, after: Tables, to: map<string, Fingerprint>)
    requires DistinctSets(sets) && i < |sets| && BatchKeeps(sets, first, from, before, local)
    requires OnlyTouches(sets[i].id, before, after)
    requires forall id | id != sets[i].id :: MaterialOf(to, id) == MaterialOf(local, id)
    requires sets[i].ocid.None? ==>
               KeepsIdentity(sets[i].id, before, MaterialOf(local, sets[i].id), after, MaterialOf(to, sets[i].id))
    ensures BatchKeeps(sets, first, from, after, to)
  {
    AbsorbsThrough(first, before, after);
    forall other | Outside(sets, other) ensures Spared(other, first, after) {
      OthersAreSpared(sets[i].id, other, before, after);
      SparedThrough(other, first, before, after);
    }
    forall k | 0 <= k < |sets| && sets[k].ocid.None?
      ensures KeepsIdentity(sets[k].id, first, MaterialOf(from, sets[k].id), after, MaterialOf(to, sets[k].id))
    {
      if k != i {
        UntouchedKeepsIdentity(sets[i].id, sets[k].id, before, after, MaterialOf(to, sets[k].id));
      }
    }
  }

  /** No other set of the batch may work on the certificate. */
  predicate Alone(sets: seq<CertificateSet>, k: nat, t: Tables, ocid: Ocid) {
    forall j | 0 <= j < |sets| && j != k :: !MayServe(sets[j], t, ocid)
  }

  /** A certificate no set of the batch may work on is what it was. */
  ghost predicate StrangersKept(sets: seq<CertificateSet>, t: Tables, before: map<Ocid, Remote>,
                                after: map<Ocid, Remote>)
  {
    forall ocid | ocid in before && (forall k | 0 <= k < |sets| :: !MayServe(sets[k], t, ocid)) ::
      ocid in after && after[ocid] == before[ocid]
  }

  /**
   The version reported for a set is CURRENT of the certificate it designates and
   serves its material, where that certificate is no other set's concern.
   */
  ghost predicate ReportsHold(sets: seq<CertificateSet>, t: Tables, publications: seq<(string, nat)>,
                              remotes: map<Ocid, Remote>, local: map<string, Fingerprint>)
  {
    forall k, p, ocid | 0 <= k < |sets| && p in publications && p.0 == sets[k].id
                        && Designates(sets[k], t, ocid) && Alone(sets, k, t, ocid) ::
      MaterialOf(local, sets[k].id).Some? && ServesAt(remotes, ocid, MaterialOf(local, sets[k].id).value, p.1)
  }

  /** A stranger to one more set as well is what it was. */
  lemma StrangersStillKept(sets: seq<CertificateSet>, i: nat, first: Tables, before: Tables, t0: map<Ocid, Remote>,
                           from: map<Ocid, Remote>, to: map<Ocid, Remote>)
    requires i < |sets| && Spared(sets[i].id, first, before) && StrangersKept(sets[..i], first, t0, from)
    requires forall ocid | ocid in from && !MayServe(sets[i], before, ocid) :: ocid in to && to[ocid] == from[ocid]
    ensures StrangersKept(sets[..i + 1], first, t0, to)
  {
    var more := sets[..i + 1];
    forall ocid | ocid in t0 && (forall k | 0 <= k < |more| :: !MayServe(more[k], first, ocid))
      ensures ocid in to && to[ocid] == t0[ocid]
    {
      assert more[i] == sets[i];
      SparedDesignates(sets[i], first, before, ocid);
      forall k | 0 <= k < i ensures !MayServe(sets[..i][k], first, ocid) {
        assert sets[..i][k] == more[k];
      }
    }
  }

  /** One more set undoes no earlier report. */
  lemma ReportsGoOn(sets: seq<CertificateSet>, i: nat, first: Tables, before: Tables,
                    from: map<Ocid, Remote>, to: map<Ocid, Remote>, local: map<string, Fingerprint>,
                    local': map<string, Fingerprint>, publications: seq<(string, nat)>)
    requires DistinctSets(sets) && i < |sets| && Spared(sets[i].id, first, before)
    requires ReportsHold(sets, first, publications, from, local)
    requires forall p | p in publications :: p.0 != sets[i].id
    requires forall ocid | ocid in from && !MayServe(sets[i], before, ocid) :: ocid in to && to[ocid] == from[ocid]
    requires forall id | id != sets[i].id :: MaterialOf(local', id) == MaterialOf(local, id)
    ensures ReportsHold(sets, first, publications, to, local')
  {
    forall ocid ensures MayServe(sets[i], before, ocid) <==> MayServe(sets[i], first, ocid) {
      SparedDesignates(sets[i], first, before, ocid);
    }
  }

  lemma OneMoreReport(sets: seq<CertificateSet>, i: nat, first: Tables, before: Tables, remotes: map<Ocid, Remote>,
                      local: map<string, Fingerprint>, publications: seq<(string, nat)>, version: nat)
    requires DistinctSets(sets) && i < |sets| && Spared(sets[i].id, first, before)
    requires ReportsHold(sets, first, publications, remotes, local)
    requires MaterialOf(local, sets[i].id).Some?
    requires forall ocid: Ocid | Designates(sets[i], before, ocid) ::
               ServesAt(remotes, ocid, MaterialOf(local, sets[i].id).value, version)
    ensures ReportsHold(sets, first, publications + [(sets[i].id, version)], remotes, local)
  {
    forall ocid ensures Designates(sets[i], before, ocid) <==> Designates(sets[i], first, ocid) {
      SparedDesignates(sets[i], first, before, ocid);
    }
  }

  /** Sets still to come are spared by the ones before. */
  lemma LaterSetsSpared(sets: seq<CertificateSet>, i: nat, first: Tables, before: Tables, after: Tables)
    requires DistinctSets(sets) && i < |sets| && OnlyTouches(sets[i].id, before, after)
    requires forall k | i <= k < |sets| :: Spared(sets[k].id, first, before)
    ensures forall k | i < k < |sets| :: Spared(sets[k].id, first, after)
  {
    forall k | i < k < |sets| ensures Spared(sets[k].id, first, after) {
      OthersAreSpared(sets[i].id, sets[k].id, before, after);
      SparedThrough(sets[k].id, first, before, after);
    }
  }

  /** What the first `i` sets of a batch did to the remote certificates, and what they reported of it. */
  ghost predicate BatchServes(sets: seq<CertificateSet>, i: nat, first: Tables, t0: map<Ocid, Remote>,
                              now: Tables, remotes: map<Ocid, Remote>, local: map<string, Fingerprint>,
                              publications: seq<(string, nat)>, rollsBack: bool)
    requires i <= |sets|
  {
    && (forall k | i <= k < |sets| :: Spared(sets[k].id, first, now))
    && StrangersKept(sets[..i], first, t0, remotes)
    && (!rollsBack ==> ReportsHold(sets, first, publications, remotes, local))
    && (forall p | p in publications :: exists k :: 0 <= k < |sets| && k < i && p.0 == sets[k].id)
  }

  lemma BatchServesOn(sets: seq<CertificateSet>, i: nat, first: Tables, t0: map<Ocid, Remote>,
                      before: Tables, from: map<Ocid, Remote>, local: map<string, Fingerprint>,
                      after: Tables, to: map<Ocid, Remote>, local': map<string, Fingerprint>,
                      publications: seq<(string, nat)>, version: Option<nat>, rollsBack: bool)
    requires DistinctSets(sets) && i < |sets| && OnlyTouches(sets[i].id, before, after)
    requires BatchServes(sets, i, first, t0, before, from, local, publications, rollsBack)
    requires forall ocid | ocid in from && !MayServe(sets[i], before, ocid) :: ocid in to && to[ocid] == from[ocid]
    requires forall id | id != sets[i].id :: MaterialOf(local', id) == MaterialOf(local, id)
    requires version.Some? && !rollsBack ==>
               && MaterialOf(local', sets[i].id).Some?
               && forall ocid: Ocid | Designates(sets[i], before, ocid) ::
                    ServesAt(to, ocid, MaterialOf(local', sets[i].id).value, version.value)
    ensures BatchServes(sets, i + 1, first, t0, after, to, local',
                        if version.Some? then publications + [(sets[i].id, version.value)] else publications, rollsBack)
  {
    LaterSetsSpared(sets, i, first, before, after);
    forall p | p in publications ensures p.0 != sets[i].id {
      var k :| 0 <= k < |sets| && k < i && p.0 == sets[k].id;
    }
    StrangersStillKept(sets, i, first, before, t0, from, to);
    if !rollsBack {
      ReportsGoOn(sets, i, first, before, from, to, local, local', publications);
      if version.Some? {
        OneMoreReport(sets, i, first, before, to, local', publications, version.value);
      }
    }
  }

  /** Whatever certificate a set designates, its renewal there is hindered, or its bootstrap where it has none. */
  ghost predicate Hindered(entry: CertificateSet, local: Option<Fingerprint>, settings: Settings, t: Tables,
                           remotes: map<Ocid, Remote>)
  {
    && local.Some?
    && (forall ocid: Ocid | Designates(entry, t, ocid) :: !Attainable(entry.id, ocid, local, settings, t, remotes))
    && (entry.ocid.None? && !AnyConfirmed(t, entry.id) ==>
          || !settings.accepts(local.value)
          || (OpenBootstrap(t, entry.id, local.value) && !Recoverable(t, remotes, entry.id, local.value)))
  }

  lemma AttainableLater(id: string, ocid: Ocid, local: Option<Fingerprint>, settings: Settings, first: Tables,
                        own: map<Ocid, Remote>, now: Tables, remotes: map<Ocid, Remote>)
    requires Spared(id, first, now) && Attainable(id, ocid, local, settings, first, own)
    requires ocid in remotes && remotes[ocid] == own[ocid]
    ensures Attainable(id, ocid, local, settings, now, remotes)
  {
    HostStepFollows(id, Elsewhere, World(own[ocid], first, None), World(remotes[ocid], now, None));
  }

  /** What is hindered now was hindered before other sets had their turn, as to certificates they left alone. */
  lemma HinderedBefore(entry: CertificateSet, local: Option<Fingerprint>, settings: Settings, first: Tables,
                       own: map<Ocid, Remote>, now: Tables, remotes: map<Ocid, Remote>)
    requires Spared(entry.id, first, now) && Hindered(entry, local, settings, now, remotes)
    requires forall ocid | ocid in own :: ocid in remotes && remotes[ocid] == own[ocid]
    ensures Hindered(entry, local, settings, first, own)
  {
    forall ocid: Ocid | Designates(entry, first, ocid)
      ensures !Attainable(entry.id, ocid, local, settings, first, own)
    {
      SparedDesignates(entry, first, now, ocid);
      if Attainable(entry.id, ocid, local, settings, first, own) {
        AttainableLater(entry.id, ocid, local, settings, first, own, now, remotes);
      }
    }
    if entry.ocid.None? && !AnyConfirmed(first, entry.id) {
      SparedBootstrap(entry.id, local.value, first, now);
    }
  }

  /** Another set's turn neither confirms, opens nor closes a bootstrap of this one. */
  lemma SparedBootstrap(id: string, local: Fingerprint, first: Tables, now: Tables)
    requires Spared(id, first, now)
    ensures AnyConfirmed(now, id) ==> AnyConfirmed(first, id)
    ensures OpenBootstrap(now, id, local) ==> OpenBootstrap(first, id, local)
    ensures forall operation: nat :: SoleOpenBootstrap(first, id, local, operation) ==>
              SoleOpenBootstrap(now, id, local, operation)
              && now.operations[operation] == first.operations[operation]
  {
    if AnyConfirmed(now, id) {
      var i :| 0 <= i < |now.operations| && Confirmed(now.operations[i], id);
      assert Confirmed(first.operations[i], id);
    }
    if OpenBootstrap(now, id, local) {
      var i :| 0 <= i < |now.operations| && OpensBootstrap(now.operations[i], id, local);
      assert OpensBootstrap(first.operations[i], id, local);
    }
  }

  /** The certificates no other set of the batch may work on. */
  ghost function Own(sets: seq<CertificateSet>, k: nat, t: Tables, remotes: map<Ocid, Remote>): map<Ocid, Remote> {
    map ocid | ocid in remotes && Alone(sets, k, t, ocid) :: remotes[ocid]
  }

  lemma OwnKept(sets: seq<CertificateSet>, i: nat, first: Tables, t0: map<Ocid, Remote>, remotes: map<Ocid, Remote>)
    requires i < |sets| && StrangersKept(sets[..i], first, t0, remotes)
    ensures forall ocid | ocid in Own(sets, i, first, t0) :: ocid in remotes && remotes[ocid] == t0[ocid]
  {
    forall ocid | ocid in Own(sets, i, first, t0) ensures ocid in remotes && remotes[ocid] == t0[ocid] {
      forall k | 0 <= k < i ensures !MayServe(sets[..i][k], first, ocid) {
        assert sets[..i][k] == sets[k];
      }
    }
  }

  /** Where nothing fails, a set fails only for want of material or because something hindered it from the start. */
  ghost predicate FailuresExplained(sets: seq<CertificateSet>, i: nat, failures: seq<(string, Failure)>,
                                    settings: Settings, first: Tables, t0: map<Ocid, Remote>,
                                    local: map<string, Fingerprint>)
  {
    forall f | f in failures ::
      exists k :: 0 <= k < |sets| && k < i && f.0 == sets[k].id
                  && (f.1.Issuance?
                      || Hindered(sets[k], MaterialOf(local, sets[k].id), settings, first, Own(sets, k, first, t0)))
  }

  lemma FailuresStayExplained(sets: seq<CertificateSet>, i: nat, failures: seq<(string, Failure)>,
                              error: Option<Failure>, settings: Settings, first: Tables, t0: map<Ocid, Remote>,
                              local: map<string, Fingerprint>, local': map<string, Fingerprint>)
    requires DistinctSets(sets) && i < |sets|
    requires FailuresExplained(sets, i, failures, settings, first, t0, local)
    requires forall id | id != sets[i].id :: MaterialOf(local', id) == MaterialOf(local, id)
    requires error.Some? && !error.value.Issuance? ==>
               Hindered(sets[i], MaterialOf(local', sets[i].id), settings, first, Own(sets, i, first, t0))
    ensures FailuresExplained(sets, i + 1,
                              if error.Some? then failures + [(sets[i].id, error.value)] else failures,
                              settings, first, t0, local')
  {
    forall f | f in failures
      ensures exists k :: 0 <= k < |sets| && k < i + 1 && f.0 == sets[k].id
                  && (f.1.Issuance?
                      || Hindered(sets[k], MaterialOf(local', sets[k].id), settings, first, Own(sets, k, first, t0)))
    {
      var k :| 0 <= k < |sets| && k < i && f.0 == sets[k].id
               && (f.1.Issuance?
                   || Hindered(sets[k], MaterialOf(local, sets[k].id), settings, first, Own(sets, k, first, t0)));
      assert sets[k].id != sets[i].id;
    }
  }

  /** Every set has exactly one result or failure, in the order of the sets. */
  ghost predicate Accounts(sets: seq<CertificateSet>, publications: seq<(string, nat)>,
                           failures: seq<(string, Failure)>)
    decreases |sets|
  {
    if sets == [] then publications == [] && failures == []
    else
      var last := sets[|sets| - 1].id;
      || (publications != [] && publications[|publications| - 1].0 == last
          && Accounts(sets[..|sets| - 1], publications[..|publications| - 1], failures))
      || (failures != [] && failures[|failures| - 1].0 == last
          && Accounts(sets[..|sets| - 1], publications, failures[..|failures| - 1]))
  }

  lemma AccountsOneMore(sets: seq<CertificateSet>, i: nat, publications: seq<(string, nat)>,
                        failures: seq<(string, Failure)>)
    requires i < |sets| && Accounts(sets[..i], publications, failures)
    ensures forall version: nat :: Accounts(sets[..i + 1], publications + [(sets[i].id, version)], failures)
    ensures forall error: Failure :: Accounts(sets[..i + 1], publications, failures + [(sets[i].id, error)])
  {
    var more := sets[..i + 1];
    assert more[..|more| - 1] == sets[..i];
    forall version: nat ensures Accounts(more, publications + [(sets[i].id, version)], failures) {
      assert (publications + [(sets[i].id, version)])[..|publications|] == publications;
    }
    forall error: Failure ensures Accounts(more, publications, failures + [(sets[i].id, error)]) {
      assert (failures + [(sets[i].id, error)])[..|failures|] == failures;
    }
  }

  class Publisher {
    const store: StateStore
    const reliable: bool
    var remotes: map<Ocid, Remote>
    var next: Ocid
    var local: map<string, Fingerprint>
    var issued: set<Fingerprint>
    ghost var creations: seq<Creation>

    constructor (store: StateStore, reliable: bool)
      requires store.Contents() == Tables([], map[])
      ensures Valid() && this.store == store && this.reliable == reliable
      ensures forall id :: OneIdentity(store.Contents(), id, Local(id))
    {
      this.store, this.reliable := store, reliable;
      remotes, next, local, issued, creations := map[], 0, map[], {}, [];
    }

    ghost predicate Valid()
      reads this, store
    {
      && Consistent(store.Contents()) && Accounted(store.Contents(), issued)
      && (forall id | id in local :: local[id] in issued)
      && (forall ocid | ocid in remotes ::
            ocid < next && WellFormed(remotes[ocid]) && ScheduledAreDeprecated(remotes[ocid]))
    }

    /** The certificate is in step with this remote one, as between the commands of a host run. */
    ghost predicate SoundUnder(id: string, ocid: Ocid)
      reads this, store
    {
      ocid in remotes && Sound(World(remotes[ocid], store.Contents(), None), id)
    }

    function Local(id: string): Option<Fingerprint>
      reads this
    {
      MaterialOf(local, id)
    }

    /** Issue when due; every issuance has a fingerprint never seen before. */
    method Issue(id: string) returns (r: Result<Fingerprint, Failure>)
      requires Valid()
      modifies this`local, this`issued
      ensures Valid() && old(issued) <= issued
      ensures local == old(local) || (id in local && local == old(local)[id := local[id]] && local[id] !in old(issued))
      ensures r.Ok? ==> id in local && r.value == local[id]
      ensures reliable && r.Err? ==> r.error.Issuance?
    {
      var refused: bool, due: bool, lost: bool := *, *, *;
      if refused {
        return Err(Issuance);
      }
      if id !in local || due {
        var leaf: Fingerprint := *;
        if leaf in issued {
          return Err(Issuance);
        }
        local, issued := local[id := leaf], issued + {leaf};
      }
      return if lost && !reliable then Err(Crashed) else Ok(local[id]);
    }

    /** Create an imported certificate; the answer, or the process, may be lost. */
    method CreateImportedCertificate(id: string, fingerprint: Fingerprint) returns (r: Result<Ocid, Failure>)
      requires Valid()
      modifies this`remotes, this`next, this`creations
      ensures Valid()
      ensures creations == old(creations) + [Creation(store.Contents(), id, fingerprint)]
      ensures RemotesKept(old(remotes), remotes)
      ensures r.Ok? ==> r.value in remotes && r.value !in old(remotes)
      ensures reliable ==> r.Ok? && ServesAt(remotes, r.value, fingerprint, 1)
    {
      creations := creations + [Creation(store.Contents(), id, fingerprint)];
      var delivered: bool, answered: bool, promoted: bool, why: Failure, created: Option<int> := *, *, *, *, *;
      if reliable {
        delivered, answered, promoted := true, true, true;
      }
      if delivered {
        var first := Remote(map[1 := Version(fingerprint, created, None)],
                            if promoted then Some(1) else None, None,
                            if promoted then None else Some(1), Some(1), 2, 0);
        remotes, next := remotes[next := first], next + 1;
        if answered {
          return Ok(next - 1);
        }
      }
      return Err(why);
    }

    /** The version a certificate serves, once its bundle validates as the local material. */
    method ReadBack(ocid: Ocid, fingerprint: Fingerprint, accepts: Acceptance, mismatch: string)
      returns (r: Result<nat, Failure>)
      requires Valid()
      ensures r.Ok? ==> ServesAt(remotes, ocid, fingerprint, r.value) && accepts(fingerprint)
      ensures reliable && ocid in remotes && Serves(remotes[ocid], fingerprint) && accepts(fingerprint) ==> r.Ok?
    {
      if ocid !in remotes {
        return Err(OciCertificate("OCI public bundle retrieval failed"));
      }
      var service := new CertificateService(remotes[ocid], true, if reliable then NoFaults else AnyFaults);
      var bundle :- service.GetPublicBundle(None);
      if !accepts(bundle.fingerprint) {
        return Err(Validation);
      }
      if bundle.fingerprint != fingerprint {
        return Err(PublicationFailed(mismatch));
      }
      return Ok(bundle.version);
    }

    /** One store write on the bootstrap operation; `claim` says no other row claims an identity. */
    method AdvanceClaim(id: string, fingerprint: Fingerprint, operation: nat, change: Change, ghost claim: bool)
      returns (r: Result<(), Failure>)
      requires Valid() && operation < |store.operations| && store.operations[operation].certificate == id
      requires store.operations[operation].kind == BOOTSTRAP
      requires claim && !Terminal(store.operations[operation].state) ==>
                 OnlyClaim(store.Contents(), id, fingerprint, operation)
      requires !Terminal(store.operations[operation].state)
      modifies store
      ensures Valid() && OnlyTouches(id, old(store.Contents()), store.Contents())
      ensures store.Contents() ==
              if r.Ok? then Transitioned(old(store.Contents()), operation, change, store.clock)
              else old(store.Contents())
      ensures claim && (r.Err? || !Terminal(change.state)) ==> OnlyClaim(store.Contents(), id, fingerprint, operation)
      ensures claim && r.Ok? && change.state == COMPLETED && store.operations[operation].ocid.Some? ==>
                && AnyConfirmed(store.Contents(), id)
                && Identified(store.Contents(), id, Some(fingerprint), store.operations[operation].ocid.value)
      ensures claim && (r.Err? || change.state != COMPLETED) ==>
                Unidentified(store.Contents(), id, Some(fingerprint))
      ensures store.reliable ==> r.Ok?
    {
      ghost var before := store.Contents();
      r := store.Transition(operation, change);
      if claim {
        if r.Ok? {
          ClaimAdvances(before, id, fingerprint, operation, change, store.clock);
        }
        if r.Err? || !Terminal(change.state) {
          ClaimIsUnidentified(store.Contents(), id, fingerprint, operation);
        }
      }
    }

    /** CURRENT proved to be the local material: record it and complete the operation. */
    method ConfirmClaim(id: string, fingerprint: Fingerprint, operation: nat, ocid: Ocid, version: nat,
                        ghost claim: bool)
      returns (r: Result<(), Failure>)
      requires Valid() && operation < |store.operations| && store.operations[operation].certificate == id
      requires store.operations[operation].kind == BOOTSTRAP && store.operations[operation].ocid == Some(ocid)
      requires !Terminal(store.operations[operation].state)
      requires claim ==> OnlyClaim(store.Contents(), id, fingerprint, operation)
      modifies store
      ensures Valid() && OnlyTouches(id, old(store.Contents()), store.Contents())
      ensures claim && r.Ok? ==>
                AnyConfirmed(store.Contents(), id) && Identified(store.Contents(), id, Some(fingerprint), ocid)
      ensures claim && r.Err? ==> Unidentified(store.Contents(), id, Some(fingerprint))
      ensures r.Ok? ==>
                BootstrapSettled(id, fingerprint, operation, version, old(store.Contents()), store.Contents())
      ensures store.reliable ==> r.Ok?
    {
      var _ :- AdvanceClaim(id, fingerprint, operation, Stores.At(OCI_CURRENT_CONFIRMED, version), claim);
      var _ :- store.RecordPublicationSuccess(id, fingerprint, fingerprint, version);
      r := AdvanceClaim(id, fingerprint, operation, To(COMPLETED), claim);
    }

    /** The open bootstrap operations of this material that carry an identity. */
    method BootstrapCandidates(id: string, fingerprint: Fingerprint) returns (candidates: seq<nat>)
      ensures forall i :: i in candidates <==>
                          0 <= i < |store.operations| && OpensBootstrap(store.operations[i], id, fingerprint)
      ensures forall a, b | 0 <= a < b < |candidates| :: candidates[a] != candidates[b]
      ensures |candidates| == 1 ==> SoleOpenBootstrap(store.Contents(), id, fingerprint, candidates[0])
      ensures forall operation: nat | SoleOpenBootstrap(store.Contents(), id, fingerprint, operation) ::
                candidates == [operation]
    {
      var ids := store.ActiveIds(id);
      candidates := [];
      for k := 0 to |ids|
        invariant forall a, b | 0 <= a < b < |candidates| :: candidates[a] != candidates[b]
        invariant forall i :: i in candidates <==>
                              i in ids[..k] && 0 <= i < |store.operations|
                              && OpensBootstrap(store.operations[i], id, fingerprint)
      {
        assert ids[k] in ActiveOperations(store.Contents(), id);
        assert ids[..k + 1] == ids[..k] + [ids[k]];
        if OpensBootstrap(store.operations[ids[k]], id, fingerprint) {
          assert ids[k] !in ids[..k];
          candidates := candidates + [ids[k]];
        }
      }
      assert ids[..|ids|] == ids;
      forall i: nat | i < |store.operations| && OpensBootstrap(store.operations[i], id, fingerprint)
        ensures i in candidates
      {
        assert i in ActiveOperations(store.Contents(), id);
      }
      assert |candidates| == 1 ==> candidates[0] in candidates;
      forall operation: nat | SoleOpenBootstrap(store.Contents(), id, fingerprint, operation)
        ensures candidates == [operation]
      {
        OnlyMember(candidates, operation);
      }
    }

    /** Confirm that the certificate of an interrupted bootstrap serves the local material, and settle it. */
    method FinishBootstrap(id: string, fingerprint: Fingerprint, operation: nat, accepts: Acceptance, ghost claim: bool)
      returns (r: Result<(Ocid, nat), Failure>)
      requires Valid() && SoleOpenBootstrap(store.Contents(), id, fingerprint, operation)
      requires claim ==> Unidentified(store.Contents(), id, Some(fingerprint))
      modifies store
      ensures Valid() && OnlyTouches(id, old(store.Contents()), store.Contents())
      ensures claim && r.Ok? ==>
                AnyConfirmed(store.Contents(), id) && Identified(store.Contents(), id, Some(fingerprint), r.value.0)
      ensures claim && r.Err? ==> Unidentified(store.Contents(), id, Some(fingerprint))
      ensures r.Ok? ==>
                && old(store.operations)[operation].ocid == Some(r.value.0)
                && ServesAt(remotes, r.value.0, fingerprint, r.value.1)
                && BootstrapSettled(id, fingerprint, operation, r.value.1, old(store.Contents()), store.Contents())
      ensures store.reliable && r.Err? ==> store.Contents() == old(store.Contents())
      ensures reliable && store.reliable && accepts(fingerprint)
              && (var ocid := old(store.operations)[operation].ocid.value;
                  ocid in remotes && Serves(remotes[ocid], fingerprint))
              ==> r.Ok?
    {
      var ocid := store.operations[operation].ocid.value;
      if claim {
        ClaimRecovered(store.Contents(), id, fingerprint, operation);
      }
      var version :- ReadBack(ocid, fingerprint, accepts,
                              "bootstrap recovery OCI certificate does not match local material");
      var _ :- ConfirmClaim(id, fingerprint, operation, ocid, version, claim);
      return Ok((ocid, version));
    }

    /** Finish a bootstrap that stopped after creation instead of creating a second certificate. */
    method RecoverBootstrap(id: string, fingerprint: Fingerprint, accepts: Acceptance, ghost claim: bool)
      returns (r: Result<Option<(Ocid, nat)>, Failure>)
      requires Valid()
      requires claim ==> Unidentified(store.Contents(), id, Some(fingerprint))
      modifies store
      ensures Valid() && OnlyTouches(id, old(store.Contents()), store.Contents())
      ensures r == Ok(None) ==>
                store.Contents() == old(store.Contents()) && !OpenBootstrap(store.Contents(), id, fingerprint)
      ensures claim && r.Ok? && r.value.Some? ==>
                && AnyConfirmed(store.Contents(), id)
                && Identified(store.Contents(), id, Some(fingerprint), r.value.value.0)
      ensures claim && (r.Err? || r.value.None?) ==> Unidentified(store.Contents(), id, Some(fingerprint))
      ensures r.Ok? && r.value.Some? ==>
                exists operation: nat ::
                  && SoleOpenBootstrap(old(store.Contents()), id, fingerprint, operation)
                  && old(store.operations)[operation].ocid == Some(r.value.value.0)
                  && ServesAt(remotes, r.value.value.0, fingerprint, r.value.value.1)
                  && BootstrapSettled(id, fingerprint, operation, r.value.value.1,
                                      old(store.Contents()), store.Contents())
      ensures !old(OpenBootstrap(store.Contents(), id, fingerprint)) ==> r == Ok(None)
      ensures reliable && store.reliable && accepts(fingerprint) ==>
                forall operation: nat | SoleOpenBootstrap(old(store.Contents()), id, fingerprint, operation) ::
                  var ocid := old(store.operations)[operation].ocid.value;
                  ocid in remotes && Serves(remotes[ocid], fingerprint) ==> r.Ok? && r.value.Some?
    {
      var candidates := BootstrapCandidates(id, fingerprint);
      if candidates == [] {
        return Ok(None);
      }
      assert candidates[0] in candidates;
      if |candidates| != 1 {
        return Err(PublicationFailed("bootstrap recovery has ambiguous OCI certificate state"));
      }
      var finished :- FinishBootstrap(id, fingerprint, candidates[0], accepts, claim);
      return Ok(Some(finished));
    }

    /** Close the operation where the failure proves a mismatch; other failures leave it open. */
    method CloseRejected(id: string, fingerprint: Fingerprint, operation: nat, why: Failure, ghost claim: bool)
      returns (error: Failure)
      requires Valid() && operation < |store.operations| && store.operations[operation].certificate == id
      requires store.operations[operation].kind == BOOTSTRAP && !Terminal(store.operations[operation].state)
      requires claim ==> OnlyClaim(store.Contents(), id, fingerprint, operation)
      modifies store
      ensures Valid() && OnlyTouches(id, old(store.Contents()), store.Contents())
      ensures claim ==> Unidentified(store.Contents(), id, Some(fingerprint))
      ensures store.reliable ==> error == why
      ensures store.reliable && RejectsCreated(why) ==>
                operation < |store.operations| && store.operations[operation].state == OCI_VERSION_FAILED
      ensures !RejectsCreated(why) ==> error == why && store.Contents() == old(store.Contents())
    {
      if claim {
        ClaimIsUnidentified(store.Contents(), id, fingerprint, operation);
      }
      match why
      case OciCertificate(_) | Validation | PublicationFailed(_) =>
        var closed := AdvanceClaim(id, fingerprint, operation, To(OCI_VERSION_FAILED), claim);
        return if closed.Err? then closed.error else why;
      case _ =>
        return why;
    }

    /** Check that a newly created certificate serves the local material, and settle its operation. */
    method VerifyCreated(id: string, fingerprint: Fingerprint, operation: nat, ocid: Ocid, accepts: Acceptance,
                         ghost claim: bool)
      returns (r: Result<nat, Failure>)
      requires Valid() && operation < |store.operations| && store.operations[operation].certificate == id
      requires store.operations[operation].kind == BOOTSTRAP && store.operations[operation].ocid == Some(ocid)
      requires !Terminal(store.operations[operation].state)
      requires claim ==> OnlyClaim(store.Contents(), id, fingerprint, operation)
      modifies store
      ensures Valid() && OnlyTouches(id, old(store.Contents()), store.Contents())
      ensures claim && r.Ok? ==>
                AnyConfirmed(store.Contents(), id) && Identified(store.Contents(), id, Some(fingerprint), ocid)
      ensures claim && r.Err? ==> Unidentified(store.Contents(), id, Some(fingerprint))
      ensures r.Ok? ==>
                && ServesAt(remotes, ocid, fingerprint, r.value)
                && BootstrapSettled(id, fingerprint, operation, r.value, old(store.Contents()), store.Contents())
      ensures reliable && store.reliable && accepts(fingerprint)
              && ocid in remotes && Serves(remotes[ocid], fingerprint) ==>
                r.Ok?
      ensures store.reliable && r.Err? && !RejectsCreated(r.error) ==> store.Contents() == old(store.Contents())
      ensures store.reliable && r.Err? && RejectsCreated(r.error) ==>
                operation < |store.operations| && store.operations[operation].state == OCI_VERSION_FAILED
    {
      var version := ReadBack(ocid, fingerprint, accepts,
                              "initial OCI certificate current version does not match local material");
      if version.Err? {
        var error := CloseRejected(id, fingerprint, operation, version.error, claim);
        return Err(error);
      }
      var _ :- ConfirmClaim(id, fingerprint, operation, ocid, version.value, claim);
      return version;
    }

    /** Log the intent before anything is created. */
    method OpenClaim(id: string, fingerprint: Fingerprint, ghost claim: bool) returns (r: Result<nat, Failure>)
      requires Valid() && fingerprint in issued && !OpenBootstrap(store.Contents(), id, fingerprint)
      requires claim ==> Unidentified(store.Contents(), id, Some(fingerprint))
      modifies store
      ensures Valid() && OnlyTouches(id, old(store.Contents()), store.Contents())
      ensures !OpenBootstrap(store.Contents(), id, fingerprint)
      ensures !old(AnyConfirmed(store.Contents(), id)) ==> !AnyConfirmed(store.Contents(), id)
      ensures r.Ok? ==>
                && r.value < |store.operations| && store.operations[r.value].certificate == id
                && store.operations[r.value].kind == BOOTSTRAP && !Terminal(store.operations[r.value].state)
                && (claim ==> OnlyClaim(store.Contents(), id, fingerprint, r.value))
      ensures store.reliable ==> r.Ok?
      ensures claim && r.Err? ==> Unidentified(store.Contents(), id, Some(fingerprint))
    {
      ghost var before := store.Contents();
      var operation :- store.StartOperation(id, BOOTSTRAP, Some(fingerprint), None);
      StartedHasNoOpenBootstrap(before, id, fingerprint);
      if claim {
        ClaimStarts(before, id, fingerprint);
        ClaimIsUnidentified(store.Contents(), id, fingerprint, operation);
      }
      var _ :- AdvanceClaim(id, fingerprint, operation, To(LOCAL_CERT_VALIDATED), claim);
      return Ok(operation);
    }

    /** Send the one create request of a logged operation and log the identity it returned. */
    method CreateLogged(id: string, fingerprint: Fingerprint, operation: nat, ghost claim: bool)
      returns (r: Result<Ocid, Failure>)
      requires Valid() && operation < |store.operations| && store.operations[operation].certificate == id
      requires store.operations[operation].kind == BOOTSTRAP && !Terminal(store.operations[operation].state)
      requires claim ==> OnlyClaim(store.Contents(), id, fingerprint, operation)
      modifies store, this`remotes, this`next, this`creations
      ensures Valid() && OnlyTouches(id, old(store.Contents()), store.Contents())
      ensures creations == old(creations) + [Creation(old(store.Contents()), id, fingerprint)]
      ensures r.Ok? ==>
                && r.value in remotes && r.value !in old(remotes)
                && operation < |store.operations| && store.operations[operation].certificate == id
                && store.operations[operation].kind == BOOTSTRAP && store.operations[operation].ocid == Some(r.value)
                && !Terminal(store.operations[operation].state)
                && (claim ==> OnlyClaim(store.Contents(), id, fingerprint, operation))
      ensures store.reliable && r.Err? && !r.error.OciCertificate? ==> store.Contents() == old(store.Contents())
      ensures RemotesKept(old(remotes), remotes)
      ensures reliable && store.reliable ==> r.Ok? && Serves(remotes[r.value], fingerprint)
      ensures claim && r.Err? ==> Unidentified(store.Contents(), id, Some(fingerprint))
      ensures store.reliable && r.Err? && r.error.OciCertificate? ==>
                operation < |store.operations| && store.operations[operation].state == OCI_UPLOAD_FAILED
    {
      if claim {
        ClaimIsUnidentified(store.Contents(), id, fingerprint, operation);
      }
      var created := CreateImportedCertificate(id, fingerprint);
      if created.Err? {
        if created.error.OciCertificate? {
          var _ :- AdvanceClaim(id, fingerprint, operation, To(OCI_UPLOAD_FAILED), claim);
        }
        return Err(created.error);
      }
      var _ :- AdvanceClaim(id, fingerprint, operation, Change(OCI_RECONCILED, None, Some(created.value), None), claim);
      return created;
    }

    /** Log the intent, create one certificate and log its identity. */
    method Create(id: string, fingerprint: Fingerprint, ghost claim: bool)
      returns (r: Result<(nat, Ocid), Failure>)
      requires Valid() && fingerprint in issued && !OpenBootstrap(store.Contents(), id, fingerprint)
      requires claim ==> Unidentified(store.Contents(), id, Some(fingerprint))
      modifies store, this`remotes, this`next, this`creations
      ensures Valid() && OnlyTouches(id, old(store.Contents()), store.Contents())
      ensures old(creations) <= creations && |creations| <= |old(creations)| + 1
      ensures forall e | e in creations[|old(creations)|..] ::
                ProperCreation(e, id, fingerprint, !old(AnyConfirmed(store.Contents(), id)))
      ensures r.Ok? ==>
                var (operation, ocid) := r.value;
                && ocid in remotes && ocid !in old(remotes)
                && operation < |store.operations| && store.operations[operation].certificate == id
                && store.operations[operation].kind == BOOTSTRAP && store.operations[operation].ocid == Some(ocid)
                && !Terminal(store.operations[operation].state)
                && (claim ==> OnlyClaim(store.Contents(), id, fingerprint, operation))
      ensures RemotesKept(old(remotes), remotes)
      ensures reliable && store.reliable ==> r.Ok? && Serves(remotes[r.value.1], fingerprint)
      ensures claim && r.Err? ==> Unidentified(store.Contents(), id, Some(fingerprint))
    {
      ghost var before := store.Contents();
      var operation :- OpenClaim(id, fingerprint, claim);
      ghost var logged := store.Contents();
      var ocid := CreateLogged(id, fingerprint, operation, claim);
      OnlyTouchesThrough(id, before, logged, store.Contents());
      if ocid.Err? {
        return Err(ocid.error);
      }
      return Ok((operation, ocid.value));
    }

    /** Create one imported certificate for the issued material and verify what it serves. */
    method CreateAndVerify(id: string, fingerprint: Fingerprint, accepts: Acceptance, ghost claim: bool)
      returns (r: Result<(Ocid, nat), Failure>)
      requires Valid() && fingerprint in issued && !OpenBootstrap(store.Contents(), id, fingerprint)
      requires claim ==> Unidentified(store.Contents(), id, Some(fingerprint))
      modifies store, this`remotes, this`next, this`creations
      ensures Valid() && OnlyTouches(id, old(store.Contents()), store.Contents())
      ensures old(creations) <= creations && |creations| <= |old(creations)| + 1
      ensures forall e | e in creations[|old(creations)|..] ::
                ProperCreation(e, id, fingerprint, !old(AnyConfirmed(store.Contents(), id)))
      ensures claim && r.Ok? ==>
                AnyConfirmed(store.Contents(), id) && Identified(store.Contents(), id, Some(fingerprint), r.value.0)
      ensures RemotesKept(old(remotes), remotes)
      ensures reliable && store.reliable && accepts(fingerprint) ==> r.Ok?
      ensures claim && r.Err? ==> Unidentified(store.Contents(), id, Some(fingerprint))
      ensures r.Ok? ==>
                && r.value.0 !in old(remotes) && ServesAt(remotes, r.value.0, fingerprint, r.value.1)
                && StateOf(store.Contents(), id).localFingerprint == Some(fingerprint)
                && StateOf(store.Contents(), id).currentVersion == Some(r.value.1)
    {
      ghost var before := store.Contents();
      var creation :- Create(id, fingerprint, claim);
      var (operation, ocid) := creation;
      ghost var created := store.Contents();
      var version := VerifyCreated(id, fingerprint, operation, ocid, accepts, claim);
      OnlyTouchesThrough(id, before, created, store.Contents());
      if version.Err? {
        return Err(version.error);
      }
      return Ok((ocid, version.value));
    }

    /** Finish the interrupted bootstrap of this material if there is one, otherwise create a certificate for it. */
    method RecoverOrCreate(id: string, fingerprint: Fingerprint, accepts: Acceptance, ghost claim: bool)
      returns (r: Result<(Ocid, nat), Failure>)
      requires Valid() && fingerprint in issued
      requires claim ==> Unidentified(store.Contents(), id, Some(fingerprint))
      modifies store, this`remotes, this`next, this`creations
      ensures Valid() && OnlyTouches(id, old(store.Contents()), store.Contents())
      ensures old(creations) <= creations && |creations| <= |old(creations)| + 1
      ensures forall e | e in creations[|old(creations)|..] ::
                ProperCreation(e, id, fingerprint, !old(AnyConfirmed(store.Contents(), id)))
      ensures claim && r.Ok? ==>
                AnyConfirmed(store.Contents(), id) && Identified(store.Contents(), id, Some(fingerprint), r.value.0)
      ensures RemotesKept(old(remotes), remotes)
      ensures reliable && store.reliable && accepts(fingerprint)
              && (old(OpenBootstrap(store.Contents(), id, fingerprint)) ==>
                    old(Recoverable(store.Contents(), remotes, id, fingerprint))) ==>
                r.Ok?
      ensures claim && r.Err? ==> Unidentified(store.Contents(), id, Some(fingerprint))
      ensures r.Ok? ==>
                && ServesAt(remotes, r.value.0, fingerprint, r.value.1)
                && StateOf(store.Contents(), id).localFingerprint == Some(fingerprint)
                && StateOf(store.Contents(), id).currentVersion == Some(r.value.1)
    {
      var recovered :- RecoverBootstrap(id, fingerprint, accepts, claim);
      if recovered.Some? {
        return Ok(recovered.value);
      }
      r := CreateAndVerify(id, fingerprint, accepts, claim);
    }

    /** Issue for a certificate without an identity: what is issued claims none. */
    method IssueInitial(id: string) returns (r: Result<Fingerprint, Failure>)
      requires Valid()
      modifies this`local, this`issued
      ensures Valid() && (forall other | other != id :: Local(other) == old(Local(other)))
      ensures old(Unidentified(store.Contents(), id, Local(id))) ==> Unidentified(store.Contents(), id, Local(id))
      ensures r.Ok? ==> id in local && r.value == local[id] && r.value in issued
      ensures reliable && r.Err? ==> r.error.Issuance?
    {
      ghost var from := Local(id);
      r := Issue(id);
      if Unidentified(store.Contents(), id, from) && Local(id) != from {
        FreshUnidentified(store.Contents(), id, from, old(issued), local[id]);
      }
    }

    /** Issue the initial material, then recover or create one imported certificate for it. */
    method Bootstrap(entry: CertificateSet, settings: Settings) returns (r: Result<(Ocid, nat), Failure>)
      requires Valid()
      modifies store, this
      ensures Valid() && OnlyTouches(entry.id, old(store.Contents()), store.Contents())
      ensures forall id | id != entry.id :: Local(id) == old(Local(id))
      ensures old(creations) <= creations && |creations| <= |old(creations)| + 1
      ensures forall e | e in creations[|old(creations)|..] ::
                ProperCreation(e, entry.id, e.fingerprint, !old(AnyConfirmed(store.Contents(), entry.id)))
      ensures entry.ocid.Some? ==> r.Err? && store.Contents() == old(store.Contents()) && creations == old(creations)
      ensures old(Unidentified(store.Contents(), entry.id, Local(entry.id))) ==>
                && OneIdentity(store.Contents(), entry.id, Local(entry.id))
                && (r.Ok? ==> AnyConfirmed(store.Contents(), entry.id)
                              && Identified(store.Contents(), entry.id, Local(entry.id), r.value.0))
      ensures r.Ok? ==>
                && Local(entry.id).Some?
                && ServesAt(remotes, r.value.0, Local(entry.id).value, r.value.1)
                && StateOf(store.Contents(), entry.id).localFingerprint == Local(entry.id)
                && StateOf(store.Contents(), entry.id).currentVersion == Some(r.value.1)
      ensures RemotesKept(old(remotes), remotes)
      ensures Local(entry.id).Some? && !settings.accepts(Local(entry.id).value) ==>
                r.Err? && store.Contents() == old(store.Contents()) && creations == old(creations)
      // without faults it fails only for want of valid material, or over an interrupted one that cannot be finished
      ensures reliable && store.reliable && entry.ocid.None? && r.Err? ==>
                || r.error.Issuance?
                || (Local(entry.id).Some? && !settings.accepts(Local(entry.id).value))
                || (Local(entry.id).Some?
                    && OpenBootstrap(old(store.Contents()), entry.id, Local(entry.id).value)
                    && !Recoverable(old(store.Contents()), old(remotes), entry.id, Local(entry.id).value))
      // so its commands under the host lock begin in a sound state
      ensures r.Ok? ==> SoundUnder(entry.id, r.value.0)
    {
      if entry.ocid.Some? {
        return Err(PublicationFailed("bootstrap requires certificate_ocid to be absent"));
      }
      ghost var claim := Unidentified(store.Contents(), entry.id, Local(entry.id));
      var fingerprint :- IssueInitial(entry.id);
      if !settings.accepts(fingerprint) {
        return Err(Validation);
      }
      r := RecoverOrCreate(entry.id, fingerprint, settings.accepts, claim);
      if r.Ok? {
        SettledIsSound(remotes[r.value.0], store.Contents(), entry.id);
      }
    }

    /** Issue for a certificate with an identity: what is issued leaves it agreed. */
    method IssueNext(id: string, ocid: Ocid) returns (r: Result<Fingerprint, Failure>)
      requires Valid()
      modifies this`local, this`issued
      ensures Valid() && (forall other | other != id :: Local(other) == old(Local(other)))
      ensures old(AnyConfirmed(store.Contents(), id) && Identified(store.Contents(), id, Local(id), ocid)) ==>
                AnyConfirmed(store.Contents(), id) && Identified(store.Contents(), id, Local(id), ocid)
      ensures r.Ok? ==> Local(id) == Some(r.value) && r.value in issued
      ensures reliable && r.Err? ==> r.error.Issuance?
    {
      ghost var from, before := Local(id), store.Contents();
      r := Issue(id);
      if AnyConfirmed(before, id) && Identified(before, id, from, ocid) && Local(id) != from {
        FreshIdentified(before, id, from, old(issued), local[id], ocid);
      }
    }

    /** Issue when due, then publish the local material under a known identity. */
    method Renew(id: string, ocid: Ocid, settings: Settings) returns (r: Result<nat, Failure>)
      requires Valid() && ValidSettings(settings)
      modifies store, this
      ensures Valid() && OnlyTouches(id, old(store.Contents()), store.Contents())
      ensures forall other | other != id :: Local(other) == old(Local(other))
      ensures creations == old(creations)
      ensures old(AnyConfirmed(store.Contents(), id) && Identified(store.Contents(), id, Local(id), ocid)) ==>
                AnyConfirmed(store.Contents(), id) && Identified(store.Contents(), id, Local(id), ocid)
      ensures old(SoundUnder(id, ocid)) ==> SoundUnder(id, ocid)
      ensures forall other | other != ocid && other in old(remotes) ::
                other in remotes && remotes[other] == old(remotes)[other]
      // material that does not validate is not published, and a success is recorded as a renewal
      ensures Local(id).Some? && !settings.accepts(Local(id).value) ==>
                r.Err? && remotes == old(remotes) && store.Contents() == old(store.Contents())
      ensures r.Ok? ==> StateOf(store.Contents(), id).renewedAt.Some?
      ensures r.Ok? && settings.policy != AuditPolicy(Audits.ENFORCE, true) ==>
                Local(id).Some? && ServesAt(remotes, ocid, Local(id).value, r.value)
      // without faults it fails only for want of material, or where something stands in its way
      ensures reliable && store.reliable && r.Err? && !r.error.Issuance? ==>
                Local(id).Some? && !Attainable(id, ocid, Local(id), settings, old(store.Contents()), old(remotes))
    {
      var fingerprint :- IssueNext(id, ocid);
      var renewed :- CommandUnder(id, ocid, fingerprint, Publishing(RENEW), settings);
      return Ok(renewed.value);
    }

    /** Carry out one task under one identity, as the only writer of its certificate. */
    method Perform(service: CertificateService, c: Context, task: Task, settings: Settings)
      returns (r: Result<Option<nat>, Failure>, ghost last: Option<Live>)
      requires WellFormed(service.remote) && service.exclusive && ValidSettings(settings) && ValidTask(task)
      modifies service`remote, service`requests, store
      ensures WellFormed(service.remote)
      ensures Reaches(c, old(WorldAt(service, store, None)), WorldAt(service, store, last))
      ensures Confined(task, c, settings, store.Contents(), old(service.remote), service.remote)
      ensures r.Ok? ==>
                Accomplished(task, c, settings, store.Contents(), old(service.remote), service.remote, r.value)
      ensures service.reliable && store.reliable && c.ocid.Some?
              && Achievable(task, c, settings, old(store.Contents()), old(service.remote)) ==>
                r.Ok?
    {
      var publication := new PublicationService(service, store);
      var verdict, rollbackVerdict := settings.verdict(c.certificate), settings.rollbackVerdict(c.certificate);
      match task
      case Publishing(kind) =>
        var published, ending := publication.Publish(c, kind, settings.accepts, settings.promoteAttempts,
                                                     settings.readAttempts, settings.policy, verdict,
                                                     rollbackVerdict, settings.retention, settings.now);
        r, last := if published.Ok? then Ok(Some(published.value.version)) else Err(published.error), ending;
      case RollingBack =>
        PreviousIsUnique(service.remote);
        var rollback := new RollbackService(service, store);
        var restored, ending, sent := rollback.Rollback(c, settings.accepts, settings.readAttempts, Some(verdict));
        r, last := if restored.Ok? then Ok(Some(restored.value.version)) else Err(restored.error), ending;
      case Retaining =>
        var scheduled := publication.Retention(c, settings.retention, settings.now);
        r, last := if scheduled.Ok? then Ok(None) else Err(scheduled.error), None;
      case Auditing =>
        var audited, ending := publication.Audit(c, settings.accepts, verdict);
        r, last := if audited.Ok? then Ok(None) else Err(audited.error), ending;
    }

    /** Find the certificate of an identity and carry out its task there. */
    method CommandUnder(id: string, ocid: Ocid, fingerprint: Fingerprint, task: Task, settings: Settings)
      returns (r: Result<Option<nat>, Failure>)
      requires Valid() && ValidSettings(settings) && ValidTask(task) && fingerprint in issued
      modifies store, this`remotes
      ensures Valid() && OnlyTouches(id, old(store.Contents()), store.Contents())
      ensures old(AnyConfirmed(store.Contents(), id) && Identified(store.Contents(), id, Some(fingerprint), ocid)) ==>
                AnyConfirmed(store.Contents(), id) && Identified(store.Contents(), id, Some(fingerprint), ocid)
      ensures forall other | other != ocid && other in old(remotes) ::
                other in remotes && remotes[other] == old(remotes)[other]
      ensures old(SoundUnder(id, ocid)) ==> SoundUnder(id, ocid)
      ensures task.Publishing? && !settings.accepts(fingerprint) ==>
                r.Err? && remotes == old(remotes) && store.Contents() == old(store.Contents())
      ensures ocid !in old(remotes) ==> r.Err? && remotes == old(remotes) && store.Contents() == old(store.Contents())
      ensures ocid in old(remotes) ==>
                ocid in remotes && Confined(task, Context(id, Some(ocid), fingerprint), settings, store.Contents(),
                                            old(remotes)[ocid], remotes[ocid])
      ensures r.Ok? ==>
                Accomplished(task, Context(id, Some(ocid), fingerprint), settings, store.Contents(),
                             old(remotes)[ocid], remotes[ocid], r.value)
      ensures reliable && store.reliable && ocid in old(remotes)
              && Achievable(task, Context(id, Some(ocid), fingerprint), settings, old(store.Contents()),
                            old(remotes)[ocid]) ==>
                r.Ok?
    {
      if task.Publishing? && !settings.accepts(fingerprint) {
        return Err(Validation);
      }
      if ocid !in remotes {
        return Err(OciCertificate("OCI public bundle retrieval failed"));
      }
      var service := new CertificateService(remotes[ocid], true, if reliable then NoFaults else AnyFaults);
      var c := Context(id, Some(ocid), fingerprint);
      ghost var start, last := WorldAt(service, store, None), None;
      r, last := Perform(service, c, task, settings);
      CommandKeeps(c, start, WorldAt(service, store, last), issued);
      remotes := remotes[ocid := service.remote];
    }

    /** One set of the batch: renew under a configured or confirmed identity, bootstrap only without one. */
    method RenewOne(entry: CertificateSet, settings: Settings) returns (r: Result<nat, Failure>)
      requires Valid() && ValidSettings(settings)
      modifies store, this
      ensures Valid() && OnlyTouches(entry.id, old(store.Contents()), store.Contents())
      ensures forall id | id != entry.id :: Local(id) == old(Local(id))
      ensures entry.ocid.None? ==>
                KeepsIdentity(entry.id, old(store.Contents()), old(Local(entry.id)), store.Contents(), Local(entry.id))
      ensures old(creations) <= creations && (entry.ocid.Some? ==> creations == old(creations))
      ensures forall e | e in creations[|old(creations)|..] ::
                ProperCreation(e, entry.id, e.fingerprint, true)
      ensures forall ocid | ocid in old(remotes) && !MayServe(entry, old(store.Contents()), ocid) ::
                ocid in remotes && remotes[ocid] == old(remotes)[ocid]
      ensures r.Ok? && settings.policy != AuditPolicy(Audits.ENFORCE, true) ==>
                && Local(entry.id).Some?
                && (exists ocid: Ocid :: ServesAt(remotes, ocid, Local(entry.id).value, r.value))
                && (forall ocid: Ocid | Designates(entry, old(store.Contents()), ocid) ::
                      ServesAt(remotes, ocid, Local(entry.id).value, r.value))
      ensures reliable && store.reliable && r.Err? && !r.error.Issuance? ==>
                Hindered(entry, Local(entry.id), settings, old(store.Contents()), old(remotes))
    {
      var known := entry.ocid;
      if known.None? {
        known := store.ConfirmedOciCertificateOcid(entry.id);
        assert known.Some? ==>
            AnyConfirmed(store.Contents(), entry.id) && MayServe(entry, store.Contents(), known.value);
      }
      if known.None? {
        var bootstrapped :- Bootstrap(entry, settings);
        return Ok(bootstrapped.1);
      }
      r := Renew(entry.id, known.value, settings);
    }

    /** Whether the batch goes on after this failure. */
    method IsContained(error: Failure) returns (contained: bool)
      ensures contained <==> Renewable(error)
    {
      match error
      case AuditUnsuccessful | Validation | OciCertificate(_) | PublicationFailed(_) | Reconciliation(_)
         | RollbackFailed(_) | Issuance =>
        return true;
      case _ =>
        return false;
    }

    /** How far a batch has come: what it kept, did and reported, with one result or failure for each set so far. */
    ghost predicate BatchStands(sets: seq<CertificateSet>, i: nat, settings: Settings, first: Tables,
                                from: map<string, Fingerprint>, t0: map<Ocid, Remote>, created: seq<Creation>,
                                publications: seq<(string, nat)>, failures: seq<(string, Failure)>)
      requires i <= |sets|
      reads this, store
    {
      && BatchKeeps(sets, first, from, store.Contents(), local) && ProperCreations(created, creations)
      && BatchServes(sets, i, first, t0, store.Contents(), remotes, local, publications,
                     settings.policy == AuditPolicy(Audits.ENFORCE, true))
      && Accounts(sets[..i], publications, failures)
      && (reliable && store.reliable ==> FailuresExplained(sets, i, failures, settings, first, t0, local))
    }

    /** Wherever a batch ends, this is what it did. */
    lemma BatchEnds(sets: seq<CertificateSet>, i: nat, settings: Settings, first: Tables,
                    from: map<string, Fingerprint>, t0: map<Ocid, Remote>, created: seq<Creation>,
                    publications: seq<(string, nat)>, failures: seq<(string, Failure)>)
      requires i <= |sets| && BatchStands(sets, i, settings, first, from, t0, created, publications, failures)
      ensures BatchKeeps(sets, first, from, store.Contents(), local) && ProperCreations(created, creations)
      ensures StrangersKept(sets, first, t0, remotes)
      ensures reliable && store.reliable ==>
                FailuresExplained(sets, |sets|, failures, settings, first, t0, local)
      ensures i == |sets| ==>
                && Accounts(sets, publications, failures)
                && (settings.policy != AuditPolicy(Audits.ENFORCE, true) ==>
                      ReportsHold(sets, first, publications, remotes, local))
    {
      forall k | 0 <= k < i ensures sets[..i][k] == sets[k] {
      }
      assert i == |sets| ==> sets[..i] == sets;
    }

    /** The next set of a batch. */
    method RenewNext(sets: seq<CertificateSet>, i: nat, settings: Settings, publications: seq<(string, nat)>,
                     failures: seq<(string, Failure)>, ghost first: Tables, ghost from: map<string, Fingerprint>,
                     ghost t0: map<Ocid, Remote>, ghost created: seq<Creation>)
      returns (failure: Option<Failure>, reported: seq<(string, nat)>, failed: seq<(string, Failure)>)
      requires Valid() && ValidSettings(settings) && DistinctSets(sets) && i < |sets|
      requires BatchStands(sets, i, settings, first, from, t0, created, publications, failures)
      modifies store, this
      ensures Valid() && BatchStands(sets, i + 1, settings, first, from, t0, created, reported, failed)
      ensures failed == if failure.Some? then failures + [(sets[i].id, failure.value)] else failures
    {
      ghost var before, material, served, asked := store.Contents(), local, remotes, creations;
      var renewed := RenewOne(sets[i], settings);
      if reliable && store.reliable && renewed.Err? && !renewed.error.Issuance? {
        OwnKept(sets, i, first, t0, served);
        HinderedBefore(sets[i], Local(sets[i].id), settings, first, Own(sets, i, first, t0), before, served);
      }
      assert forall id | id != sets[i].id :: Local(id) == MaterialOf(material, id);
      assert creations[|created|..] == asked[|created|..] + creations[|asked|..];
      AccountsOneMore(sets, i, publications, failures);
      BatchGoesOn(sets, i, first, from, before, material, store.Contents(), local);
      BatchServesOn(sets, i, first, t0, before, served, material, store.Contents(), remotes, local, publications,
                    if renewed.Ok? then Some(renewed.value) else None,
                    settings.policy == AuditPolicy(Audits.ENFORCE, true));
      if reliable && store.reliable {
        FailuresStayExplained(sets, i, failures, if renewed.Err? then Some(renewed.error) else None, settings,
                              first, t0, material, local);
      }
      match renewed
      case Ok(version) => return None, publications + [(sets[i].id, version)], failures;
      case Err(error) => return Some(error), publications, failures + [(sets[i].id, error)];
    }

    /** Attempt every set in order; a failure it contains never skips a later one, any other ends the batch. */
    method RenewAll(sets: seq<CertificateSet>, settings: Settings)
      returns (r: Result<seq<(string, nat)>, Failure>, failures: seq<(string, Failure)>)
      requires Valid() && ValidSettings(settings) && DistinctSets(sets)
      modifies store, this
      ensures Valid() && BatchKeeps(sets, old(store.Contents()), old(local), store.Contents(), local)
      ensures ProperCreations(old(creations), creations)
      ensures StrangersKept(sets, old(store.Contents()), old(remotes), remotes)
      ensures r.Ok? ==> Accounts(sets, r.value, failures)
      ensures r.Ok? && settings.policy != AuditPolicy(Audits.ENFORCE, true) ==>
                ReportsHold(sets, old(store.Contents()), r.value, remotes, local)
      ensures r.Ok? ==> forall f | f in failures :: Renewable(f.1)
      ensures r.Err? ==> !Renewable(r.error) && failures != [] && failures[|failures| - 1].1 == r.error
      // without faults a set fails, or ends the batch, only where something hindered it from the start
      ensures reliable && store.reliable ==>
                FailuresExplained(sets, |sets|, failures, settings, old(store.Contents()), old(remotes), local)
    {
      var publications: seq<(string, nat)> := [];
      ghost var first, from, t0, created := store.Contents(), local, remotes, creations;
      failures := [];
      for i := 0 to |sets|
        invariant Valid() && BatchStands(sets, i, settings, first, from, t0, created, publications, failures)
        invariant forall f | f in failures :: Renewable(f.1)
      {
        var failure: Option<Failure>;
        failure, publications, failures :=
          RenewNext(sets, i, settings, publications, failures, first, from, t0, created);
        if failure.Some? {
          var contained := IsContained(failure.value);
          if !contained {
            BatchEnds(sets, i + 1, settings, first, from, t0, created, publications, failures);
            return Err(failure.value), failures;
          }
        }
      }
      BatchEnds(sets, |sets|, settings, first, from, t0, created, publications, failures);
      return Ok(publications), failures;
    }

    /** Carry out one command, whatever becomes of it. */
    method Command(command: HostCommand, settings: Settings)
      requires Valid() && ValidSettings(settings) && ValidCommand(command)
      modifies store, this
      ensures Valid() && Absorbs(old(store.Contents()), store.Contents())
    {
      match command
      case Bootstrapping(entry) =>
        var bootstrapped := Bootstrap(entry, settings);
      case RenewingAll(sets) =>
        var renewed, failures := RenewAll(sets, settings);
      case Renewing(id, ocid) =>
        var renewed := Renew(id, ocid, settings);
      case Serving(id, ocid, task) =>
        if id in local {
          var served := CommandUnder(id, ocid, local[id], task, settings);
        } else if !task.Publishing? {
          // no material of this host: none of it can enter the log
          issued := issued + {""};
          var served := CommandUnder(id, ocid, "", task, settings);
        }
    }

    /**
     Commands of every kind on every certificate, one after another under the
     host lock, each ended, failed or dead: between any two points of the series
     a completed operation is the same row, and completed means terminal.
     */
    method Serve(commands: seq<(HostCommand, Settings)>) returns (ghost history: seq<Tables>)
      requires Valid()
      requires forall command | command in commands :: ValidCommand(command.0) && ValidSettings(command.1)
      modifies store, this
      ensures Valid() && |history| == |commands| + 1
      ensures history[0] == old(store.Contents()) && history[|commands|] == store.Contents()
      ensures forall i | 0 <= i < |history| :: Consistent(history[i])
      ensures forall i, j | 0 <= i <= j < |history| :: Absorbs(history[i], history[j])
    {
      history := [store.Contents()];
      for k := 0 to |commands|
        invariant Valid() && |history| == k + 1
        invariant history[0] == old(store.Contents()) && history[k] == store.Contents()
        invariant forall i | 0 <= i < |history| :: Consistent(history[i])
        invariant forall i, j | 0 <= i <= j < |history| :: Absorbs(history[i], history[j])
      {
        ghost var before := store.Contents();
        assert commands[k] in commands;
        Command(commands[k].0, commands[k].1);
        forall i | 0 <= i < |history| ensures Absorbs(history[i], store.Contents()) {
          AbsorbsThrough(history[i], before, store.Contents());
        }
        history := history + [store.Contents()];
      }
    }
  }
}
