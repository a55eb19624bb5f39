/**
 The durable operation log and certificate state.  Each SQL statement is a
 function on the tables; class StateStore applies it in place.  The index of a
 row in `operations` is its operation id, so a new row never reuses one.
 */
module Stores {
  import opened Options
  import opened Remotes
  import opened Failures

  datatype OperationType = BOOTSTRAP | RENEW | PUBLISH | RECONCILE | AUDIT | ROLLBACK

  datatype OperationState =
    | DISCOVERED | CONFIG_VALIDATED | HTTP01_PREFLIGHT_OK | ACME_COMPLETED | LOCAL_CERT_VALIDATED
    | OCI_RECONCILED | OCI_PENDING_UPLOADED | OCI_PENDING_VERIFIED | OCI_CURRENT_CONFIRMED
    | AUDIT_PENDING | AUDIT_SUCCESS
    | COMPLETED | CONFIG_FAILED | HTTP01_PREFLIGHT_FAILED | ACME_FAILED | LOCAL_VALIDATION_FAILED
    | OCI_UPLOAD_FAILED | OCI_VERSION_FAILED | OCI_PROMOTION_FAILED | AUDIT_FAILED | ROLLBACK_FAILED
    | MANUAL_INTERVENTION_REQUIRED

  predicate Terminal(state: OperationState) {
    match state
    case COMPLETED | CONFIG_FAILED | HTTP01_PREFLIGHT_FAILED | ACME_FAILED | LOCAL_VALIDATION_FAILED
       | OCI_UPLOAD_FAILED | OCI_VERSION_FAILED | OCI_PROMOTION_FAILED | AUDIT_FAILED | ROLLBACK_FAILED
       | MANUAL_INTERVENTION_REQUIRED => true
    case _ => false
  }

  datatype Row = Row(
    certificate: string,
    kind: OperationType,
    state: OperationState,
    fingerprint: Option<Fingerprint>,
    ocid: Option<Ocid>,
    version: Option<nat>,
    error: Option<string>,
    completedAt: Option<int>)

  datatype CertificateRow = CertificateRow(
    localFingerprint: Option<Fingerprint>,
    currentFingerprint: Option<Fingerprint>,
    currentVersion: Option<nat>,
    renewedAt: Option<int>,
    publishedAt: Option<int>,
    auditedAt: Option<int>)

  datatype Tables = Tables(operations: seq<Row>, certificates: map<string, CertificateRow>)

  function Coalesce<T>(given: Option<T>, kept: Option<T>): Option<T> {
    if given.Some? then given else kept
  }

  predicate Active(row: Row, certificate: string) {
    row.certificate == certificate && !Terminal(row.state)
  }

  // ----- the statements -----

  function Started(t: Tables, certificate: string, kind: OperationType,
                          fingerprint: Option<Fingerprint>, ocid: Option<Ocid>): Tables
  {
    t.(operations := t.operations + [Row(certificate, kind, DISCOVERED, fingerprint, ocid, None, None, None)])
  }

  datatype Change = Change(state: OperationState, version: Option<nat>, ocid: Option<Ocid>, error: Option<string>)

  function To(state: OperationState): Change { Change(state, None, None, None) }

  function At(state: OperationState, version: nat): Change { Change(state, Some(version), None, None) }

  function Transitioned(t: Tables, id: nat, change: Change, now: int): Tables
    requires id < |t.operations|
  {
    var row := t.operations[id];
    t.(operations := t.operations[id := row.(
      state := change.state,
      version := Coalesce(change.version, row.version),
      ocid := Coalesce(change.ocid, row.ocid),
      error := change.error,
      completedAt := if Terminal(change.state) then Some(now) else None)])
  }

  predicate Reconcilable(row: Row, certificate: string, fingerprint: Fingerprint) {
    Active(row, certificate) && row.fingerprint == Some(fingerprint)
  }

  /** Close interrupted operations once CURRENT proves the same local material won. */
  function ReconciledClosed(t: Tables, certificate: string, fingerprint: Fingerprint, version: nat,
                              excluding: nat, now: int): Tables
  {
    t.(operations := seq(|t.operations|, i requires 0 <= i < |t.operations| =>
      var row := t.operations[i];
      if Reconcilable(row, certificate, fingerprint) && i != excluding
      then row.(state := COMPLETED, version := Some(version), error := None, completedAt := Some(now))
      else row))
  }

  predicate StaleAudit(row: Row, certificate: string) {
    row.certificate == certificate && row.kind == AUDIT && row.state == AUDIT_PENDING
  }

  /** Close audit attempts a crash left behind, never the one that just succeeded. */
  function AuditsClosed(t: Tables, certificate: string, excluding: nat, now: int): Tables {
    t.(operations := seq(|t.operations|, i requires 0 <= i < |t.operations| =>
      var row := t.operations[i];
      if StaleAudit(row, certificate) && i != excluding
      then row.(state := COMPLETED, error := None, completedAt := Some(now))
      else row))
  }

  function StateOf(t: Tables, certificate: string): CertificateRow {
    if certificate in t.certificates then t.certificates[certificate]
    else CertificateRow(None, None, None, None, None, None)
  }

  function PublicationRecorded(t: Tables, certificate: string, local: Fingerprint,
                                    current: Fingerprint, version: nat, now: int): Tables
  {
    t.(certificates := t.certificates[certificate := StateOf(t, certificate).(
      localFingerprint := Some(local), currentFingerprint := Some(current),
      currentVersion := Some(version), publishedAt := Some(now))])
  }

  function RollbackRecorded(t: Tables, certificate: string, current: Fingerprint, version: nat): Tables {
    t.(certificates := t.certificates[certificate := StateOf(t, certificate).(
      currentFingerprint := Some(current), currentVersion := Some(version))])
  }

  function RenewalRecorded(t: Tables, certificate: string, now: int): Tables {
    t.(certificates := t.certificates[certificate := StateOf(t, certificate).(renewedAt := Some(now))])
  }

  function AuditRecorded(t: Tables, certificate: string, now: int): Tables {
    t.(certificates := t.certificates[certificate := StateOf(t, certificate).(auditedAt := Some(now))])
  }

  // ----- the queries -----

  function ActiveOperations(t: Tables, certificate: string): (ids: set<nat>) {
    set i | 0 <= i < |t.operations| && Active(t.operations[i], certificate)
  }

  function ReferencedVersions(t: Tables, certificate: string): set<nat> {
    set i | i in ActiveOperations(t, certificate) && t.operations[i].version.Some?
      :: t.operations[i].version.value
  }

  predicate Confirmed(row: Row, certificate: string) {
    row.certificate == certificate && row.state == COMPLETED && row.ocid.Some?
  }

  /** A row the query for the last confirmed identity may return: none completed later. */
  predicate LastConfirmed(t: Tables, certificate: string, i: nat) {
    && i < |t.operations| && Confirmed(t.operations[i], certificate)
    && forall j | 0 <= j < |t.operations| && Confirmed(t.operations[j], certificate)
                  && t.operations[j].completedAt.Some? ::
         t.operations[i].completedAt.Some? && t.operations[j].completedAt.value <= t.operations[i].completedAt.value
  }

  /** The order of a descending sort: a row without a completion time comes last. */
  predicate CompletedAfter(row: Row, other: Row) {
    row.completedAt.Some? && (other.completedAt.None? || other.completedAt.value < row.completedAt.value)
  }

  // ----- what every statement keeps -----

  /** `completed_at` is set exactly on terminal rows; audits carry neither fingerprint nor version. */
  predicate Consistent(t: Tables) {
    forall i | 0 <= i < |t.operations| ::
      && (t.operations[i].completedAt.Some? <==> Terminal(t.operations[i].state))
      && (t.operations[i].kind == AUDIT ==>
            t.operations[i].version.None? && t.operations[i].fingerprint.None?)
  }

  /** The rows a query for active operations returns are exactly the uncompleted ones. */
  lemma ActiveIsUncompleted(t: Tables, certificate: string)
    requires Consistent(t)
    ensures ActiveOperations(t, certificate) ==
            set i | 0 <= i < |t.operations|
                    && t.operations[i].certificate == certificate && t.operations[i].completedAt.None?
  {
    forall i | 0 <= i < |t.operations| ensures t.operations[i].completedAt.Some? <==> Terminal(t.operations[i].state) {
    }
  }

  /** Rows keep their place and what they were started with, and a terminal row never changes again. */
  predicate Absorbs(before: Tables, after: Tables) {
    && |before.operations| <= |after.operations|
    && (forall i | 0 <= i < |before.operations| ::
          && after.operations[i].certificate == before.operations[i].certificate
          && after.operations[i].kind == before.operations[i].kind
          && after.operations[i].fingerprint == before.operations[i].fingerprint
          && (Terminal(before.operations[i].state) ==> after.operations[i] == before.operations[i]))
    && (Consistent(before) ==> Consistent(after))
  }

  /** Besides, nothing that belongs to another certificate changed. */
  ghost predicate OnlyTouches(certificate: string, before: Tables, after: Tables) {
    && Absorbs(before, after)
    && (forall i | 0 <= i < |before.operations| && before.operations[i].certificate != certificate ::
          after.operations[i] == before.operations[i])
    && (forall i | |before.operations| <= i < |after.operations| :: after.operations[i].certificate == certificate)
    && (forall k | k != certificate ::
          && (k in before.certificates <==> k in after.certificates)
          && (k in before.certificates ==> after.certificates[k] == before.certificates[k]))
  }

  /** Nothing that belongs to this certificate changed, whatever was done to others. */
  predicate Spared(certificate: string, before: Tables, after: Tables) {
    && Absorbs(before, after)
    && (forall i | 0 <= i < |before.operations| && before.operations[i].certificate == certificate ::
          after.operations[i] == before.operations[i])
    && (forall i | |before.operations| <= i < |after.operations| :: after.operations[i].certificate != certificate)
    && StateOf(after, certificate) == StateOf(before, certificate)
  }

  lemma AbsorbsThrough(first: Tables, middle: Tables, last: Tables)
    requires Absorbs(first, middle) && Absorbs(middle, last)
    ensures Absorbs(first, last)
  {
  }

  lemma OnlyTouchesThrough(certificate: string, first: Tables, middle: Tables, last: Tables)
    requires OnlyTouches(certificate, first, middle) && OnlyTouches(certificate, middle, last)
    ensures OnlyTouches(certificate, first, last)
  {
    AbsorbsThrough(first, middle, last);
  }

  lemma SparedThrough(certificate: string, first: Tables, middle: Tables, last: Tables)
    requires Spared(certificate, first, middle) && Spared(certificate, middle, last)
    ensures Spared(certificate, first, last)
  {
    AbsorbsThrough(first, middle, last);
  }

  lemma OthersAreSpared(certificate: string, other: string, before: Tables, after: Tables)
    requires OnlyTouches(certificate, before, after) && other != certificate
    ensures Spared(other, before, after)
  {
  }

  /** Starting an operation, and moving an open one, touch one certificate and absorb. */
  lemma LogStatementsTouch(t: Tables, certificate: string, kind: OperationType,
                           fingerprint: Option<Fingerprint>, ocid: Option<Ocid>, id: nat, change: Change, now: int)
    requires kind == AUDIT ==> fingerprint.None?
    requires id < |t.operations| ==>
               && Active(t.operations[id], certificate)
               && (t.operations[id].kind == AUDIT ==> change.version.None?)
    ensures OnlyTouches(certificate, t, Started(t, certificate, kind, fingerprint, ocid))
    ensures id < |t.operations| ==> OnlyTouches(certificate, t, Transitioned(t, id, change, now))
  {
  }

  /** So do both bulk closers. */
  lemma ClosersTouch(t: Tables, certificate: string, fingerprint: Fingerprint, version: nat, excluding: nat, now: int)
    ensures OnlyTouches(certificate, t, ReconciledClosed(t, certificate, fingerprint, version, excluding, now))
    ensures OnlyTouches(certificate, t, AuditsClosed(t, certificate, excluding, now))
  {
    var closed := ReconciledClosed(t, certificate, fingerprint, version, excluding, now);
    if Consistent(t) {
      forall i | 0 <= i < |t.operations|
        ensures closed.operations[i].kind == AUDIT ==> closed.operations[i] == t.operations[i]
      {
      }
    }
  }

  /** And the statements on certificate state leave every operation alone. */
  lemma RecordsTouch(t: Tables, certificate: string, local: Fingerprint, current: Fingerprint, version: nat, now: int)
    ensures OnlyTouches(certificate, t, PublicationRecorded(t, certificate, local, current, version, now))
    ensures OnlyTouches(certificate, t, RollbackRecorded(t, certificate, current, version))
    ensures OnlyTouches(certificate, t, RenewalRecorded(t, certificate, now))
    ensures OnlyTouches(certificate, t, AuditRecorded(t, certificate, now))
  {
  }

  /** How a statement can fail: the process dies, SQLite raises, or there is no such row. */
  predicate OfStore(f: Failure) {
    f.Crashed? || f.Database? || f.MissingOperation?
  }

  /** The SQLite store; a statement that fails leaves every table as it was. */
  class StateStore {
    var operations: seq<Row>
    var certificates: map<string, CertificateRow>
    var clock: int
    const reliable: bool

    /** Every transition that was applied, in order. */
    ghost var journal: seq<(nat, OperationState)>

    constructor (reliable: bool)
      ensures Contents() == Tables([], map[]) && this.reliable == reliable && journal == []
    {
      this.operations, this.certificates, this.clock := [], map[], 0;
      this.reliable, this.journal := reliable, [];
    }

    /** A later process opens the database an earlier one left. */
    constructor Reopen(tables: Tables, reliable: bool)
      ensures Contents() == tables && this.reliable == reliable && journal == []
    {
      this.operations, this.certificates, this.clock := tables.operations, tables.certificates, 0;
      this.reliable, this.journal := reliable, [];
    }

    function Contents(): Tables
      reads this
    {
      Tables(operations, certificates)
    }

    /** Read the clock; report whether the coming statement goes through. */
    method Attempt() returns (r: Result<(), Failure>)
      modifies this`clock
      ensures r.Err? ==> OfStore(r.error)
      ensures reliable ==> r.Ok?
    {
      var now: int := *;
      var fails: bool := *;
      clock := now;
      if fails && !reliable {
        var dies: bool := *;
        return Err(if dies then Crashed else Database);
      }
      return Ok(());
    }

    method StartOperation(certificate: string, kind: OperationType,
                          fingerprint: Option<Fingerprint>, ocid: Option<Ocid>)
      returns (r: Result<nat, Failure>)
      modifies this
      ensures r.Ok? ==> r.value == |old(operations)|
      ensures Contents() ==
              if r.Ok? then Started(old(Contents()), certificate, kind, fingerprint, ocid) else old(Contents())
      ensures journal == old(journal)
      ensures r.Err? ==> OfStore(r.error)
      ensures reliable ==> r.Ok?
    {
      var _ :- Attempt();
      operations := operations + [Row(certificate, kind, DISCOVERED, fingerprint, ocid, None, None, None)];
      return Ok(|operations| - 1);
    }

    method Transition(id: nat, change: Change) returns (r: Result<(), Failure>)
      modifies this
      ensures r.Ok? ==> id < |old(operations)|
      ensures Contents() ==
              if r.Ok? then Transitioned(old(Contents()), id, change, clock) else old(Contents())
      ensures journal == old(journal) + if r.Ok? then [(id, change.state)] else []
      ensures r.Ok? ==>
                (operations[id].completedAt.Some? <==>
                   change.state in {COMPLETED, CONFIG_FAILED, HTTP01_PREFLIGHT_FAILED, ACME_FAILED,
                                    LOCAL_VALIDATION_FAILED, OCI_UPLOAD_FAILED, OCI_VERSION_FAILED,
                                    OCI_PROMOTION_FAILED, AUDIT_FAILED, ROLLBACK_FAILED,
                                    MANUAL_INTERVENTION_REQUIRED})
      ensures r.Err? ==> OfStore(r.error)
      ensures reliable && id < |old(operations)| ==> r.Ok?
    {
      var _ :- Attempt();
      if id >= |operations| {
        return Err(MissingOperation);
      }
      var row := operations[id];
      var completedAt := if Terminal(change.state) then Some(clock) else None;
      operations := operations[id := row.(
        state := change.state,
        version := Coalesce(change.version, row.version),
        ocid := Coalesce(change.ocid, row.ocid),
        error := change.error,
        completedAt := completedAt)];
      journal := journal + [(id, change.state)];
      return Ok(());
    }

    method CompleteReconciledOperations(certificate: string, fingerprint: Fingerprint, version: nat, excluding: nat)
      returns (r: Result<nat, Failure>)
      modifies this
      ensures Contents() ==
              if r.Ok? then ReconciledClosed(old(Contents()), certificate, fingerprint, version, excluding, clock)
              else old(Contents())
      ensures r.Ok? ==>
                r.value == |set i | 0 <= i < |old(operations)| && i != excluding
                                    && Reconcilable(old(operations)[i], certificate, fingerprint)|
      ensures journal == old(journal)
      ensures r.Err? ==> OfStore(r.error)
      ensures reliable ==> r.Ok?
    {
      var _ :- Attempt();
      var closed := set i | 0 <= i < |operations| && i != excluding
                            && Reconcilable(operations[i], certificate, fingerprint);
      operations := ReconciledClosed(Contents(), certificate, fingerprint, version, excluding, clock).operations;
      return Ok(|closed|);
    }

    method CompleteInterruptedAudits(certificate: string, excluding: nat) returns (r: Result<nat, Failure>)
      modifies this
      ensures Contents() ==
              if r.Ok? then AuditsClosed(old(Contents()), certificate, excluding, clock) else old(Contents())
      ensures r.Ok? ==>
                r.value == |set i | 0 <= i < |old(operations)| && i != excluding
                                    && StaleAudit(old(operations)[i], certificate)|
      ensures journal == old(journal)
      ensures r.Err? ==> OfStore(r.error)
      ensures reliable ==> r.Ok?
    {
      var _ :- Attempt();
      var closed := set i | 0 <= i < |operations| && i != excluding && StaleAudit(operations[i], certificate);
      operations := AuditsClosed(Contents(), certificate, excluding, clock).operations;
      return Ok(|closed|);
    }

    method RecordPublicationSuccess(certificate: string, local: Fingerprint, current: Fingerprint, version: nat)
      returns (r: Result<(), Failure>)
      modifies this
      ensures Contents() ==
              if r.Ok? then PublicationRecorded(old(Contents()), certificate, local, current, version, clock)
              else old(Contents())
      ensures journal == old(journal)
      ensures r.Err? ==> OfStore(r.error)
      ensures reliable ==> r.Ok?
    {
      var _ :- Attempt();
      certificates := PublicationRecorded(Contents(), certificate, local, current, version, clock).certificates;
      return Ok(());
    }

    method RecordRollbackSuccess(certificate: string, current: Fingerprint, version: nat)
      returns (r: Result<(), Failure>)
      modifies this
      ensures Contents() ==
              if r.Ok? then RollbackRecorded(old(Contents()), certificate, current, version) else old(Contents())
      ensures journal == old(journal)
      ensures r.Err? ==> OfStore(r.error)
      ensures reliable ==> r.Ok?
    {
      var _ :- Attempt();
      certificates := RollbackRecorded(Contents(), certificate, current, version).certificates;
      return Ok(());
    }

    method RecordRenewalSuccess(certificate: string) returns (r: Result<(), Failure>)
      modifies this
      ensures Contents() ==
              if r.Ok? then RenewalRecorded(old(Contents()), certificate, clock) else old(Contents())
      ensures journal == old(journal)
      ensures r.Err? ==> OfStore(r.error)
      ensures reliable ==> r.Ok?
    {
      var _ :- Attempt();
      certificates := RenewalRecorded(Contents(), certificate, clock).certificates;
      return Ok(());
    }

    method RecordAuditSuccess(certificate: string) returns (r: Result<(), Failure>)
      modifies this
      ensures Contents() ==
              if r.Ok? then AuditRecorded(old(Contents()), certificate, clock) else old(Contents())
      ensures journal == old(journal)
      ensures r.Err? ==> OfStore(r.error)
      ensures reliable ==> r.Ok?
    {
      var _ :- Attempt();
      certificates := AuditRecorded(Contents(), certificate, clock).certificates;
      return Ok(());
    }

    /** The nonterminal operations of a certificate, oldest first. */
    method ActiveIds(certificate: string) returns (ids: seq<nat>)
      ensures forall i :: i in ids <==> i in ActiveOperations(Contents(), certificate)
      ensures forall a, b | 0 <= a < b < |ids| :: ids[a] < ids[b]
    {
      ids := [];
      for i := 0 to |operations|
        invariant forall k :: k in ids <==> 0 <= k < i && Active(operations[k], certificate)
        invariant forall a | 0 <= a < |ids| :: ids[a] < i
        invariant forall a, b | 0 <= a < b < |ids| :: ids[a] < ids[b]
      {
        if Active(operations[i], certificate) {
          ids := ids + [i];
        }
      }
    }

    /** The identity of the certificate row completed last, if any row confirmed one. */
    method ConfirmedOciCertificateOcid(certificate: string) returns (ocid: Option<Ocid>)
      ensures ocid.None? <==> forall i | 0 <= i < |operations| :: !Confirmed(operations[i], certificate)
      ensures ocid.Some? ==>
                exists i: nat :: LastConfirmed(Contents(), certificate, i) && operations[i].ocid == ocid
    {
      var best: Option<nat> := None;
      for i := 0 to |operations|
        invariant best.None? ==> forall j | 0 <= j < i :: !Confirmed(operations[j], certificate)
        invariant best.Some? ==>
          && best.value < i && Confirmed(operations[best.value], certificate)
          && forall j | 0 <= j < i && Confirmed(operations[j], certificate) ::
               !CompletedAfter(operations[j], operations[best.value])
      {
        if Confirmed(operations[i], certificate)
           && (best.None? || CompletedAfter(operations[i], operations[best.value]))
        {
          best := Some(i);
        }
      }
      if best.None? {
        return None;
      }
      assert LastConfirmed(Contents(), certificate, best.value);
      return operations[best.value].ocid;
    }
  }
}
