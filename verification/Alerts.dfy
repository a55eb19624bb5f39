/** Alert delivery with a durable cooldown per event and certificate. */
module Alerts {
  import opened Options

  /** Times are in microseconds; the store keeps whole seconds. */
  const SECOND := 1_000_000
  const MINUTE := 60 * SECOND

  function WholeSeconds(t: int): (s: int)
    ensures s <= t < s + 1_000_000 && s % 1_000_000 == 0
  {
    t - t % SECOND
  }

  /** `sentAt` is absent when the stored text is no timestamp. */
  datatype Alert = Alert(sentAt: Option<int>, status: string)

  datatype Key = Key(event: string, certificate: string)

  /** What one attempt to post meets, and when. */
  datatype Response = Answered(status: nat, at: int) | ClientError | OtherError

  datatype NotifyError = NoCredential | NonSuccess | DeliveryFailed | Unexpected

  /** A delivery that was recorded: when the endpoint accepted it and when the clock was read to record it. */
  datatype Delivery = Delivery(key: Key, status: string, at: int, recordedAt: int)

  datatype Notice = Sent | Suppressed | Raised(error: NotifyError)

  predicate Success(status: nat) { 200 <= status < 300 }

  predicate Retried(status: nat) { status >= 500 || status == 429 }

  /** The log's last delivery of a key, if there was one. */
  function LastOf(log: seq<Delivery>, key: Key): Option<Delivery> {
    if log == [] then None
    else if log[|log| - 1].key == key then Some(log[|log| - 1])
    else LastOf(log[..|log| - 1], key)
  }

  /** No later delivery of the key follows the i-th. */
  predicate LastBefore(log: seq<Delivery>, i: nat, j: nat) {
    i < j <= |log| && forall k | i < k < j :: log[k].key != log[i].key
  }

  lemma {:induction false} LastIsLast(log: seq<Delivery>, i: nat)
    requires LastBefore(log, i, |log|)
    ensures LastOf(log, log[i].key) == Some(log[i])
  {
    if i < |log| - 1 {
      var shorter := log[..|log| - 1];
      assert LastBefore(shorter, i, |shorter|) by {
        forall k | i < k < |shorter| ensures shorter[k].key != shorter[i].key {
          assert log[k].key != log[i].key;
        }
      }
      LastIsLast(shorter, i);
    }
  }

  /** Consecutive deliveries of a key with unchanged status are more than the interval less a second apart. */
  ghost predicate Spaced(log: seq<Delivery>, interval: int) {
    forall i: nat, j: nat | j < |log| && LastBefore(log, i, j)
                            && log[i].key == log[j].key && log[i].status == log[j].status ::
      log[j].at - log[i].at > interval - SECOND
  }

  class Notifier {
    const enabled: bool
    const credential: bool
    const interval: nat
    var alerts: map<Key, Alert>
    ghost var log: seq<Delivery>

    constructor (enabled: bool, credential: bool, minutes: nat)
      ensures Valid() && this.enabled == enabled && this.credential == credential
      ensures interval == minutes * 60_000_000 && alerts == map[] && log == []
    {
      this.enabled, this.credential, this.interval := enabled, credential, minutes * MINUTE;
      alerts, log := map[], [];
    }

    /** The table remembers the last delivery of every key, in whole seconds. */
    ghost predicate Valid()
      reads this
    {
      && Spaced(log, interval)
      && (forall d | d in log :: d.at <= d.recordedAt)
      && forall key ::
           match LastOf(log, key)
           case None => key !in alerts
           case Some(d) => key in alerts && alerts[key] == Alert(Some(WholeSeconds(d.recordedAt)), d.status)
    }

    function ShouldSend(key: Key, status: string, now: int): bool
      reads this
    {
      key !in alerts || alerts[key].status != status || alerts[key].sentAt.None?
      || alerts[key].sentAt.value < now - interval
    }

    lemma SpacingExtends(d: Delivery, checkedAt: int)
      requires Valid() && ShouldSend(d.key, d.status, checkedAt) && checkedAt <= d.at
      ensures Spaced(log + [d], interval)
    {
      var longer := log + [d];
      forall i: nat, j: nat | j < |longer| && LastBefore(longer, i, j)
                              && longer[i].key == longer[j].key && longer[i].status == longer[j].status
        ensures longer[j].at - longer[i].at > interval - SECOND
      {
        assert LastBefore(log, i, j) by {
          forall k | i < k < j ensures log[k].key != log[i].key {
            assert longer[k].key != longer[i].key;
          }
        }
        if j == |log| {
          LastIsLast(log, i);
          assert log[i] in log;
        }
      }
    }

    /** Post one event, retrying once, and record it only when the endpoint accepted it. */
    method Notify(event: string, certificate: string, status: string, checkedAt: int,
                  responses: nat -> Response, recordedAt: int)
      returns (r: Notice, posts: nat)
      requires Valid()
      requires forall k :: responses(k).Answered? ==> checkedAt <= responses(k).at <= recordedAt
      modifies this
      ensures Valid() && posts <= 2
      // suppressed exactly when off, or when the last delivery had this status and its second is within the interval
      ensures r.Suppressed? <==>
                !enabled || (var last := LastOf(old(log), Key(event, certificate));
                             last.Some? && last.value.status == status
                             && WholeSeconds(last.value.recordedAt) >= checkedAt - interval)
      ensures !r.Sent? ==> alerts == old(alerts) && log == old(log)
      ensures r.Sent? ==>
                && 1 <= posts && responses(posts - 1).Answered? && 200 <= responses(posts - 1).status < 300
                && log == old(log) + [Delivery(Key(event, certificate), status, responses(posts - 1).at, recordedAt)]
      // one more attempt exactly after a client error, a server error or a too-many-requests answer
      ensures posts >= 1 ==>
                (posts == 2 <==> || responses(0).ClientError?
                                 || (responses(0).Answered?
                                     && (responses(0).status >= 500 || responses(0).status == 429)))
      ensures posts == 0 <==> r.Suppressed? || r == Raised(NoCredential)
      ensures r == Raised(NoCredential) <==> !r.Suppressed? && !credential
      ensures posts >= 1 && responses(posts - 1).Answered? ==>
                r == if 200 <= responses(posts - 1).status < 300 then Sent else Raised(NonSuccess)
      ensures posts >= 1 && responses(posts - 1).ClientError? ==> r == Raised(DeliveryFailed)
      ensures posts >= 1 && responses(posts - 1).OtherError? ==> r == Raised(Unexpected)
    {
      posts := 0;
      if !enabled {
        return Suppressed, posts;
      }
      var key := Key(event, certificate);
      if !ShouldSend(key, status, checkedAt) {
        return Suppressed, posts;
      }
      if !credential {
        return Raised(NoCredential), posts;
      }
      for attempt := 0 to 2
        invariant posts == attempt && alerts == old(alerts) && log == old(log)
        invariant attempt == 2 ==>
          responses(1).Answered? && Retried(responses(1).status) && !Success(responses(1).status)
        invariant attempt >= 1 ==>
          responses(0).ClientError? || (responses(0).Answered? && Retried(responses(0).status))
      {
        posts := attempt + 1;
        match responses(attempt)
        case Answered(code, at) =>
          if Success(code) {
            SpacingExtends(Delivery(key, status, at, recordedAt), checkedAt);
            ghost var before := log;
            alerts := alerts[key := Alert(Some(WholeSeconds(recordedAt)), status)];
            log := log + [Delivery(key, status, at, recordedAt)];
            assert log[..|log| - 1] == before;
            return Sent, posts;
          }
          if !Retried(code) {
            return Raised(NonSuccess), posts;
          }
        case ClientError =>
          if attempt == 1 {
            return Raised(DeliveryFailed), posts;
          }
        case OtherError =>
          return Raised(Unexpected), posts;
      }
      return Raised(NonSuccess), posts;
    }
  }
}
