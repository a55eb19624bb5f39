/** Endpoint audits: when one endpoint matches, and how long the loop keeps trying. */
module Audits {
  datatype Mode = DISABLED | OBSERVE | ENFORCE

  datatype Endpoint = Endpoint(hostname: string, port: nat)

  datatype AuditConfig = AuditConfig(
    mode: Mode, timeout: nat, interval: nat, requireAll: bool, rejectNonGlobal: bool, endpoints: seq<Endpoint>)

  datatype Address = Address(text: string, valid: bool, global_: bool)

  /** A name either resolves, fails with an audit error, or fails with an error the audit does not catch. */
  datatype Resolution = Addresses(addresses: seq<Address>) | NoAddresses | ResolverFault

  /** What probing one address yields: a fingerprint, or an exception kept as a result. */
  datatype Probe = Served(fingerprint: string) | Failed

  datatype Observation = Observation(resolution: Resolution, probes: seq<Probe>)

  /** What the network shows during pass `k` about each endpoint. */
  type Network = (nat, Endpoint) -> Observation

  datatype AuditResult = AuditResult(successful: bool, attempts: nat, failed: seq<Endpoint>)

  datatype AuditOutcome = Returned(result: AuditResult) | AuditError | Fault

  /** What an audit means to the operation that asked for it; a fault is an exception nothing catches. */
  datatype Verdict = Converged | Mismatched | Raised | Faulted

  function VerdictOf(outcome: AuditOutcome): Verdict {
    match outcome
    case Returned(result) => if result.successful then Converged else Mismatched
    case AuditError => Raised
    case Fault => Faulted
  }

  /** One probe per address. */
  predicate Consistent(o: Observation) {
    o.resolution.Addresses? ==> |o.probes| == |o.resolution.addresses|
  }

  predicate AddressesAllowed(addresses: seq<Address>, rejectNonGlobal: bool) {
    forall i | 0 <= i < |addresses| :: addresses[i].valid && (rejectNonGlobal ==> addresses[i].global_)
  }

  // ----- the rule -----

  /** Every address serves the expected fingerprint, or at least one where one is enough. */
  predicate EndpointMatches(o: Observation, config: AuditConfig, expected: string) {
    && o.resolution.Addresses?
    && (forall i | 0 <= i < |o.resolution.addresses| ::
          o.resolution.addresses[i].valid && (config.rejectNonGlobal ==> o.resolution.addresses[i].global_))
    && if config.requireAll then forall i | 0 <= i < |o.probes| :: o.probes[i] == Served(expected)
       else exists i :: 0 <= i < |o.probes| && o.probes[i] == Served(expected)
  }

  predicate Faulty(network: Network, pass: nat, endpoints: seq<Endpoint>) {
    exists i :: 0 <= i < |endpoints| && network(pass, endpoints[i]).resolution.ResolverFault?
  }

  predicate AllMatch(network: Network, pass: nat, config: AuditConfig, expected: string) {
    forall i | 0 <= i < |config.endpoints| :: EndpointMatches(network(pass, config.endpoints[i]), config, expected)
  }

  function Mismatches(network: Network, pass: nat, config: AuditConfig, expected: string, endpoints: seq<Endpoint>)
    : (failed: seq<Endpoint>)
    ensures failed == [] <==>
            forall i | 0 <= i < |endpoints| :: EndpointMatches(network(pass, endpoints[i]), config, expected)
  {
    if endpoints == [] then []
    else
      var rest := Mismatches(network, pass, config, expected, endpoints[1..]);
      if EndpointMatches(network(pass, endpoints[0]), config, expected) then rest else [endpoints[0]] + rest
  }

  // ----- the code -----

  function Fingerprints(probes: seq<Probe>): (texts: seq<string>)
    ensures |texts| <= |probes|
    ensures forall t :: t in texts <==> Served(t) in probes
    ensures |texts| == |probes| <==> forall p | p in probes :: p.Served?
  {
    if probes == [] then []
    else
      var rest := Fingerprints(probes[1..]);
      if probes[0].Served? then [probes[0].fingerprint] + rest else rest
  }

  /** The verdict over the probes that returned text: all of them, one per address, or any. */
  method CheckEndpoint(o: Observation, config: AuditConfig, expected: string) returns (matches: bool, fault: bool)
    requires Consistent(o)
    ensures fault <==> o.resolution.ResolverFault?
    ensures !fault ==> (matches <==> EndpointMatches(o, config, expected))
  {
    if o.resolution.ResolverFault? {
      return false, true;
    }
    if o.resolution.NoAddresses? || !AddressesAllowed(o.resolution.addresses, config.rejectNonGlobal) {
      return false, false;
    }
    var texts := Fingerprints(o.probes);
    if config.requireAll {
      matches := |texts| == |o.resolution.addresses| && forall t | t in texts :: t == expected;
      assert forall p | p in o.probes :: p.Served? ==> p.fingerprint in texts;
    } else {
      matches := exists t | t in texts :: t == expected;
    }
    fault := false;
  }

  /** One pass over every endpoint, collecting those that do not match. */
  method Once(network: Network, pass: nat, config: AuditConfig, expected: string)
    returns (failures: seq<Endpoint>, fault: bool)
    requires forall k, e :: Consistent(network(k, e))
    ensures fault <==> Faulty(network, pass, config.endpoints)
    ensures !fault ==> failures == Mismatches(network, pass, config, expected, config.endpoints)
  {
    failures := [];
    for i := 0 to |config.endpoints|
      invariant !Faulty(network, pass, config.endpoints[..i])
      invariant failures == Mismatches(network, pass, config, expected, config.endpoints[..i])
    {
      assert config.endpoints[..i + 1] == config.endpoints[..i] + [config.endpoints[i]];
      MismatchesJoined(network, pass, config, expected, config.endpoints[..i], config.endpoints[i]);
      var matches, broken := CheckEndpoint(network(pass, config.endpoints[i]), config, expected);
      if broken {
        return failures, true;
      }
      if !matches {
        failures := failures + [config.endpoints[i]];
      }
    }
    assert config.endpoints[..|config.endpoints|] == config.endpoints;
    return failures, false;
  }

  lemma {:induction false} MismatchesJoined(network: Network, pass: nat, config: AuditConfig, expected: string,
                                            endpoints: seq<Endpoint>, e: Endpoint)
    ensures Mismatches(network, pass, config, expected, endpoints + [e]) ==
            Mismatches(network, pass, config, expected, endpoints)
            + if EndpointMatches(network(pass, e), config, expected) then [] else [e]
  {
    if endpoints == [] {
      assert endpoints + [e] == [e];
    } else {
      assert (endpoints + [e])[0] == endpoints[0] && (endpoints + [e])[1..] == endpoints[1..] + [e];
      MismatchesJoined(network, pass, config, expected, endpoints[1..], e);
    }
  }

  /** The most passes a timeout allows: the first, and one for every started interval. */
  function MostPasses(timeout: nat, interval: nat): nat
    requires interval >= 1
  {
    (timeout + interval - 1) / interval + 1
  }

  /** A reading before the deadline leaves room for at least one more pass. */
  lemma RoomForAnother(timeout: nat, interval: nat, passes: nat)
    requires interval >= 1 && passes >= 1 && (passes - 1) * interval < timeout
    ensures passes < MostPasses(timeout, interval)
  {
    var total := timeout + interval - 1;
    var q := total / interval;
    assert total == interval * q + total % interval;
    if q <= passes - 1 {
      Scale(q, passes - 1, interval);
    }
  }

  lemma Scale(a: nat, b: nat, factor: nat)
    requires a <= b
    ensures factor * a <= b * factor
  {
    assert b * factor - factor * a == (b - a) * factor;
  }

  /**
   Audit until every endpoint matches or the deadline passes.  `clock(0)` is the
   reading that sets the deadline, `clock(k)` the one after pass k.
   */
  method Audit(network: Network, clock: nat -> int, config: AuditConfig, expected: string)
    returns (outcome: AuditOutcome, passes: nat)
    requires config.interval >= 1
    requires forall k, e :: Consistent(network(k, e))
    requires clock(0) <= clock(1)
    requires forall k | k >= 1 :: clock(k) + config.interval <= clock(k + 1)
    ensures config.mode.DISABLED? ==> passes == 0 && outcome == Returned(AuditResult(true, 0, []))
    ensures !config.mode.DISABLED? ==> 1 <= passes <= MostPasses(config.timeout, config.interval)
    ensures passes >= 2 ==> (passes - 2) * config.interval < config.timeout
    ensures outcome.Returned? ==> outcome.result.attempts == passes
    ensures outcome.Returned? && outcome.result.successful && !config.mode.DISABLED? ==>
              AllMatch(network, passes, config, expected) && outcome.result.failed == []
    ensures outcome.Returned? && !outcome.result.successful ==>
              && config.mode.OBSERVE?
              && outcome.result.failed == Mismatches(network, passes, config, expected, config.endpoints)
    ensures outcome.AuditError? ==> config.mode.ENFORCE?
    ensures outcome.Fault? <==> passes >= 1 && Faulty(network, passes, config.endpoints)
    // it gives up only after the deadline, and never passes over a pass that matched
    ensures outcome.AuditError? || (outcome.Returned? && !outcome.result.successful) ==>
              clock(passes) >= clock(0) + config.timeout && !AllMatch(network, passes, config, expected)
    ensures forall k | 1 <= k < passes ::
              clock(k) < clock(0) + config.timeout && !AllMatch(network, k, config, expected)
  {
    if config.mode.DISABLED? {
      return Returned(AuditResult(true, 0, [])), 0;
    }
    var deadline := clock(0) + config.timeout;
    passes := 0;
    while true
      invariant forall k | 1 <= k <= passes ::
        clock(k) < deadline && !AllMatch(network, k, config, expected)
      invariant passes < MostPasses(config.timeout, config.interval)
      invariant passes >= 1 ==> (passes - 1) * config.interval < config.timeout
      invariant passes >= 1 ==> clock(0) + (passes - 1) * config.interval <= clock(passes)
      decreases MostPasses(config.timeout, config.interval) - passes
    {
      passes := passes + 1;
      assert passes >= 2 ==> (passes - 1) * config.interval == (passes - 2) * config.interval + config.interval;
      var failures, fault := Once(network, passes, config, expected);
      if fault {
        return Fault, passes;
      }
      if failures == [] {
        return Returned(AuditResult(true, passes, [])), passes;
      }
      if clock(passes) >= deadline {
        return if config.mode.ENFORCE? then AuditError else Returned(AuditResult(false, passes, failures)), passes;
      }
      RoomForAnother(config.timeout, config.interval, passes);
    }
  }

  /** The verdict an operation acts on, and what it says of the endpoints. */
  method Judge(network: Network, clock: nat -> int, config: AuditConfig, expected: string)
    returns (verdict: Verdict, pass: nat)
    requires config.interval >= 1
    requires forall k, e :: Consistent(network(k, e))
    requires clock(0) <= clock(1)
    requires forall k | k >= 1 :: clock(k) + config.interval <= clock(k + 1)
    ensures verdict.Converged? <==> config.mode.DISABLED? || (pass >= 1 && AllMatch(network, pass, config, expected)
                                                             && !Faulty(network, pass, config.endpoints))
    ensures verdict.Mismatched? ==> config.mode.OBSERVE? && !AllMatch(network, pass, config, expected)
    ensures verdict.Raised? ==> config.mode.ENFORCE? && !AllMatch(network, pass, config, expected)
    ensures verdict.Faulted? <==> pass >= 1 && Faulty(network, pass, config.endpoints)
  {
    var outcome, passes := Audit(network, clock, config, expected);
    return VerdictOf(outcome), passes;
  }
}
