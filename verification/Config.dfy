/** What a configuration of several certificate sets must satisfy before anything runs. */
module Configs {
  import opened Options

  const CN_MAX_BYTES := 64
  const OCID_PREFIX := "ocid1.certificate."

  datatype CertificateConfig = CertificateConfig(
    id: string, webroot: string, commonName: string, domains: seq<string>, ocid: Option<string>,
    auditDisabled: bool, endpoints: nat)

  datatype Environment = PRODUCTION | STAGING

  /** `stagingDirectory` and `webrootInsideStore` are what the two text comparisons yield. */
  datatype AppConfig = AppConfig(
    environment: Environment, stagingDirectory: bool, webrootInsideStore: bool,
    certificates: seq<CertificateConfig>)

  predicate Distinct<T(==)>(s: seq<T>) {
    forall i, j | 0 <= i < j < |s| :: s[i] != s[j]
  }

  function Elements<T>(s: seq<T>): set<T> {
    set x | x in s
  }

  lemma ElementsSplit<T>(s: seq<T>)
    requires s != []
    ensures Elements(s) == {s[0]} + Elements(s[1..])
    ensures Distinct(s) <==> s[0] !in Elements(s[1..]) && Distinct(s[1..])
  {
    var rest := s[1..];
    assert s == [s[0]] + rest;
    if Distinct(s) {
      assert forall i | 0 <= i < |rest| :: rest[i] == s[i + 1] && s[0] != s[i + 1];
    }
    if s[0] !in Elements(rest) && Distinct(rest) {
      forall i, j | 0 <= i < j < |s| ensures s[i] != s[j] {
        assert s[j] == rest[j - 1] && s[j] in Elements(rest);
        if i > 0 {
          assert s[i] == rest[i - 1];
        }
      }
    }
  }

  lemma {:induction false} DistinctBySize<T>(s: seq<T>)
    ensures |Elements(s)| <= |s|
    ensures |Elements(s)| == |s| <==> Distinct(s)
  {
    if s == [] {
      assert Elements(s) == {};
    } else {
      DistinctBySize(s[1..]);
      ElementsSplit(s);
      if s[0] in Elements(s[1..]) {
        assert Elements(s) == Elements(s[1..]);
      }
    }
  }

  // ----- one certificate -----

  datatype CertificateError =
    | NoDomains | DuplicateDomains | CommonNameNotFirst | CommonNameTooLong | NotACertificateOcid | NoEndpoints

  predicate StartsWith(text: string, prefix: string) {
    |prefix| <= |text| && text[..|prefix|] == prefix
  }

  predicate ValidCertificate(c: CertificateConfig) {
    && c.domains != [] && Distinct(c.domains) && c.domains[0] == c.commonName
    && |c.commonName| <= 64
    && (c.ocid.Some? ==> "ocid1.certificate." <= c.ocid.value)
    && (c.auditDisabled || c.endpoints > 0)
  }

  function CheckCertificate(c: CertificateConfig): (r: Result<(), CertificateError>)
    ensures r.Ok? <==> ValidCertificate(c)
  {
    DistinctBySize(c.domains);
    if c.domains == [] then Err(NoDomains)
    else if |Elements(c.domains)| != |c.domains| then Err(DuplicateDomains)
    else if c.domains[0] != c.commonName then Err(CommonNameNotFirst)
    else if |c.commonName| > CN_MAX_BYTES then Err(CommonNameTooLong)
    else if c.ocid.Some? && !StartsWith(c.ocid.value, OCID_PREFIX) then Err(NotACertificateOcid)
    else if !c.auditDisabled && c.endpoints == 0 then Err(NoEndpoints)
    else Ok(())
  }

  // ----- all certificates together -----

  datatype ConfigError =
    | NoCertificates | DuplicateIds | DuplicateWebroots | SharedDomain | IncompatibleOcid
    | StagingInProduction | ProductionInStaging | WebrootInsideStore

  function Ids(cs: seq<CertificateConfig>): (ids: seq<string>)
    ensures |ids| == |cs| && forall i | 0 <= i < |cs| :: ids[i] == cs[i].id
  {
    seq(|cs|, i requires 0 <= i < |cs| => cs[i].id)
  }

  function Webroots(cs: seq<CertificateConfig>): (roots: seq<string>)
    ensures |roots| == |cs| && forall i | 0 <= i < |cs| :: roots[i] == cs[i].webroot
  {
    seq(|cs|, i requires 0 <= i < |cs| => cs[i].webroot)
  }

  predicate DisjointDomains(cs: seq<CertificateConfig>) {
    forall i, j, d | 0 <= i < j < |cs| && d in cs[i].domains :: d !in cs[j].domains
  }

  /** Certificates that share an OCID have the same common name: what the OCID check alone guarantees. */
  predicate CompatibleOcids(cs: seq<CertificateConfig>) {
    forall i, j | 0 <= i < j < |cs| && cs[i].ocid.Some? && cs[i].ocid == cs[j].ocid ::
      cs[i].commonName == cs[j].commonName
  }

  predicate DistinctOcids(cs: seq<CertificateConfig>) {
    forall i, j | 0 <= i < j < |cs| && cs[i].ocid.Some? :: cs[i].ocid != cs[j].ocid
  }

  predicate Accepted(config: AppConfig) {
    && config.certificates != []
    && Distinct(Ids(config.certificates)) && Distinct(Webroots(config.certificates))
    && DisjointDomains(config.certificates) && CompatibleOcids(config.certificates)
    && (config.environment.STAGING? <==> config.stagingDirectory)
    && !config.webrootInsideStore
  }

  /** Adding a certificate to a list that is fine so far keeps it fine. */
  lemma OneMore(cs: seq<CertificateConfig>, i: nat)
    requires i < |cs|
    requires DisjointDomains(cs[..i]) && CompatibleOcids(cs[..i])
    requires forall j, d | 0 <= j < i && d in cs[j].domains :: d !in cs[i].domains
    requires forall j | 0 <= j < i && cs[j].ocid.Some? && cs[j].ocid == cs[i].ocid ::
               cs[j].commonName == cs[i].commonName
    ensures DisjointDomains(cs[..i + 1]) && CompatibleOcids(cs[..i + 1])
  {
    var before, after := cs[..i], cs[..i + 1];
    forall j, k, d | 0 <= j < k < |after| && d in after[j].domains ensures d !in after[k].domains {
      if k < i {
        assert after[j] == before[j] && after[k] == before[k];
      }
    }
    forall j, k | 0 <= j < k < |after| && after[j].ocid.Some? && after[j].ocid == after[k].ocid
      ensures after[j].commonName == after[k].commonName
    {
      if k < i {
        assert after[j] == before[j] && after[k] == before[k];
      }
    }
  }

  /** One pass over the certificates, remembering the domains and identities seen. */
  method CheckIdentities(cs: seq<CertificateConfig>) returns (clash: Option<ConfigError>)
    ensures clash.None? <==> DisjointDomains(cs) && CompatibleOcids(cs)
    ensures clash.Some? ==>
              || (clash.value == SharedDomain && !DisjointDomains(cs))
              || (clash.value == IncompatibleOcid && !CompatibleOcids(cs))
  {
    var seenDomains: set<string> := {};
    var seenOcids: map<string, CertificateConfig> := map[];
    for i := 0 to |cs|
      invariant DisjointDomains(cs[..i]) && CompatibleOcids(cs[..i])
      invariant forall d :: d in seenDomains <==> exists j :: 0 <= j < i && d in cs[j].domains
      invariant forall j | 0 <= j < i && cs[j].ocid.Some? ::
        cs[j].ocid.value in seenOcids && seenOcids[cs[j].ocid.value].commonName == cs[j].commonName
      invariant forall o | o in seenOcids :: exists j :: 0 <= j < i && cs[j].ocid == Some(o) && seenOcids[o] == cs[j]
    {
      var c := cs[i];
      if exists d :: d in c.domains && d in seenDomains {
        return Some(SharedDomain);
      }
      seenDomains := seenDomains + Elements(c.domains);
      if c.ocid.Some? {
        if c.ocid.value in seenOcids && seenOcids[c.ocid.value].commonName != c.commonName {
          return Some(IncompatibleOcid);
        }
        seenOcids := seenOcids[c.ocid.value := c];
      }
      OneMore(cs, i);
    }
    assert cs[..|cs|] == cs;
    return None;
  }

  method CheckCrossFields(config: AppConfig) returns (r: Result<(), ConfigError>)
    ensures r.Ok? <==> Accepted(config)
    ensures r == Err(SharedDomain) ==> !DisjointDomains(config.certificates)
    ensures r == Err(IncompatibleOcid) ==> !CompatibleOcids(config.certificates)
  {
    var cs := config.certificates;
    if cs == [] {
      return Err(NoCertificates);
    }
    DistinctBySize(Ids(cs));
    if |Elements(Ids(cs))| != |cs| {
      return Err(DuplicateIds);
    }
    DistinctBySize(Webroots(cs));
    if |Elements(Webroots(cs))| != |cs| {
      return Err(DuplicateWebroots);
    }
    var clash := CheckIdentities(cs);
    if clash.Some? {
      return Err(clash.value);
    }
    if config.environment.PRODUCTION? && config.stagingDirectory {
      return Err(StagingInProduction);
    }
    if config.environment.STAGING? && !config.stagingDirectory {
      return Err(ProductionInStaging);
    }
    if config.webrootInsideStore {
      return Err(WebrootInsideStore);
    }
    return Ok(());
  }

  /** No two sets of an accepted configuration ever work on the same remote certificate. */
  lemma AcceptedHasDistinctOcids(config: AppConfig)
    requires Accepted(config)
    requires forall i | 0 <= i < |config.certificates| :: ValidCertificate(config.certificates[i])
    ensures DistinctOcids(config.certificates)
  {
    var cs := config.certificates;
    forall i, j | 0 <= i < j < |cs| && cs[i].ocid.Some? ensures cs[i].ocid != cs[j].ocid {
      assert cs[i].commonName in cs[i].domains;
      assert cs[j].commonName in cs[j].domains;
    }
  }

  /** Two sets that share both their OCID and their common name, which the OCID check admits. */
  predicate SharesIdentity(c: CertificateConfig, other: CertificateConfig) {
    c.ocid.Some? && c.ocid == other.ocid && c.commonName == other.commonName
  }

  /** What the OCID check admits has distinct OCIDs exactly when no two sets share both OCID and common name. */
  lemma OcidCheckSufficesExactlyWhen(cs: seq<CertificateConfig>)
    requires CompatibleOcids(cs)
    ensures DistinctOcids(cs) <==> forall i, j | 0 <= i < j < |cs| :: !SharesIdentity(cs[i], cs[j])
  {
    if forall i, j | 0 <= i < j < |cs| :: !SharesIdentity(cs[i], cs[j]) {
      forall i, j | 0 <= i < j < |cs| && cs[i].ocid.Some? ensures cs[i].ocid != cs[j].ocid {
        assert !SharesIdentity(cs[i], cs[j]);
      }
    }
  }

  /** So the OCID check alone would not do it: it passes two sets that share both. */
  lemma OcidCheckAloneAllowsSharing(c: CertificateConfig, other: CertificateConfig)
    requires SharesIdentity(c, other)
    ensures CompatibleOcids([c, other]) && !DistinctOcids([c, other])
  {
    var cs := [c, other];
    assert cs[0].ocid == cs[1].ocid;
  }
}
