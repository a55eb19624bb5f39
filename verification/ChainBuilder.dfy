/** Import chains that end at the locally pinned root, and the choice among candidate chains. */
module ChainBuilders {
  import opened Options

  datatype Family = RSA | ECDSA

  /** What the checks read of an X.509 certificate; `ca` is absent without BasicConstraints. */
  datatype Certificate = Certificate(
    fingerprint: string,
    subject: string,
    issuer: string,
    commonName: Option<string>,
    ca: Option<bool>,
    family: Option<Family>,
    pemBytes: nat)

  const MAX_BUNDLE_BYTES := 51_200

  /** `root` is the pinned root, absent when its file cannot be loaded. */
  datatype ChainConfig = ChainConfig(
    root: Option<Certificate>,
    allowedRoots: seq<string>,
    allowedIssuers: seq<string>,
    rejectMixed: bool)

  datatype Chain = Chain(root: Certificate, intermediates: seq<Certificate>, pem: seq<Certificate>)

  datatype ChainError =
    | RootUnavailable | RootNotAllowed | Empty | ContainsRoot
    | OrderInvalid | NotACa | SignatureInvalid | RootDoesNotIssue
    | NoCommonName | IssuerNotAllowed | UnsupportedKey | MixedFamilies | TooLarge

  /** Whether the first certificate's signature verifies under the second's key. */
  type Verifier = (Certificate, Certificate) -> bool

  predicate IsCa(c: Certificate) { c.ca == Some(true) }

  // ----- the specification: an issuer/subject/signature path of CAs -----

  function WithoutRoot(intermediates: seq<Certificate>, root: Certificate): (kept: seq<Certificate>)
    ensures forall c :: c in kept <==> c in intermediates && c.fingerprint != root.fingerprint
  {
    if intermediates == [] then []
    else if intermediates[0].fingerprint == root.fingerprint then WithoutRoot(intermediates[1..], root)
    else [intermediates[0]] + WithoutRoot(intermediates[1..], root)
  }

  predicate Issues(issuer: Certificate, subject: Certificate, verifies: Verifier) {
    subject.issuer == issuer.subject && IsCa(issuer) && verifies(subject, issuer)
  }

  predicate IsPath(path: seq<Certificate>, verifies: Verifier) {
    forall i | 0 < i < |path| :: Issues(path[i], path[i - 1], verifies)
  }

  function Size(path: seq<Certificate>): nat {
    if path == [] then 0 else path[0].pemBytes + Size(path[1..])
  }

  predicate OneFamily(path: seq<Certificate>) {
    forall i | 0 <= i < |path| :: path[i].family.Some? && path[i].family == path[0].family
  }

  predicate Acceptable(leaf: Certificate, intermediates: seq<Certificate>, config: ChainConfig, verifies: Verifier) {
    config.root.Some? &&
    var root := config.root.value;
    var kept := WithoutRoot(intermediates, root);
    var path := [leaf] + kept + [root];
    && root.fingerprint in config.allowedRoots
    && kept != []
    && (forall c | c in kept :: c.subject != root.subject)
    && IsPath(path, verifies)
    && kept[0].commonName.Some? && kept[0].commonName.value in config.allowedIssuers
    && (config.rejectMixed ==> OneFamily(path))
    && Size(path) <= 51_200
  }

  function ChainOf(intermediates: seq<Certificate>, config: ChainConfig): Chain
    requires config.root.Some?
  {
    var kept := WithoutRoot(intermediates, config.root.value);
    Chain(config.root.value, kept, kept + [config.root.value])
  }

  /** What is wrong with a path: its order, a certificate that is no CA, a signature, or its last link. */
  ghost predicate BreaksPath(e: ChainError, path: seq<Certificate>, verifies: Verifier) {
    match e
    case OrderInvalid => exists i :: 0 < i < |path| - 1 && path[i - 1].issuer != path[i].subject
    case NotACa => exists i :: 0 < i < |path| && !IsCa(path[i])
    case SignatureInvalid => exists i :: 0 < i < |path| && !verifies(path[i - 1], path[i])
    case RootDoesNotIssue => |path| >= 2 && path[|path| - 2].issuer != path[|path| - 1].subject
    case _ => false
  }

  /** What a reported error says is wrong. */
  ghost predicate Blames(e: ChainError, leaf: Certificate, intermediates: seq<Certificate>, config: ChainConfig,
                         verifies: Verifier)
  {
    if config.root.None? then e.RootUnavailable?
    else
      var root := config.root.value;
      var kept := WithoutRoot(intermediates, root);
      var path := [leaf] + kept + [root];
      match e
      case RootUnavailable => false
      case RootNotAllowed => root.fingerprint !in config.allowedRoots
      case Empty => kept == []
      case ContainsRoot => exists c :: c in kept && c.subject == root.subject
      case OrderInvalid => BreaksPath(e, path, verifies)
      case NotACa => BreaksPath(e, path, verifies)
      case SignatureInvalid => BreaksPath(e, path, verifies)
      case RootDoesNotIssue => BreaksPath(e, path, verifies)
      case NoCommonName => kept != [] && kept[0].commonName.None?
      case IssuerNotAllowed =>
        kept != [] && kept[0].commonName.Some? && kept[0].commonName.value !in config.allowedIssuers
      case UnsupportedKey => config.rejectMixed && exists i :: 0 <= i < |path| && path[i].family.None?
      case MixedFamilies => config.rejectMixed && !OneFamily(path)
      case TooLarge => Size(path) > 51_200
  }

  // ----- the builder -----

  /** Walk from the leaf to the root, checking order, CA flag and signature of each issuer. */
  method WalkPath(leaf: Certificate, kept: seq<Certificate>, root: Certificate, verifies: Verifier)
    returns (broken: Option<ChainError>)
    requires kept != []
    ensures broken.None? <==> IsPath([leaf] + kept + [root], verifies)
    ensures broken.Some? ==> BreaksPath(broken.value, [leaf] + kept + [root], verifies)
  {
    ghost var path := [leaf] + kept + [root];
    var current := leaf;
    for i := 0 to |kept|
      invariant current == path[i]
      invariant forall j | 0 < j <= i :: Issues(path[j], path[j - 1], verifies)
    {
      var issuer := kept[i];
      assert path[i + 1] == issuer;
      if current.issuer != issuer.subject {
        return Some(OrderInvalid);
      }
      if !IsCa(issuer) {
        return Some(NotACa);
      }
      if !verifies(current, issuer) {
        return Some(SignatureInvalid);
      }
      current := issuer;
    }
    assert path[|kept| + 1] == root;
    if current.issuer != root.subject {
      return Some(RootDoesNotIssue);
    }
    if !IsCa(root) {
      return Some(NotACa);
    }
    if !verifies(current, root) {
      return Some(SignatureInvalid);
    }
    return None;
  }

  method BuildOciChain(leaf: Certificate, intermediates: seq<Certificate>, config: ChainConfig, verifies: Verifier)
    returns (r: Result<Chain, ChainError>)
    ensures r.Ok? <==> Acceptable(leaf, intermediates, config, verifies)
    ensures r.Ok? ==> r.value == ChainOf(intermediates, config)
    // the chain to import: the intermediates in their order without the root, then the pinned root once
    ensures r.Ok? ==>
              && config.root == Some(r.value.root) && r.value.pem == r.value.intermediates + [r.value.root]
              && (forall c :: c in r.value.intermediates <==>
                              c in intermediates && c.fingerprint != r.value.root.fingerprint)
    ensures r.Err? ==> Blames(r.error, leaf, intermediates, config, verifies)
  {
    if config.root.None? {
      return Err(RootUnavailable);
    }
    var root := config.root.value;
    if root.fingerprint !in config.allowedRoots {
      return Err(RootNotAllowed);
    }
    var kept := WithoutRoot(intermediates, root);
    if kept == [] {
      return Err(Empty);
    }
    if exists c :: c in kept && c.subject == root.subject {
      return Err(ContainsRoot);
    }
    var broken := WalkPath(leaf, kept, root, verifies);
    if broken.Some? {
      return Err(broken.value);
    }
    if kept[0].commonName.None? {
      return Err(NoCommonName);
    }
    if kept[0].commonName.value !in config.allowedIssuers {
      return Err(IssuerNotAllowed);
    }
    var all := [leaf] + kept + [root];
    if config.rejectMixed {
      if exists i :: 0 <= i < |all| && all[i].family.None? {
        return Err(UnsupportedKey);
      }
      if !OneFamily(all) {
        return Err(MixedFamilies);
      }
    }
    if Size(all) > MAX_BUNDLE_BYTES {
      return Err(TooLarge);
    }
    return Ok(ChainOf(intermediates, config));
  }

  /** A bundle is as large as its parts. */
  lemma {:induction false} SizeJoined(a: seq<Certificate>, b: seq<Certificate>)
    ensures Size(a + b) == Size(a) + Size(b)
    ensures |a| == 1 ==> Size(a) == a[0].pemBytes
  {
    if a == [] {
      assert a + b == b;
    } else {
      assert (a + b)[0] == a[0] && (a + b)[1..] == a[1..] + b;
      SizeJoined(a[1..], b);
    }
  }

  // ----- copies of the root never matter, and a built chain builds itself -----

  lemma {:induction false} WithoutRootJoined(a: seq<Certificate>, b: seq<Certificate>, root: Certificate)
    ensures WithoutRoot(a + b, root) == WithoutRoot(a, root) + WithoutRoot(b, root)
  {
    if a == [] {
      assert a + b == b;
    } else {
      assert (a + b)[0] == a[0] && (a + b)[1..] == a[1..] + b;
      WithoutRootJoined(a[1..], b, root);
    }
  }

  lemma {:induction false} WithoutRootAgain(s: seq<Certificate>, root: Certificate)
    requires forall c | c in s :: c.fingerprint != root.fingerprint
    ensures WithoutRoot(s, root) == s
  {
    if s != [] {
      WithoutRootAgain(s[1..], root);
    }
  }

  /** A copy of the pinned root anywhere in the input changes neither the verdict nor the chain. */
  lemma RootCopiesAreIgnored(leaf: Certificate, a: seq<Certificate>, copy: Certificate, b: seq<Certificate>,
                             config: ChainConfig, verifies: Verifier)
    requires config.root.Some? && copy.fingerprint == config.root.value.fingerprint
    ensures Acceptable(leaf, a + [copy] + b, config, verifies) <==> Acceptable(leaf, a + b, config, verifies)
    ensures ChainOf(a + [copy] + b, config) == ChainOf(a + b, config)
  {
    var root := config.root.value;
    WithoutRootJoined(a + [copy], b, root);
    WithoutRootJoined(a, [copy], root);
    WithoutRootJoined(a, b, root);
    assert WithoutRoot([copy], root) == [];
    assert WithoutRoot(a, root) + [] == WithoutRoot(a, root);
  }

  /** Feeding a built chain back as the input builds the same chain. */
  lemma BuiltChainBuildsItself(leaf: Certificate, intermediates: seq<Certificate>, config: ChainConfig,
                               verifies: Verifier)
    requires Acceptable(leaf, intermediates, config, verifies)
    ensures var chain := ChainOf(intermediates, config);
            Acceptable(leaf, chain.pem, config, verifies) && ChainOf(chain.pem, config) == chain
  {
    var root := config.root.value;
    var kept := WithoutRoot(intermediates, root);
    WithoutRootJoined(kept, [root], root);
    WithoutRootAgain(kept, root);
    assert WithoutRoot([root], root) == [];
    assert kept + [] == kept;
  }

  // ----- the choice among the chains an ACME server offers -----

  datatype Candidate = Blank | Unreadable | Parsed(certificates: seq<Certificate>)

  datatype Selection = Selected(leaf: Certificate, intermediates: seq<Certificate>) | NoIntermediates | NoneAcceptable

  /** Parsing yields at least the leaf. */
  predicate WellFormed(c: Candidate) {
    c.Parsed? ==> c.certificates != []
  }

  predicate Chosen(c: Candidate, validates: (Certificate, seq<Certificate>) -> bool, config: ChainConfig,
                   verifies: Verifier)
  {
    && c.Parsed? && |c.certificates| >= 2
    && validates(c.certificates[0], c.certificates[1..])
    && Acceptable(c.certificates[0], c.certificates[1..], config, verifies)
  }

  predicate LeafOnly(c: Candidate) {
    c.Parsed? && |c.certificates| < 2
  }

  /** An acceptable candidate that no candidate with a leaf alone precedes. */
  predicate Reachable(candidates: seq<Candidate>, i: int, validates: (Certificate, seq<Certificate>) -> bool,
                      config: ChainConfig, verifies: Verifier)
  {
    && 0 <= i < |candidates| && Chosen(candidates[i], validates, config, verifies)
    && forall j | 0 <= j < i :: !LeafOnly(candidates[j])
  }

  /** The first acceptable candidate, unless a candidate with a leaf alone comes before it. */
  method SelectChain(candidates: seq<Candidate>, validates: (Certificate, seq<Certificate>) -> bool,
                     config: ChainConfig, verifies: Verifier)
    returns (s: Selection)
    requires forall i | 0 <= i < |candidates| :: WellFormed(candidates[i])
    ensures s.Selected? <==> exists i :: Reachable(candidates, i, validates, config, verifies)
    ensures s.Selected? ==>
              exists i :: && Reachable(candidates, i, validates, config, verifies)
                          && candidates[i].certificates == [s.leaf] + s.intermediates
                          && forall j | 0 <= j < i :: !Chosen(candidates[j], validates, config, verifies)
    ensures s.NoIntermediates? ==> exists i :: 0 <= i < |candidates| && LeafOnly(candidates[i])
    ensures s.NoneAcceptable? ==>
              forall i | 0 <= i < |candidates| ::
                !LeafOnly(candidates[i]) && !Chosen(candidates[i], validates, config, verifies)
  {
    for i := 0 to |candidates|
      invariant forall j | 0 <= j < i ::
        !LeafOnly(candidates[j]) && !Chosen(candidates[j], validates, config, verifies)
    {
      var candidate := candidates[i];
      if !candidate.Parsed? {
        continue;
      }
      if |candidate.certificates| < 2 {
        return NoIntermediates;
      }
      var leaf, rest := candidate.certificates[0], candidate.certificates[1..];
      if validates(leaf, rest) {
        var built := BuildOciChain(leaf, rest, config, verifies);
        if built.Ok? {
          assert Reachable(candidates, i, validates, config, verifies);
          assert candidate.certificates == [leaf] + rest;
          return Selected(leaf, rest);
        }
      }
    }
    return NoneAcceptable;
  }

  /** So an acceptable candidate behind one that has only a leaf is never reached. */
  lemma LeafOnlyCandidateHidesALaterOne(leaf: Certificate, good: Candidate,
                                        validates: (Certificate, seq<Certificate>) -> bool,
                                        config: ChainConfig, verifies: Verifier)
    requires Chosen(good, validates, config, verifies)
    ensures var candidates := [Parsed([leaf]), good];
            && Chosen(candidates[1], validates, config, verifies)
            && !exists i :: Reachable(candidates, i, validates, config, verifies)
  {
    var candidates := [Parsed([leaf]), good];
    assert LeafOnly(candidates[0]);
  }
}
