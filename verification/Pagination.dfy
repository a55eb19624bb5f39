/** Listing every page of a collection, one opaque token at a time. */
module Pagination {
  import opened Options
  import opened Failures

  /** A page token as the response header carries it; an empty header is not a usable token. */
  datatype Token = Empty | Token(id: nat)

  /** `items` is absent when the response does not hold a well-formed list. */
  datatype Page<T> = Page(items: Option<seq<T>>, next: Option<Token>)

  type Server<T> = Option<Token> -> Result<Page<T>, Failure>

  const INVALID_LIST := OciCertificate("OCI returned invalid certificate-version list")
  const INVALID_TOKEN := OciCertificate("OCI returned an invalid certificate-version page token")

  // ----- the specification: the chain of tokens the server hands out -----

  /** Where a page leads: nowhere because it is broken, to the end, or to the next token. */
  datatype Lead = Broken | End | Onward(token: Token)

  function Leads<T>(serve: Server<T>, page: Option<Token>): Lead {
    var response := serve(page);
    if response.Err? || response.value.items.None? then Broken
    else if response.value.next.None? then End
    else Onward(response.value.next.value)
  }

  function Before(chain: seq<Token>, i: nat): Option<Token>
    requires i <= |chain|
  {
    if i == 0 then None else Some(chain[i - 1])
  }

  /** Each page of the chain leads on to its token. */
  ghost predicate Walk<T>(serve: Server<T>, chain: seq<Token>)
    decreases |chain|
  {
    chain == [] ||
    var shorter := chain[..|chain| - 1];
    Walk(serve, shorter) && Leads(serve, Before(shorter, |shorter|)) == Onward(chain[|chain| - 1])
  }

  predicate ValidTokens(chain: seq<Token>) {
    && (forall i | 0 <= i < |chain| :: chain[i] != Empty)
    && (forall i, j | 0 <= i < j < |chain| :: chain[i] != chain[j])
  }

  /** The chain follows valid, distinct tokens to a page that has no successor. */
  ghost predicate Complete<T>(serve: Server<T>, chain: seq<Token>) {
    Walk(serve, chain) && ValidTokens(chain) && Leads(serve, Before(chain, |chain|)) == End
  }

  /** The items of the pages along the chain, in order. */
  function Gather<T>(serve: Server<T>, chain: seq<Token>): seq<T>
    decreases |chain|
  {
    var page := serve(Before(chain, |chain|));
    var last := if page.Ok? && page.value.items.Some? then page.value.items.value else [];
    if chain == [] then last else Gather(serve, chain[..|chain| - 1]) + last
  }

  lemma {:induction false} WalkPrefix<T>(serve: Server<T>, chain: seq<Token>, n: nat)
    requires Walk(serve, chain) && n <= |chain|
    ensures Walk(serve, chain[..n])
    ensures n < |chain| ==> Leads(serve, Before(chain[..n], n)) == Onward(chain[n])
    decreases |chain|
  {
    if n < |chain| {
      var shorter := chain[..|chain| - 1];
      if n < |shorter| {
        WalkPrefix(serve, shorter, n);
        assert shorter[..n] == chain[..n];
      } else {
        assert shorter == chain[..n];
      }
    } else {
      assert chain[..n] == chain;
    }
  }

  lemma {:induction false} WalksAgree<T>(serve: Server<T>, a: seq<Token>, b: seq<Token>)
    requires Walk(serve, a) && Walk(serve, b) && |a| <= |b|
    ensures a == b[..|a|]
    decreases |a|
  {
    if a != [] {
      var n := |a| - 1;
      WalkPrefix(serve, a, n);
      WalkPrefix(serve, b, n);
      WalksAgree(serve, a[..n], b);
      assert Leads(serve, Before(a[..n], n)) == Onward(a[n]);
      assert Leads(serve, Before(b[..n], n)) == Onward(b[n]);
    }
  }

  /** A walk that cannot go on validly is no part of a complete chain, and one that ended is the only one. */
  lemma WalkDecides<T>(serve: Server<T>, walk: seq<Token>, chain: seq<Token>)
    requires Walk(serve, walk)
    requires Complete(serve, chain)
    ensures match Leads(serve, Before(walk, |walk|))
            case Broken => false
            case End => walk == chain
            case Onward(token) => |walk| < |chain| && walk + [token] == chain[..|walk| + 1]
  {
    if |walk| < |chain| {
      WalksAgree(serve, walk, chain);
      WalkPrefix(serve, chain, |walk|);
    } else {
      WalksAgree(serve, chain, walk);
      WalkPrefix(serve, walk, |chain|);
    }
  }

  lemma StuckMeansIncomplete<T>(serve: Server<T>, walk: seq<Token>)
    requires Walk(serve, walk)
    requires var lead := Leads(serve, Before(walk, |walk|));
             lead.Broken? || (lead.Onward? && !ValidTokens(walk + [lead.token]))
    ensures forall chain :: !Complete(serve, chain)
  {
    forall chain | Complete(serve, chain) ensures false {
      WalkDecides(serve, walk, chain);
    }
  }

  // ----- the loop -----

  /**
   Read every page.  For a server whose tokens all come from a finite set this
   terminates, no page is read twice, and it succeeds exactly when the token
   chain is complete, with the items of its pages in order.
   */
  method ListVersions<T>(serve: Server<T>, ghost tokens: set<Token>)
    returns (r: Result<seq<T>, Failure>, ghost chain: seq<Token>)
    requires forall page :: Leads(serve, page).Onward? ==> Leads(serve, page).token in tokens
    ensures Walk(serve, chain) && ValidTokens(chain)
    ensures r.Ok? <==> exists c :: Complete(serve, c)
    ensures r.Ok? ==> Complete(serve, chain) && r.value == Gather(serve, chain)
    ensures var last := serve(Before(chain, |chain|));
            r.Err? ==> r.error == (if last.Err? then last.error
                                   else if last.value.items.None? then INVALID_LIST else INVALID_TOKEN)
  {
    var versions: seq<T> := [];
    var page: Option<Token> := None;
    var seen: set<Token> := {};
    chain := [];
    while true
      invariant Walk(serve, chain) && ValidTokens(chain)
      invariant page == Before(chain, |chain|)
      invariant forall t :: t in seen <==> t in chain
      invariant seen <= tokens
      invariant versions == if chain == [] then [] else Gather(serve, chain[..|chain| - 1])
      decreases tokens - seen
    {
      var response := serve(page);
      if response.Err? {
        StuckMeansIncomplete(serve, chain);
        return Err(response.error), chain;
      }
      if response.value.items.None? {
        StuckMeansIncomplete(serve, chain);
        return Err(INVALID_LIST), chain;
      }
      versions := versions + response.value.items.value;
      assert versions == Gather(serve, chain);
      if response.value.next.None? {
        assert Complete(serve, chain);
        return Ok(versions), chain;
      }
      var token := response.value.next.value;
      if token == Empty || token in seen {
        RepeatIsInvalid(chain, token);
        StuckMeansIncomplete(serve, chain);
        return Err(INVALID_TOKEN), chain;
      }
      assert (chain + [token])[..|chain|] == chain;
      assert Leads(serve, page) == Onward(token);
      assert token in tokens - seen;
      seen := seen + {token};
      chain := chain + [token];
      page := Some(token);
    }
  }

  lemma RepeatIsInvalid(chain: seq<Token>, token: Token)
    requires token == Empty || token in chain
    ensures !ValidTokens(chain + [token])
  {
    var longer := chain + [token];
    assert longer[|chain|] == token;
    if token != Empty {
      var i :| 0 <= i < |chain| && chain[i] == token;
      assert longer[i] == token;
    }
  }
}
