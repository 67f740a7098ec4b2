/** Validity windows (`_BIDValidateExpiry`, bid_verify.c) and issuers' authority documents
    (bid_authority.c): retrieval through a cache, and delegation. */
module Authority {
  import opened Wrappers
  import opened Json
  import opened Identity
  import opened Spn

  // ----- validity -----

  /** `_BIDValidateExpiry`. A missing expiry defaults to the issue time plus the skew. */
  function ValidateExpiry(skew: nat, t: int, o: Object): Result<()> {
    var iat := GetTimestamp(o, "iat");
    if "iat" in o && iat - t > skew then Err(InvalidAssertion)
    else if "nbf" in o && GetTimestamp(o, "nbf") - t > skew then Err(AssertionNotYetValid)
    else if "exp" !in o && iat == 0 then Err(UnknownJsonKey)
    else
      var exp := if "exp" in o then GetTimestamp(o, "exp") else iat + skew;
      if t - exp > skew then Err(ExpiredAssertion) else Ok(())
  }

  // ----- documents -----

  /** Document retrieval: the document and its HTTP expiry time. */
  type Net = string -> Result<(Object, int)>

  function Fetch(net: Net, host: string): Result<Object> {
    var (doc, expiry) :- net(host);
    Ok(SetTimestamp(doc, "exp", expiry))
  }

  predicate Fresh(ctx: Context, docs: map<string, Object>, t: int, host: string) {
    ctx.authorityCache && host in docs && ValidateExpiry(ctx.skew, t, docs[host]).Ok?
  }

  /** What `_BIDAcquireAuthority` answers: a cached document that is still valid, or a new one. */
  function Lookup(ctx: Context, docs: map<string, Object>, net: Net, t: int, host: string): Result<Object> {
    if Fresh(ctx, docs, t, host) then Ok(docs[host]) else Fetch(net, host)
  }

  // ----- delegation -----

  /** The delegation loop, from its i-th round on, at the given document. */
  function Walk(ctx: Context, lookup: string -> Result<Object>, issuer: string, doc: Object, i: nat): Result<()>
    requires i <= ctx.maxDelegations
    decreases ctx.maxDelegations - i
  {
    if i == ctx.maxDelegations then Err(UntrustedIssuer)
    else
      var authority := GetString(doc, "authority");
      if authority.None? then Err(UntrustedIssuer)
      else if CaseEqual(issuer, authority.value) then Ok(())
      else
        var next :- lookup(authority.value);
        Walk(ctx, lookup, issuer, next, i + 1)
  }

  predicate IsSecondary(ctx: Context, issuer: string) {
    exists i :: 0 <= i < |ctx.secondaryAuthorities| && CaseEqual(issuer, ctx.secondaryAuthorities[i])
  }

  /** `_BIDIssuerIsAuthoritative`. */
  function IssuerIsAuthoritative(ctx: Context, lookup: string -> Result<Object>, host: string, issuer: string): Result<()> {
    if CaseEqual(host, issuer) || IsSecondary(ctx, issuer) then Ok(())
    else
      var doc :- lookup(host);
      Walk(ctx, lookup, issuer, doc, 0)
  }

  /** The authority reached from a host after n delegations whose lookups all succeed. */
  function Hop(lookup: string -> Result<Object>, host: string, n: nat): Option<string> {
    if n == 0 then Some(host)
    else
      var prev := Hop(lookup, host, n - 1);
      if prev.Some? && lookup(prev.value).Ok? then GetString(lookup(prev.value).value, "authority") else None
  }

  ghost predicate Reaches(lookup: string -> Result<Object>, host: string, issuer: string, n: nat) {
    Hop(lookup, host, n).Some? && CaseEqual(issuer, Hop(lookup, host, n).value)
  }

  lemma {:induction false} WalkIsHops(ctx: Context, lookup: string -> Result<Object>, host: string, issuer: string, doc: Object, i: nat)
    requires i <= ctx.maxDelegations
    requires Hop(lookup, host, i).Some? && lookup(Hop(lookup, host, i).value) == Ok(doc)
    requires forall n :: 1 <= n <= i ==> !Reaches(lookup, host, issuer, n)
    ensures Walk(ctx, lookup, issuer, doc, i).Ok? <==>
            exists n :: 1 <= n <= ctx.maxDelegations && Reaches(lookup, host, issuer, n)
    decreases ctx.maxDelegations - i
  {
    hide CaseEqual;
    if i < ctx.maxDelegations {
      var authority := GetString(doc, "authority");
      assert Hop(lookup, host, i + 1) == authority;
      if authority.None? || (!CaseEqual(issuer, authority.value) && lookup(authority.value).Err?) {
        HopsStop(lookup, host, i + 1);
      } else if !CaseEqual(issuer, authority.value) {
        WalkIsHops(ctx, lookup, host, issuer, lookup(authority.value).value, i + 1);
      } else {
        var n := i + 1;
        assert Reaches(lookup, host, issuer, n);
      }
    }
  }

  lemma {:induction false} HopsStop(lookup: string -> Result<Object>, host: string, k: nat)
    requires Hop(lookup, host, k).None? || lookup(Hop(lookup, host, k).value).Err?
    ensures forall n :: n > k ==> Hop(lookup, host, n).None?
  {
    forall n | n > k
      ensures Hop(lookup, host, n).None?
    {
      HopStops(lookup, host, k, n);
    }
  }

  lemma {:induction false} HopStops(lookup: string -> Result<Object>, host: string, k: nat, n: nat)
    requires n > k
    requires Hop(lookup, host, k).None? || lookup(Hop(lookup, host, k).value).Err?
    ensures Hop(lookup, host, n).None?
  {
    if n > k + 1 {
      HopStops(lookup, host, k, n - 1);
    }
  }

  /** The issuer speaks for the host: itself, as a secondary, or by at most MaxDelegations hops. */
  ghost predicate Authoritative(ctx: Context, lookup: string -> Result<Object>, host: string, issuer: string) {
    || CaseEqual(host, issuer)
    || (exists secondary :: secondary in ctx.secondaryAuthorities && CaseEqual(issuer, secondary))
    || exists n :: 1 <= n <= ctx.maxDelegations && Reaches(lookup, host, issuer, n)
  }

  lemma SecondaryExactly(ctx: Context, issuer: string)
    ensures IsSecondary(ctx, issuer) <==> exists secondary :: secondary in ctx.secondaryAuthorities && CaseEqual(issuer, secondary)
  {
    hide CaseEqual;
    if secondary :| secondary in ctx.secondaryAuthorities && CaseEqual(issuer, secondary) {
      var i :| 0 <= i < |ctx.secondaryAuthorities| && ctx.secondaryAuthorities[i] == secondary;
    }
  }

  /** An issuer that is not authoritative is reported as not trusted, unless a document cannot be had. */
  lemma {:induction false} UntrustedUnlessMissing(ctx: Context, lookup: string -> Result<Object>, issuer: string, doc: Object, i: nat)
    requires i <= ctx.maxDelegations && forall host :: lookup(host).Ok?
    ensures Walk(ctx, lookup, issuer, doc, i).Ok? || Walk(ctx, lookup, issuer, doc, i) == Err(UntrustedIssuer)
    decreases ctx.maxDelegations - i
  {
    hide CaseEqual;
    if i < ctx.maxDelegations && GetString(doc, "authority").Some? {
      UntrustedUnlessMissing(ctx, lookup, issuer, lookup(GetString(doc, "authority").value).value, i + 1);
    }
  }

  /** An issuer is authoritative for a host exactly when it is that host, a secondary authority,
      or reached by one to MaxDelegations delegations. Delegation cycles end at the bound. */
  lemma AuthoritativeExactly(ctx: Context, lookup: string -> Result<Object>, host: string, issuer: string)
    ensures IssuerIsAuthoritative(ctx, lookup, host, issuer).Ok? <==> Authoritative(ctx, lookup, host, issuer)
  {
    hide CaseEqual;
    SecondaryExactly(ctx, issuer);
    if !CaseEqual(host, issuer) && !IsSecondary(ctx, issuer) {
      if lookup(host).Ok? {
        WalkIsHops(ctx, lookup, host, issuer, lookup(host).value, 0);
      } else {
        HopsStop(lookup, host, 0);
      }
    }
  }

  /** The authority cache, updated by every lookup that goes to the network. */
  class AuthorityCache {
    var docs: map<string, Object>

    constructor ()
      ensures docs == map[]
    {
      docs := map[];
    }

    /** `_BIDAcquireAuthority`. Storing the document changes no later answer at this time. */
    method AcquireAuthority(ctx: Context, net: Net, t: int, host: string) returns (r: Result<Object>)
      modifies this
      ensures r == Lookup(ctx, old(docs), net, t, host)
      ensures forall h :: Lookup(ctx, docs, net, t, h) == Lookup(ctx, old(docs), net, t, h)
      ensures docs == if ctx.authorityCache && r.Ok? then old(docs)[host := r.value] else old(docs)
    {
      hide ValidateExpiry;
      if ctx.authorityCache && host in docs {
        var valid := ValidateExpiry(ctx.skew, t, docs[host]);
        if valid.Ok? {
          assert docs == docs[host := docs[host]];
          return Ok(docs[host]);
        }
      }
      var fetched :- net(host);
      var (received, expiry) := fetched;
      var doc := SetTimestamp(received, "exp", expiry);
      if ctx.authorityCache {
        docs := docs[host := doc];
      }
      return Ok(doc);
    }

    /** The delegation loop of `_BIDIssuerIsAuthoritative`. */
    method FollowDelegations(ctx: Context, net: Net, t: int, issuer: string, doc: Object, ghost lookup: string -> Result<Object>)
      returns (r: Result<()>)
      requires forall h :: lookup(h) == Lookup(ctx, docs, net, t, h)
      modifies this
      ensures r == Walk(ctx, lookup, issuer, doc, 0)
      ensures forall h :: lookup(h) == Lookup(ctx, docs, net, t, h)
    {
      hide CaseEqual, Lookup;
      var authority := doc;
      for i := 0 to ctx.maxDelegations
        invariant forall h :: lookup(h) == Lookup(ctx, docs, net, t, h)
        invariant Walk(ctx, lookup, issuer, authority, i) == Walk(ctx, lookup, issuer, doc, 0)
      {
        var name := GetString(authority, "authority");
        if name.None? {
          return Err(UntrustedIssuer);
        }
        if CaseEqual(issuer, name.value) {
          return Ok(());
        }
        authority :- AcquireAuthority(ctx, net, t, name.value);
      }
      return Err(UntrustedIssuer);
    }

    /** `_BIDIssuerIsAuthoritative`, with lookups that fill the cache as it goes. */
    method CheckIssuer(ctx: Context, net: Net, t: int, host: string, issuer: string, ghost lookup: string -> Result<Object>)
      returns (r: Result<()>)
      requires forall h :: lookup(h) == Lookup(ctx, docs, net, t, h)
      modifies this
      ensures r == IssuerIsAuthoritative(ctx, lookup, host, issuer)
      ensures forall h :: lookup(h) == Lookup(ctx, docs, net, t, h)
    {
      hide CaseEqual, Lookup, Walk;
      if CaseEqual(host, issuer) {
        return Ok(());
      }
      for k := 0 to |ctx.secondaryAuthorities|
        invariant docs == old(docs)
        invariant forall j :: 0 <= j < k ==> !CaseEqual(issuer, ctx.secondaryAuthorities[j])
      {
        if CaseEqual(issuer, ctx.secondaryAuthorities[k]) {
          return Ok(());
        }
      }
      var doc :- AcquireAuthority(ctx, net, t, host);
      r := FollowDelegations(ctx, net, t, issuer, doc, lookup);
    }
  }
}
