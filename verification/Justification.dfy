/** What a verification decision means: an assertion is accepted exactly when it is justified by
    a certificate, an X.509 chain, a key of the sender beside such a chain, or a ticket. */
module Justification {
  import opened Wrappers
  import opened Json
  import opened Crypto
  import opened Identity
  import opened BackedAssertion
  import opened Ticket
  import opened Verify
  import Authority
  import Base64
  import KeySet
  import Jwt
  import Spn

  // ----- the parts -----

  /** Issued and valid from no later than the skewed time, and not expired before it. */
  ghost predicate InWindow(skew: nat, t: int, o: Object) {
    && ("iat" in o ==> GetTimestamp(o, "iat") <= t + skew)
    && ("nbf" in o ==> GetTimestamp(o, "nbf") <= t + skew)
    && ("exp" in o ==> t <= GetTimestamp(o, "exp") + skew)
    && ("exp" !in o ==> GetTimestamp(o, "iat") != 0 && t <= GetTimestamp(o, "iat") + 2 * skew)
  }

  ghost predicate AudienceMatches(ctx: Context, claims: Object, aud: Option<string>) {
    aud.Some? ==>
      var asserted := GetString(claims, "aud");
      asserted.Some? && (asserted == aud || (ctx.hostSpnAlias && Spn.Hostify(aud.value) == Ok(asserted.value)))
  }

  ghost predicate BindingsMatch(claims: Object, cb: Option<bytes>) {
    cb.Some? ==> GetBinary(claims, "cb") == Ok(cb.value)
  }

  ghost predicate Verifies(c: Crypto, jwt: Jwt.Jwt, key: Json) {
    KeySet.VerifySignature(c, jwt.header, jwt.SigningInput(), jwt.signature, Some(key)).Ok?
  }

  // ----- the four justifications -----

  /** The certificate is the issuer's, for a mail address in the domain. */
  ghost predicate Names(cert: Object, domain: string, issuer: string) {
    && "principal" in cert && GetString(cert, "iss") == Some(issuer)
    && var email := GetString(Members(cert["principal"]), "email");
    && email.Some?
    && exists at :: 0 <= at < |email.value| && email.value[at] == '@' && domain == email.value[at + 1..]
                    && forall i :: 0 <= i < at ==> email.value[i] != '@'
  }

  /** The issuer is authoritative for the domain, and its document's key signed the certificate, which is
      in its validity window. */
  ghost predicate IssuedBy(c: Crypto, out: Outside, ctx: Context, cert: Jwt.Jwt, t: int, domain: string, issuer: string) {
    && Names(cert.Claims(), domain, issuer)
    && Authority.Authoritative(ctx, out.lookup, domain, issuer)
    && out.lookup(issuer).Ok? && "public-key" in out.lookup(issuer).value
    && InWindow(ctx.skew, t, cert.Claims())
    && Verifies(c, cert, Obj(out.lookup(issuer).value))
  }

  ghost predicate CertificateHolds(c: Crypto, out: Outside, ctx: Context, cert: Jwt.Jwt, t: int) {
    exists domain, issuer :: IssuedBy(c, out, ctx, cert, t, domain, issuer)
  }

  ghost predicate ByCertificate(c: Crypto, out: Outside, ctx: Context, ba: BackedAssertion, t: int) {
    && |ba.certificates| == 1
    && CertificateHolds(c, out, ctx, ba.certificates[0], t)
    && Verifies(c, ba.assertion, ba.certificates[0].payload)
    && "exp" in ba.assertion.Claims()
  }

  /** The X.509 chain in the header is valid and names a subject. */
  ghost predicate ChainHolds(out: Outside, ba: BackedAssertion) {
    && ba.certificates == [] && "x5c" in ba.assertion.header
    && out.x509Valid(ba.assertion.header["x5c"]).Ok?
    && var attributes := out.x509Attributes(ba.assertion.header["x5c"]);
    && attributes.Ok? && "principal" in attributes.value && "email" in Members(attributes.value["principal"])
    && "exp" in ba.assertion.Claims()
  }

  /** The sender put a key of its own into the header. */
  predicate BringsKey(header: Object) {
    "keys" in header || "public-key" in header || "secret-key" in header
  }

  /** A public-key algorithm verified the signature under the header itself, whose "x5c" is the key. */
  ghost predicate SignedByChain(c: Crypto, ap: Jwt.Jwt) {
    exists j :: 0 <= j < |KeySet.ALGORITHMS| && ChainSigns(c, ap, KeySet.ALGORITHMS[j])
  }

  ghost predicate ChainSigns(c: Crypto, ap: Jwt.Jwt, alg: KeySet.Algorithm) {
    && alg.keyId != "HS" && GetString(ap.header, "alg") == Some(alg.id) && ap.signature != []
    && KeySet.KeyMatches(c, alg, Obj(ap.header))
    && c.pkVerify(alg.id, Obj(ap.header), ap.SigningInput(), ap.signature) == Ok(true)
  }

  /** Signed with the key of a valid chain. */
  ghost predicate ByChain(c: Crypto, out: Outside, ba: BackedAssertion) {
    ChainHolds(out, ba) && !BringsKey(ba.assertion.header) && SignedByChain(c, ba.assertion)
  }

  /** Signed with a key that the sender put into the header beside someone's valid chain. */
  ghost predicate BySenderKey(c: Crypto, out: Outside, ba: BackedAssertion) {
    ChainHolds(out, ba) && BringsKey(ba.assertion.header) && Verifies(c, ba.assertion, Obj(ba.assertion.header))
  }

  /** The entry is unexpired, of the context's curve, and its ark signed the authenticator. */
  ghost predicate TicketHolds(c: Crypto, ctx: Context, entry: Object, ap: Jwt.Jwt, t: int) {
    && (ctx.curve.Some? ==> GetString(entry, "crv") == ctx.curve)
    && InWindow(ctx.skew, t, entry)
    && "ark" in entry && Verifies(c, ap, entry["ark"])
    && SessionKey(c, entry, ap.Claims()).Ok?
  }

  ghost predicate ByTicket(c: Crypto, ctx: Context, cache: Cache, ba: BackedAssertion, q: Request) {
    && ba.certificates == [] && "x5c" !in ba.assertion.header
    && q.reauth && ctx.reauth
    && var tid := TicketId(ba.assertion.Claims());
    && tid.Some? && tid.value in cache
    && TicketHolds(c, ctx, cache[tid.value], ba.assertion, q.t)
  }

  ghost predicate ClaimsHold(ctx: Context, claims: Object, q: Request) {
    && AudienceMatches(ctx, claims, q.aud) && BindingsMatch(claims, q.cb)
    && InWindow(ctx.skew, q.t, claims)
    && ("opts" in claims ==> claims["opts"].Arr?)
  }

  // ----- each check, exactly -----

  lemma WindowExactly(skew: nat, t: int, o: Object)
    ensures Authority.ValidateExpiry(skew, t, o).Ok? <==> InWindow(skew, t, o)
  {
  }

  /** When an expiry defaults to the issue time plus the skew. */
  function ExpiryOf(skew: nat, o: Object): int {
    if "exp" in o then GetTimestamp(o, "exp") else GetTimestamp(o, "iat") + skew
  }

  /** Which error tells what is wrong with a window, in the order in which its ends are looked at. */
  lemma WindowErrors(skew: nat, t: int, o: Object)
    ensures var r := Authority.ValidateExpiry(skew, t, o);
            var early, notYet := "iat" in o && GetTimestamp(o, "iat") > t + skew, "nbf" in o && GetTimestamp(o, "nbf") > t + skew;
            var unlimited := "exp" !in o && GetTimestamp(o, "iat") == 0;
            && (r == Err(InvalidAssertion) <==> early)
            && (r == Err(AssertionNotYetValid) <==> !early && notYet)
            && (r == Err(UnknownJsonKey) <==> !early && !notYet && unlimited)
            && (r == Err(ExpiredAssertion) <==> !early && !notYet && !unlimited && t > ExpiryOf(skew, o) + skew)
            && (r.Ok? <==> !early && !notYet && !unlimited && t <= ExpiryOf(skew, o) + skew)
  {
    hide Truncate;
  }

  /** A cached document may be used. */
  ghost predicate Usable(ctx: Context, docs: map<string, Object>, t: int, host: string) {
    ctx.authorityCache && host in docs && InWindow(ctx.skew, t, docs[host])
  }

  /** A lookup answers the cached document exactly while it is in its window and the cache is on. Otherwise it answers
      what the network does, with the HTTP expiry as the document's own. */
  lemma LookupExactly(ctx: Context, docs: map<string, Object>, net: Authority.Net, t: int, host: string)
    ensures var r, fetched := Authority.Lookup(ctx, docs, net, t, host), net(host);
            if Usable(ctx, docs, t, host) then r == Ok(docs[host])
            else if fetched.Ok? then r == Ok(fetched.value.0["exp" := Int(fetched.value.1 * 1000)])
            else r == Err(fetched.error)
  {
    hide Authority.ValidateExpiry, InWindow;
    if host in docs {
      WindowExactly(ctx.skew, t, docs[host]);
    }
  }

  /** So a document that was fetched into the cache and sets no other window serves until its HTTP expiry and the skew
      are over; from then on the network is asked again. */
  lemma ServesUntilExpiry(ctx: Context, docs: map<string, Object>, net: Authority.Net, t: int, host: string, net': Authority.Net, t': int)
    requires ctx.authorityCache && !Usable(ctx, docs, t, host) && net(host).Ok?
    requires "iat" !in net(host).value.0 && "nbf" !in net(host).value.0
    ensures var first := Authority.Lookup(ctx, docs, net, t, host);
            && first.Ok?
            && Authority.Lookup(ctx, docs[host := first.value], net', t', host) ==
               if t' <= net(host).value.1 + ctx.skew then first else Authority.Fetch(net', host)
  {
    hide InWindow, Truncate, Authority.Lookup;
    LookupExactly(ctx, docs, net, t, host);
    var doc := Authority.Lookup(ctx, docs, net, t, host).value;
    LookupExactly(ctx, docs[host := doc], net', t', host);
    WindowOf(ctx.skew, t', net(host).value.0, net(host).value.1);
  }

  lemma WindowOf(skew: nat, t: int, received: Object, expiry: int)
    requires "iat" !in received && "nbf" !in received
    ensures InWindow(skew, t, received["exp" := Int(expiry * 1000)]) <==> t <= expiry + skew
  {
    TimestampRoundTrip(received, "exp", expiry);
    assert "exp" != "iat" && "exp" != "nbf";
  }

  lemma AudienceExactly(ctx: Context, claims: Object, aud: Option<string>, cb: Option<bytes>)
    ensures ValidateAudience(ctx, claims, aud, cb).Ok? <==> AudienceMatches(ctx, claims, aud) && BindingsMatch(claims, cb)
  {
    hide GetBinary, Spn.Hostify, Spn.HostAlias;
    if aud.Some? && GetString(claims, "aud").Some? {
      Spn.AliasIsCanonical(aud.value, GetString(claims, "aud").value);
    }
  }

  /** Which error tells what is wrong with an audience, and then with channel bindings. */
  lemma AudienceErrors(ctx: Context, claims: Object, aud: Option<string>, cb: Option<bytes>)
    ensures var r, asserted, bound := ValidateAudience(ctx, claims, aud, cb), GetString(claims, "aud"), GetBinary(claims, "cb");
            && (aud.Some? && asserted.None? ==> r == Err(MissingAudience))
            && (asserted.Some? && !AudienceMatches(ctx, claims, aud) ==> r == Err(BadAudience))
            && (AudienceMatches(ctx, claims, aud) && cb.Some? ==>
                  && (GetString(claims, "cb").None? ==> r == Err(MissingChannelBindings))
                  && (bound.Ok? && bound.value != cb.value ==> r == Err(ChannelBindingsMismatch)))
  {
    hide Base64.Decode, Spn.HostStart, Spn.HostEnd, Spn.Lower;
    if aud.Some? && GetString(claims, "aud").Some? {
      Spn.AliasIsCanonical(aud.value, GetString(claims, "aud").value);
    }
    if GetString(claims, "cb").Some? {
      Base64.DecodeErrors(GetString(claims, "cb").value);
    }
  }

  /** What an identity is made of: the certified attributes with the mail address as the subject, and in private what
      the assertion says. */
  lemma PopulatedExactly(ctx: Context, attributes: Object, claims: Object)
    ensures var r := PopulateIdentity(ctx, attributes, claims);
            && (r.Ok? <==> "principal" in attributes && "email" in Members(attributes["principal"]) && "exp" in claims)
            && (r.Ok? ==>
                  && r.value.attributes == attributes["sub" := Members(attributes["principal"])["email"]]
                  && r.value.priv.aud == Get(claims, "aud") && r.value.priv.nonce == Get(claims, "nonce")
                  && r.value.priv.opts == Get(claims, "opts") && r.value.priv.aExp == Get(claims, "exp")
                  && r.value.priv.tkt.None? && r.value.priv.jti.None? && r.value.priv.renewExp.None? && r.value.secret.None?
                  && (r.value.priv.epk.Some? <==> ctx.curve.Some? && "epk" in claims))
  {
  }

  /** Certificate j is in its window and signed by the key before it, which is `key` for j == i. */
  ghost predicate LinkHolds(c: Crypto, skew: nat, t: int, certs: seq<Jwt.Jwt>, i: nat, key: Json, j: nat)
    requires i <= j < |certs|
  {
    InWindow(skew, t, certs[j].Claims()) && Verifies(c, certs[j], if j == i then key else certs[j - 1].payload)
  }

  /** A chain of any length holds exactly when every link does. */
  lemma {:induction false} ChainExactly(c: Crypto, skew: nat, t: int, certs: seq<Jwt.Jwt>, i: nat, key: Json)
    requires i <= |certs|
    ensures ChainFrom(c, skew, t, certs, i, key).Ok? <==>
            forall j :: i <= j < |certs| ==> LinkHolds(c, skew, t, certs, i, key, j)
    decreases |certs| - i
  {
    hide InWindow, Authority.ValidateExpiry, KeySet.VerifySignature;
    if i < |certs| {
      WindowExactly(skew, t, certs[i].Claims());
      var next, key' := i + 1, certs[i].payload;
      ChainExactly(c, skew, t, certs, next, key');
      forall j | next <= j < |certs|
        ensures LinkHolds(c, skew, t, certs, i, key, j) == LinkHolds(c, skew, t, certs, next, key', j)
      {
      }
      assert ChainFrom(c, skew, t, certs, i, key).Ok? <==>
             LinkHolds(c, skew, t, certs, i, key, i) && ChainFrom(c, skew, t, certs, next, key').Ok?;
    }
  }

  lemma NamesExactly(cert: Object, domain: string, issuer: string)
    ensures Names(cert, domain, issuer) <==> CertIssuer(cert) == Ok((domain, issuer))
  {
    if "principal" in cert && GetString(Members(cert["principal"]), "email").Some? {
      var email := GetString(Members(cert["principal"]), "email").value;
      var at := Jwt.IndexOf(email, '@', 0);
      assert at < |email| ==> email[at] == '@';
    }
  }

  /** Which error tells that a certificate names no mail address or no issuer. */
  lemma NameErrors(cert: Object)
    ensures var r, email := CertIssuer(cert), if "principal" in cert then GetString(Members(cert["principal"]), "email") else None;
            && ("principal" !in cert ==> r == Err(MissingPrincipal))
            && ("principal" in cert && email.None? ==> r == Err(UnknownPrincipalType))
            && (email.Some? && '@' !in email.value ==> r == Err(InvalidIssuer))
            && (email.Some? && '@' in email.value && GetString(cert, "iss").None? ==> r == Err(MissingIssuer))
  {
    if "principal" in cert && GetString(Members(cert["principal"]), "email").Some? {
      var email := GetString(Members(cert["principal"]), "email").value;
      var at := Jwt.IndexOf(email, '@', 0);
      assert at < |email| ==> email[at] == '@';
    }
  }

  lemma CertificateExactly(c: Crypto, out: Outside, ctx: Context, cert: Jwt.Jwt, t: int)
    ensures ValidateCertIssuer(ctx, out.lookup, [cert]).Ok? && ValidateCertChain(c, ctx, out.lookup, [cert], t).Ok? <==>
            CertificateHolds(c, out, ctx, cert, t)
  {
    hide InWindow, Authority.ValidateExpiry, KeySet.VerifySignature, Authority.IssuerIsAuthoritative, CertIssuer, Names, IssuedBy,
         ValidateCertChain;
    var names := CertIssuer(cert.Claims());
    if names.Ok? {
      var (domain, issuer) := names.value;
      NamesExactly(cert.Claims(), domain, issuer);
      IssuedExactly(c, out, ctx, cert, t, domain, issuer);
    }
    if CertificateHolds(c, out, ctx, cert, t) {
      var domain, issuer :| IssuedBy(c, out, ctx, cert, t, domain, issuer);
      assert Names(cert.Claims(), domain, issuer) by {
        IssuedNames(c, out, ctx, cert, t, domain, issuer);
      }
      NamesExactly(cert.Claims(), domain, issuer);
    }
  }

  /** A certificate of an authoritative issuer that has lapsed is told apart from an assertion that has. */
  lemma LapsedCertificate(c: Crypto, out: Outside, ctx: Context, cert: Jwt.Jwt, t: int)
    requires RootKey(out.lookup, cert.Claims()).Ok?
    ensures var r, claims := ValidateCertChain(c, ctx, out.lookup, [cert], t), cert.Claims();
            var early := "iat" in claims && GetTimestamp(claims, "iat") > t + ctx.skew;
            var notYet := "nbf" in claims && GetTimestamp(claims, "nbf") > t + ctx.skew;
            && (!early && notYet ==> r == Err(CertNotYetValid))
            && (!early && !notYet && "exp" in claims && t > GetTimestamp(claims, "exp") + ctx.skew ==> r == Err(ExpiredCert))
  {
    hide Truncate, RootKey, KeySet.VerifySignature;
    WindowErrors(ctx.skew, t, cert.Claims());
  }

  lemma IssuedNames(c: Crypto, out: Outside, ctx: Context, cert: Jwt.Jwt, t: int, domain: string, issuer: string)
    requires IssuedBy(c, out, ctx, cert, t, domain, issuer)
    ensures Names(cert.Claims(), domain, issuer)
  {
  }

  lemma IssuedExactly(c: Crypto, out: Outside, ctx: Context, cert: Jwt.Jwt, t: int, domain: string, issuer: string)
    requires Names(cert.Claims(), domain, issuer)
    ensures Authority.IssuerIsAuthoritative(ctx, out.lookup, domain, issuer).Ok? && ValidateCertChain(c, ctx, out.lookup, [cert], t).Ok? <==>
            IssuedBy(c, out, ctx, cert, t, domain, issuer)
  {
    hide InWindow, Authority.ValidateExpiry, KeySet.VerifySignature, Authority.IssuerIsAuthoritative;
    Authority.AuthoritativeExactly(ctx, out.lookup, domain, issuer);
    var root := RootKey(out.lookup, cert.Claims());
    if root.Ok? {
      ChainExactly(c, ctx.skew, t, [cert], 0, root.value);
      assert ValidateCertChain(c, ctx, out.lookup, [cert], t).Ok? <==> LinkHolds(c, ctx.skew, t, [cert], 0, root.value, 0);
    }
  }

  lemma TicketExactly(c: Crypto, ctx: Context, entry: Object, ap: Jwt.Jwt, t: int)
    ensures CheckTicket(c, ctx, entry, ap, t).Ok? <==> TicketHolds(c, ctx, entry, ap, t)
  {
    hide InWindow, Authority.ValidateExpiry, KeySet.VerifySignature, SessionKey;
    WindowExactly(ctx.skew, t, entry);
    KeySet.NoKeyNoSignature(c, ap.header, ap.SigningInput(), ap.signature);
  }

  /** The flags that the ticket check raises, also before it fails: that there is a ticket id, and mutual authentication
      if the entry is of the context's curve, in its window and vouches for it. */
  lemma TicketFlagsExactly(c: Crypto, ctx: Context, cache: Cache, ap: Jwt.Jwt, t: int)
    ensures var flags, tid := VerifyReauth(c, ctx, cache, ap, t).1, TicketId(ap.Claims());
            && flags.(reauth := false, reauthMutual := false) == NO_FLAGS && (flags.reauth <==> tid.Some?)
            && (flags.reauthMutual <==>
                  && tid.Some? && tid.value in cache && (ctx.curve.Some? ==> GetString(cache[tid.value], "crv") == ctx.curve)
                  && InWindow(ctx.skew, t, cache[tid.value]) && IntegerValue(Get(cache[tid.value], "flags")) / 2 % 2 == 1)
  {
    hide Authority.ValidateExpiry, InWindow, CheckTicket;
    var tid := TicketId(ap.Claims());
    if tid.Some? && tid.value in cache {
      WindowExactly(ctx.skew, t, cache[tid.value]);
    }
  }

  lemma ClaimsExactly(ctx: Context, ap: Jwt.Jwt, q: Request, flags: Flags)
    ensures ClaimsHold(ctx, ap.Claims(), q) <==>
            && ValidateAudience(ctx, ap.Claims(), q.aud, q.cb).Ok?
            && Authority.ValidateExpiry(ctx.skew, q.t, ap.Claims()).Ok?
            && ParseOpts(Get(ap.Claims(), "opts"), flags).Ok?
  {
    hide InWindow, Authority.ValidateExpiry, AudienceMatches, BindingsMatch, ValidateAudience, RaiseOpts;
    AudienceExactly(ctx, ap.Claims(), q.aud, q.cb);
    WindowExactly(ctx.skew, q.t, ap.Claims());
  }

  // ----- the theorem -----

  ghost predicate Justified(c: Crypto, out: Outside, ctx: Context, cache: Cache, ba: BackedAssertion, q: Request) {
    && ClaimsHold(ctx, ba.assertion.Claims(), q)
    && (ByCertificate(c, out, ctx, ba, q.t) || ByChain(c, out, ba) || BySenderKey(c, out, ba) || ByTicket(c, ctx, cache, ba, q))
  }

  lemma CertificateCase(c: Crypto, out: Outside, ctx: Context, cache: Cache, ba: BackedAssertion, q: Request)
    requires ba.certificates != []
    ensures Local(c, out, ctx, cache, ba, q).0.Ok? <==>
            ClaimsHold(ctx, ba.assertion.Claims(), q) && ByCertificate(c, out, ctx, ba, q.t)
  {
    hide Authority.ValidateExpiry, KeySet.VerifySignature, ParseOpts, ValidateAudience, ValidateCertIssuer,
         ValidateCertChain, CertificateHolds, ClaimsHold;
    ClaimsExactly(ctx, ba.assertion, q, NO_FLAGS.(validatedCerts := true));
    if |ba.certificates| == 1 {
      var cert := ba.certificates[0];
      assert ba.certificates == [cert];
      CertificateExactly(c, out, ctx, cert, q.t);
      assert CertificateHolds(c, out, ctx, cert, q.t) ==>
        "principal" in cert.Claims() && "email" in Members(cert.Claims()["principal"]) by {
        CertificateNamesEmail(c, out, ctx, cert, q.t);
      }
    }
  }

  lemma CertificateNamesEmail(c: Crypto, out: Outside, ctx: Context, cert: Jwt.Jwt, t: int)
    ensures CertificateHolds(c, out, ctx, cert, t) ==>
      "principal" in cert.Claims() && "email" in Members(cert.Claims()["principal"])
  {
  }

  /** Which key a header selects for itself. */
  lemma HeaderSelects(c: Crypto, header: Object, alg: KeySet.Algorithm, key: Json)
    requires KeySet.FindKey(c, alg, Obj(header)) == Ok(key) && exists j :: 0 <= j < |KeySet.ALGORITHMS| && KeySet.ALGORITHMS[j] == alg
    ensures KeySet.KeyMatches(c, alg, key)
    ensures key == Obj(header) <==> "keys" !in header && "public-key" !in header
    ensures key == Obj(header) && "secret-key" in header ==> alg.keyId == "HS"
  {
    hide KeySet.FindKey;
    KeySet.FoundInside(c, alg, Obj(header));
    var j :| 0 <= j < |KeySet.ALGORITHMS| && KeySet.ALGORITHMS[j] == alg;
    KeySet.OnlyHmac(j);
  }

  /** The key that verifies an assertion under its own header is the chain's exactly when the sender put
      no key into the header. */
  lemma ChainKeyExactly(c: Crypto, ap: Jwt.Jwt)
    requires Verifies(c, ap, Obj(ap.header))
    ensures var (alg, key) := SelectedKey(c, ap);
            key == Obj(ap.header) && alg.keyId != "HS" <==> !BringsKey(ap.header)
    ensures !BringsKey(ap.header) ==> SignedByChain(c, ap)
  {
    hide KeySet.FindKey, KeySet.KeyMatches, KeySet.Verifier, GetBinary;
    var name := GetString(ap.header, "alg").value;
    var (alg, key) := KeySet.Verifier(c, Some(Obj(ap.header)), name).value;
    Selects(c, Obj(ap.header), name);
    HeaderSelects(c, ap.header, alg, key);
    NoSecret(ap.header);
    assert !BringsKey(ap.header) ==> ChainSigns(c, ap, alg);
  }

  lemma Selects(c: Crypto, keyset: Json, name: string)
    requires KeySet.Verifier(c, Some(keyset), name).Ok?
    ensures var (alg, key) := KeySet.Verifier(c, Some(keyset), name).value;
            && KeySet.FindKey(c, alg, keyset) == Ok(key) && alg.id == name
            && exists j :: 0 <= j < |KeySet.ALGORITHMS| && KeySet.ALGORITHMS[j] == alg
  {
    hide KeySet.FindKey;
    KeySet.VerifierIsInTable(c, keyset, name, 0, UnknownAlgorithm);
  }

  lemma NoSecret(header: Object)
    ensures "secret-key" !in header ==> GetBinary(header, "secret-key").Err?
  {
  }

  /** The algorithm and the key that verify an assertion under its own header. */
  ghost function SelectedKey(c: Crypto, ap: Jwt.Jwt): (KeySet.Algorithm, Json)
    requires Verifies(c, ap, Obj(ap.header))
  {
    KeySet.Verifier(c, Some(Obj(ap.header)), GetString(ap.header, "alg").value).value
  }

  /** Conversely, a signature of the chain's key verifies under a header without other keys. */
  lemma ChainVerifies(c: Crypto, ap: Jwt.Jwt)
    requires SignedByChain(c, ap) && !BringsKey(ap.header)
    ensures Verifies(c, ap, Obj(ap.header))
  {
    hide KeySet.KeyMatches;
    var j :| 0 <= j < |KeySet.ALGORITHMS| && ChainSigns(c, ap, KeySet.ALGORITHMS[j]);
    KeySet.VerifierSkips(c, Some(Obj(ap.header)), j, 0, UnknownAlgorithm);
  }

  /** An assertion verifies under its own header by the chain's key, or by one that the sender put there. */
  lemma HeaderKeyExactly(c: Crypto, ap: Jwt.Jwt)
    ensures Verifies(c, ap, Obj(ap.header)) <==>
            (!BringsKey(ap.header) && SignedByChain(c, ap)) || (BringsKey(ap.header) && Verifies(c, ap, Obj(ap.header)))
  {
    hide Verifies, SignedByChain, BringsKey;
    if Verifies(c, ap, Obj(ap.header)) {
      ChainKeyExactly(c, ap);
    } else if !BringsKey(ap.header) && SignedByChain(c, ap) {
      ChainVerifies(c, ap);
    }
  }

  lemma X509Case(c: Crypto, out: Outside, ctx: Context, cache: Cache, ba: BackedAssertion, q: Request)
    requires ba.certificates == [] && "x5c" in ba.assertion.header
    ensures Local(c, out, ctx, cache, ba, q).0.Ok? <==>
            ClaimsHold(ctx, ba.assertion.Claims(), q) && (ByChain(c, out, ba) || BySenderKey(c, out, ba))
  {
    hide Authority.ValidateExpiry, KeySet.VerifySignature, ParseOpts, ValidateAudience, ClaimsHold, SignedByChain, BringsKey;
    var ap := ba.assertion;
    ClaimsExactly(ctx, ap, q, NO_FLAGS.(x509 := true, validatedCerts := true));
    HeaderKeyExactly(c, ap);
  }

  lemma TicketCase(c: Crypto, out: Outside, ctx: Context, cache: Cache, ba: BackedAssertion, q: Request)
    requires ba.certificates == [] && "x5c" !in ba.assertion.header
    ensures Local(c, out, ctx, cache, ba, q).0.Ok? <==>
            ClaimsHold(ctx, ba.assertion.Claims(), q) && ByTicket(c, ctx, cache, ba, q)
  {
    hide Authority.ValidateExpiry, KeySet.VerifySignature, ParseOpts, ValidateAudience, ClaimsHold, CheckTicket, TicketHolds;
    ClaimsExactly(ctx, ba.assertion, q, VerifyReauth(c, ctx, cache, ba.assertion, q.t).1);
    var tid := TicketId(ba.assertion.Claims());
    if q.reauth && ctx.reauth && tid.Some? && tid.value in cache {
      TicketExactly(c, ctx, cache[tid.value], ba.assertion, q.t);
      if TicketHolds(c, ctx, cache[tid.value], ba.assertion, q.t) {
        TicketVerifies(c, ctx, cache[tid.value], ba.assertion, q.t);
      }
    }
  }

  lemma TicketVerifies(c: Crypto, ctx: Context, entry: Object, ap: Jwt.Jwt, t: int)
    requires TicketHolds(c, ctx, entry, ap, t)
    ensures KeySet.VerifySignature(c, ap.header, ap.SigningInput(), ap.signature, Get(entry, "ark")).Ok?
  {
  }

  /** `_BIDVerifyLocal` accepts an initiator's assertion exactly when it is justified. */
  lemma AcceptedExactlyWhenJustified(c: Crypto, out: Outside, ctx: Context, cache: Cache, ba: BackedAssertion, q: Request)
    ensures Local(c, out, ctx, cache, ba, q).0.Ok? <==> Justified(c, out, ctx, cache, ba, q)
  {
    hide Local, ClaimsHold, CertificateHolds, TicketHolds, Verifies, SignedByChain, BringsKey;
    if ba.certificates != [] {
      CertificateCase(c, out, ctx, cache, ba, q);
    } else if "x5c" in ba.assertion.header {
      X509Case(c, out, ctx, cache, ba, q);
    } else {
      TicketCase(c, out, ctx, cache, ba, q);
    }
  }

  // ----- a key in the header -----

  /** The shortfall at its simplest: beside anyone's valid chain, a sender puts a secret key of its own
      choice and signs with it. If the claims hold, that is accepted. */
  lemma SenderKeyAccepted(c: Crypto, out: Outside, ctx: Context, cache: Cache, ba: BackedAssertion, q: Request, k: bytes)
    requires ChainHolds(out, ba) && ClaimsHold(ctx, ba.assertion.Claims(), q)
    requires var header := ba.assertion.header;
             && "keys" !in header && "public-key" !in header && GetString(header, "alg") == Some("HS256")
             && GetBinary(header, "secret-key") == Ok(k)
    requires ba.assertion.signature == c.hmac(k, ba.assertion.SigningInput()) && ba.assertion.signature != []
    ensures Local(c, out, ctx, cache, ba, q).0.Ok?
  {
    hide Local, ClaimsHold, GetBinary, ByChain, ByCertificate, ByTicket;
    AcceptedExactlyWhenJustified(c, out, ctx, cache, ba, q);
    NoSecret(ba.assertion.header);
    SecretVerifies(c, ba.assertion, k);
  }

  lemma SecretVerifies(c: Crypto, ap: Jwt.Jwt, k: bytes)
    requires "keys" !in ap.header && "public-key" !in ap.header && GetString(ap.header, "alg") == Some("HS256")
    requires "secret-key" in ap.header && GetBinary(ap.header, "secret-key") == Ok(k)
    requires ap.signature == c.hmac(k, ap.SigningInput()) && ap.signature != []
    ensures Verifies(c, ap, Obj(ap.header))
  {
    hide GetBinary;
    KeySet.VerifierSkips(c, Some(Obj(ap.header)), 5, 0, UnknownAlgorithm);
  }
}
