/** The verification decision for a relying party's response: `_BIDVerifyLocal` of bid_verify.c under
    BID_VERIFY_FLAG_RP, and what it means. */
module RpDecision {
  import opened Wrappers
  import opened Json
  import opened Crypto
  import opened Identity
  import opened BackedAssertion
  import opened Ticket
  import opened Verify
  import opened Justification
  import opened Subject
  import Authority
  import KeySet
  import Jwt

  /** `_BIDValidateCertIssuer` for a host certificate: the host name is the authority. */
  function HostIssuer(cert: Object): Result<(string, string)> {
    if "principal" !in cert then Err(MissingPrincipal)
    else
      var host := GetString(Members(cert["principal"]), "hostname");
      if host.None? then Err(InvalidIssuer)
      else if GetString(cert, "iss").None? then Err(MissingIssuer)
      else Ok((host.value, GetString(cert, "iss").value))
  }

  /** The certificates of a response: none, or one that the host's authority issued. */
  function CheckHostCertificates(c: Crypto, out: Outside, ctx: Context, ba: BackedAssertion, t: int): Result<()> {
    if |ba.certificates| > 1 then Err(TooManyCerts)
    else if ba.certificates == [] then Ok(())
    else
      var (host, issuer) :- HostIssuer(ba.certificates[0].Claims());
      var _ :- Authority.IssuerIsAuthoritative(ctx, out.lookup, host, issuer);
      ValidateCertChain(c, ctx, out.lookup, ba.certificates, t)
  }

  /** The key a response is checked with: its certificate's, its header for an X.509 chain, or the caller's. */
  function ResponseCred(ba: BackedAssertion, cred: Option<Json>): Option<Json> {
    if ba.certificates != [] then Some(ba.certificates[|ba.certificates| - 1].payload)
    else if "x5c" in ba.assertion.header then Some(Obj(ba.assertion.header))
    else cred
  }

  predicate HasCertificate(ba: BackedAssertion) {
    ba.certificates != [] || "x5c" in ba.assertion.header
  }

  /** The flags that the decision raises as soon as it has looked at the certificates. */
  function ResponseFlags(ba: BackedAssertion): Flags {
    NO_FLAGS.(x509 := ba.certificates == [] && "x5c" in ba.assertion.header, validatedCerts := HasCertificate(ba))
  }

  /** `_BIDVerifyLocal` for a relying party's response, with the key that the caller derived, if any. */
  function LocalRp(c: Crypto, out: Outside, ctx: Context, gss: bool, ba: BackedAssertion, subject: Option<string>, t: int,
                   cred: Option<Json>): Result<Flags>
  {
    var ap := ba.assertion;
    var _ :- if ba.certificates == [] && "x5c" in ap.header then out.x509Valid(ap.header["x5c"]) else Ok(());
    var _ :- Authority.ValidateExpiry(ctx.skew, t, ap.Claims());
    var _ :- CheckHostCertificates(c, out, ctx, ba, t);
    var _ :- KeySet.VerifySignature(c, ap.header, ap.SigningInput(), ap.signature, ResponseCred(ba, cred));
    var attributes :- Attributes(out, ba);
    var _ :- if HasCertificate(ba) then ValidateSubject(attributes, subject, true, gss) else Ok(());
    Ok(ResponseFlags(ba))
  }

  /** `_BIDVerifyLocal` under BID_VERIFY_FLAG_RP, on objects. */
  method VerifyLocalRp(c: Crypto, out: Outside, ctx: Context, gss: bool, authorities: Authority.AuthorityCache, net: Authority.Net,
                       ba: BackedAssertion, subject: Option<string>, t: int, cred: Option<Json>) returns (r: Result<Flags>)
    requires forall h :: out.lookup(h) == Authority.Lookup(ctx, authorities.docs, net, t, h)
    modifies authorities
    ensures r == LocalRp(c, out, ctx, gss, ba, subject, t, cred)
  {
    hide Authority.ValidateExpiry, KeySet.VerifySignature, ValidateCertChain, ValidateSubject, Authority.Lookup,
         Authority.IssuerIsAuthoritative;
    var flags, verifyCred, ap := NO_FLAGS, cred, ba.assertion;
    if ba.certificates == [] && "x5c" in ap.header {
      var _ :- out.x509Valid(ap.header["x5c"]);
      verifyCred := Some(Obj(ap.header));
      flags := flags.(x509 := true, validatedCerts := true);
    }
    var _ :- Authority.ValidateExpiry(ctx.skew, t, ap.Claims());
    if |ba.certificates| > 1 {
      return Err(TooManyCerts);
    }
    if ba.certificates != [] {
      var names :- HostIssuer(ba.certificates[0].Claims());
      var _ :- authorities.CheckIssuer(ctx, net, t, names.0, names.1, out.lookup);
      var _ :- CertChain(c, ctx, authorities, net, ba.certificates, t, out.lookup);
      verifyCred := Some(ba.certificates[|ba.certificates| - 1].payload);
      flags := flags.(validatedCerts := true);
    }
    var _ :- KeySet.VerifySignature(c, ap.header, ap.SigningInput(), ap.signature, verifyCred);
    var attributes :- Attributes(out, ba);
    if flags.validatedCerts {
      var _ :- CheckSubject(attributes, subject, true, gss);
    }
    return Ok(flags);
  }

  // ----- what it means -----

  /** The wanted service is named, if one is wanted. */
  ghost predicate NamesWanted(attributes: Object, subject: Option<string>, gss: bool) {
    subject.Some? ==>
      && "principal" in attributes && HostOf(subject.value, gss).Ok?
      && (NamedByService(Members(attributes["principal"]), subject.value) || NamedByHost(attributes, subject.value, gss))
  }

  /** Signed under a certificate that an issuer authoritative for the certified host issued. */
  ghost predicate ByHostCertificate(c: Crypto, out: Outside, ctx: Context, ba: BackedAssertion, t: int) {
    && |ba.certificates| == 1
    && var cert := ba.certificates[0];
    && "principal" in cert.Claims()
    && var host, issuer := GetString(Members(cert.Claims()["principal"]), "hostname"), GetString(cert.Claims(), "iss");
    && host.Some? && issuer.Some? && Authority.Authoritative(ctx, out.lookup, host.value, issuer.value)
    && out.lookup(issuer.value).Ok? && "public-key" in out.lookup(issuer.value).value
    && InWindow(ctx.skew, t, cert.Claims()) && Verifies(c, cert, Obj(out.lookup(issuer.value).value))
    && Verifies(c, ba.assertion, cert.payload)
  }

  /** A valid X.509 chain in the header, with attributes. */
  ghost predicate HostChain(out: Outside, ba: BackedAssertion) {
    && ba.certificates == [] && "x5c" in ba.assertion.header
    && out.x509Valid(ba.assertion.header["x5c"]).Ok? && out.x509Attributes(ba.assertion.header["x5c"]).Ok?
  }

  /** Signed with the key of a valid chain. */
  ghost predicate ByHostChain(c: Crypto, out: Outside, ba: BackedAssertion) {
    HostChain(out, ba) && !BringsKey(ba.assertion.header) && SignedByChain(c, ba.assertion)
  }

  /** Signed with a key that the sender put into the header beside a valid chain. */
  ghost predicate ByKeyBesideChain(c: Crypto, out: Outside, ba: BackedAssertion) {
    HostChain(out, ba) && BringsKey(ba.assertion.header) && Verifies(c, ba.assertion, Obj(ba.assertion.header))
  }

  /** Signed with the caller's key. */
  ghost predicate BySessionKey(c: Crypto, ba: BackedAssertion, cred: Option<Json>) {
    !HasCertificate(ba) && cred.Some? && Verifies(c, ba.assertion, cred.value)
  }

  lemma HostIssuedExactly(c: Crypto, out: Outside, ctx: Context, ba: BackedAssertion, t: int)
    requires ba.certificates != []
    ensures CheckHostCertificates(c, out, ctx, ba, t).Ok? && Verifies(c, ba.assertion, ba.certificates[|ba.certificates| - 1].payload) <==>
            ByHostCertificate(c, out, ctx, ba, t)
  {
    hide InWindow, Authority.ValidateExpiry, KeySet.VerifySignature, Authority.IssuerIsAuthoritative;
    if |ba.certificates| == 1 {
      var cert := ba.certificates[0];
      assert ba.certificates == [cert];
      if HostIssuer(cert.Claims()).Ok? {
        var (host, issuer) := HostIssuer(cert.Claims()).value;
        Authority.AuthoritativeExactly(ctx, out.lookup, host, issuer);
        var root := RootKey(out.lookup, cert.Claims());
        if root.Ok? {
          ChainExactly(c, ctx.skew, t, [cert], 0, root.value);
          assert ValidateCertChain(c, ctx, out.lookup, [cert], t).Ok? <==> LinkHolds(c, ctx.skew, t, [cert], 0, root.value, 0);
        }
      }
    }
  }

  /** A response passes exactly when it is in its window and is signed under a certificate that the named
      host's authority issued, the key of a valid X.509 chain, a key that the sender put beside such a chain,
      or the caller's key; a certified one must name the wanted service. */
  lemma ResponseExactly(c: Crypto, out: Outside, ctx: Context, gss: bool, ba: BackedAssertion, subject: Option<string>, t: int,
                        cred: Option<Json>)
    ensures LocalRp(c, out, ctx, gss, ba, subject, t, cred).Ok? <==>
            && InWindow(ctx.skew, t, ba.assertion.Claims())
            && (|| ByHostCertificate(c, out, ctx, ba, t) || ByHostChain(c, out, ba) || ByKeyBesideChain(c, out, ba)
                || BySessionKey(c, ba, cred))
            && (HasCertificate(ba) ==> Attributes(out, ba).Ok? && NamesWanted(Attributes(out, ba).value, subject, gss))
    ensures LocalRp(c, out, ctx, gss, ba, subject, t, cred).Ok? ==>
              && LocalRp(c, out, ctx, gss, ba, subject, t, cred).value.validatedCerts == HasCertificate(ba)
              && LocalRp(c, out, ctx, gss, ba, subject, t, cred).value ==
              NO_FLAGS.(validatedCerts := ba.certificates != [] || "x5c" in ba.assertion.header,
                        x509 := ba.certificates == [] && "x5c" in ba.assertion.header)
  {
    hide InWindow, Authority.ValidateExpiry, KeySet.VerifySignature, CheckHostCertificates, ValidateSubject, NamedByService, NamedByHost,
         SignedByChain, BringsKey, HostOf, ByHostCertificate;
    WindowExactly(ctx.skew, t, ba.assertion.Claims());
    KeySet.NoKeyNoSignature(c, ba.assertion.header, ba.assertion.SigningInput(), ba.assertion.signature);
    HeaderKeyExactly(c, ba.assertion);
    if ba.certificates != [] {
      HostIssuedExactly(c, out, ctx, ba, t);
    } else {
      NoHostCertificate(c, out, ctx, ba, t);
    }
    if subject.Some? && Attributes(out, ba).Ok? {
      SubjectExactly(Attributes(out, ba).value, subject.value, gss);
    } else if Attributes(out, ba).Ok? {
      NoSubject(Attributes(out, ba).value, gss);
    }
  }

  lemma NoHostCertificate(c: Crypto, out: Outside, ctx: Context, ba: BackedAssertion, t: int)
    requires ba.certificates == []
    ensures CheckHostCertificates(c, out, ctx, ba, t).Ok? && !ByHostCertificate(c, out, ctx, ba, t)
  {
  }

  lemma NoSubject(attributes: Object, gss: bool)
    ensures ValidateSubject(attributes, None, true, gss).Ok?
  {
  }

  /** At its simplest: beside a valid chain that names the wanted service, whose key it does not have, a sender
      puts a secret key of its own choice and signs with it. In its window that response passes. */
  lemma KeyBesideChainPasses(c: Crypto, out: Outside, ctx: Context, gss: bool, ba: BackedAssertion, subject: Option<string>, t: int,
                             cred: Option<Json>, k: bytes)
    requires HostChain(out, ba) && InWindow(ctx.skew, t, ba.assertion.Claims())
    requires NamesWanted(out.x509Attributes(ba.assertion.header["x5c"]).value, subject, gss)
    requires var header := ba.assertion.header;
             && "keys" !in header && "public-key" !in header && GetString(header, "alg") == Some("HS256")
             && GetBinary(header, "secret-key") == Ok(k)
    requires ba.assertion.signature == c.hmac(k, ba.assertion.SigningInput()) && ba.assertion.signature != []
    ensures LocalRp(c, out, ctx, gss, ba, subject, t, cred).Ok?
  {
    hide LocalRp, InWindow, NamesWanted, GetBinary, ByHostCertificate, ByHostChain, BySessionKey;
    ResponseExactly(c, out, ctx, gss, ba, subject, t, cred);
    NoSecret(ba.assertion.header);
    SecretVerifies(c, ba.assertion, k);
  }
}
