/** The verification decision for an initiator's assertion: bid_verify.c, and
    `_BIDPopulateIdentity` of bid_identity.c. */
module Verify {
  import opened Wrappers
  import opened Json
  import opened Crypto
  import opened Identity
  import opened BackedAssertion
  import opened Ticket
  import Authority
  import KeySet
  import Jwt
  import Spn

  /** Answers from outside the library at verification time: authority documents, X.509 chain
      validation, and the attributes of an X.509 subject. */
  datatype Outside = Outside(
    lookup: string -> Result<Object>,
    x509Valid: Json -> Result<()>,
    x509Attributes: Json -> Result<Object>)

  /** What the relying party expects and when; `reauth` is BID_VERIFY_FLAG_REAUTH. */
  datatype Request = Request(aud: Option<string>, cb: Option<bytes>, t: int, reauth: bool)

  // ----- audience and channel bindings -----

  /** `_BIDValidateAudience`. */
  function ValidateAudience(ctx: Context, claims: Object, aud: Option<string>, cb: Option<bytes>): Result<()> {
    var asserted := GetString(claims, "aud");
    var _ :-
      if aud.None? then Ok(())
      else if asserted.None? then Err(MissingAudience)
      else if asserted.value == aud.value then Ok(())
      else if ctx.hostSpnAlias then Spn.HostAlias(aud.value, asserted.value)
      else Err(BadAudience);
    if cb.None? then Ok(())
    else
      var b := GetBinary(claims, "cb");
      if b == Err(UnknownJsonKey) then Err(MissingChannelBindings)
      else if b.Err? then Err(b.error)
      else if b.value != cb.value then Err(ChannelBindingsMismatch)
      else Ok(())
  }

  // ----- certificates -----

  /** The part of a mail address after its first '@'. */
  function Domain(email: string): Option<string> {
    var at := Jwt.IndexOf(email, '@', 0);
    if at == |email| then None else Some(email[at + 1..])
  }

  /** `_BIDValidateCertIssuer` up to the delegation check: the two names it compares. */
  function CertIssuer(cert: Object): Result<(string, string)> {
    if "principal" !in cert then Err(MissingPrincipal)
    else
      var email := GetString(Members(cert["principal"]), "email");
      if email.None? then Err(UnknownPrincipalType)
      else if Domain(email.value).None? then Err(InvalidIssuer)
      else if GetString(cert, "iss").None? then Err(MissingIssuer)
      else Ok((Domain(email.value).value, GetString(cert, "iss").value))
  }

  function ValidateCertIssuer(ctx: Context, lookup: string -> Result<Object>, certs: seq<Jwt.Jwt>): Result<()> {
    if certs == [] then Err(MissingCert)
    else
      var (domain, issuer) :- CertIssuer(certs[|certs| - 1].Claims());
      Authority.IssuerIsAuthoritative(ctx, lookup, domain, issuer)
  }

  /** The chain loop from its i-th certificate on, under the previous key. */
  function ChainFrom(c: Crypto, skew: nat, t: int, certs: seq<Jwt.Jwt>, i: nat, key: Json): Result<()>
    requires i <= |certs|
    decreases |certs| - i
  {
    if i == |certs| then Ok(())
    else
      var _ :- Authority.ValidateExpiry(skew, t, certs[i].Claims());
      var _ :- KeySet.VerifySignature(c, certs[i].header, certs[i].SigningInput(), certs[i].signature, Some(key));
      ChainFrom(c, skew, t, certs, i + 1, certs[i].payload)
  }

  /** The root's key set: the issuer's authority document. */
  function RootKey(lookup: string -> Result<Object>, root: Object): Result<Json> {
    var issuer := GetString(root, "iss");
    if issuer.None? then Err(MissingIssuer)
    else
      var doc :- lookup(issuer.value);
      if "public-key" in doc then Ok(Obj(doc)) else Err(NoKey)
  }

  function CertError(err: BIDError): BIDError {
    if err == AssertionNotYetValid then CertNotYetValid
    else if err == ExpiredAssertion then ExpiredCert
    else err
  }

  /** `_BIDValidateCertChain`. */
  function ValidateCertChain(c: Crypto, ctx: Context, lookup: string -> Result<Object>, certs: seq<Jwt.Jwt>, t: int): Result<()> {
    if certs == [] then Err(MissingCert)
    else
      var root := RootKey(lookup, certs[0].Claims());
      var r := if root.Ok? then ChainFrom(c, ctx.skew, t, certs, 0, root.value) else Err(root.error);
      if r.Err? then Err(CertError(r.error)) else r
  }

  // ----- identities and options -----

  /** `_BIDPopulateIdentity` for an initiator: the certified attributes and the subject, with
      what the assertion adds kept privately. */
  function PopulateIdentity(ctx: Context, attributes: Object, claims: Object): Result<Identity> {
    if "principal" !in attributes || "email" !in Members(attributes["principal"]) then Err(MissingPrincipal)
    else if "exp" !in claims then Err(UnknownJsonKey)
    else
      var epk := if ctx.curve.Some? && "epk" in claims
                 then Some(EcKey(EcParamsOf(Members(claims["epk"])), None, None, None)) else None;
      Ok(Identity(attributes["sub" := Members(attributes["principal"])["email"]],
                  NO_PRIVATE.(aud := Get(claims, "aud"), epk := epk, aExp := Get(claims, "exp"),
                              nonce := Get(claims, "nonce"), opts := Get(claims, "opts")),
                  None))
  }

  datatype ProtocolOption = RoundTripOption | DceOption | IdentifyOption | MutualOption | NoOption

  /** The option an element of "opts" names. */
  function OptionOf(opt: Json): ProtocolOption {
    if !opt.Str? then NoOption
    else match opt.s
      case "xrt" => RoundTripOption
      case "dce" => DceOption
      case "ify" => IdentifyOption
      case "ma" => MutualOption
      case _ => NoOption
  }

  function RaiseOpt(flags: Flags, opt: ProtocolOption): (r: Flags)
    ensures r == flags.(xrt := r.xrt, dce := r.dce, identify := r.identify, mutualAuth := r.mutualAuth)
    ensures r.xrt == (flags.xrt || opt == RoundTripOption) && r.mutualAuth == (flags.mutualAuth || opt == MutualOption)
    ensures r.dce == (flags.dce || opt == DceOption) && r.identify == (flags.identify || opt == IdentifyOption)
  {
    match opt
    case RoundTripOption => flags.(xrt := true)
    case DceOption => flags.(dce := true)
    case IdentifyOption => flags.(identify := true)
    case MutualOption => flags.(mutualAuth := true)
    case NoOption => flags
  }

  function RaiseOpts(elems: seq<Json>, i: nat, flags: Flags): Flags
    requires i <= |elems|
    decreases |elems| - i
  {
    if i == |elems| then flags else RaiseOpts(elems, i + 1, RaiseOpt(flags, OptionOf(elems[i])))
  }

  /** `_BIDParseProtocolOpts`. */
  function ParseOpts(opts: Option<Json>, flags: Flags): Result<Flags> {
    if opts.None? then Ok(flags)
    else if !opts.value.Arr? then Err(InvalidJson)
    else Ok(RaiseOpts(opts.value.elems, 0, flags))
  }

  method ParseProtocolOpts(opts: Option<Json>, flags: Flags) returns (r: Result<Flags>)
    ensures r == ParseOpts(opts, flags)
  {
    if opts.None? {
      return Ok(flags);
    }
    if !opts.value.Arr? {
      return Err(InvalidJson);
    }
    var elems := opts.value.elems;
    var acc := flags;
    for i := 0 to |elems|
      invariant RaiseOpts(elems, i, acc) == RaiseOpts(elems, 0, flags)
    {
      acc := RaiseOpt(acc, OptionOf(elems[i]));
    }
    return Ok(acc);
  }

  lemma OptionIs(opt: Json)
    ensures OptionOf(opt) == RoundTripOption <==> opt == Str("xrt")
    ensures OptionOf(opt) == MutualOption <==> opt == Str("ma")
    ensures OptionOf(opt) == DceOption <==> opt == Str("dce")
    ensures OptionOf(opt) == IdentifyOption <==> opt == Str("ify")
  {
  }

  lemma {:induction false} OptsKeep(elems: seq<Json>, i: nat, flags: Flags)
    requires i <= |elems|
    ensures var r := RaiseOpts(elems, i, flags);
            r == flags.(xrt := r.xrt, dce := r.dce, identify := r.identify, mutualAuth := r.mutualAuth)
    decreases |elems| - i
  {
    hide RaiseOpt, OptionOf;
    if i < |elems| {
      OptsKeep(elems, i + 1, RaiseOpt(flags, OptionOf(elems[i])));
    }
  }

  /** The extra round trip is requested exactly by the option "xrt", mutual authentication by "ma", DCE style by
      "dce" and identify level by "ify", wherever they stand. */
  lemma {:induction false} OptsRaise(elems: seq<Json>, i: nat, flags: Flags)
    requires i <= |elems|
    ensures RaiseOpts(elems, i, flags).xrt <==> flags.xrt || exists j :: i <= j < |elems| && elems[j] == Str("xrt")
    ensures RaiseOpts(elems, i, flags).mutualAuth <==> flags.mutualAuth || exists j :: i <= j < |elems| && elems[j] == Str("ma")
    ensures RaiseOpts(elems, i, flags).dce <==> flags.dce || exists j :: i <= j < |elems| && elems[j] == Str("dce")
    ensures RaiseOpts(elems, i, flags).identify <==> flags.identify || exists j :: i <= j < |elems| && elems[j] == Str("ify")
    decreases |elems| - i
  {
    hide RaiseOpt, OptionOf;
    if i < |elems| {
      OptionIs(elems[i]);
      OptsRaise(elems, i + 1, RaiseOpt(flags, OptionOf(elems[i])));
    }
  }

  // ----- the decision -----

  /** The credential an assertion is checked with before certificates are looked at: an X.509
      header, a ticket's key, or nothing yet when certificates follow. */
  datatype Credential = Credential(identity: Option<Identity>, key: Option<Json>)

  function FindCredential(c: Crypto, out: Outside, ctx: Context, cache: Cache, ba: BackedAssertion, q: Request)
    : (Result<Credential>, Flags)
  {
    var ap := ba.assertion;
    if ba.certificates != [] then (Ok(Credential(None, None)), NO_FLAGS)
    else if "x5c" in ap.header then
      var valid := out.x509Valid(ap.header["x5c"]);
      if valid.Err? then (Err(valid.error), NO_FLAGS)
      else (Ok(Credential(None, Some(Obj(ap.header)))), NO_FLAGS.(x509 := true, validatedCerts := true))
    else if q.reauth && ctx.reauth then
      var (id, flags) := VerifyReauth(c, ctx, cache, ap, q.t);
      if id.Err? then (Err(id.error), flags)
      else (Ok(Credential(Some(id.value), Get(cache[TicketId(ap.Claims()).value], "ark"))), flags)
    else (Err(InvalidAssertion), NO_FLAGS)
  }

  /** The checks between choosing the credential and the signature. */
  function CheckClaims(c: Crypto, out: Outside, ctx: Context, ba: BackedAssertion, q: Request): Result<()> {
    var _ :- ValidateAudience(ctx, ba.assertion.Claims(), q.aud, q.cb);
    var _ :- Authority.ValidateExpiry(ctx.skew, q.t, ba.assertion.Claims());
    if |ba.certificates| > 1 then Err(TooManyCerts)
    else if ba.certificates == [] then Ok(())
    else
      var _ :- ValidateCertIssuer(ctx, out.lookup, ba.certificates);
      ValidateCertChain(c, ctx, out.lookup, ba.certificates, q.t)
  }

  /** The attributes an identity starts from. */
  function Attributes(out: Outside, ba: BackedAssertion): Result<Object> {
    if ba.certificates != [] then Ok(ba.certificates[|ba.certificates| - 1].Claims())
    else if "x5c" in ba.assertion.header then out.x509Attributes(ba.assertion.header["x5c"])
    else Ok(map[])
  }

  /** Signature, identity and options. */
  function Conclude(c: Crypto, out: Outside, ctx: Context, ba: BackedAssertion, cred: Credential, flags: Flags)
    : (Result<Identity>, Flags)
  {
    var ap := ba.assertion;
    var key := if ba.certificates != [] then Some(ba.certificates[|ba.certificates| - 1].payload) else cred.key;
    var signed := KeySet.VerifySignature(c, ap.header, ap.SigningInput(), ap.signature, key);
    if signed.Err? then (Err(signed.error), flags)
    else
      var attributes := Attributes(out, ba);
      var id := if cred.identity.Some? then Ok(cred.identity.value)
                else if attributes.Err? then Err(attributes.error)
                else PopulateIdentity(ctx, attributes.value, ap.Claims());
      if id.Err? then (id, flags)
      else
        var opts := ParseOpts(Get(ap.Claims(), "opts"), flags);
        if opts.Err? then (Err(opts.error), flags) else (id, opts.value)
  }

  /** `_BIDVerifyLocal` for an initiator's assertion. */
  function Local(c: Crypto, out: Outside, ctx: Context, cache: Cache, ba: BackedAssertion, q: Request)
    : (Result<Identity>, Flags)
  {
    var (cred, flags) := FindCredential(c, out, ctx, cache, ba, q);
    if cred.Err? then (Err(cred.error), flags)
    else
      var claims := CheckClaims(c, out, ctx, ba, q);
      if claims.Err? then (Err(claims.error), flags)
      else Conclude(c, out, ctx, ba, cred.value, if ba.certificates != [] then flags.(validatedCerts := true) else flags)
  }

  method CertChain(c: Crypto, ctx: Context, authorities: Authority.AuthorityCache, net: Authority.Net,
                   certs: seq<Jwt.Jwt>, t: int, ghost lookup: string -> Result<Object>) returns (r: Result<()>)
    requires forall h :: lookup(h) == Authority.Lookup(ctx, authorities.docs, net, t, h)
    modifies authorities
    ensures r == ValidateCertChain(c, ctx, lookup, certs, t)
    ensures forall h :: lookup(h) == Authority.Lookup(ctx, authorities.docs, net, t, h)
  {
    hide Authority.Lookup, Authority.ValidateExpiry, KeySet.VerifySignature;
    if certs == [] {
      return Err(MissingCert);
    }
    var issuer := GetString(certs[0].Claims(), "iss");
    if issuer.None? {
      return Err(MissingIssuer);
    }
    var doc := authorities.AcquireAuthority(ctx, net, t, issuer.value);
    if doc.Err? {
      return Err(CertError(doc.error));
    }
    if "public-key" !in doc.value {
      return Err(NoKey);
    }
    var key := Obj(doc.value);
    for i := 0 to |certs|
      invariant ChainFrom(c, ctx.skew, t, certs, i, key) == ChainFrom(c, ctx.skew, t, certs, 0, Obj(doc.value))
    {
      var ok := Authority.ValidateExpiry(ctx.skew, t, certs[i].Claims());
      if ok.Err? {
        return Err(CertError(ok.error));
      }
      ok := KeySet.VerifySignature(c, certs[i].header, certs[i].SigningInput(), certs[i].signature, Some(key));
      if ok.Err? {
        return Err(CertError(ok.error));
      }
      key := certs[i].payload;
    }
    return Ok(());
  }

  /** The certificate half of the decision, with lookups that fill the authority cache. */
  method CheckCertificates(c: Crypto, ctx: Context, authorities: Authority.AuthorityCache, net: Authority.Net,
                           certs: seq<Jwt.Jwt>, t: int, ghost lookup: string -> Result<Object>) returns (r: Result<()>)
    requires certs != []
    requires forall h :: lookup(h) == Authority.Lookup(ctx, authorities.docs, net, t, h)
    modifies authorities
    ensures r == (var issuer := ValidateCertIssuer(ctx, lookup, certs);
                  if issuer.Err? then issuer else ValidateCertChain(c, ctx, lookup, certs, t))
  {
    hide Authority.Lookup, ValidateCertChain, Authority.IssuerIsAuthoritative;
    var names := CertIssuer(certs[|certs| - 1].Claims());
    if names.Err? {
      return Err(names.error);
    }
    r := authorities.CheckIssuer(ctx, net, t, names.value.0, names.value.1, lookup);
    if r.Ok? {
      r := CertChain(c, ctx, authorities, net, certs, t, lookup);
    }
  }

  /** `_BIDVerifyLocal`, accumulating flags and rebinding the verification key as it goes. */
  method VerifyLocal(c: Crypto, out: Outside, ctx: Context, authorities: Authority.AuthorityCache, net: Authority.Net,
                     cache: Cache, ba: BackedAssertion, q: Request) returns (r: Result<Identity>, flags: Flags)
    requires forall h :: out.lookup(h) == Authority.Lookup(ctx, authorities.docs, net, q.t, h)
    modifies authorities
    ensures (r, flags) == Local(c, out, ctx, cache, ba, q)
  {
    hide Authority.ValidateExpiry, KeySet.VerifySignature, PopulateIdentity, ParseOpts, ValidateAudience,
         ValidateCertIssuer, ValidateCertChain, VerifyReauth, Authority.Lookup;
    flags := NO_FLAGS;
    var ap := ba.assertion;
    var verifyCred: Option<Json> := None;
    var identity: Option<Identity> := None;
    if ba.certificates == [] {
      if "x5c" in ap.header {
        var valid := out.x509Valid(ap.header["x5c"]);
        if valid.Err? {
          return Err(valid.error), flags;
        }
        verifyCred := Some(Obj(ap.header));
        flags := flags.(x509 := true, validatedCerts := true);
      } else if q.reauth && ctx.reauth {
        r, verifyCred, flags := VerifyReauthAssertion(c, ctx, cache, ap, q.t);
        if r.Err? {
          return;
        }
        identity := Some(r.value);
      } else {
        return Err(InvalidAssertion), flags;
      }
    }
    var ok := ValidateAudience(ctx, ap.Claims(), q.aud, q.cb);
    if ok.Err? {
      return Err(ok.error), flags;
    }
    ok := Authority.ValidateExpiry(ctx.skew, q.t, ap.Claims());
    if ok.Err? {
      return Err(ok.error), flags;
    }
    if |ba.certificates| > 1 {
      return Err(TooManyCerts), flags;
    }
    if ba.certificates != [] {
      ok := CheckCertificates(c, ctx, authorities, net, ba.certificates, q.t, out.lookup);
      if ok.Err? {
        return Err(ok.error), flags;
      }
      verifyCred := Some(ba.certificates[|ba.certificates| - 1].payload);
      flags := flags.(validatedCerts := true);
    }
    ok := KeySet.VerifySignature(c, ap.header, ap.SigningInput(), ap.signature, verifyCred);
    if ok.Err? {
      return Err(ok.error), flags;
    }
    if identity.None? {
      var attributes := Attributes(out, ba);
      if attributes.Err? {
        return Err(attributes.error), flags;
      }
      r := PopulateIdentity(ctx, attributes.value, ap.Claims());
      if r.Err? {
        return;
      }
      identity := Some(r.value);
    }
    var opts := ParseProtocolOpts(Get(ap.Claims(), "opts"), flags);
    if opts.Err? {
      return Err(opts.error), flags;
    }
    return Ok(identity.value), opts.value;
  }
}
