/** What passes between the parties after an assertion: the client's claims (bid_user.c), the
    relying party's response (bid_rp.c) and the token of the extra round trip (bid_xrt.c). */
module Response {
  import opened Wrappers
  import opened Json
  import opened Crypto
  import opened Identity
  import opened BackedAssertion
  import opened Ticket
  import opened Verify
  import opened RpDecision
  import Authority
  import Justification
  import KeySet
  import Jwt

  // ----- the client's half of the key agreement -----

  /** The client's key pair. Its parameters are the object that is also sent as "epk", so until the
      response arrives they hold the client's own public value. */
  function ClientKey(c: Crypto, crv: string, d: string): EcKey {
    var pub := c.publicValue(crv, d);
    EcKey(EcParams(Some("EC"), Some(crv), Some(pub.x), Some(pub.y)), Some(pub.x), Some(pub.y), Some(d))
  }

  function KeyObject(params: EcParams): Object {
    Set(Set(Set(Set(map[], "kty", StringOf(params.kty)), "crv", StringOf(params.crv)), "x", StringOf(params.x)), "y", StringOf(params.y))
  }

  function StringOf(s: Option<string>): Option<Json> {
    if s.Some? then Some(Str(s.value)) else None
  }

  /** `_BIDMakeClaims`, with the generated private value d. */
  method MakeClaims(c: Crypto, ctx: Context, userClaims: Object, cb: Option<bytes>, opts: Option<Json>, d: string)
    returns (claims: Object, key: Option<EcKey>)
    ensures ctx.curve.None? ==> key == None
    ensures ctx.curve.Some? ==> key == Some(ClientKey(c, ctx.curve.value, d))
    ensures ctx.curve.Some? ==>
              "epk" in claims && EcParamsOf(Members(claims["epk"])) == ClientKey(c, ctx.curve.value, d).params
    ensures cb.Some? ==> GetBinary(claims, "cb") == Ok(cb.value)
    ensures opts.Some? ==> Get(claims, "opts") == opts
  {
    hide GetBinary, Binary;
    claims, key := userClaims, None;
    KeysOfClaims();
    if cb.Some? {
      claims := claims["cb" := Binary(cb.value)];
    }
    if ctx.curve.Some? {
      var dh := EcParams(Some("EC"), ctx.curve, None, None);
      var pub := c.publicValue(ctx.curve.value, d);
      dh := dh.(x := Some(pub.x));
      dh := dh.(y := Some(pub.y));
      key := Some(EcKey(dh, Some(pub.x), Some(pub.y), Some(d)));
      claims := claims["epk" := Obj(KeyObject(dh))];
      KeyObjectRoundTrip(dh);
    }
    if opts.Some? {
      claims := claims["opts" := opts.value];
    }
    if cb.Some? {
      BinaryRoundTrip(claims, "cb", cb.value);
    }
  }

  lemma KeysOfClaims()
    ensures "cb" != "epk" && "cb" != "opts" && "epk" != "opts"
  {
  }

  lemma KeyObjectRoundTrip(params: EcParams)
    ensures EcParamsOf(KeyObject(params)) == params
  {
  }

  /** `_BIDCompleteModalSession`: the identity of a certificate-signed assertion and its key. */
  function ClientIdentity(c: Crypto, codec: Codec, ctx: Context, s: string, d: string): Result<Identity> {
    var ba :- Unpack(codec, s);
    var leaf := if ba.certificates == [] then map[] else ba.certificates[|ba.certificates| - 1].Claims();
    var id :- PopulateIdentity(ctx, leaf, ba.assertion.Claims());
    Ok(if ctx.curve.Some? then id.(priv := id.priv.(epk := Some(ClientKey(c, ctx.curve.value, d)))) else id)
  }

  /** The text was signed over claims that carry the client's public value. */
  ghost predicate CarriesKey(c: Crypto, codec: Codec, ctx: Context, s: string, d: string) {
    && ctx.curve.Some? && Unpack(codec, s).Ok?
    && var claims := Unpack(codec, s).value.assertion.Claims();
    && "epk" in claims && EcParamsOf(Members(claims["epk"])) == ClientKey(c, ctx.curve.value, d).params
  }

  // ----- the response -----

  /** `_BIDGetKeyAgreementPublicValue`. */
  function PublicValue(id: Identity): Result<Json> {
    if id.priv.epk.None? || id.priv.epk.value.x.None? || id.priv.epk.value.y.None? then Err(NoKey)
    else Ok(Obj(map["x" := Str(id.priv.epk.value.x.value), "y" := Str(id.priv.epk.value.y.value)]))
  }

  /** The relying party's own key and certificate chain. */
  datatype RpKey = RpKey(key: Json, chain: Json)

  /** How a response is made: with a session key, as the answer to a full login, with a forced extra round
      trip, and with what `_BIDGetRPPrivateKey` finds. */
  datatype Mode = Mode(keyed: bool, initial: bool, force: bool, rpKey: Option<RpKey>)

  /** The certificate that signs, if the initiator asked for mutual authentication. */
  function SigningKey(mode: Mode, opts: Flags): Option<RpKey> {
    if mode.initial && opts.mutualAuth then mode.rpKey else None
  }

  predicate AddsJti(id: Identity, mode: Mode, opts: Flags) {
    id.priv != NO_PRIVATE && (mode.force || opts.xrt)
  }

  /** The claims of `BIDMakeRPResponseToken`: with a session key the public value on an initial exchange and
      the ticket; a "jti" when an extra round trip is asked for or forced; and the initiator's nonce under
      a certificate. */
  function ResponseClaims(id: Identity, extra: Object, mode: Mode, jti: bytes): Result<Object> {
    var dh :- if mode.keyed && mode.initial then PublicValue(id) else Ok(Null);
    var claims := if mode.keyed && mode.initial then extra["epk" := dh] else extra;
    var claims := if mode.keyed && id.priv.tkt.Some? then claims["tkt" := id.priv.tkt.value] else claims;
    var opts :- ParseOpts(id.priv.opts, NO_FLAGS);
    var claims := if AddsJti(id, mode, opts) then claims["jti" := Binary(jti)] else claims;
    if SigningKey(mode, opts).None? then Ok(claims)
    else if id.priv.nonce.None? then Err(MissingNonce)
    else Ok(claims["nonce" := id.priv.nonce.value])
  }

  /** The key set and the chain that sign it: the certificate's, the session's response key, or none. */
  function ResponseKey(c: Crypto, ctx: Context, id: Identity, mode: Mode): Result<(Option<Json>, Option<Json>)> {
    var opts :- ParseOpts(id.priv.opts, NO_FLAGS);
    var own := SigningKey(mode, opts);
    if own.Some? then Ok((Some(own.value.key), Some(own.value.chain)))
    else if !mode.keyed then Ok((None, None))
    else
      var rrk :- Subkey(c, ctx, id, "RRK");
      Ok((Some(rrk), None))
  }

  /** What making a response does to the relying party's identity, also when it fails: the secret is settled
      once a response key is wanted, and the "jti" is kept as soon as there is a key to sign with. */
  function Responded(c: Crypto, ctx: Context, id: Identity, mode: Mode, jti: bytes): Identity {
    var opts := ParseOpts(id.priv.opts, NO_FLAGS);
    if opts.Err? || (mode.keyed && mode.initial && PublicValue(id).Err?) || ResponseKey(c, ctx, id, mode).Err? then id
    else
      var settled := if SigningKey(mode, opts.value).None? && mode.keyed then WithSecret(c, ctx, id) else id;
      if AddsJti(id, mode, opts.value) then settled.(priv := settled.priv.(jti := Some(Binary(jti)))) else settled
  }

  /** The response's text. */
  function ResponseText(c: Crypto, codec: Codec, ctx: Context, id: Identity, extra: Object, mode: Mode, jti: bytes): Result<string> {
    var claims :- ResponseClaims(id, extra, mode, jti);
    var key :- ResponseKey(c, ctx, id, mode);
    var packed :- Pack(c, codec, Claims(map[], claims), [], key.0, key.1);
    Ok(packed.0)
  }

  lemma NoSubkey(c: Crypto, ctx: Context, id: Identity, salt: string)
    ensures Subkey(c, ctx, id, salt).Err? ==> WithSecret(c, ctx, id) == id
  {
  }

  /** `BIDMakeRPResponseToken`. */
  method MakeResponse(c: Crypto, codec: Codec, ctx: Context, id: IdentityObject, extra: Object, mode: Mode, jti: bytes)
    returns (r: Result<string>)
    modifies id
    ensures r == ResponseText(c, codec, ctx, old(id.View()), extra, mode, jti)
    ensures id.View() == Responded(c, ctx, old(id.View()), mode, jti)
  {
    hide Pack, Subkey, WithSecret, Binary, ParseOpts;
    NoSubkey(c, ctx, id.View(), "RRK");
    var payload := extra;
    if mode.keyed {
      if mode.initial {
        var dh :- PublicValue(id.View());
        payload := payload["epk" := dh];
      }
      if id.priv.tkt.Some? {
        payload := payload["tkt" := id.priv.tkt.value];
      }
    }
    var opts :- ParseProtocolOpts(id.priv.opts, NO_FLAGS);
    var key, chain := None, None;
    var own := SigningKey(mode, opts);
    if own.Some? {
      key, chain := Some(own.value.key), Some(own.value.chain);
    } else if mode.keyed {
      var rrk :- id.DeriveSessionSubkey(c, ctx, "RRK");
      key := Some(rrk);
    }
    assert id.priv == old(id.priv);
    if AddsJti(id.View(), mode, opts) {
      payload := payload["jti" := Binary(jti)];
      id.priv := id.priv.(jti := Some(Binary(jti)));
    }
    if own.Some? {
      if id.priv.nonce.None? {
        return Err(MissingNonce);
      }
      payload := payload["nonce" := id.priv.nonce.value];
    }
    assert Ok(payload) == ResponseClaims(old(id.View()), extra, mode, jti);
    r := PackBackedAssertion(c, codec, Claims(map[], payload), [], key, chain);
  }

  /** The client's identity once it has taken over the response's public value, and with a session key
      settled its secret; and the response key that it then expects. */
  function Meets(c: Crypto, ctx: Context, id: Identity, claims: Object, keyed: bool): Result<(Identity, Option<Json>)> {
    var peer := if "epk" in claims then Members(claims["epk"]) else map[];
    var met :- if "epk" in claims then WithPeer(id, GetString(peer, "x"), GetString(peer, "y")) else Ok(id);
    if !keyed then Ok((met, None))
    else
      var rrk :- Subkey(c, ctx, met, "RRK");
      Ok((WithSecret(c, ctx, met), Some(rrk)))
  }

  /** What a response that is not accepted leaves of the client's identity. */
  function LeftAfter(c: Crypto, ctx: Context, id: Identity, claims: Object, keyed: bool): Identity {
    var peer := if "epk" in claims then Members(claims["epk"]) else map[];
    var met := if "epk" in claims then WithPeer(id, GetString(peer, "x"), GetString(peer, "y")) else Ok(id);
    if met.Err? then LeftBehind(id, GetString(peer, "x"))
    else if keyed then WithSecret(c, ctx, met.value)
    else met.value
  }

  function WithJti(id: Identity, claims: Object): Identity {
    if "jti" in claims then id.(priv := id.priv.(jti := Some(claims["jti"]))) else id
  }

  /** What an accepted response with a session key makes of the client's identity. */
  function Absorb(c: Crypto, ctx: Context, id: Identity, claims: Object): Result<Identity> {
    var met :- Meets(c, ctx, id, claims, true);
    Ok(WithJti(met.0, claims))
  }

  /** What the client expects of a response: the answers from outside, a GSS context or a web one, the service
      that it wanted, a session key, and the answer to a full login. */
  datatype Expected = Expected(out: Outside, gss: bool, subject: Option<string>, keyed: bool, initial: bool)

  datatype Checked = Checked(identity: Identity, claims: Object, flags: Flags)

  /** `BIDVerifyRPResponseToken`. */
  function CheckResponse(c: Crypto, codec: Codec, ctx: Context, x: Expected, id: Identity, text: string, t: int): Result<Checked> {
    var ba :- Unpack(codec, text);
    var claims := ba.assertion.Claims();
    var met :- Meets(c, ctx, id, claims, x.keyed);
    var flags :- LocalRp(c, x.out, ctx, x.gss, ba, x.subject, t, met.1);
    if "aud" in claims then Err(ReflectedRpResponse)
    else if flags.validatedCerts && "nonce" !in claims then Err(MissingNonce)
    else if flags.validatedCerts && (id.priv.nonce != Some(claims["nonce"]) || !x.initial) then Err(MismatchedRpResponse)
    else Ok(Checked(WithJti(met.0, claims), claims, flags))
  }

  /** A text that is not signed with a certificate. */
  ghost predicate Certless(codec: Codec, text: string) {
    Unpack(codec, text).Ok? ==> !HasCertificate(Unpack(codec, text).value)
  }

  /** `BIDVerifyRPResponseToken`. Whatever comes of the checks, it hands out the payload that it unpacked. */
  method VerifyResponse(c: Crypto, codec: Codec, ctx: Context, x: Expected, authorities: Authority.AuthorityCache, net: Authority.Net,
                        id: IdentityObject, text: string, t: int)
    returns (r: Result<Flags>, payload: Option<Object>)
    requires Jwt.NulFree(text)
    requires forall h :: x.out.lookup(h) == Authority.Lookup(ctx, authorities.docs, net, t, h)
    modifies id, authorities
    ensures var spec := CheckResponse(c, codec, ctx, x, old(id.View()), text, t);
            && r == (if spec.Ok? then Ok(spec.value.flags) else Err(spec.error))
            && id.View() == if spec.Ok? then spec.value.identity
                            else if payload.Some? then LeftAfter(c, ctx, old(id.View()), payload.value, x.keyed)
                            else old(id.View())
    ensures payload == PayloadOf(codec, text)
  {
    hide Unpack, LocalRp, Secret, Authority.Lookup;
    var ba, _ := UnpackBackedAssertion(codec, text);
    if ba.Err? {
      return Err(ba.error), None;
    }
    var claims := ba.value.assertion.Claims();
    payload := Some(claims);
    if "epk" in claims {
      var peer := Members(claims["epk"]);
      var ok := id.SetKeyAgreementPublicValue(GetString(peer, "x"), GetString(peer, "y"));
      if ok.Err? {
        return Err(ok.error), payload;
      }
    }
    var verifyCred: Option<Json> := None;
    if x.keyed {
      var rrk := id.DeriveSessionSubkey(c, ctx, "RRK");
      if rrk.Err? {
        return Err(rrk.error), payload;
      }
      verifyCred := Some(rrk.value);
    }
    r := VerifyLocalRp(c, x.out, ctx, x.gss, authorities, net, ba.value, x.subject, t, verifyCred);
    if r.Err? {
      return;
    }
    if "aud" in claims {
      return Err(ReflectedRpResponse), payload;
    }
    if r.value.validatedCerts {
      if "nonce" !in claims {
        return Err(MissingNonce), payload;
      }
      if id.priv.nonce != Some(claims["nonce"]) {
        return Err(MismatchedRpResponse), payload;
      }
      if !x.initial {
        return Err(MismatchedRpResponse), payload;
      }
    }
    if "jti" in claims {
      id.priv := id.priv.(jti := Some(claims["jti"]));
    }
  }

  /** A response is accepted exactly when its public value closes the key agreement, it is in its window and
      signed as the decision asks, it carries no audience, and, if it is certified, it answers a full login
      and echoes the nonce that the client sent. */
  lemma AcceptedResponseExactly(c: Crypto, codec: Codec, ctx: Context, x: Expected, id: Identity, text: string, t: int)
    requires Unpack(codec, text).Ok?
    ensures var ba := Unpack(codec, text).value;
            var claims := ba.assertion.Claims();
            var met := Meets(c, ctx, id, claims, x.keyed);
            CheckResponse(c, codec, ctx, x, id, text, t).Ok? <==>
            && met.Ok? && Justification.InWindow(ctx.skew, t, claims) && "aud" !in claims
            && (ByHostCertificate(c, x.out, ctx, ba, t) || ByHostChain(c, x.out, ba) || ByKeyBesideChain(c, x.out, ba)
                || BySessionKey(c, ba, met.value.1))
            && (HasCertificate(ba) ==>
                  && Attributes(x.out, ba).Ok? && NamesWanted(Attributes(x.out, ba).value, x.subject, x.gss)
                  && x.initial && id.priv.nonce.Some? && Get(claims, "nonce") == id.priv.nonce)
  {
    hide Unpack, Meets, LocalRp, Justification.InWindow, ByHostCertificate, ByHostChain, ByKeyBesideChain, BySessionKey, HasCertificate,
         NamesWanted, Attributes;
    var ba := Unpack(codec, text).value;
    var met := Meets(c, ctx, id, ba.assertion.Claims(), x.keyed);
    if met.Ok? {
      ResponseExactly(c, x.out, ctx, x.gss, ba, x.subject, t, met.value.1);
    }
  }

  /** Which error tells why a response that passes the decision is refused. */
  lemma ResponseErrors(c: Crypto, codec: Codec, ctx: Context, x: Expected, id: Identity, text: string, t: int)
    requires Unpack(codec, text).Ok? && Meets(c, ctx, id, Unpack(codec, text).value.assertion.Claims(), x.keyed).Ok?
    requires var ba := Unpack(codec, text).value;
             LocalRp(c, x.out, ctx, x.gss, ba, x.subject, t, Meets(c, ctx, id, ba.assertion.Claims(), x.keyed).value.1).Ok?
    ensures var r, ba := CheckResponse(c, codec, ctx, x, id, text, t), Unpack(codec, text).value;
            var claims := ba.assertion.Claims();
            && ("aud" in claims ==> r == Err(ReflectedRpResponse))
            && ("aud" !in claims && HasCertificate(ba) && "nonce" !in claims ==> r == Err(MissingNonce))
            && ("aud" !in claims && HasCertificate(ba) && "nonce" in claims ==>
                  !x.initial || Get(claims, "nonce") != id.priv.nonce ==> r == Err(MismatchedRpResponse))
  {
    hide Unpack, Meets, LocalRp, HasCertificate;
    var ba := Unpack(codec, text).value;
    ResponseExactly(c, x.out, ctx, x.gss, ba, x.subject, t, Meets(c, ctx, id, ba.assertion.Claims(), x.keyed).value.1);
  }

  function PayloadOf(codec: Codec, text: string): Option<Object> {
    var ba := Unpack(codec, text);
    if ba.Ok? then Some(ba.value.assertion.Claims()) else None
  }

  // ----- the extra round trip -----

  /** `BIDMakeXRTToken`. */
  method MakeXrt(c: Crypto, codec: Codec, ctx: Context, id: IdentityObject, claims: Object) returns (r: Result<string>)
    modifies id`secret
    ensures var key := XrtSecret(c, ctx, old(id.View()));
            && (key.Err? ==> r == Err(key.error))
            && (key.Ok? ==>
                  && id.secret == Some(key.value)
                  && var packed := Pack(c, codec, Claims(map[], claims), [], Some(SecretKey(key.value)), None);
                  r == if packed.Ok? then Ok(packed.value.0) else Err(packed.error))
  {
    hide Pack, XrtSecret;
    var key :- id.DeriveXrtKey(c, ctx);
    r := PackBackedAssertion(c, codec, Claims(map[], claims), [], Some(key), None);
  }

  /** What `BIDVerifyXRTToken` decides. */
  function XrtHolds(c: Crypto, codec: Codec, ctx: Context, id: Identity, text: string): Result<()> {
    var ba :- Unpack(codec, text);
    if ba.certificates != [] then Err(TooManyCerts)
    else
      var key :- XrtSecret(c, ctx, id);
      KeySet.VerifySignature(c, ba.assertion.header, ba.assertion.SigningInput(), ba.assertion.signature, Some(SecretKey(key)))
  }

  /** `BIDVerifyXRTToken`. The secret is replaced as soon as the key is derived. */
  method VerifyXrt(c: Crypto, codec: Codec, ctx: Context, id: IdentityObject, text: string) returns (r: Result<()>)
    requires Jwt.NulFree(text)
    modifies id`secret
    ensures r == XrtHolds(c, codec, ctx, old(id.View()), text)
    ensures r.Ok? ==> id.secret.Some? && XrtSecret(c, ctx, old(id.View())) == Ok(id.secret.value)
  {
    hide Unpack, KeySet.VerifySignature, XrtSecret;
    var ba, _ := UnpackBackedAssertion(codec, text);
    if ba.Err? {
      return Err(ba.error);
    }
    if ba.value.certificates != [] {
      return Err(TooManyCerts);
    }
    var key :- id.DeriveXrtKey(c, ctx);
    var ap := ba.value.assertion;
    r := KeySet.VerifySignature(c, ap.header, ap.SigningInput(), ap.signature, Some(key));
  }

  // ----- agreement -----

  /** Both ends hold one secret. */
  ghost predicate SharedSecret(c: Crypto, clientCtx: Context, client: Identity, rpCtx: Context, rp: Identity) {
    Secret(c, clientCtx, client).Ok? && Secret(c, clientCtx, client) == Secret(c, rpCtx, rp)
  }

  /** The response's public value closes the agreement that the client's claims opened: after a full
      login the client that absorbed the response and the relying party share one secret. */
  lemma LoginAgrees(c: Crypto, clientCtx: Context, client: Identity, rpCtx: Context, rp: Identity, d: string, e: string,
                    claims: Object)
    requires c.Lawful() && clientCtx.curve.Some? && client.secret.None?
    requires client.priv.epk == Some(ClientKey(c, clientCtx.curve.value, d))
    requires var pub := c.publicValue(clientCtx.curve.value, e);
             && rp.priv.epk == Some(EcKey(ClientKey(c, clientCtx.curve.value, d).params, Some(pub.x), Some(pub.y), Some(e)))
             && "epk" in claims && GetString(Members(claims["epk"]), "x") == Some(pub.x)
             && GetString(Members(claims["epk"]), "y") == Some(pub.y)
    requires rp.secret.None? && Secret(c, rpCtx, rp).Ok? && Absorb(c, clientCtx, client, claims).Ok?
    ensures SharedSecret(c, clientCtx, Absorb(c, clientCtx, client, claims).value, rpCtx, rp)
  {
    hide EcdhSecret;
    var crv, pub := clientCtx.curve.value, c.publicValue(clientCtx.curve.value, e);
    var met := WithPeer(client, Some(pub.x), Some(pub.y)).value;
    BothSidesAgree(c, met.priv.epk.value, rp.priv.epk.value);
  }

  /** With one secret and one "jti", the token of the extra round trip verifies at the other end, and
      both ends replace the secret by the same new one. */
  lemma XrtAgrees(c: Crypto, codec: Codec, clientCtx: Context, client: Identity, rpCtx: Context, rp: Identity, claims: Object)
    requires c.Lawful() && codec.Lawful() && SharedSecret(c, clientCtx, client, rpCtx, rp)
    requires client.priv.jti == rp.priv.jti && XrtSecret(c, clientCtx, client).Ok?
    requires Pack(c, codec, Claims(map[], claims), [], Some(SecretKey(XrtSecret(c, clientCtx, client).value)), None).Ok?
    ensures XrtSecret(c, rpCtx, rp) == XrtSecret(c, clientCtx, client)
    ensures XrtHolds(c, codec, rpCtx, rp,
              Pack(c, codec, Claims(map[], claims), [], Some(SecretKey(XrtSecret(c, clientCtx, client).value)), None).value.0).Ok?
  {
    hide Pack, Unpack, KeySet.VerifySignature, Secret, GetBinary, SessionKey;
    var ark := SecretKey(XrtSecret(c, clientCtx, client).value);
    var cred: Object := map["ark" := ark];
    AuthenticatorVerifies(c, codec, claims, ark, cred, cred);
  }

  /** A response that adds a "jti" leaves both ends with it, and the client can derive its key. */
  lemma ResponseJti(c: Crypto, clientCtx: Context, client: Identity, rpCtx: Context, rp: Identity, extra: Object, mode: Mode, jti: bytes)
    requires ResponseClaims(rp, extra, mode, jti).Ok? && AddsJti(rp, mode, ParseOpts(rp.priv.opts, NO_FLAGS).value)
    requires ResponseKey(c, rpCtx, rp, mode).Ok?
    requires Absorb(c, clientCtx, client, ResponseClaims(rp, extra, mode, jti).value).Ok?
    ensures var met := Absorb(c, clientCtx, client, ResponseClaims(rp, extra, mode, jti).value).value;
            && met.priv.jti == Some(Binary(jti)) == Responded(c, rpCtx, rp, mode, jti).priv.jti
            && met.secret.Some? && XrtSecret(c, clientCtx, met).Ok?
  {
    hide Binary, GetBinary, ParseOpts, WithPeer, PublicValue, AddsJti, SigningKey;
    assert "nonce"[0] == 'n' && "jti"[0] == 'j';
    BinaryRoundTrip(map["jti" := Binary(jti)], "jti", jti);
  }

  /** A secret that is settled stays. */
  lemma SettledStays(c: Crypto, ctx: Context, id: Identity, claims: Object)
    requires Absorb(c, ctx, id, claims).Ok?
    ensures var settled := Absorb(c, ctx, id, claims).value;
            settled.secret.Some? && WithSecret(c, ctx, settled) == settled && Secret(c, ctx, settled) == Ok(settled.secret.value)
  {
  }

  /** An honest response verifies: signed with the response key of a relying party that shares the client's
      secret, it is accepted exactly when it is in its window and carries no audience, and it leaves the
      client as it should. */
  lemma HonestResponseVerifies(c: Crypto, codec: Codec, clientCtx: Context, client: Identity, rpCtx: Context, rp: Identity,
                               claims: Object, x: Expected, t: int)
    requires c.Lawful() && codec.Lawful() && x.keyed && Absorb(c, clientCtx, client, claims).Ok?
    requires SharedSecret(c, clientCtx, Absorb(c, clientCtx, client, claims).value, rpCtx, rp)
    requires Subkey(c, rpCtx, rp, "RRK").Ok? && Pack(c, codec, Claims(map[], claims), [], Some(Subkey(c, rpCtx, rp, "RRK").value), None).Ok?
    ensures var text := Pack(c, codec, Claims(map[], claims), [], Some(Subkey(c, rpCtx, rp, "RRK").value), None).value.0;
            && Certless(codec, text)
            && (CheckResponse(c, codec, clientCtx, x, client, text, t).Ok? <==>
                  Authority.ValidateExpiry(clientCtx.skew, t, claims).Ok? && "aud" !in claims)
            && (CheckResponse(c, codec, clientCtx, x, client, text, t).Ok? ==>
                  CheckResponse(c, codec, clientCtx, x, client, text, t) ==
                  Ok(Checked(Absorb(c, clientCtx, client, claims).value, claims, NO_FLAGS)))
  {
    hide Pack, Unpack, WithPeer, KeySet.VerifySignature, Authority.ValidateExpiry, Secret, SessionKey;
    SettledStays(c, clientCtx, client, claims);
    var rrk := Subkey(c, rpCtx, rp, "RRK").value;
    var cred: Object := map["ark" := rrk];
    AuthenticatorVerifies(c, codec, claims, rrk, cred, cred);
  }
}
