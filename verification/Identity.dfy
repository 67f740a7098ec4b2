/** Verified and asserted identities, and the key agreement that hangs off them: bid_crypto.c,
    bid_xrt.c and the key halves of bid_user.c and bid_identity.c. */
module Identity {
  import opened Wrappers
  import opened Json
  import opened Crypto

  /** The settings of a BIDContext that the modelled code reads. BID_CONTEXT_ECDH_KEYEX is
      "the curve is set". Skew and lifetimes are 32-bit unsigned configuration values. */
  datatype Context = Context(
    reauth: bool,                // BID_CONTEXT_REAUTH
    replayCache: bool,           // BID_CONTEXT_REPLAY_CACHE
    hostSpnAlias: bool,          // BID_CONTEXT_HOST_SPN_ALIAS
    authorityCache: bool,        // BID_CONTEXT_AUTHORITY_CACHE
    curve: Option<string>,
    skew: nat,
    ticketLifetime: nat,
    renewLifetime: nat,
    canMutualAuth: bool,         // an RP certificate is configured
    secondaryAuthorities: seq<string>,
    maxDelegations: nat)

  /** Elliptic curve parameters; "x" and "y" are the peer's public value once it is known. */
  datatype EcParams = EcParams(kty: Option<string>, crv: Option<string>, x: Option<string>, y: Option<string>)

  function EcParamsOf(o: Object): EcParams {
    EcParams(GetString(o, "kty"), GetString(o, "crv"), GetString(o, "x"), GetString(o, "y"))
  }

  /** The "epk" private attribute. */
  datatype EcKey = EcKey(params: EcParams, x: Option<string>, y: Option<string>, d: Option<string>)

  /** The private attributes that the library keeps. */
  datatype Private = Private(
    aud: Option<Json>,
    epk: Option<EcKey>,
    aExp: Option<Json>,
    nonce: Option<Json>,
    opts: Option<Json>,
    renewExp: Option<Json>,
    crv: Option<Json>,
    tkt: Option<Json>,
    jti: Option<Json>)

  const NO_PRIVATE := Private(None, None, None, None, None, None, None, None, None)

  datatype Identity = Identity(attributes: Object, priv: Private, secret: Option<bytes>)

  // ----- curves -----

  function CurveSize(name: string): nat {
    if name == "P-256" then 256 else if name == "P-384" then 384 else if name == "P-521" then 521 else 0
  }

  /** `_BIDGetECDHCurve`. */
  function EcdhCurve(params: EcParams): Result<nat> {
    if params.kty != Some("EC") then Err(UnknownAlgorithm)
    else if params.crv.None? || CurveSize(params.crv.value) == 0 then Err(UnknownEcCurve)
    else Ok(CurveSize(params.crv.value))
  }

  /** The curves that the library knows, the weakest first. */
  const CURVES: seq<string> := ["P-256", "P-384", "P-521"]

  /** The curve is known, and not weaker than the wanted one. */
  predicate StrongEnough(crv: string, wanted: string) {
    exists i :: 0 <= i < |CURVES| && CURVES[i] == crv && forall j :: 0 <= j < |CURVES| && CURVES[j] == wanted ==> j <= i
  }

  /** Which parameters pass the strength check of the secret agreement. */
  lemma StrengthExactly(params: EcParams, wanted: string)
    ensures EcdhCurve(params).Ok? && EcdhCurve(params).value >= CurveSize(wanted) <==>
            params.kty == Some("EC") && params.crv.Some? && StrongEnough(params.crv.value, wanted)
  {
    assert CURVES[0] == "P-256" && CURVES[1] == "P-384" && CURVES[2] == "P-521";
    assert CURVES[0][2] == '2' && CURVES[1][2] == '3' && CURVES[2][2] == '5';
    if params.crv.Some? && StrongEnough(params.crv.value, wanted) {
      var i :| 0 <= i < |CURVES| && CURVES[i] == params.crv.value && forall j :: 0 <= j < |CURVES| && CURVES[j] == wanted ==> j <= i;
      assert forall j :: 0 <= j < |CURVES| && CURVES[j] == wanted ==> j <= i;
    }
    if params.crv.Some? && EcdhCurve(params).Ok? && EcdhCurve(params).value >= CurveSize(wanted) {
      var i := if params.crv.value == "P-256" then 0 else if params.crv.value == "P-384" then 1 else 2;
      assert CURVES[i] == params.crv.value;
    }
  }

  // ----- secrets -----

  /** `_BIDECDHSecretAgreement`: own key and the peer's public value, both on the curve. */
  function EcdhSecret(c: Crypto, key: EcKey): Result<bytes> {
    if key.d.None? || key.x.None? || key.y.None? || key.params.x.None? || key.params.y.None? then Err(UnknownJsonKey)
    else
      var size :- EcdhCurve(key.params);
      Ok(c.agree(key.params.crv.value, key.d.value, Point(key.params.x.value, key.params.y.value)))
  }

  /** `_BIDIdentitySecretAgreement`: the secret, agreed on first use and kept from then on. */
  function Secret(c: Crypto, ctx: Context, id: Identity): Result<bytes> {
    if id.secret.Some? then Ok(id.secret.value)
    else if id.priv.epk.None? || ctx.curve.None? then Err(NoKey)
    else
      var size :- EcdhCurve(id.priv.epk.value.params);
      if size < CurveSize(ctx.curve.value) then Err(InvalidEcCurve)
      else EcdhSecret(c, id.priv.epk.value)
  }

  /** Which error tells why there is no secret. */
  lemma SecretErrors(c: Crypto, ctx: Context, id: Identity)
    requires id.secret.None?
    ensures var r := Secret(c, ctx, id);
            if id.priv.epk.None? || ctx.curve.None? then r == Err(NoKey)
            else
              var key := id.priv.epk.value;
              if key.params.kty != Some("EC") then r == Err(UnknownAlgorithm)
              else if key.params.crv.None? || key.params.crv.value !in CURVES then r == Err(UnknownEcCurve)
              else if !StrongEnough(key.params.crv.value, ctx.curve.value) then r == Err(InvalidEcCurve)
              else if key.d.None? || key.x.None? || key.y.None? || key.params.x.None? || key.params.y.None? then r == Err(UnknownJsonKey)
              else r.Ok?
  {
    hide StrongEnough;
    if id.priv.epk.Some? && ctx.curve.Some? {
      StrengthExactly(id.priv.epk.value.params, ctx.curve.value);
    }
    assert CURVES[0] == "P-256" && CURVES[1] == "P-384" && CURVES[2] == "P-521";
  }

  function SecretKey(b: bytes): Json {
    Obj(map["secret-key" := Binary(b)])
  }

  /** `_BIDDeriveSessionSubkey`: "ARK" for tickets, "RRK" for responses. */
  function Subkey(c: Crypto, ctx: Context, id: Identity, salt: string): Result<Json> {
    var secret :- Secret(c, ctx, id);
    Ok(SecretKey(c.kdf(secret, Ascii(salt))))
  }

  function WithSecret(c: Crypto, ctx: Context, id: Identity): Identity {
    if Secret(c, ctx, id).Ok? then id.(secret := Some(Secret(c, ctx, id).value)) else id
  }

  /** `_BIDVerifierKeyAgreement`: the RP's own key pair, on the curve of the client's params. */
  function VerifierKey(c: Crypto, id: Identity, d: string): Result<Identity> {
    if id.priv.epk.None? then Err(NoKey)
    else
      var params := id.priv.epk.value.params;
      var size :- EcdhCurve(params);
      var pub := c.publicValue(params.crv.value, d);
      Ok(id.(priv := id.priv.(epk := Some(EcKey(params, Some(pub.x), Some(pub.y), Some(d))))))
  }

  /** `_BIDSetKeyAgreementPublicValue`. */
  function WithPeer(id: Identity, x: Option<string>, y: Option<string>): Result<Identity> {
    if id.priv.epk.None? then Err(NoKey)
    else if x.None? || y.None? then Err(UnknownJsonKey)
    else
      var key := id.priv.epk.value;
      Ok(id.(priv := id.priv.(epk := Some(key.(params := key.params.(x := x, y := y))))))
  }

  /** What a failure leaves behind: when only "y" is missing, "x" is already in place. */
  function LeftBehind(id: Identity, x: Option<string>): Identity {
    if id.priv.epk.None? || x.None? then id
    else
      var key := id.priv.epk.value;
      id.(priv := id.priv.(epk := Some(key.(params := key.params.(x := x)))))
  }

  /** A refused public value changes at most the coordinate that was there. */
  lemma RefusedPeer(id: Identity, x: Option<string>, y: Option<string>)
    requires WithPeer(id, x, y).Err?
    ensures var left := LeftBehind(id, x);
            && left.attributes == id.attributes && left.secret == id.secret
            && left.priv.(epk := None) == id.priv.(epk := None) && (left.priv.epk.Some? <==> id.priv.epk.Some?)
            && (id.priv.epk.Some? ==>
                  && left.priv.epk.value.params.x == (if x.Some? then x else id.priv.epk.value.params.x)
                  && left.priv.epk.value.params.y == id.priv.epk.value.params.y
                  && left.priv.epk.value.params.crv == id.priv.epk.value.params.crv && left.priv.epk.value.d == id.priv.epk.value.d)
  {
  }

  /** `_BIDDeriveXRTKey`: the key of the extra round trip, which also replaces the secret. */
  function XrtSecret(c: Crypto, ctx: Context, id: Identity): Result<bytes> {
    var salt :- (if id.priv.jti.None? then Err(UnknownJsonKey) else GetBinary(map["jti" := id.priv.jti.value], "jti"));
    var secret :- Secret(c, ctx, id);
    Ok(c.kdf(secret, salt))
  }

  /** An identity object: the functions above, as the in-place updates the library performs. */
  class IdentityObject {
    var attributes: Object
    var priv: Private
    var secret: Option<bytes>

    function View(): Identity
      reads this
    {
      Identity(attributes, priv, secret)
    }

    constructor (attributes: Object, priv: Private, secret: Option<bytes>)
      ensures View() == Identity(attributes, priv, secret)
    {
      this.attributes, this.priv, this.secret := attributes, priv, secret;
    }

    method SecretAgreement(c: Crypto, ctx: Context) returns (r: Result<bytes>)
      modifies this`secret
      ensures r == Secret(c, ctx, old(View()))
      ensures View() == WithSecret(c, ctx, old(View()))
    {
      if secret.None? {
        if priv.epk.None? {
          return Err(NoKey);
        }
        if ctx.curve.None? {
          return Err(NoKey);
        }
        var size :- EcdhCurve(priv.epk.value.params);
        if size < CurveSize(ctx.curve.value) {
          return Err(InvalidEcCurve);
        }
        var agreed :- EcdhSecret(c, priv.epk.value);
        secret := Some(agreed);
      }
      return Ok(secret.value);
    }

    method DeriveSessionSubkey(c: Crypto, ctx: Context, salt: string) returns (r: Result<Json>)
      modifies this`secret
      ensures r == Subkey(c, ctx, old(View()), salt)
      ensures View() == WithSecret(c, ctx, old(View()))
    {
      var agreed :- SecretAgreement(c, ctx);
      return Ok(SecretKey(c.kdf(agreed, Ascii(salt))));
    }

    method VerifierKeyAgreement(c: Crypto, d: string) returns (r: Result<()>)
      modifies this`priv
      ensures var spec := VerifierKey(c, old(View()), d);
              && r == (if spec.Ok? then Ok(()) else Err(spec.error))
              && View() == if spec.Ok? then spec.value else old(View())
    {
      if priv.epk.None? {
        return Err(NoKey);
      }
      var dh := priv.epk.value;
      var size :- EcdhCurve(dh.params);
      var key := c.publicValue(dh.params.crv.value, d);
      dh := dh.(x := Some(key.x));
      dh := dh.(y := Some(key.y));
      dh := dh.(d := Some(d));
      priv := priv.(epk := Some(dh));
      return Ok(());
    }

    method SetKeyAgreementPublicValue(x: Option<string>, y: Option<string>) returns (r: Result<()>)
      modifies this`priv
      ensures var spec := WithPeer(old(View()), x, y);
              && r == (if spec.Ok? then Ok(()) else Err(spec.error))
              && View() == if spec.Ok? then spec.value else LeftBehind(old(View()), x)
    {
      if priv.epk.None? {
        return Err(NoKey);
      }
      var key := priv.epk.value;
      if x.None? {
        return Err(UnknownJsonKey);
      }
      key := key.(params := key.params.(x := x));
      priv := priv.(epk := Some(key));
      if y.None? {
        return Err(UnknownJsonKey);
      }
      key := key.(params := key.params.(y := y));
      priv := priv.(epk := Some(key));
      return Ok(());
    }

    /** The derived key signs or verifies the token of the extra round trip; it also becomes the
        identity's secret. */
    method DeriveXrtKey(c: Crypto, ctx: Context) returns (r: Result<Json>)
      modifies this`secret
      ensures var spec := XrtSecret(c, ctx, old(View()));
              && r == (if spec.Ok? then Ok(SecretKey(spec.value)) else Err(spec.error))
              && (spec.Ok? ==> View() == old(View()).(secret := Some(spec.value)))
              && View().attributes == old(View()).attributes && View().priv == old(View()).priv
    {
      if priv.jti.None? {
        return Err(UnknownJsonKey);
      }
      var salt :- GetBinary(map["jti" := priv.jti.value], "jti");
      var agreed :- SecretAgreement(c, ctx);
      var key := c.kdf(agreed, salt);
      secret := Some(key);
      return Ok(SecretKey(key));
    }
  }

  // ----- agreement -----

  /** The two halves of a full login: the client's key with the RP's public value, and the RP's
      key with the client's, give the same secret. */
  lemma BothSidesAgree(c: Crypto, client: EcKey, rp: EcKey)
    requires c.Lawful()
    requires client.params.kty == rp.params.kty && client.params.crv == rp.params.crv && client.params.crv.Some?
    requires client.d.Some? && rp.d.Some?
    requires rp.params.x.Some? && rp.params.y.Some? && client.params.x.Some? && client.params.y.Some?
    requires client.x.Some? && client.y.Some? && rp.x.Some? && rp.y.Some?
    requires var crv := client.params.crv.value;
             && Point(rp.params.x.value, rp.params.y.value) == c.publicValue(crv, client.d.value)
             && Point(client.params.x.value, client.params.y.value) == c.publicValue(crv, rp.d.value)
    ensures EcdhSecret(c, client) == EcdhSecret(c, rp)
  {
  }
}
