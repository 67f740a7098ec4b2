/** Fast re-authentication tickets (bid_reauth.c): the client's ticket cache and authenticators,
    and the relying party's check of an authenticator against its cached entry. */
module Ticket {
  import opened Wrappers
  import opened Json
  import opened Crypto
  import opened Identity
  import Authority
  import BackedAssertion
  import KeySet
  import Jwt
  import Spn

  /** Replay cache and ticket cache alike: JSON objects under string keys. */
  type Cache = map<string, Object>

  // ----- credentials in a cache -----

  /** `_BIDValidateReauthCredStrength`. */
  function CredStrength(ctx: Context, cred: Object): Result<()> {
    if ctx.curve.Some? && GetString(cred, "crv") != ctx.curve then Err(InvalidEcCurve) else Ok(())
  }

  /** `_BIDDeriveAuthenticatorSessionKey`. */
  function SessionKey(c: Crypto, cred: Object, claims: Object): Result<bytes> {
    var key :- GetBinary(if "ark" in cred then Members(cred["ark"]) else map[], "secret-key");
    var nonce :- GetBinary(claims, "nonce");
    Ok(c.kdf(key, nonce))
  }

  const SECRET_STUFF: set<string> := {"ark", "a-exp", "flags", "aud"}

  /** `_BIDMakeReauthIdentity`: the credential without its secrets. */
  function ReauthIdentity(c: Crypto, cred: Object, claims: Object): Result<Identity> {
    var secret :- SessionKey(c, cred, claims);
    Ok(Identity(cred - SECRET_STUFF,
                NO_PRIVATE.(aExp := Get(cred, "a-exp"), aud := Get(cred, "aud"), opts := Get(claims, "opts")),
                Some(secret)))
  }

  /** `_BIDSaveKeyAgreementStrength`: a strength that is already recorded stays. */
  function SaveStrength(ctx: Context, priv: Private, cred: Object): Result<Object> {
    if "crv" in cred then Ok(cred)
    else if priv.epk.None? then Ok(Set(cred, "crv", priv.crv))
    else if ctx.curve.None? then Ok(cred)
    else if priv.epk.value.params.crv.None? then Err(UnknownJsonKey)
    else Ok(cred["crv" := Str(priv.epk.value.params.crv.value)])
  }

  /** BID_TICKET_FLAG_RENEWED and BID_TICKET_FLAG_MUTUAL_AUTH. */
  const RENEWED := 1
  const MUTUAL_AUTH := 2

  predicate HasFlag(cred: Object, flag: nat)
    requires flag == RENEWED || flag == MUTUAL_AUTH
  {
    IntegerValue(Get(cred, "flags")) / flag % 2 == 1
  }

  method MakeReauthIdentity(c: Crypto, cred: Object, claims: Object) returns (r: Result<Identity>)
    ensures r == ReauthIdentity(c, cred, claims)
  {
    hide SessionKey;
    var attributes := cred;
    var priv := NO_PRIVATE;
    attributes := attributes - {"ark"};
    attributes := attributes - {"a-exp"};
    attributes := attributes - {"flags"};
    attributes := attributes - {"aud"};
    priv := priv.(aExp := Get(cred, "a-exp"));
    priv := priv.(aud := Get(cred, "aud"));
    priv := priv.(opts := Get(claims, "opts"));
    var secret :- SessionKey(c, cred, claims);
    assert attributes == cred - SECRET_STUFF;
    return Ok(Identity(attributes, priv, Some(secret)));
  }

  // ----- verification -----

  /** The flags that verification reports. The last four come from the protocol options. */
  datatype Flags = Flags(reauth: bool, reauthMutual: bool, validatedCerts: bool, x509: bool,
                         xrt: bool, dce: bool, identify: bool, mutualAuth: bool)

  const NO_FLAGS := Flags(false, false, false, false, false, false, false, false)

  function TicketId(claims: Object): Option<string> {
    GetString(if "tkt" in claims then Members(claims["tkt"]) else map[], "tid")
  }

  /** What the ticket named in an authenticator must satisfy, and the identity it stands for. */
  function CheckTicket(c: Crypto, ctx: Context, cred: Object, ap: Jwt.Jwt, t: int): Result<Identity> {
    var _ :- CredStrength(ctx, cred);
    var _ :- Authority.ValidateExpiry(ctx.skew, t, cred);
    var _ :- KeySet.VerifySignature(c, ap.header, ap.SigningInput(), ap.signature, Get(cred, "ark"));
    var id :- ReauthIdentity(c, cred, ap.Claims());
    Ok(id.(priv := id.priv.(renewExp := Get(cred, "renew-exp"), crv := Get(cred, "crv"))))
  }

  /** `_BIDVerifyReauthAssertion`. */
  function VerifyReauth(c: Crypto, ctx: Context, cache: Cache, ap: Jwt.Jwt, t: int): (Result<Identity>, Flags) {
    var tid := TicketId(ap.Claims());
    if tid.None? then (Err(NotReauthAssertion), NO_FLAGS)
    else if tid.value !in cache then (Err(InvalidAssertion), NO_FLAGS.(reauth := true))
    else
      var cred := cache[tid.value];
      var valid := CredStrength(ctx, cred).Ok? && Authority.ValidateExpiry(ctx.skew, t, cred).Ok?;
      (CheckTicket(c, ctx, cred, ap, t),
       NO_FLAGS.(reauth := true, reauthMutual := valid && HasFlag(cred, MUTUAL_AUTH)))
  }

  /** `_BIDVerifyReauthAssertion`, which raises flags as it goes, also before it fails, and hands
      back the ticket's key for the caller's own signature check. */
  method VerifyReauthAssertion(c: Crypto, ctx: Context, cache: Cache, ap: Jwt.Jwt, t: int)
    returns (r: Result<Identity>, verifierCred: Option<Json>, flags: Flags)
    ensures (r, flags) == VerifyReauth(c, ctx, cache, ap, t)
    ensures r.Ok? ==> verifierCred == Get(cache[TicketId(ap.Claims()).value], "ark")
  {
    hide Authority.ValidateExpiry, KeySet.VerifySignature, ReauthIdentity;
    flags, verifierCred := NO_FLAGS, None;
    var tid := TicketId(ap.Claims());
    if tid.None? {
      return Err(NotReauthAssertion), None, flags;
    }
    flags := flags.(reauth := true);
    if tid.value !in cache {
      return Err(InvalidAssertion), None, flags;
    }
    var cred := cache[tid.value];
    var ok := CredStrength(ctx, cred);
    if ok.Err? {
      return Err(ok.error), None, flags;
    }
    ok := Authority.ValidateExpiry(ctx.skew, t, cred);
    if ok.Err? {
      return Err(ok.error), None, flags;
    }
    if HasFlag(cred, MUTUAL_AUTH) {
      flags := flags.(reauthMutual := true);
    }
    verifierCred := Get(cred, "ark");
    ok := KeySet.VerifySignature(c, ap.header, ap.SigningInput(), ap.signature, verifierCred);
    if ok.Err? {
      return Err(ok.error), None, flags;
    }
    var id := MakeReauthIdentity(c, cred, ap.Claims());
    if id.Err? {
      return Err(id.error), None, flags;
    }
    var priv := id.value.priv;
    priv := priv.(renewExp := Get(cred, "renew-exp"));
    priv := priv.(crv := Get(cred, "crv"));
    r := Ok(id.value.(priv := priv));
  }

  // ----- the client's cache -----

  /** `_BIDMakeTicketCacheKey`. */
  function TicketKey(ctx: Context, aud: string): Result<string> {
    if ctx.curve.None? then Err(CacheKeyNotFound) else Ok(ctx.curve.value + "$" + aud)
  }

  /** `_BIDStoreTicketInCache`: the key and the credential that it writes. */
  function StoredTicket(c: Crypto, ctx: Context, id: Identity, ticket: Json, flags: nat): Result<(string, Object)> {
    var aud := StringValue(id.priv.aud);
    if aud.None? then Err(InvalidParameter)
    else
      var ark :- Subkey(c, ctx, id, "ARK");
      var cred := id.attributes["tkt" := ticket]["aud" := Str(aud.value)]["ark" := ark]["flags" := Int(flags)];
      var cred :- SaveStrength(ctx, id.priv, cred);
      if GetString(id.attributes, "sub").None? then Err(UnknownAttribute)
      else
        var key :- TicketKey(ctx, aud.value);
        Ok((key, cred))
  }

  /** `_BIDFindTicketInCache`: the entry under the audience's key, of the wanted subject if one
      is named. */
  function FindTicket(ctx: Context, tickets: Cache, aud: string, name: Option<string>): Result<Object> {
    var key :- TicketKey(ctx, aud);
    if key in tickets && (name.Some? ==> GetString(tickets[key], "sub") == name) then Ok(tickets[key])
    else Err(CacheKeyNotFound)
  }

  /** The lookup of `_BIDGetReauthAssertion`, with its fall-back to the host's ticket. */
  function FindTicketOrAlias(ctx: Context, tickets: Cache, aud: string, name: Option<string>): Result<Object> {
    var r := FindTicket(ctx, tickets, aud, name);
    if r == Err(CacheKeyNotFound) && ctx.hostSpnAlias then
      var host :- Spn.Hostify(aud);
      FindTicket(ctx, tickets, host, name)
    else r
  }

  /** `_BIDMakeAuthenticator` without the "iat" that is dropped again before signing. The
      lifetime is a 32-bit product. */
  function Authenticator(ctx: Context, aud: string, cb: Option<bytes>, opts: Option<Json>, tid: Json,
                         nowMs: int, nonce: bytes): Object
  {
    var payload: Object := map[
      "exp" := Int(nowMs + ctx.skew * 1000 % 0x1_0000_0000),
      "nonce" := Binary(nonce),
      "tkt" := Obj(map["tid" := tid]),
      "aud" := Str(aud)];
    var payload := if cb.Some? then payload["cb" := Binary(cb.value)] else payload;
    if opts.Some? then payload["opts" := opts.value] else payload
  }

  datatype Acquired = Acquired(text: string, identity: Identity, expiry: int, cred: Object)

  /** `_BIDGetReauthAssertion`. */
  function ReauthAssertion(c: Crypto, codec: Codec, ctx: Context, tickets: Cache, aud: string, cb: Option<bytes>,
                           name: Option<string>, opts: Option<Json>, nowMs: int, nonce: bytes): Result<Acquired>
  {
    var cred :- FindTicketOrAlias(ctx, tickets, aud, name);
    if "tkt" !in cred || "tid" !in Members(cred["tkt"]) then Err(BadTicketCache)
    else
      var tkt := Members(cred["tkt"]);
      var payload := Authenticator(ctx, aud, cb, opts, tkt["tid"], nowMs, nonce);
      var _ :- Authority.ValidateExpiry(ctx.skew, Truncate(nowMs, 1000), tkt);
      var _ :- CredStrength(ctx, cred);
      var packed :- BackedAssertion.Pack(c, codec, BackedAssertion.Claims(map[], payload), [], Get(cred, "ark"), None);
      var id :- ReauthIdentity(c, cred, payload);
      Ok(Acquired(packed.0, id, GetTimestamp(tkt, "exp"), cred))
  }

  /** The client's ticket cache. */
  class TicketCache {
    var tickets: Cache

    constructor ()
      ensures tickets == map[]
    {
      tickets := map[];
    }
  }

  /** `_BIDStoreTicketInCache`. Deriving the key also settles the identity's secret. */
  method StoreTicketInCache(cache: TicketCache?, c: Crypto, ctx: Context, id: IdentityObject?, ticket: Option<Json>, flags: nat)
    returns (r: Result<()>)
    modifies cache, id
    ensures id == null || ticket.None? ==> r == Err(InvalidParameter)
    ensures id != null && ticket.Some? && cache == null ==> r == Err(NoTicketCache)
    ensures id == null || ticket.None? || cache == null ==>
              (id != null ==> id.View() == old(id.View())) && (cache != null ==> cache.tickets == old(cache.tickets))
    ensures id != null && ticket.Some? && cache != null ==>
              && var spec := StoredTicket(c, ctx, old(id.View()), ticket.value, flags);
              && r == (if spec.Ok? then Ok(()) else Err(spec.error))
              && cache.tickets == (if spec.Ok? then old(cache.tickets)[spec.value.0 := spec.value.1] else old(cache.tickets))
              && id.View() == if StringValue(old(id.priv).aud).Some? then WithSecret(c, ctx, old(id.View())) else old(id.View())
  {
    hide Subkey, WithSecret;
    if id == null || ticket.None? {
      return Err(InvalidParameter);
    }
    if cache == null {
      return Err(NoTicketCache);
    }
    var aud := StringValue(id.priv.aud);
    if aud.None? {
      return Err(InvalidParameter);
    }
    var ark :- id.DeriveSessionSubkey(c, ctx, "ARK");
    assert id.attributes == old(id.attributes) && id.priv == old(id.priv);
    var cred := id.attributes;
    cred := cred["tkt" := ticket.value];
    cred := cred["aud" := Str(aud.value)];
    cred := cred["ark" := ark];
    cred := cred["flags" := Int(flags)];
    cred :- SaveStrength(ctx, id.priv, cred);
    if GetString(id.attributes, "sub").None? {
      return Err(UnknownAttribute);
    }
    var key :- TicketKey(ctx, aud.value);
    cache.tickets := cache.tickets[key := cred];
    return Ok(());
  }

  // ----- what an honest authenticator proves -----

  /** Signing an authenticator with a ticket's key makes a text that the relying party unpacks
      into a token which verifies under the same key, and both ends derive one session key. */
  lemma AuthenticatorVerifies(c: Crypto, codec: Codec, payload: Object, ark: Json, rp: Object, client: Object)
    requires c.Lawful() && codec.Lawful()
    requires "ark" in rp && "ark" in client && rp["ark"] == client["ark"] == ark
    requires BackedAssertion.Pack(c, codec, BackedAssertion.Claims(map[], payload), [], Some(ark), None).Ok?
    ensures var text := BackedAssertion.Pack(c, codec, BackedAssertion.Claims(map[], payload), [], Some(ark), None).value.0;
            var ba := BackedAssertion.Unpack(codec, text);
            && ba.Ok? && ba.value.certificates == [] && ba.value.assertion.Claims() == payload
            && "x5c" !in ba.value.assertion.header
            && KeySet.VerifySignature(c, ba.value.assertion.header, ba.value.assertion.SigningInput(),
                                      ba.value.assertion.signature, Some(ark)).Ok?
            && SessionKey(c, rp, ba.value.assertion.Claims()) == SessionKey(c, client, payload)
  {
    hide Jwt.Parse, KeySet.VerifySignature, BackedAssertion.Unpack, Jwt.EncodeJson, KeySet.Signer, KeySet.Sign;
    var claims := BackedAssertion.Claims(map[], payload);
    var (text, signed) := BackedAssertion.Pack(c, codec, claims, [], Some(ark), None).value;
    var s := Jwt.MakeSigned(c, codec, map[], payload, Some(ark), None).value;
    assert signed == [s];
    assert Jwt.ValidHeader(Obj(s.jwt.header));
    BackedAssertion.PackUnpack(c, codec, claims, [], Some(ark), None);
    assert BackedAssertion.Jwts(signed[..0]) == [];
    Jwt.SignedVerifies(c, codec, map[], payload, ark, None);
  }
}
