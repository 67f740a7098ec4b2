/** Whole sessions at both ends: what the client makes of a response, the extra round trip after it, and
    the acceptance of an honest re-authentication. */
module Sessions {
  import opened Wrappers
  import opened Json
  import opened Crypto
  import opened Identity
  import opened BackedAssertion
  import opened Ticket
  import opened Verify
  import opened ReplayCache
  import opened Entries
  import opened RpRuns
  import opened Justification
  import opened Lineage
  import opened RpDecision
  import opened Response
  import opened TwoParty
  import Authority
  import KeySet
  import Jwt

  // ----- the response at the client -----

  /** How reading a response ends: with the status inside it, with a refusal, or with the token of the
      extra round trip if one was asked for. */
  datatype Received = Reported | Refused(error: BIDError) | Ready(token: Option<string>)

  /** What the client answers to a response with a "jti", once it is verified and its ticket stored. */
  function XrtAnswer(c: Crypto, codec: Codec, ctx: Context, settled: Identity): Received {
    var key := XrtSecret(c, ctx, settled);
    if key.Err? then Refused(key.error)
    else
      var packed := Pack(c, codec, Claims(map[], map[]), [], Some(SecretKey(key.value)), None);
      if packed.Ok? then Ready(Some(packed.value.0)) else Refused(packed.error)
  }

  /** What the client reads out of a response that it does not refuse: its own identity, the claims, the flags,
      and whether the extra round trip is wanted. */
  datatype Reading = Reading(identity: Identity, claims: Object, flags: Flags, xrt: bool)

  /** Without a session key a response without a signature is taken as it is; what it leaves of the identity is
      what a failed check leaves, and a "jti" in it counts for nothing. */
  function ReadAs(c: Crypto, codec: Codec, ctx: Context, x: Expected, id: Identity, text: string, t: int): Result<Reading> {
    var checked, payload := CheckResponse(c, codec, ctx, x, id, text, t), PayloadOf(codec, text);
    var claims := if payload.Some? then payload.value else map[];
    if checked.Ok? then Ok(Reading(checked.value.identity, claims, checked.value.flags, "jti" in claims))
    else if checked.error == MissingSignature && !x.keyed then
      Ok(Reading(if payload.Some? then LeftAfter(c, ctx, id, claims, false) else id, claims, NO_FLAGS, false))
    else Err(checked.error)
  }

  /** The flags of the ticket that the client stores. */
  function ClientFlags(x: Expected, mutual: bool): nat {
    (if x.initial then 0 else RENEWED) + (if mutual then MUTUAL_AUTH else 0)
  }

  /** Storing a ticket settles the secret. */
  function AfterStoring(c: Crypto, ctx: Context, reading: Reading, stores: bool): Identity {
    if stores && "tkt" in reading.claims && StringValue(reading.identity.priv.aud).Some? then WithSecret(c, ctx, reading.identity)
    else reading.identity
  }

  /** The library's part of `gssBidInitResponseToken`, in its order: verify the response, look at its status, note
      mutual authentication, store the ticket, then make the token of the extra round trip. So the ticket's key
      comes from the secret that the relying party used for its entry, before that secret is replaced.
      `failed` tells a status that ends the exchange; `mutual` is the context's mutual flag. */
  method ReceiveResponse(c: Crypto, codec: Codec, ctx: Context, x: Expected, authorities: Authority.AuthorityCache, net: Authority.Net,
                         id: IdentityObject, cache: TicketCache?, text: string, t: int, mutual: bool, failed: Object -> bool)
    returns (r: Received, mutual': bool)
    requires Jwt.NulFree(text)
    requires forall h :: x.out.lookup(h) == Authority.Lookup(ctx, authorities.docs, net, t, h)
    modifies id, cache, authorities
    ensures var payload, spec := PayloadOf(codec, text), ReadAs(c, codec, ctx, x, old(id.View()), text, t);
            && (r == Reported <==> payload.Some? && failed(payload.value))
            && (r != Reported && spec.Err? ==> r == Refused(spec.error))
            && (r == Reported || spec.Err? ==> mutual' == mutual && (cache != null ==> cache.tickets == old(cache.tickets)))
            && (r != Reported && spec.Ok? ==>
                  && mutual' == (if x.initial then spec.value.flags.validatedCerts else mutual)
                  && (cache != null ==>
                        cache.tickets ==
                        if x.subject.None? then old(cache.tickets)
                        else StoredAfter(c, ctx, old(cache.tickets), spec.value.identity, spec.value.claims, ClientFlags(x, mutual')))
                  && (if !spec.value.xrt
                      then r == Ready(None) && id.View() == AfterStoring(c, ctx, spec.value, x.subject.Some? && cache != null)
                      else r == XrtAnswer(c, codec, ctx, spec.value.identity)
                           && (r.Ready? ==> XrtSecret(c, ctx, spec.value.identity) == AsResult(id.secret))))
  {
    hide CheckResponse, StoredTicket, XrtSecret, WithSecret, Pack, PayloadOf, LeftAfter, Authority.Lookup;
    mutual' := mutual;
    var verified, payload := VerifyResponse(c, codec, ctx, x, authorities, net, id, text, t);
    if payload.Some? && failed(payload.value) {
      return Reported, mutual;
    }
    var unsigned := verified == Err(MissingSignature) && !x.keyed;
    if verified.Err? && !unsigned {
      return Refused(verified.error), mutual;
    }
    CheckedPayload(c, codec, ctx, x, old(id.View()), text, t);
    ghost var reading := ReadAs(c, codec, ctx, x, old(id.View()), text, t).value;
    assert id.View() == reading.identity;
    var flags := if unsigned then NO_FLAGS else verified.value;
    if x.initial {
      mutual' := flags.validatedCerts;
    }
    var claims := if payload.Some? then payload.value else map[];
    if "tkt" in claims && x.subject.Some? {
      var _ := StoreTicketInCache(cache, c, ctx, id, Some(claims["tkt"]), ClientFlags(x, mutual'));
    }
    assert id.View() == AfterStoring(c, ctx, reading, x.subject.Some? && cache != null);
    if unsigned || "jti" !in claims {
      return Ready(None), mutual';
    }
    SettlingKeepsXrt(c, ctx, reading.identity);
    var token := MakeXrt(c, codec, ctx, id, map[]);
    return if token.Ok? then Ready(Some(token.value)) else Refused(token.error), mutual';
  }

  lemma SettlingKeepsXrt(c: Crypto, ctx: Context, id: Identity)
    ensures XrtSecret(c, ctx, WithSecret(c, ctx, id)) == XrtSecret(c, ctx, id)
  {
    hide EcdhSecret, EcdhCurve, GetBinary;
  }

  lemma CheckedPayload(c: Crypto, codec: Codec, ctx: Context, x: Expected, id: Identity, text: string, t: int)
    ensures CheckResponse(c, codec, ctx, x, id, text, t).Ok? ==>
              PayloadOf(codec, text) == Some(CheckResponse(c, codec, ctx, x, id, text, t).value.claims)
  {
    hide Unpack, LocalRp, Meets;
  }

  function AsResult(secret: Option<bytes>): Result<bytes> {
    if secret.Some? then Ok(secret.value) else Err(NoKey)
  }

  // ----- an honest response -----

  /** The relying party signs the response with the session's response key. */
  predicate SignsWithSession(rp: Identity, mode: Mode) {
    mode.keyed && ParseOpts(rp.priv.opts, NO_FLAGS).Ok? && SigningKey(mode, ParseOpts(rp.priv.opts, NO_FLAGS).value).None?
  }

  function AnswerText(c: Crypto, codec: Codec, ctx: Context, rp: Identity, a: Answer): Result<string> {
    ResponseText(c, codec, ctx, rp, a.extra, a.mode, a.jti)
  }

  /** The text of a response, delivered to a client that shares the relying party's secret, is accepted
      exactly when it is in its window and carries no audience, and then the client stores what a delivered
      exchange stores. */
  lemma DeliveredStores(c: Crypto, codec: Codec, ctx: Context, client: Identity, rpCtx: Context, rp: Identity, a: Answer,
                        tickets: Cache, flags: nat, x: Expected, t: int)
    requires c.Lawful() && codec.Lawful() && x.keyed && SignsWithSession(rp, a.mode) && AnswerText(c, codec, rpCtx, rp, a).Ok?
    requires AnswerClaims(rp, a).Ok? && Absorb(c, ctx, client, AnswerClaims(rp, a).value).Ok?
    requires SharedSecret(c, ctx, Absorb(c, ctx, client, AnswerClaims(rp, a).value).value, rpCtx, rp)
    ensures var text, claims := AnswerText(c, codec, rpCtx, rp, a).value, AnswerClaims(rp, a).value;
            var checked := CheckResponse(c, codec, ctx, x, client, text, t);
            && Certless(codec, text)
            && (checked.Ok? <==> Authority.ValidateExpiry(ctx.skew, t, claims).Ok? && "aud" !in a.extra)
            && (checked.Ok? ==>
                  StoredAfter(c, ctx, tickets, checked.value.identity, checked.value.claims, flags) == ClientStep(c, ctx, tickets, client, rp, a, flags))
  {
    hide Pack, Certless, CheckResponse, Absorb, Authority.ValidateExpiry, Secret, StoredTicket, ResponseClaims, ParseOpts;
    var claims := AnswerClaims(rp, a).value;
    HonestResponseVerifies(c, codec, ctx, client, rpCtx, rp, claims, x, t);
    assert "aud" in claims <==> "aud" in a.extra by {
      AnswerAudience(rp, a);
    }
  }

  lemma AnswerAudience(rp: Identity, a: Answer)
    requires AnswerClaims(rp, a).Ok?
    ensures "aud" in AnswerClaims(rp, a).value <==> "aud" in a.extra
  {
    hide ParseOpts, Binary, PublicValue, SigningKey, AddsJti;
    assert "aud"[0] == 'a' && "tkt"[0] == 't' && "epk"[0] == 'e' && "jti"[0] == 'j' && "nonce"[0] == 'n';
  }

  lemma TextNeedsSecret(c: Crypto, codec: Codec, ctx: Context, rp: Identity, a: Answer)
    requires SignsWithSession(rp, a.mode) && AnswerText(c, codec, ctx, rp, a).Ok?
    ensures Secret(c, ctx, rp).Ok? && AnswerClaims(rp, a).Ok?
  {
    hide ParseOpts, Pack, Secret, ResponseClaims;
  }

  /** The response to a full login, delivered. */
  lemma LoginDelivered(c: Crypto, codec: Codec, cache: Cache, e: Event, ctx: Context, d: string, a: Answer,
                       tickets: Cache, flags: nat, x: Expected, t: int)
    requires c.Lawful() && codec.Lawful() && x.keyed && LoginMeets(c, codec, cache, e, ctx, d, a)
    requires var rp := Outcome(c, codec, cache, e).identity.value;
             SignsWithSession(rp, a.mode) && AnswerText(c, codec, e.ctx, rp, a).Ok?
    ensures var client, rp := ClientIdentity(c, codec, ctx, e.s, d).value, Outcome(c, codec, cache, e).identity.value;
            var text, claims := AnswerText(c, codec, e.ctx, rp, a).value, AnswerClaims(rp, a).value;
            var checked := CheckResponse(c, codec, ctx, x, client, text, t);
            && Certless(codec, text)
            && (checked.Ok? <==> Authority.ValidateExpiry(ctx.skew, t, claims).Ok? && "aud" !in a.extra)
            && (checked.Ok? ==>
                  StoredAfter(c, ctx, tickets, checked.value.identity, checked.value.claims, flags) == ClientStep(c, ctx, tickets, client, rp, a, flags))
  {
    hide Outcome, ClientIdentity, CarriesKey, AnswerText, AnswerClaims, Absorb, SignsWithSession, CheckResponse, StoredAfter, ClientStep,
         Certless, Authority.ValidateExpiry, Secret, IsAuthenticator;
    var client, rp := ClientIdentity(c, codec, ctx, e.s, d).value, Outcome(c, codec, cache, e).identity.value;
    TextNeedsSecret(c, codec, e.ctx, rp, a);
    LoginShares(c, codec, cache, e, ctx, d, a);
    DeliveredStores(c, codec, ctx, client, e.ctx, rp, a, tickets, flags, x, t);
  }

  /** The client's authenticator was accepted, and the client absorbed the response. */
  ghost predicate ReauthMeets(c: Crypto, codec: Codec, st: System, w: Wish, e: Event, a: Answer) {
    && e.Verify? && Made(c, codec, st.tickets, w).Ok? && e.s == Made(c, codec, st.tickets, w).value.text
    && var v := Outcome(c, codec, st.cache, e);
    && v.result.Ok? && v.identity.Some? && !a.mode.initial && AnswerClaims(v.identity.value, a).Ok?
    && Absorb(c, w.ctx, Made(c, codec, st.tickets, w).value.identity, AnswerClaims(v.identity.value, a).value).Ok?
  }

  ghost function Reauthenticated(c: Crypto, codec: Codec, st: System, w: Wish, e: Event, a: Answer): Identity
    requires ReauthMeets(c, codec, st, w, e, a)
  {
    Absorb(c, w.ctx, Made(c, codec, st.tickets, w).value.identity,
           AnswerClaims(Outcome(c, codec, st.cache, e).identity.value, a).value).value
  }

  /** After an accepted re-authentication, in every run, both ends share the session secret. */
  lemma ReauthShares(c: Crypto, codec: Codec, run: seq<Exchange>, n: nat, w: Wish, e: Event, a: Answer)
    requires c.Lawful() && codec.Lawful() && HonestRun(c, codec, run) && n <= |run|
    requires ReauthMeets(c, codec, SystemAt(c, codec, run, n), w, e, a)
    ensures var st := SystemAt(c, codec, run, n);
            SharedSecret(c, w.ctx, Reauthenticated(c, codec, st, w, e, a), e.ctx, Outcome(c, codec, st.cache, e).identity.value)
  {
    hide SystemAt, Outcome, Made, IsAuthenticator, Unpack, Keyed, AnswerClaims, Absorb, TicketHolds, CheckTicket, SessionKey, NamedTicket,
         Verifies;
    var st := SystemAt(c, codec, run, n);
    var client := Made(c, codec, st.tickets, w).value.identity;
    HonestAuthenticatorVerifies(c, codec, run, n, w);
    UsedTicket(c, codec, st.cache, e);
    VerdictKeeps(c, codec, st.cache, e);
    TicketSecret(c, e.ctx, st.cache[NamedTicket(codec, e.s).value], Unpack(codec, e.s).value.assertion, e.q.t);
    ReauthAbsorbs(c, w.ctx, client, AnswerClaims(Outcome(c, codec, st.cache, e).identity.value, a).value);
  }

  lemma TicketSecret(c: Crypto, ctx: Context, cred: Object, ap: Jwt.Jwt, t: int)
    requires CheckTicket(c, ctx, cred, ap, t).Ok?
    ensures SessionKey(c, cred, ap.Claims()).Ok?
    ensures CheckTicket(c, ctx, cred, ap, t).value.secret == Some(SessionKey(c, cred, ap.Claims()).value)
  {
    hide SessionKey, CredStrength, Authority.ValidateExpiry, KeySet.VerifySignature;
  }

  /** The response to a re-authentication, delivered. */
  lemma ReauthDelivered(c: Crypto, codec: Codec, run: seq<Exchange>, n: nat, w: Wish, e: Event, a: Answer, flags: nat, x: Expected,
                        t: int)
    requires c.Lawful() && codec.Lawful() && HonestRun(c, codec, run) && n <= |run|
    requires ReauthMeets(c, codec, SystemAt(c, codec, run, n), w, e, a) && a.mode.keyed && x.keyed
    requires var rp := Outcome(c, codec, SystemAt(c, codec, run, n).cache, e).identity.value;
             AnswerText(c, codec, e.ctx, rp, a).Ok?
    ensures var st := SystemAt(c, codec, run, n);
            var client, rp := Made(c, codec, st.tickets, w).value.identity, Outcome(c, codec, st.cache, e).identity.value;
            var text, claims := AnswerText(c, codec, e.ctx, rp, a).value, AnswerClaims(rp, a).value;
            var checked := CheckResponse(c, codec, w.ctx, x, client, text, t);
            && Certless(codec, text)
            && (checked.Ok? <==> Authority.ValidateExpiry(w.ctx.skew, t, claims).Ok? && "aud" !in a.extra)
            && (checked.Ok? ==>
                  StoredAfter(c, w.ctx, st.tickets, checked.value.identity, checked.value.claims, flags) ==
                  ClientStep(c, w.ctx, st.tickets, client, rp, a, flags))
  {
    hide SystemAt, Outcome, Made, AnswerText, AnswerClaims, Absorb, CheckResponse, StoredAfter, ClientStep, Certless,
         Authority.ValidateExpiry, Secret, ParseOpts;
    var st := SystemAt(c, codec, run, n);
    var client, rp := Made(c, codec, st.tickets, w).value.identity, Outcome(c, codec, st.cache, e).identity.value;
    VerdictOpts(c, codec, st.cache, e);
    ReauthShares(c, codec, run, n, w, e, a);
    DeliveredStores(c, codec, w.ctx, client, e.ctx, rp, a, st.tickets, flags, x, t);
  }

  // ----- the extra round trip -----

  /** Both ends derive one new secret from what they share, and the client's token verifies. */
  ghost predicate RoundTripAgrees(c: Crypto, codec: Codec, ctx: Context, client: Identity, rpCtx: Context, rp: Identity) {
    && XrtSecret(c, ctx, client).Ok? && XrtSecret(c, rpCtx, rp) == XrtSecret(c, ctx, client)
    && var packed := Pack(c, codec, Claims(map[], map[]), [], Some(SecretKey(XrtSecret(c, ctx, client).value)), None);
    packed.Ok? ==> XrtHolds(c, codec, rpCtx, rp, packed.value.0).Ok?
  }

  lemma RespondedKeepsSecret(c: Crypto, ctx: Context, id: Identity, mode: Mode, jti: bytes)
    ensures Secret(c, ctx, Responded(c, ctx, id, mode, jti)) == Secret(c, ctx, id)
  {
    hide EcdhSecret, EcdhCurve, ParseOpts, Binary;
  }

  lemma XrtSecretAgrees(c: Crypto, clientCtx: Context, client: Identity, rpCtx: Context, rp: Identity)
    requires SharedSecret(c, clientCtx, client, rpCtx, rp) && client.priv.jti == rp.priv.jti
    ensures XrtSecret(c, rpCtx, rp) == XrtSecret(c, clientCtx, client)
  {
    hide Secret, GetBinary;
  }

  /** An assertion with "xrt", or a forced round trip, makes the response carry a "jti". */
  lemma AskedAdds(c: Crypto, codec: Codec, cache: Cache, e: Event, mode: Mode)
    requires e.Verify? && Outcome(c, codec, cache, e).identity.Some? && AsksXrt(codec, e.s)
    ensures var rp := Outcome(c, codec, cache, e).identity.value;
            ParseOpts(rp.priv.opts, NO_FLAGS).Ok? && AddsJti(rp, mode, ParseOpts(rp.priv.opts, NO_FLAGS).value)
  {
    hide Outcome, AsksXrt;
    VerdictOpts(c, codec, cache, e);
  }

  lemma RoundTripFollows(c: Crypto, codec: Codec, ctx: Context, client: Identity, rpCtx: Context, rp: Identity, a: Answer)
    requires c.Lawful() && codec.Lawful() && AnswerClaims(rp, a).Ok? && Absorb(c, ctx, client, AnswerClaims(rp, a).value).Ok?
    requires ParseOpts(rp.priv.opts, NO_FLAGS).Ok? && AddsJti(rp, a.mode, ParseOpts(rp.priv.opts, NO_FLAGS).value)
    requires SharedSecret(c, ctx, Absorb(c, ctx, client, AnswerClaims(rp, a).value).value, rpCtx, rp)
    ensures RoundTripAgrees(c, codec, ctx, Absorb(c, ctx, client, AnswerClaims(rp, a).value).value,
                            rpCtx, Responded(c, rpCtx, rp, a.mode, a.jti))
  {
    hide Absorb, ResponseClaims, Pack, XrtHolds, XrtSecret, ParseOpts, Secret, Responded, AddsJti, Binary;
    var met := Absorb(c, ctx, client, AnswerClaims(rp, a).value).value;
    var answered := Responded(c, rpCtx, rp, a.mode, a.jti);
    ResponseJti(c, ctx, client, rpCtx, rp, a.extra, a.mode, a.jti);
    RespondedKeepsSecret(c, rpCtx, rp, a.mode, a.jti);
    XrtSecretAgrees(c, ctx, met, rpCtx, answered);
    if Pack(c, codec, Claims(map[], map[]), [], Some(SecretKey(XrtSecret(c, ctx, met).value)), None).Ok? {
      XrtAgrees(c, codec, ctx, met, rpCtx, answered, map[]);
    }
  }

  /** A full login that asks for an extra round trip, with or without a ticket: the client's token verifies
      at the relying party that made the response, and both end with one new secret. */
  lemma XrtLoginAgrees(c: Crypto, codec: Codec, cache: Cache, e: Event, ctx: Context, d: string, a: Answer)
    requires c.Lawful() && codec.Lawful() && LoginMeets(c, codec, cache, e, ctx, d, a) && AsksXrt(codec, e.s)
    requires Secret(c, e.ctx, Outcome(c, codec, cache, e).identity.value).Ok?
    ensures RoundTripAgrees(c, codec, ctx, LoggedIn(c, codec, cache, e, ctx, d, a),
                            e.ctx, Responded(c, e.ctx, Outcome(c, codec, cache, e).identity.value, a.mode, a.jti))
  {
    hide Outcome, ClientIdentity, CarriesKey, AnswerClaims, Absorb, Secret, IsAuthenticator, AsksXrt, RoundTripAgrees, Responded, ParseOpts,
         AddsJti, SharedSecret;
    AskedAdds(c, codec, cache, e, a.mode);
    LoginShares(c, codec, cache, e, ctx, d, a);
    RoundTripFollows(c, codec, ctx, ClientIdentity(c, codec, ctx, e.s, d).value, e.ctx, Outcome(c, codec, cache, e).identity.value, a);
  }

  /** The same for a re-authentication, in every run. */
  lemma XrtReauthAgrees(c: Crypto, codec: Codec, run: seq<Exchange>, n: nat, w: Wish, e: Event, a: Answer)
    requires c.Lawful() && codec.Lawful() && HonestRun(c, codec, run) && n <= |run|
    requires ReauthMeets(c, codec, SystemAt(c, codec, run, n), w, e, a) && AsksXrt(codec, e.s)
    ensures var st := SystemAt(c, codec, run, n);
            RoundTripAgrees(c, codec, w.ctx, Reauthenticated(c, codec, st, w, e, a),
                            e.ctx, Responded(c, e.ctx, Outcome(c, codec, st.cache, e).identity.value, a.mode, a.jti))
  {
    hide SystemAt, Outcome, Made, AnswerClaims, Absorb, Secret, AsksXrt, RoundTripAgrees, Responded, ParseOpts, AddsJti, SharedSecret;
    var st := SystemAt(c, codec, run, n);
    AskedAdds(c, codec, st.cache, e, a.mode);
    ReauthShares(c, codec, run, n, w, e, a);
    RoundTripFollows(c, codec, w.ctx, Made(c, codec, st.tickets, w).value.identity, e.ctx, Outcome(c, codec, st.cache, e).identity.value, a);
  }

  // ----- an honest re-authentication is accepted -----

  lemma AuthenticatorClaims(ctx: Context, aud: string, cb: Option<bytes>, opts: Option<Json>, tid: Json, nowMs: int, nonce: bytes)
    ensures var payload := Authenticator(ctx, aud, cb, opts, tid, nowMs, nonce);
            && GetString(payload, "aud") == Some(aud) && "iat" !in payload && "nbf" !in payload
            && Get(payload, "exp") == Some(Int(nowMs + ctx.skew * 1000 % 0x1_0000_0000))
            && (cb.Some? ==> Get(payload, "cb") == Some(Binary(cb.value)))
            && (opts.Some? ==> Get(payload, "opts") == opts) && (opts.None? ==> "opts" !in payload)
  {
  }

  /** The relying party expects the wish's audience and channel binding, or none, until the authenticator's
      lifetime and its own skew are over. */
  predicate Meant(w: Wish, rp: Context, q: Request) {
    && (q.aud.Some? ==> q.aud == Some(w.aud)) && (q.cb.Some? ==> q.cb == w.cb) && (w.opts.Some? ==> w.opts.value.Arr?)
    && q.t <= Truncate(w.nowMs + w.ctx.skew * 1000 % 0x1_0000_0000, 1000) + rp.skew
  }

  lemma AuthenticatorClaimsHold(w: Wish, tid: Json, rp: Context, q: Request)
    requires Meant(w, rp, q)
    ensures ClaimsHold(rp, Authenticator(w.ctx, w.aud, w.cb, w.opts, tid, w.nowMs, w.nonce), q)
  {
    hide Authenticator, GetBinary, Binary, Truncate;
    var payload := Authenticator(w.ctx, w.aud, w.cb, w.opts, tid, w.nowMs, w.nonce);
    AuthenticatorClaims(w.ctx, w.aud, w.cb, w.opts, tid, w.nowMs, w.nonce);
    if q.cb.Some? {
      BinaryRoundTrip(payload, "cb", w.cb.value);
    }
  }

  lemma AuthenticatorText(c: Crypto, codec: Codec, run: seq<Exchange>, n: nat, w: Wish, rp: Context, q: Request)
    requires c.Lawful() && codec.Lawful() && HonestRun(c, codec, run) && n <= |run|
    requires Made(c, codec, SystemAt(c, codec, run, n).tickets, w).Ok? && Meant(w, rp, q)
    ensures var a := Made(c, codec, SystemAt(c, codec, run, n).tickets, w).value;
            && IsAuthenticator(codec, a.text) && Unpack(codec, a.text).Ok?
            && ClaimsHold(rp, Unpack(codec, a.text).value.assertion.Claims(), q)
  {
    hide SystemAt, FindTicketOrAlias, Unpack, Pack, Authenticator, KeySet.VerifySignature, GetBinary, Inv, ClaimsHold,
         Authority.ValidateExpiry, Meant;
    InvAt(c, codec, run, n);
    var st := SystemAt(c, codec, run, n);
    var cred := FindTicketOrAlias(w.ctx, st.tickets, w.aud, w.name).value;
    FoundIsHeld(c, codec, st, w.ctx, w.aud, w.name);
    var tid := Members(cred["tkt"])["tid"];
    AuthenticatorClaimsHold(w, tid, rp, q);
    AuthenticatorVerifies(c, codec, Authenticator(w.ctx, w.aud, w.cb, w.opts, tid, w.nowMs, w.nonce), cred["ark"], cred, cred);
  }

  /** The entry of the ticket that a text names has a key, is in its window and has the curve. */
  ghost predicate EntryServes(codec: Codec, cache: Cache, text: string, rp: Context, t: int) {
    var tid := NamedTicket(codec, text);
    && tid.Some? && tid.value in cache && "ark" in cache[tid.value]
    && InWindow(rp.skew, t, cache[tid.value])
    && (rp.curve.Some? ==> GetString(cache[tid.value], "crv") == rp.curve)
  }

  /** Completeness of re-authentication: in every run, while the relying party keeps a ticket's entry and the
      entry is in its window and of the context's curve, an authenticator that the client makes from that
      ticket is accepted exactly when its own text is not blocked and the new entry can be made. */
  lemma HonestReauthAccepted(c: Crypto, codec: Codec, run: seq<Exchange>, n: nat, w: Wish, e: Event)
    requires c.Lawful() && codec.Lawful() && HonestRun(c, codec, run) && n <= |run|
    requires e.Verify? && Made(c, codec, SystemAt(c, codec, run, n).tickets, w).Ok?
    requires e.s == Made(c, codec, SystemAt(c, codec, run, n).tickets, w).value.text
    requires e.ctx.reauth && e.q.reauth && Meant(w, e.ctx, e.q)
    requires EntryServes(codec, SystemAt(c, codec, run, n).cache, e.s, e.ctx, e.q.t)
    ensures var st := SystemAt(c, codec, run, n);
            var entry := st.cache[NamedTicket(codec, e.s).value];
            Outcome(c, codec, st.cache, e).result.Ok? <==>
            !Blocked(c, codec, st.cache, e) && (e.noReplay || Renewable(e.ctx, entry, e.q.t) || "exp" in entry)
  {
    hide SystemAt, Made, Unpack, Verifies, SessionKey, ClaimsHold, Local, InWindow, TicketId, Outcome, Blocked, Renewable, Meant;
    var st := SystemAt(c, codec, run, n);
    HonestAuthenticatorVerifies(c, codec, run, n, w);
    AuthenticatorText(c, codec, run, n, w, e.ctx, e.q);
    AcceptedExactlyWhenJustified(c, e.out, e.ctx, st.cache, Unpack(codec, e.s).value, e.q);
    AuthenticatorOutcome(c, codec, st.cache, e);
  }

  // ----- a full login accepted twice -----

  /** The key that the relying party's private value makes of the parameters in a full login. */
  function LoginKeyFor(c: Crypto, codec: Codec, s: string, d: string): Result<Json> {
    var claims := ClaimsOf(codec, s);
    var params := EcParamsOf(if "epk" in claims then Members(claims["epk"]) else map[]);
    if params.crv.None? then Err(UnknownEcCurve)
    else
      var pub := c.publicValue(params.crv.value, d);
      var secret :- EcdhSecret(c, EcKey(params, Some(pub.x), Some(pub.y), Some(d)));
      Ok(SecretKey(c.kdf(secret, Ascii("ARK"))))
  }

  /** A full login that is given a ticket. */
  ghost predicate TicketLogin(codec: Codec, e: Event) {
    && e.Verify? && !IsAuthenticator(codec, e.s) && e.ctx.reauth && !e.noReplay && e.ctx.curve.Some?
    && "epk" in ClaimsOf(codec, e.s)
  }

  lemma RecordedKey(c: Crypto, codec: Codec, cache: Cache, e: Event)
    requires TicketLogin(codec, e) && Outcome(c, codec, cache, e).result.Ok?
    ensures var after := Outcome(c, codec, cache, e).cache;
            c.digest(e.s) in after && "ark" in after[c.digest(e.s)] && Ok(after[c.digest(e.s)]["ark"]) == LoginKeyFor(c, codec, e.s, e.d)
  {
    hide Outcome, IsAuthenticator, ClaimsOf, Keyed, Entry, HasFlag, GetTimestamp, EcdhSecret;
    LoginKeys(c, codec, cache, e);
    RecordedEntry(c, codec, cache, e);
    MintedTicket(c, e.ctx, Keyed(c, codec, cache, e).value, e.q.t, false);
  }

  /** Whether an entry can be made does not depend on the private value that was drawn. */
  lemma AnyPrivateValue(c: Crypto, ctx: Context, id: Identity, d: string, d': string, t: int)
    ensures VerifierKey(c, id, d).Ok? == VerifierKey(c, id, d').Ok?
    ensures id.secret.None? && VerifierKey(c, id, d).Ok? ==>
              Entry(c, ctx, VerifierKey(c, id, d).value, t, false).Ok? == Entry(c, ctx, VerifierKey(c, id, d').value, t, false).Ok?
  {
    hide TimestampOf;
    if VerifierKey(c, id, d).Ok? {
      var a, b := VerifierKey(c, id, d).value, VerifierKey(c, id, d').value;
      assert Subkey(c, ctx, a, "ARK").Ok? == Subkey(c, ctx, b, "ARK").Ok?;
    }
  }

  lemma OtherValueAccepted(c: Crypto, codec: Codec, cache: Cache, e: Event, d': string)
    requires TicketLogin(codec, e) && Outcome(c, codec, cache, e).result.Ok?
    ensures Outcome(c, codec, cache, e.(d := d')).result.Ok?
  {
    hide Unpack, Local, Entry, VerifierKey, Issued, CheckReplay, IsAuthenticator, ClaimsOf, WithSecret, IssuesTicket, Attributes;
    AcceptedLocally(c, codec, cache, e);
    LocalFlags(c, codec, e.out, e.ctx, cache, e.s, e.q);
    var ba := Unpack(codec, e.s).value;
    AuthenticatorIs(codec, e.s);
    CertifiedIdentity(c, e.out, e.ctx, cache, ba, e.q);
    AnyPrivateValue(c, e.ctx, Local(c, e.out, e.ctx, cache, ba, e.q).0.value, e.d, d', e.q.t);
  }

  /** Why key agreement asks that no text of a full login be accepted twice. A login with an extra round trip
      is exempt from the replay check, so its text is accepted again whatever happened since, and the relying
      party's entry then holds the client's key exactly if the new private value leads to the same one. */
  lemma ReplayReplacesKey(c: Crypto, codec: Codec, cache: Cache, cache': Cache, e: Event, d': string, ctx: Context, d: string, a: Answer)
    requires c.Lawful() && TicketLogin(codec, e) && AsksXrt(codec, e.s)
    requires LoginMeets(c, codec, cache, e, ctx, d, a) && Outcome(c, codec, cache, e).identity.value.priv.tkt.Some?
    ensures var again := Outcome(c, codec, cache', e.(d := d'));
            && again.result.Ok? && c.digest(e.s) in again.cache && "ark" in again.cache[c.digest(e.s)]
            && (Subkey(c, ctx, LoggedIn(c, codec, cache, e, ctx, d, a), "ARK") == Ok(again.cache[c.digest(e.s)]["ark"]) <==>
                LoginKeyFor(c, codec, e.s, d') == LoginKeyFor(c, codec, e.s, e.d))
  {
    hide Outcome, IsAuthenticator, AsksXrt, ClaimsOf, LoggedIn, LoginKeyFor, Subkey, AnswerClaims, Absorb, ClientIdentity, CarriesKey;
    XrtIsExempt(c, codec, cache, cache', e);
    OtherValueAccepted(c, codec, cache', e, d');
    RecordedKey(c, codec, cache, e);
    RecordedKey(c, codec, cache', e.(d := d'));
    LoginKeyAgrees(c, codec, cache, e, ctx, d, a);
  }
}
