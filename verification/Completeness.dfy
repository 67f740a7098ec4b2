/** What an exchange needs in order to go through: each step fails only for reasons that a party can see beforehand. */
module Completeness {
  import opened Wrappers
  import opened Json
  import opened Crypto
  import opened Identity
  import opened BackedAssertion
  import opened Ticket
  import opened Verify
  import opened ReplayCache
  import opened RpRuns
  import opened Justification
  import opened Lineage
  import opened RpDecision
  import opened Response
  import opened TwoParty
  import opened Sessions
  import opened KeySchedule
  import opened ClientTickets
  import Authority
  import Base64
  import Jwt
  import KeySet
  import Spn

  // ----- signing with a session's key -----

  /** Header and payload are short enough to be encoded. */
  predicate Encodable(codec: Codec, payload: Object) {
    |codec.dumps(map["alg" := Str("HS256")])| <= Base64.MAX_INPUT && |codec.dumps(payload)| <= Base64.MAX_INPUT
  }

  /** Packing under a secret key fails only for size. */
  lemma KeyPacksExactly(c: Crypto, codec: Codec, payload: Object, k: bytes)
    requires c.Lawful()
    ensures Pack(c, codec, Claims(map[], payload), [], Some(KeyOf(k)), None).Ok? <==> Encodable(codec, payload)
  {
    hide KeySet.FindKey, KeyOf, Base64.Encode, Join, Texts, GetBinary;
    HmacSigner(c, k);
    KeyOfReads(k);
    var header: Object := map[];
    assert header["alg" := Str("HS256")] == map["alg" := Str("HS256")];
  }

  lemma HmacSigner(c: Crypto, k: bytes)
    ensures KeySet.Signer(c, KeyOf(k)) == Ok((KeySet.ALGORITHMS[5], KeyOf(k)))
  {
    hide KeySet.FindKey, KeySet.SignerFrom;
    KeySet.SignerExactly(c, KeyOf(k));
    OneLeaf(c, k);
    if KeySet.Signer(c, KeyOf(k)).Ok? {
      KeySet.SignerIsInTable(c, KeyOf(k), 0, UnknownAlgorithm);
      HmacEntry(c, k, KeySet.Signer(c, KeyOf(k)).value.0);
    }
  }

  lemma OneLeaf(c: Crypto, k: bytes)
    ensures KeySet.SomeFits(c, "HS256", KeyOf(k))
  {
    assert KeySet.Leaves(KeyOf(k)) == [KeyOf(k)];
    assert KeySet.FirstFit(c, "HS256", KeyOf(k), 0);
  }

  // ----- the client's side -----

  /** An authenticator is made from a ticket that was found exactly when the ticket is in its window, of the context's
      curve, and the texts can be encoded. */
  lemma MadeExactly(c: Crypto, codec: Codec, tickets: Cache, w: Wish, k: bytes)
    requires c.Lawful() && FindTicketOrAlias(w.ctx, tickets, w.aud, w.name).Ok?
    requires var cred := FindTicketOrAlias(w.ctx, tickets, w.aud, w.name).value;
             Get(cred, "ark") == Some(KeyOf(k)) && "tkt" in cred && "tid" in Members(cred["tkt"])
    ensures var cred := FindTicketOrAlias(w.ctx, tickets, w.aud, w.name).value;
            var tkt := Members(cred["tkt"]);
            Made(c, codec, tickets, w).Ok? <==>
            && InWindow(w.ctx.skew, Truncate(w.nowMs, 1000), tkt)
            && (w.ctx.curve.Some? ==> GetString(cred, "crv") == w.ctx.curve)
            && Encodable(codec, Authenticator(w.ctx, w.aud, w.cb, w.opts, tkt["tid"], w.nowMs, w.nonce))
  {
    hide FindTicketOrAlias, Authenticator, Authority.ValidateExpiry, InWindow, Pack, Encodable, Truncate, KeyOf, GetBinary;
    var cred := FindTicketOrAlias(w.ctx, tickets, w.aud, w.name).value;
    var tkt := Members(cred["tkt"]);
    var payload := Authenticator(w.ctx, w.aud, w.cb, w.opts, tkt["tid"], w.nowMs, w.nonce);
    WindowExactly(w.ctx.skew, Truncate(w.nowMs, 1000), tkt);
    KeyPacksExactly(c, codec, payload, k);
    KeyOfReads(k);
    AuthenticatorNonce(w.ctx, w.aud, w.cb, w.opts, tkt["tid"], w.nowMs, w.nonce);
  }

  /** A ticket is found exactly when one is filed for the audience, or where aliases are allowed for its host, that
      is of the named identity if one is. */
  ghost predicate FiledFor(tickets: Cache, crv: string, aud: string, name: Option<string>) {
    crv + "$" + aud in tickets && (name.Some? ==> GetString(tickets[crv + "$" + aud], "sub") == name)
  }

  lemma FoundExactly(ctx: Context, tickets: Cache, aud: string, name: Option<string>)
    ensures FindTicketOrAlias(ctx, tickets, aud, name).Ok? <==>
            && ctx.curve.Some?
            && (|| FiledFor(tickets, ctx.curve.value, aud, name)
                || (ctx.hostSpnAlias && Spn.Hostify(aud).Ok? && FiledFor(tickets, ctx.curve.value, Spn.Hostify(aud).value, name)))
  {
    hide Spn.Hostify;
  }

  /** A ticket is stored exactly when the identity has an audience, a subject and a secret, and the context a curve. */
  lemma StoredWhen(c: Crypto, ctx: Context, id: Identity, ticket: Json, flags: nat)
    requires id.priv.epk.Some? ==> id.priv.epk.value.params.crv.Some?
    ensures StoredTicket(c, ctx, id, ticket, flags).Ok? <==>
            && StringValue(id.priv.aud).Some? && GetString(id.attributes, "sub").Some? && Secret(c, ctx, id).Ok? && ctx.curve.Some?
  {
    hide Secret;
  }

  // ----- full logins -----

  /** The relying party's certificate is wanted for the response. */
  ghost predicate WantsCertificate(a: Answer, opts: Option<Json>) {
    a.mode.initial && a.mode.rpKey.Some? && AsksMutual(opts)
  }

  /** The claims of an answer can be made exactly when there is a public value to send in answer to a full login, and
      a nonce to echo under a certificate. */
  lemma AnswerExactly(rp: Identity, a: Answer)
    requires ParseOpts(rp.priv.opts, NO_FLAGS).Ok?
    ensures AnswerClaims(rp, a).Ok? <==>
            && (a.mode.keyed && a.mode.initial ==> rp.priv.epk.Some? && rp.priv.epk.value.x.Some? && rp.priv.epk.value.y.Some?)
            && (WantsCertificate(a, rp.priv.opts) ==> rp.priv.nonce.Some?)
  {
    hide ParseOpts, AsksMutual, Binary, AddsJti;
    AsksMutualExactly(rp.priv.opts);
  }

  /** What the relying party has to answer a full login with. */
  lemma LoginResponds(c: Crypto, codec: Codec, cache: Cache, e: Event)
    requires e.Verify? && Outcome(c, codec, cache, e).result.Ok? && !IsAuthenticator(codec, e.s)
    ensures Outcome(c, codec, cache, e).identity.Some? && Unpack(codec, e.s).Ok?
    ensures var rp, claims := Outcome(c, codec, cache, e).identity.value, ClaimsOf(codec, e.s);
            && (rp.priv.epk.Some? <==> e.ctx.curve.Some?)
            && (rp.priv.epk.Some? ==> rp.priv.epk.value.x.Some? && rp.priv.epk.value.y.Some?)
            && rp.priv.nonce == Get(claims, "nonce") && rp.priv.opts == Get(claims, "opts") && ParseOpts(rp.priv.opts, NO_FLAGS).Ok?
  {
    hide Unpack, Local, Admit, IsAuthenticator, Attributes, ParseOpts, Secret, PopulateIdentity;
    AcceptedUnpacks(c, codec, cache, e);
    VerdictKeeps(c, codec, cache, e);
    VerdictOpts(c, codec, cache, e);
    AcceptedLocally(c, codec, cache, e);
    AuthenticatorIs(codec, e.s);
    CertifiedIdentity(c, e.out, e.ctx, cache, Unpack(codec, e.s).value, e.q);
    PopulatedExactly(e.ctx, Attributes(e.out, Unpack(codec, e.s).value).value, ClaimsOf(codec, e.s));
  }

  /** The client of an accepted full login with a certificate has an identity. */
  lemma ClientHasIdentity(c: Crypto, codec: Codec, cache: Cache, e: Event, ctx: Context, d: string)
    requires e.Verify? && Outcome(c, codec, cache, e).result.Ok? && !IsAuthenticator(codec, e.s)
    requires Unpack(codec, e.s).Ok? && Unpack(codec, e.s).value.certificates != []
    ensures ClientIdentity(c, codec, ctx, e.s, d).Ok?
  {
    hide Unpack, Local, Admit, PopulateIdentity;
    var ba := Unpack(codec, e.s).value;
    AcceptedLocally(c, codec, cache, e);
    CertifiedIdentity(c, e.out, e.ctx, cache, ba, e.q);
    PopulatedExactly(e.ctx, ba.certificates[|ba.certificates| - 1].Claims(), ba.assertion.Claims());
    PopulatedExactly(ctx, ba.certificates[|ba.certificates| - 1].Claims(), ba.assertion.Claims());
  }

  /** A client takes over a public value exactly when its own curve is one that the library knows. */
  lemma AbsorbsExactly(c: Crypto, ctx: Context, client: Identity, d: string, claims: Object)
    requires ctx.curve.Some? && client.secret.None? && client.priv.epk == Some(ClientKey(c, ctx.curve.value, d))
    requires "epk" in claims && GetString(Members(claims["epk"]), "x").Some? && GetString(Members(claims["epk"]), "y").Some?
    ensures Absorb(c, ctx, client, claims).Ok? <==> ctx.curve.value in CURVES
  {
    assert CURVES[0] == "P-256" && CURVES[1] == "P-384" && CURVES[2] == "P-521";
  }

  /** A full login goes through: once it was accepted with a certificate over claims that carry the client's key, the
      client and the relying party meet exactly when the relying party's context wants a key agreement, the client's
      curve is known, and a nonce was sent if the response is to be certified. */
  lemma LoginMeetsExactly(c: Crypto, codec: Codec, cache: Cache, e: Event, ctx: Context, d: string, a: Answer)
    requires e.Verify? && Outcome(c, codec, cache, e).result.Ok? && !IsAuthenticator(codec, e.s) && CarriesKey(c, codec, ctx, e.s, d)
    requires Unpack(codec, e.s).Ok? && Unpack(codec, e.s).value.certificates != [] && a.mode.keyed && a.mode.initial
    ensures LoginMeets(c, codec, cache, e, ctx, d, a) <==>
            && e.ctx.curve.Some? && ctx.curve.value in CURVES
            && (WantsCertificate(a, Get(ClaimsOf(codec, e.s), "opts")) ==> "nonce" in ClaimsOf(codec, e.s))
  {
    hide Outcome, Unpack, IsAuthenticator, ClientIdentity, AnswerClaims, Absorb, WantsCertificate, ParseOpts;
    LoginResponds(c, codec, cache, e);
    ClientHasIdentity(c, codec, cache, e, ctx, d);
    ClientStarts(c, codec, ctx, e.s, d);
    var rp := Outcome(c, codec, cache, e).identity.value;
    AnswerExactly(rp, a);
    if AnswerClaims(rp, a).Ok? {
      AnswerKey(rp, a);
      AbsorbsExactly(c, ctx, ClientIdentity(c, codec, ctx, e.s, d).value, d, AnswerClaims(rp, a).value);
    }
  }

  /** A response under the session's key is made exactly when its claims can be, there is a secret, and it can be
      encoded. */
  lemma SessionTextExactly(c: Crypto, codec: Codec, ctx: Context, rp: Identity, a: Answer)
    requires c.Lawful() && SignsWithSession(rp, a.mode)
    ensures AnswerText(c, codec, ctx, rp, a).Ok? <==>
            AnswerClaims(rp, a).Ok? && Secret(c, ctx, rp).Ok? && Encodable(codec, AnswerClaims(rp, a).value)
  {
    hide ParseOpts, Secret, Pack, ResponseClaims, Encodable, KeyOf, Subkey;
    SubkeyIs(c, ctx, rp);
    if AnswerClaims(rp, a).Ok? && Secret(c, ctx, rp).Ok? {
      KeyPacksExactly(c, codec, AnswerClaims(rp, a).value, c.kdf(Secret(c, ctx, rp).value, RRK_SALT));
    }
  }

  // ----- re-authentications -----

  /** An accepted re-authentication goes through: client and relying party meet whenever the response's other claims
      hold no public value. */
  lemma ReauthMeetsExactly(c: Crypto, codec: Codec, st: System, w: Wish, e: Event, a: Answer)
    requires c.Lawful() && codec.Lawful() && Made(c, codec, st.tickets, w).Ok?
    requires e.Verify? && e.s == Made(c, codec, st.tickets, w).value.text && Outcome(c, codec, st.cache, e).result.Ok? && !a.mode.initial
    ensures ReauthMeets(c, codec, st, w, e, a) <==> "epk" !in a.extra
  {
    hide Outcome, Made, AnswerClaims, Absorb, ParseOpts;
    VerdictKeeps(c, codec, st.cache, e);
    VerdictOpts(c, codec, st.cache, e);
    var rp := Outcome(c, codec, st.cache, e).identity.value;
    AnswerExactly(rp, a);
    NoNewKey(rp, a);
    MadeHasSecret(c, codec, st.tickets, w);
    AbsorbsSettled(c, w.ctx, Made(c, codec, st.tickets, w).value.identity, AnswerClaims(rp, a).value);
  }

  lemma MadeHasSecret(c: Crypto, codec: Codec, tickets: Cache, w: Wish)
    requires Made(c, codec, tickets, w).Ok?
    ensures var id := Made(c, codec, tickets, w).value.identity;
            id.secret.Some? && id.priv.epk.None?
  {
    hide FindTicketOrAlias, Pack, Authenticator, SessionKey, Authority.ValidateExpiry;
  }

  lemma AbsorbsSettled(c: Crypto, ctx: Context, client: Identity, claims: Object)
    requires client.secret.Some? && client.priv.epk.None?
    ensures Absorb(c, ctx, client, claims).Ok? <==> "epk" !in claims
  {
  }

  lemma NoNewKey(rp: Identity, a: Answer)
    requires AnswerClaims(rp, a).Ok? && !a.mode.initial
    ensures "epk" in AnswerClaims(rp, a).value <==> "epk" in a.extra
  {
    hide ParseOpts, Binary, AddsJti;
    assert "tkt"[0] == 't' && "epk"[0] == 'e' && "jti"[0] == 'j' && "nonce"[0] == 'n';
  }

  // ----- responses without a session key -----

  /** A mechanism without an encryption type takes an uncertified response exactly when it has no signature, is in its
      window, and any public value in it can be taken over; nothing in it then asks for an extra round trip. */
  lemma UnsignedExactly(c: Crypto, codec: Codec, ctx: Context, x: Expected, id: Identity, text: string, t: int)
    requires Unpack(codec, text).Ok? && !HasCertificate(Unpack(codec, text).value) && !x.keyed
    ensures var ap := Unpack(codec, text).value.assertion;
            var read := ReadAs(c, codec, ctx, x, id, text, t);
            && (read.Ok? <==>
                  && ap.signature == [] && InWindow(ctx.skew, t, ap.Claims())
                  && ("epk" in ap.Claims() ==>
                        && id.priv.epk.Some?
                        && GetString(Members(ap.Claims()["epk"]), "x").Some? && GetString(Members(ap.Claims()["epk"]), "y").Some?))
            && (read.Ok? ==> read.value.claims == ap.Claims() && read.value.flags == NO_FLAGS && !read.value.xrt
                             && read.value.identity.secret == id.secret)
            && (read.Ok? && "epk" in ap.Claims() ==>
                  && read.value.identity.priv.epk.Some?
                  && read.value.identity.priv.epk.value.params.x == GetString(Members(ap.Claims()["epk"]), "x")
                  && read.value.identity.priv.epk.value.params.y == GetString(Members(ap.Claims()["epk"]), "y"))
  {
    hide Unpack, Authority.ValidateExpiry, InWindow, KeySet.VerifySignature, WithSecret, Subkey, LeftBehind;
    var ap := Unpack(codec, text).value.assertion;
    WindowErrors(ctx.skew, t, ap.Claims());
    WindowExactly(ctx.skew, t, ap.Claims());
    NoKeyAnswer(c, ap);
  }

  lemma NoKeyAnswer(c: Crypto, ap: Jwt.Jwt)
    ensures var r := KeySet.VerifySignature(c, ap.header, ap.SigningInput(), ap.signature, None);
            r.Err? && (r.error == MissingSignature <==> ap.signature == [])
  {
    hide KeySet.VerifierFrom;
    KeySet.NoKeyNoSignature(c, ap.header, ap.SigningInput(), ap.signature);
    if GetString(ap.header, "alg").Some? {
      NoKeyErrors(c, GetString(ap.header, "alg").value, 0, UnknownAlgorithm);
    }
  }

  lemma {:induction false} NoKeyErrors(c: Crypto, name: string, i: nat, err: BIDError)
    requires i <= |KeySet.ALGORITHMS| && err != MissingSignature
    ensures KeySet.VerifierFrom(c, None, name, i, err).Err? && KeySet.VerifierFrom(c, None, name, i, err).error != MissingSignature
    decreases |KeySet.ALGORITHMS| - i
  {
    if i < |KeySet.ALGORITHMS| {
      NoKeyErrors(c, name, i + 1, err);
      NoKeyErrors(c, name, i + 1, InvalidKeyset);
    }
  }

  /** A client that has a secret and a "jti" sends a token of the extra round trip whenever it can be encoded, and one
      without a secret refuses. */
  lemma XrtAnswerExactly(c: Crypto, codec: Codec, ctx: Context, id: Identity, jti: bytes)
    requires c.Lawful() && id.priv.jti == Some(Str(Base64.Encode(jti, Base64.Url)))
    ensures var answer := XrtAnswer(c, codec, ctx, id);
            if Secret(c, ctx, id).Ok? && Encodable(codec, map[]) then answer.Ready? && answer.token.Some? else answer.Refused?
  {
    hide Secret, Base64.Encode, XrtSecret, Pack, Encodable;
    XrtSecretIs(c, ctx, id, jti);
    if Secret(c, ctx, id).Ok? {
      KeyPacksExactly(c, codec, map[], c.kdf(Secret(c, ctx, id).value, jti));
    }
  }

  /** What storing does to the client's secret. */
  lemma StoringSettles(c: Crypto, ctx: Context, reading: Reading, stores: bool)
    ensures var after, before := AfterStoring(c, ctx, reading, stores), reading.identity;
            && after.(secret := None) == before.(secret := None)
            && after.secret == if before.secret.None? && stores && "tkt" in reading.claims && StringValue(before.priv.aud).Some?
                                  && Secret(c, ctx, before).Ok?
                               then Some(Secret(c, ctx, before).value) else before.secret
  {
    hide EcdhSecret, EcdhCurve;
  }

  /** A response that verifies is read as it is, and asks for an extra round trip exactly by a "jti". */
  lemma ReadExactly(c: Crypto, codec: Codec, ctx: Context, x: Expected, id: Identity, text: string, t: int)
    requires CheckResponse(c, codec, ctx, x, id, text, t).Ok?
    ensures var checked := CheckResponse(c, codec, ctx, x, id, text, t).value;
            && ReadAs(c, codec, ctx, x, id, text, t) ==
               Ok(Reading(checked.identity, ClaimsOf(codec, text), checked.flags, "jti" in ClaimsOf(codec, text)))
            && checked.claims == ClaimsOf(codec, text)
  {
    hide Unpack, LocalRp, Meets;
  }

  /** With a session key a response that does not verify is refused, also an unsigned one. */
  lemma UnverifiedIsRefused(c: Crypto, codec: Codec, ctx: Context, x: Expected, id: Identity, text: string, t: int)
    requires x.keyed && CheckResponse(c, codec, ctx, x, id, text, t).Err?
    ensures ReadAs(c, codec, ctx, x, id, text, t) == Err(CheckResponse(c, codec, ctx, x, id, text, t).error)
  {
    hide CheckResponse, LeftAfter;
  }

  /** The flags of a stored ticket: renewed, in the lowest bit, unless it comes from a full login, and in the next bit
      whether the context is mutually authenticated. */
  lemma ClientFlagsExactly(x: Expected, mutual: bool)
    ensures ClientFlags(x, mutual) % 2 == 1 <==> !x.initial
    ensures ClientFlags(x, mutual) / 2 % 2 == 1 <==> mutual
    ensures ClientFlags(x, mutual) < 4
  {
  }
}
