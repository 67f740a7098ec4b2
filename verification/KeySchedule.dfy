/** Where the keys of an exchange come from, told from the texts that the parties see: the Diffie-Hellman secret of a
    full login, the nonces of the authenticators after it, and what is derived from them. */
module KeySchedule {
  import opened Wrappers
  import opened Json
  import opened Crypto
  import opened Identity
  import opened BackedAssertion
  import opened Ticket
  import opened Verify
  import opened ReplayCache
  import opened Entries
  import opened RpRuns
  import opened Justification
  import opened Lineage
  import opened RpDecision
  import opened Response
  import opened TwoParty
  import opened Sessions
  import Authority
  import Base64
  import Jwt
  import KeySet

  /** "ARK" and "RRK" in ASCII. */
  const ARK_SALT: bytes := [0x41, 0x52, 0x4B]
  const RRK_SALT: bytes := [0x52, 0x52, 0x4B]

  lemma SaltBytes()
    ensures Ascii("ARK") == ARK_SALT && Ascii("RRK") == RRK_SALT
  {
  }

  /** A secret key as a JSON object. */
  function KeyOf(b: bytes): Json {
    Obj(map["secret-key" := Str(Base64.Encode(b, Base64.Url))])
  }

  /** The key of a ticket, and of a response, that go with a secret. */
  function TicketKeyFor(c: Crypto, secret: bytes): Json {
    KeyOf(c.kdf(secret, ARK_SALT))
  }

  lemma SubkeyIs(c: Crypto, ctx: Context, id: Identity)
    ensures Secret(c, ctx, id).Ok? ==>
              && Subkey(c, ctx, id, "ARK") == Ok(TicketKeyFor(c, Secret(c, ctx, id).value))
              && Subkey(c, ctx, id, "RRK") == Ok(KeyOf(c.kdf(Secret(c, ctx, id).value, RRK_SALT)))
    ensures Secret(c, ctx, id).Err? ==> Subkey(c, ctx, id, "ARK").Err? && Subkey(c, ctx, id, "RRK").Err?
  {
    hide Secret, Base64.Encode, Ascii;
    SaltBytes();
  }

  // ----- full logins -----

  /** The text opens a key agreement that a context on the wanted curve can complete: a point on a curve that
      is no weaker. */
  predicate Opens(claims: Object, wanted: string) {
    && "epk" in claims
    && var epk := Members(claims["epk"]);
    && GetString(epk, "kty") == Some("EC")
    && GetString(epk, "crv").Some? && StrongEnough(GetString(epk, "crv").value, wanted)
    && GetString(epk, "x").Some? && GetString(epk, "y").Some?
  }

  /** The Diffie-Hellman secret of a private value and the point in the claims. */
  function DiffieHellman(c: Crypto, claims: Object, d: string): bytes
    requires "epk" in claims
    requires var epk := Members(claims["epk"]);
             GetString(epk, "crv").Some? && GetString(epk, "x").Some? && GetString(epk, "y").Some?
  {
    var epk := Members(claims["epk"]);
    c.agree(GetString(epk, "crv").value, d, Point(GetString(epk, "x").value, GetString(epk, "y").value))
  }

  /** After a full login the relying party has a secret exactly when its context wants a key agreement and the
      text opens one that is strong enough, and then it is the Diffie-Hellman secret of its own private value
      and the text's point. */
  lemma LoginSecret(c: Crypto, codec: Codec, cache: Cache, e: Event)
    requires e.Verify? && Outcome(c, codec, cache, e).result.Ok? && !IsAuthenticator(codec, e.s)
    ensures Outcome(c, codec, cache, e).identity.Some?
    ensures var secret, claims := Secret(c, e.ctx, Outcome(c, codec, cache, e).identity.value), ClaimsOf(codec, e.s);
            && (secret.Ok? <==> e.ctx.curve.Some? && Opens(claims, e.ctx.curve.value))
            && (secret.Ok? ==> secret.value == DiffieHellman(c, claims, e.d))
  {
    hide Outcome, IsAuthenticator, Unpack, Keyed, StrongEnough, CertifiedAttributes;
    AcceptedUnpacks(c, codec, cache, e);
    LoginIdentity(c, codec, cache, e);
    VerdictKeeps(c, codec, cache, e);
    if e.ctx.curve.Some? {
      LoginKeys(c, codec, cache, e);
      StrengthExactly(EcParamsOf(Members(ClaimsOf(codec, e.s)["epk"])), e.ctx.curve.value);
    }
  }

  /** The client that absorbed the response holds the Diffie-Hellman secret of its own private value and the
      relying party's public value, on the curve of its own context. */
  lemma ClientLoginSecret(c: Crypto, codec: Codec, cache: Cache, e: Event, ctx: Context, d: string, a: Answer)
    requires LoginMeets(c, codec, cache, e, ctx, d, a)
    ensures ctx.curve.Some?
    ensures var crv := ctx.curve.value;
            LoggedIn(c, codec, cache, e, ctx, d, a).secret == Some(c.agree(crv, d, c.publicValue(crv, e.d)))
  {
    hide Outcome, IsAuthenticator, Unpack, Keyed, AnswerClaims, ClientIdentity;
    LoginKeys(c, codec, cache, e);
    VerdictKeeps(c, codec, cache, e);
    AnswerKey(Outcome(c, codec, cache, e).identity.value, a);
    ClientStarts(c, codec, ctx, e.s, d);
    ClientAgrees(c, ctx, ClientIdentity(c, codec, ctx, e.s, d).value, d, e.d,
                 AnswerClaims(Outcome(c, codec, cache, e).identity.value, a).value);
  }

  lemma ClientAgrees(c: Crypto, ctx: Context, client: Identity, d: string, e: string, claims: Object)
    requires ctx.curve.Some? && client.secret.None? && client.priv.epk == Some(ClientKey(c, ctx.curve.value, d))
    requires var pub := c.publicValue(ctx.curve.value, e);
             && "epk" in claims && GetString(Members(claims["epk"]), "x") == Some(pub.x)
             && GetString(Members(claims["epk"]), "y") == Some(pub.y)
    requires Absorb(c, ctx, client, claims).Ok?
    ensures Absorb(c, ctx, client, claims).value.secret ==
            Some(c.agree(ctx.curve.value, d, c.publicValue(ctx.curve.value, e)))
  {
  }

  // ----- re-authentications -----

  /** The secret of an accepted re-authentication is the KDF of the ticket's key over the authenticator's nonce. */
  lemma ReauthSecret(c: Crypto, codec: Codec, cache: Cache, e: Event)
    requires e.Verify? && Outcome(c, codec, cache, e).result.Ok? && IsAuthenticator(codec, e.s)
    ensures var tid := NamedTicket(codec, e.s);
            && tid.Some? && tid.value in cache && "ark" in cache[tid.value]
            && var k, n := GetBinary(Members(cache[tid.value]["ark"]), "secret-key"), GetBinary(ClaimsOf(codec, e.s), "nonce");
            && k.Ok? && n.Ok? && Outcome(c, codec, cache, e).identity.Some?
            && Outcome(c, codec, cache, e).identity.value.secret == Some(c.kdf(k.value, n.value))
  {
    hide Outcome, IsAuthenticator, Unpack, Keyed, CheckTicket, TicketHolds, NamedTicket, GetBinary;
    AcceptedUnpacks(c, codec, cache, e);
    UsedTicket(c, codec, cache, e);
    VerdictKeeps(c, codec, cache, e);
    TicketSecret(c, e.ctx, cache[NamedTicket(codec, e.s).value], Unpack(codec, e.s).value.assertion, e.q.t);
  }

  /** The client that made an authenticator holds the KDF of its ticket's key over the nonce that it drew, and
      that nonce is the one in the text. */
  lemma ClientReauthSecret(c: Crypto, codec: Codec, tickets: Cache, w: Wish)
    requires c.Lawful() && codec.Lawful() && Made(c, codec, tickets, w).Ok?
    ensures var a := Made(c, codec, tickets, w).value;
            && FindTicketOrAlias(w.ctx, tickets, w.aud, w.name) == Ok(a.cred) && "ark" in a.cred
            && var k := GetBinary(Members(a.cred["ark"]), "secret-key");
            && k.Ok? && a.identity.secret == Some(c.kdf(k.value, w.nonce))
            && GetBinary(ClaimsOf(codec, a.text), "nonce") == Ok(w.nonce)
  {
    hide FindTicketOrAlias, Unpack, Pack, Authenticator, KeySet.VerifySignature, GetBinary, Authority.ValidateExpiry, Binary;
    var cred := FindTicketOrAlias(w.ctx, tickets, w.aud, w.name).value;
    var tid := Members(cred["tkt"])["tid"];
    var payload := Authenticator(w.ctx, w.aud, w.cb, w.opts, tid, w.nowMs, w.nonce);
    AuthenticatorNonce(w.ctx, w.aud, w.cb, w.opts, tid, w.nowMs, w.nonce);
    NoSecret(map[]);
    AuthenticatorVerifies(c, codec, payload, cred["ark"], cred, cred);
  }

  lemma AuthenticatorNonce(ctx: Context, aud: string, cb: Option<bytes>, opts: Option<Json>, tid: Json, nowMs: int, nonce: bytes)
    ensures GetBinary(Authenticator(ctx, aud, cb, opts, tid, nowMs, nonce), "nonce") == Ok(nonce)
  {
    hide GetBinary, Binary;
    var payload := Authenticator(ctx, aud, cb, opts, tid, nowMs, nonce);
    assert "nonce" != "tkt" && "nonce" != "aud" && "nonce" != "cb" && "nonce" != "opts" && "nonce" != "exp";
    BinaryRoundTrip(payload, "nonce", nonce);
  }

  // ----- the key of every ticket -----

  function NonceOf(claims: Object): bytes {
    if GetBinary(claims, "nonce").Ok? then GetBinary(claims, "nonce").value else []
  }

  /** The secret of a text that was accepted as a full login. */
  function LoginValue(c: Crypto, codec: Codec, e: Event): bytes
    requires e.Verify?
  {
    var claims := ClaimsOf(codec, e.s);
    if e.ctx.curve.Some? && Opens(claims, e.ctx.curve.value) then DiffieHellman(c, claims, e.d) else []
  }

  /** The keys of the tickets that the first n events issued, from the texts: of a full login, the derivation from its
      Diffie-Hellman secret; of a re-authentication, that from the key of the ticket it used and its nonce. */
  ghost function TicketKeys(c: Crypto, codec: Codec, run: seq<Event>, n: nat): map<string, bytes>
    requires n <= |run|
  {
    if n == 0 then map[]
    else
      var before, e := TicketKeys(c, codec, run, n - 1), run[n - 1];
      if !Accepted(c, codec, map[], run, n - 1) || !Records(codec, e) then before
      else if !IsAuthenticator(codec, e.s) then before[c.digest(e.s) := c.kdf(LoginValue(c, codec, e), ARK_SALT)]
      else
        var tid := NamedTicket(codec, e.s);
        if tid.Some? && tid.value in before
        then before[c.digest(e.s) := c.kdf(c.kdf(before[tid.value], NonceOf(ClaimsOf(codec, e.s))), ARK_SALT)]
        else before
  }

  ghost predicate HasItsKey(c: Crypto, codec: Codec, run: seq<Event>, n: nat, key: string)
    requires n <= |run|
  {
    var cache, keys := StateAt(c, codec, map[], run, n), TicketKeys(c, codec, run, n);
    key in cache && "ark" in cache[key] ==> key in keys && cache[key]["ark"] == KeyOf(keys[key])
  }

  ghost predicate AllHaveKeys(c: Crypto, codec: Codec, run: seq<Event>, n: nat)
    requires n <= |run|
  {
    forall key :: HasItsKey(c, codec, run, n, key)
  }

  lemma KeyOfReads(k: bytes)
    ensures GetBinary(Members(KeyOf(k)), "secret-key") == Ok(k)
  {
    hide GetBinary, Base64.Encode;
    BinaryRoundTrip(Members(KeyOf(k)), "secret-key", k);
  }

  /** The key in the entry that an accepted full login is given. */
  lemma LoginTicketKey(c: Crypto, codec: Codec, cache: Cache, e: Event)
    requires e.Verify? && Outcome(c, codec, cache, e).result.Ok? && !IsAuthenticator(codec, e.s) && Records(codec, e)
    ensures var after := Outcome(c, codec, cache, e).cache;
            && c.digest(e.s) in after
            && ("ark" in after[c.digest(e.s)] <==> e.ctx.reauth)
            && (e.ctx.reauth ==> after[c.digest(e.s)]["ark"] == TicketKeyFor(c, LoginValue(c, codec, e)))
  {
    hide Outcome, IsAuthenticator, Records, Keyed, Entry, Opens, ClaimsOf, HasFlag, GetTimestamp, KeyOf;
    RecordedEntry(c, codec, cache, e);
    VerdictKeeps(c, codec, cache, e);
    LoginSecret(c, codec, cache, e);
    var id := Keyed(c, codec, cache, e).value;
    if e.ctx.reauth {
      MintedTicket(c, e.ctx, id, e.q.t, false);
      SubkeyIs(c, e.ctx, id);
    } else {
      PlainHasNoArk(c, e.ctx, id, e.q.t, false);
    }
  }

  /** The key in the entry that an accepted re-authentication is given. */
  lemma RenewedTicketKey(c: Crypto, codec: Codec, cache: Cache, e: Event, k: bytes)
    requires e.Verify? && Outcome(c, codec, cache, e).result.Ok? && IsAuthenticator(codec, e.s) && Records(codec, e)
    requires var tid := NamedTicket(codec, e.s); tid.Some? && tid.value in cache && Get(cache[tid.value], "ark") == Some(KeyOf(k))
    ensures var after := Outcome(c, codec, cache, e).cache;
            && c.digest(e.s) in after
            && ("ark" in after[c.digest(e.s)] <==> Renewable(e.ctx, cache[NamedTicket(codec, e.s).value], e.q.t))
            && ("ark" in after[c.digest(e.s)] ==>
                  after[c.digest(e.s)]["ark"] == TicketKeyFor(c, c.kdf(k, NonceOf(ClaimsOf(codec, e.s)))))
  {
    hide Outcome, IsAuthenticator, Records, Keyed, Entry, ClaimsOf, HasFlag, Truncate, KeyOf, GetBinary, CheckTicket, TicketHolds, Unpack,
         NamedTicket, LocallyAccepted;
    AcceptedUnpacks(c, codec, cache, e);
    RecordedEntry(c, codec, cache, e);
    VerdictKeeps(c, codec, cache, e);
    AcceptedLocally(c, codec, cache, e);
    LocalTicket(c, codec, cache, e);
    ReauthSecret(c, codec, cache, e);
    KeyOfReads(k);
    var id, cred := Keyed(c, codec, cache, e).value, cache[NamedTicket(codec, e.s).value];
    TicketIdentity(c, e.ctx, cred, Unpack(codec, e.s).value.assertion, e.q.t, "ark");
    if IssuesTicket(e.ctx, id, e.q.t, true) {
      MintedTicket(c, e.ctx, id, e.q.t, true);
      SubkeyIs(c, e.ctx, id);
    } else {
      PlainHasNoArk(c, e.ctx, id, e.q.t, true);
    }
  }

  lemma StepHasKeys(c: Crypto, codec: Codec, run: seq<Event>, k: nat)
    requires k < |run| && AllHaveKeys(c, codec, run, k)
    ensures AllHaveKeys(c, codec, run, k + 1)
  {
    hide Outcome, IsAuthenticator, Records, ShouldPurge, NamedTicket, ClaimsOf, LoginValue, KeyOf;
    var e, n := run[k], k + 1;
    var cache, cache' := StateAt(c, codec, map[], run, k), StateAt(c, codec, map[], run, n);
    if e.Verify? {
      if Outcome(c, codec, cache, e).result.Err? {
        RefusedWritesNothing(c, codec, cache, e);
      } else {
        RecordedEntry(c, codec, cache, e);
        if Records(codec, e) {
          if IsAuthenticator(codec, e.s) {
            UsedTicket(c, codec, cache, e);
            var tid := NamedTicket(codec, e.s).value;
            assert HasItsKey(c, codec, run, k, tid);
            RenewedTicketKey(c, codec, cache, e, TicketKeys(c, codec, run, k)[tid]);
          } else {
            LoginTicketKey(c, codec, cache, e);
          }
        }
      }
    }
    forall key
      ensures HasItsKey(c, codec, run, n, key)
    {
      assert HasItsKey(c, codec, run, k, key);
    }
  }

  /** The key schedule: in every run, the key of every ticket in the relying party's cache is the one that the texts
      determine, from the Diffie-Hellman secret of its root login through the nonces of all renewals since. */
  lemma {:induction false} TicketKeysExactly(c: Crypto, codec: Codec, run: seq<Event>, n: nat)
    requires n <= |run|
    ensures AllHaveKeys(c, codec, run, n)
  {
    hide HasItsKey;
    if n == 0 {
      NoneAtStart(c, codec, run);
    } else {
      TicketKeysExactly(c, codec, run, n - 1);
      StepHasKeys(c, codec, run, n - 1);
    }
  }

  lemma NoneAtStart(c: Crypto, codec: Codec, run: seq<Event>)
    ensures AllHaveKeys(c, codec, run, 0)
  {
  }

  /** So in every run, an accepted re-authentication was signed with the key that the texts determine for its
      ticket, and its secret is the KDF of that key over its nonce. */
  lemma ReauthKeysExactly(c: Crypto, codec: Codec, run: seq<Event>, k: nat)
    requires Accepted(c, codec, map[], run, k) && IsAuthenticator(codec, run[k].s)
    ensures var tid, keys := NamedTicket(codec, run[k].s), TicketKeys(c, codec, run, k);
            && tid.Some? && tid.value in keys && Unpack(codec, run[k].s).Ok?
            && SignedWith(c, Unpack(codec, run[k].s).value.assertion, keys[tid.value])
            && VerdictAt(c, codec, map[], run, k).identity.Some?
            && VerdictAt(c, codec, map[], run, k).identity.value.secret ==
               Some(c.kdf(keys[tid.value], NonceOf(ClaimsOf(codec, run[k].s))))
  {
    hide Outcome, IsAuthenticator, NamedTicket, KeyOf, StateAt, TicketKeys, Unpack, CheckTicket, Keyed, InWindow, Verifies, SessionKey,
         GetBinary, SignedWith;
    var cache := StateAt(c, codec, map[], run, k);
    assert Outcome(c, codec, cache, run[k]).result.Ok?;
    AcceptedUnpacks(c, codec, cache, run[k]);
    TicketKeysExactly(c, codec, run, k);
    UsedTicket(c, codec, cache, run[k]);
    var tid := NamedTicket(codec, run[k].s).value;
    assert HasItsKey(c, codec, run, k, tid);
    ReauthSecret(c, codec, cache, run[k]);
    KeyOfReads(TicketKeys(c, codec, run, k)[tid]);
    SecretKeyExactly(c, Unpack(codec, run[k].s).value.assertion, TicketKeys(c, codec, run, k)[tid]);
  }

  // ----- signatures under a session's keys -----

  /** The token's signature is the HMAC of its signing input under k. */
  ghost predicate SignedWith(c: Crypto, jwt: Jwt.Jwt, k: bytes) {
    && jwt.signature != [] && GetString(jwt.header, "alg") == Some("HS256")
    && jwt.signature == c.hmac(k, jwt.SigningInput())
  }

  /** A secret key verifies exactly the tokens that carry its HMAC. */
  lemma SecretKeyExactly(c: Crypto, jwt: Jwt.Jwt, k: bytes)
    ensures Verifies(c, jwt, KeyOf(k)) <==> SignedWith(c, jwt, k)
  {
    hide GetBinary, Base64.Encode;
    KeyOfReads(k);
    if Verifies(c, jwt, KeyOf(k)) {
      var name := GetString(jwt.header, "alg").value;
      OnlyHmacSelects(c, k, name);
    } else if SignedWith(c, jwt, k) {
      KeySet.VerifierSkips(c, Some(KeyOf(k)), 5, 0, UnknownAlgorithm);
    }
  }

  lemma OnlyHmacSelects(c: Crypto, k: bytes, name: string)
    requires KeySet.Verifier(c, Some(KeyOf(k)), name).Ok?
    ensures name == "HS256" && KeySet.Verifier(c, Some(KeyOf(k)), name).value == (KeySet.ALGORITHMS[5], KeyOf(k))
  {
    hide KeySet.Verifier, Base64.Encode;
    Selects(c, KeyOf(k), name);
    HmacEntry(c, k, KeySet.Verifier(c, Some(KeyOf(k)), name).value.0);
  }

  /** The entry of the table that a secret key matches. */
  lemma HmacEntry(c: Crypto, k: bytes, alg: KeySet.Algorithm)
    requires KeySet.FindKey(c, alg, KeyOf(k)).Ok? && exists j :: 0 <= j < |KeySet.ALGORITHMS| && KeySet.ALGORITHMS[j] == alg
    ensures alg == KeySet.ALGORITHMS[5] && alg.id == "HS256" && KeySet.FindKey(c, alg, KeyOf(k)) == Ok(KeyOf(k))
  {
    hide Base64.Encode;
    var j :| 0 <= j < |KeySet.ALGORITHMS| && KeySet.ALGORITHMS[j] == alg;
    KeySet.OnlyHmac(j);
  }

  lemma SecretKeySigns(c: Crypto, codec: Codec, header: Object, payload: Object, k: bytes)
    requires c.Lawful() && Jwt.MakeSigned(c, codec, header, payload, Some(KeyOf(k)), None).Ok?
    ensures SignedWith(c, Jwt.MakeSigned(c, codec, header, payload, Some(KeyOf(k)), None).value.jwt, k)
  {
    hide KeySet.VerifySignature, Jwt.MakeSigned, KeyOf;
    Jwt.SignedVerifies(c, codec, header, payload, KeyOf(k), None);
    SecretKeyExactly(c, Jwt.MakeSigned(c, codec, header, payload, Some(KeyOf(k)), None).value.jwt, k);
  }

  /** A text that is packed under a secret key unpacks into its claims with that key's HMAC. */
  lemma PackedUnder(c: Crypto, codec: Codec, claims: Object, k: bytes)
    requires c.Lawful() && codec.Lawful() && Pack(c, codec, Claims(map[], claims), [], Some(KeyOf(k)), None).Ok?
    ensures var ba := Unpack(codec, Pack(c, codec, Claims(map[], claims), [], Some(KeyOf(k)), None).value.0);
            && ba.Ok? && !HasCertificate(ba.value) && ba.value.assertion.Claims() == claims
            && SignedWith(c, ba.value.assertion, k)
  {
    hide Pack, Unpack, KeySet.VerifySignature, KeyOf, SignedWith, SessionKey;
    var cred: Object := map["ark" := KeyOf(k)];
    AuthenticatorVerifies(c, codec, claims, KeyOf(k), cred, cred);
    SecretKeyExactly(c, Unpack(codec, Pack(c, codec, Claims(map[], claims), [], Some(KeyOf(k)), None).value.0).value.assertion, k);
  }

  /** The options ask for mutual authentication. */
  ghost predicate AsksMutual(opts: Option<Json>) {
    opts.Some? && opts.value.Arr? && Str("ma") in opts.value.elems
  }

  lemma AsksMutualExactly(opts: Option<Json>)
    requires ParseOpts(opts, NO_FLAGS).Ok?
    ensures ParseOpts(opts, NO_FLAGS).value.mutualAuth <==> AsksMutual(opts)
  {
    if opts.Some? {
      OptsRaise(opts.value.elems, 0, NO_FLAGS);
    }
  }

  /** Who signs a response: the relying party's certificate exactly when it has one, the response answers a full
      login and the initiator asked for mutual authentication, and then with the initiator's nonce; else the
      session, with the HMAC under the key derived from its secret; else nobody. */
  lemma ResponseSigner(c: Crypto, codec: Codec, ctx: Context, id: Identity, extra: Object, mode: Mode, jti: bytes)
    requires c.Lawful() && codec.Lawful() && ResponseText(c, codec, ctx, id, extra, mode, jti).Ok?
    ensures var ba := Unpack(codec, ResponseText(c, codec, ctx, id, extra, mode, jti).value);
            && ba.Ok? && ba.value.certificates == []
            && var ap := ba.value.assertion;
            if mode.initial && mode.rpKey.Some? && AsksMutual(id.priv.opts) then
              && Get(ap.header, "x5c") == Some(mode.rpKey.value.chain) && Verifies(c, ap, mode.rpKey.value.key)
              && id.priv.nonce.Some? && Get(ap.Claims(), "nonce") == id.priv.nonce
            else if mode.keyed then
              "x5c" !in ap.header && Secret(c, ctx, id).Ok? && SignedWith(c, ap, c.kdf(Secret(c, ctx, id).value, RRK_SALT))
            else
              "x5c" !in ap.header && ap.signature == [] && GetString(ap.header, "alg") == Some("none")
  {
    hide Pack, Unpack, KeySet.VerifySignature, SignedWith, Secret, ParseOpts, PublicValue, AddsJti, Binary, Subkey, AsksMutual, KeyOf;
    AsksMutualExactly(id.priv.opts);
    SubkeyIs(c, ctx, id);
    var claims, key := ResponseClaims(id, extra, mode, jti).value, ResponseKey(c, ctx, id, mode).value;
    PackedAlone(c, codec, claims, key.0, key.1);
    if key.0.Some? && key.1.None? {
      PackedUnder(c, codec, claims, c.kdf(Secret(c, ctx, id).value, RRK_SALT));
    }
  }

  /** A response gets a "jti" exactly when a round trip is forced or asked for, and there is an identity. */
  lemma JtiExactly(id: Identity, extra: Object, mode: Mode, jti: bytes)
    requires ResponseClaims(id, extra, mode, jti).Ok? && "jti" !in extra
    ensures var claims := ResponseClaims(id, extra, mode, jti).value;
            && ("jti" in claims <==>
                  && id.priv != NO_PRIVATE
                  && (mode.force || (id.priv.opts.Some? && id.priv.opts.value.Arr? && Str("xrt") in id.priv.opts.value.elems)))
            && ("jti" in claims ==> claims["jti"] == Str(Base64.Encode(jti, Base64.Url)))
  {
    hide Base64.Encode, PublicValue, ParseOpts, SigningKey;
    assert "jti"[0] == 'j' && "tkt"[0] == 't' && "epk"[0] == 'e' && "nonce"[0] == 'n';
    XrtOption(id.priv.opts);
  }

  lemma XrtOption(opts: Option<Json>)
    requires ParseOpts(opts, NO_FLAGS).Ok?
    ensures ParseOpts(opts, NO_FLAGS).value.xrt <==> opts.Some? && opts.value.Arr? && Str("xrt") in opts.value.elems
  {
    if opts.Some? {
      OptsRaise(opts.value.elems, 0, NO_FLAGS);
    }
  }

  /** A token that is packed alone: its header has the chain, and it verifies under its key set if it has one. */
  lemma PackedAlone(c: Crypto, codec: Codec, claims: Object, keyset: Option<Json>, chain: Option<Json>)
    requires c.Lawful() && codec.Lawful() && Pack(c, codec, Claims(map[], claims), [], keyset, chain).Ok?
    ensures var ba := Unpack(codec, Pack(c, codec, Claims(map[], claims), [], keyset, chain).value.0);
            && ba.Ok? && ba.value.certificates == [] && ba.value.assertion.Claims() == claims
            && Get(ba.value.assertion.header, "x5c") == chain
            && (keyset.Some? ==> Verifies(c, ba.value.assertion, keyset.value))
            && (keyset.None? ==> ba.value.assertion.signature == [] && GetString(ba.value.assertion.header, "alg") == Some("none"))
  {
    hide Unpack, KeySet.VerifySignature, Jwt.EncodeJson, KeySet.Signer, KeySet.Sign, Base64.Encode;
    var signed := Pack(c, codec, Claims(map[], claims), [], keyset, chain).value.1;
    var s := Jwt.MakeSigned(c, codec, map[], claims, keyset, chain).value;
    assert signed == [s];
    assert Jwt.ValidHeader(Obj(s.jwt.header)) && "x5c" != "alg";
    PackUnpack(c, codec, Claims(map[], claims), [], keyset, chain);
    assert Jwts(signed[..0]) == [];
    if keyset.Some? {
      Jwt.SignedVerifies(c, codec, map[], claims, keyset.value, chain);
    }
  }

  /** A client with a session key accepts an uncertified response exactly when the response closes its key agreement,
      is in its window, has no audience, and carries the HMAC under the key derived from the client's secret. */
  lemma SessionResponseExactly(c: Crypto, codec: Codec, ctx: Context, x: Expected, id: Identity, text: string, t: int)
    requires Unpack(codec, text).Ok? && !HasCertificate(Unpack(codec, text).value) && x.keyed
    ensures var ap := Unpack(codec, text).value.assertion;
            var met := Absorb(c, ctx, id, ap.Claims());
            CheckResponse(c, codec, ctx, x, id, text, t).Ok? <==>
            && met.Ok? && met.value.secret.Some? && InWindow(ctx.skew, t, ap.Claims()) && "aud" !in ap.Claims()
            && SignedWith(c, ap, c.kdf(met.value.secret.value, RRK_SALT))
  {
    hide Unpack, CheckResponse, InWindow, ByHostCertificate, NamesWanted, Attributes, Verifies, SignedWith, Secret, Subkey, KeyOf, WithPeer;
    AcceptedResponseExactly(c, codec, ctx, x, id, text, t);
    NoHostCertificate(c, x.out, ctx, Unpack(codec, text).value, t);
    var ap := Unpack(codec, text).value.assertion;
    if Meets(c, ctx, id, ap.Claims(), true).Ok? {
      MetKey(c, ctx, id, ap.Claims());
      SecretKeyExactly(c, ap, c.kdf(Meets(c, ctx, id, ap.Claims(), true).value.0.secret.value, RRK_SALT));
    }
  }

  lemma MetKey(c: Crypto, ctx: Context, id: Identity, claims: Object)
    requires Meets(c, ctx, id, claims, true).Ok?
    ensures var met := Meets(c, ctx, id, claims, true).value;
            met.0.secret.Some? && met.1 == Some(KeyOf(c.kdf(met.0.secret.value, RRK_SALT)))
  {
    hide Secret, Subkey, KeyOf;
    var peer := if "epk" in claims then Members(claims["epk"]) else map[];
    var met := if "epk" in claims then WithPeer(id, GetString(peer, "x"), GetString(peer, "y")).value else id;
    SubkeyIs(c, ctx, met);
  }

  /** A response that is refused after its public value was taken over settles the client's secret all the same: a
      later response with another public value no longer changes it. */
  lemma RefusedSettles(c: Crypto, ctx: Context, client: Identity, d: string, claims: Object)
    requires ctx.curve.Some? && ctx.curve.value in CURVES
    requires client.secret.None? && client.priv.epk == Some(ClientKey(c, ctx.curve.value, d))
    requires "epk" in claims && GetString(Members(claims["epk"]), "x").Some? && GetString(Members(claims["epk"]), "y").Some?
    ensures var epk := Members(claims["epk"]);
            LeftAfter(c, ctx, client, claims, true).secret ==
            Some(c.agree(ctx.curve.value, d, Point(GetString(epk, "x").value, GetString(epk, "y").value)))
    ensures LeftAfter(c, ctx, client, claims, false).secret.None?
  {
    assert CURVES[0] == "P-256" && CURVES[1] == "P-384" && CURVES[2] == "P-521";
  }

  /** And one whose public value lacks "y" leaves the client with its "x" and no secret. */
  lemma RefusedHalf(c: Crypto, ctx: Context, client: Identity, claims: Object, keyed: bool)
    requires client.priv.epk.Some? && "epk" in claims
    requires GetString(Members(claims["epk"]), "x").Some? && GetString(Members(claims["epk"]), "y").None?
    ensures var left := LeftAfter(c, ctx, client, claims, keyed);
            && left.secret == client.secret && left.priv.epk.Some?
            && left.priv.epk.value.params.x == GetString(Members(claims["epk"]), "x")
            && left.priv.epk.value.params.y == client.priv.epk.value.params.y
  {
  }

  // ----- the extra round trip -----

  /** The secret of the extra round trip is the KDF of the settled secret over the response's "jti". */
  lemma XrtSecretIs(c: Crypto, ctx: Context, id: Identity, jti: bytes)
    requires id.priv.jti == Some(Str(Base64.Encode(jti, Base64.Url)))
    ensures XrtSecret(c, ctx, id) == if Secret(c, ctx, id).Ok? then Ok(c.kdf(Secret(c, ctx, id).value, jti)) else Secret(c, ctx, id)
  {
    hide Secret, GetBinary, Base64.Encode;
    BinaryRoundTrip(map["jti" := id.priv.jti.value], "jti", jti);
  }

  /** A token of the extra round trip is accepted exactly when it has no certificates, and the HMAC under that
      secret. */
  lemma XrtHoldsExactly(c: Crypto, codec: Codec, ctx: Context, id: Identity, text: string, jti: bytes)
    requires id.priv.jti == Some(Str(Base64.Encode(jti, Base64.Url)))
    ensures XrtHolds(c, codec, ctx, id, text).Ok? <==>
            && Unpack(codec, text).Ok? && Unpack(codec, text).value.certificates == [] && Secret(c, ctx, id).Ok?
            && SignedWith(c, Unpack(codec, text).value.assertion, c.kdf(Secret(c, ctx, id).value, jti))
  {
    hide Secret, Base64.Encode, Unpack, KeySet.VerifySignature, SignedWith, XrtSecret;
    XrtSecretIs(c, ctx, id, jti);
    if Unpack(codec, text).Ok? && Secret(c, ctx, id).Ok? {
      SecretKeyExactly(c, Unpack(codec, text).value.assertion, c.kdf(Secret(c, ctx, id).value, jti));
    }
  }

  /** After a full login with "xrt", both ends derive the round trip's secret from the Diffie-Hellman secret and the
      nonce of the response. */
  lemma XrtLoginKey(c: Crypto, codec: Codec, cache: Cache, e: Event, ctx: Context, d: string, a: Answer)
    requires LoginMeets(c, codec, cache, e, ctx, d, a) && AsksXrt(codec, e.s)
    requires Secret(c, e.ctx, Outcome(c, codec, cache, e).identity.value).Ok?
    ensures var claims := ClaimsOf(codec, e.s);
            && ctx.curve.Some? && e.ctx.curve.Some? && Opens(claims, e.ctx.curve.value)
            && XrtSecret(c, ctx, LoggedIn(c, codec, cache, e, ctx, d, a)) ==
                 Ok(c.kdf(c.agree(ctx.curve.value, d, c.publicValue(ctx.curve.value, e.d)), a.jti))
            && XrtSecret(c, e.ctx, Responded(c, e.ctx, Outcome(c, codec, cache, e).identity.value, a.mode, a.jti)) ==
                 Ok(c.kdf(DiffieHellman(c, claims, e.d), a.jti))
  {
    hide Outcome, ClientIdentity, CarriesKey, ResponseClaims, Absorb, Secret, IsAuthenticator, AsksXrt, Responded, ParseOpts, AddsJti,
         ClaimsOf, Opens, Base64.Encode, XrtSecret, ResponseKey;
    var rp := Outcome(c, codec, cache, e).identity.value;
    var client, claims := ClientIdentity(c, codec, ctx, e.s, d).value, AnswerClaims(rp, a).value;
    LoginSecret(c, codec, cache, e);
    ClientLoginSecret(c, codec, cache, e, ctx, d, a);
    AskedAdds(c, codec, cache, e, a.mode);
    KeyedHasKey(c, e.ctx, rp, a.mode);
    ResponseJti(c, ctx, client, e.ctx, rp, a.extra, a.mode, a.jti);
    RespondedKeepsSecret(c, e.ctx, rp, a.mode, a.jti);
    SettledStays(c, ctx, client, claims);
    XrtSecretIs(c, ctx, LoggedIn(c, codec, cache, e, ctx, d, a), a.jti);
    XrtSecretIs(c, e.ctx, Responded(c, e.ctx, rp, a.mode, a.jti), a.jti);
  }

  lemma KeyedHasKey(c: Crypto, ctx: Context, id: Identity, mode: Mode)
    requires mode.keyed && ParseOpts(id.priv.opts, NO_FLAGS).Ok? && Secret(c, ctx, id).Ok?
    ensures ResponseKey(c, ctx, id, mode).Ok?
  {
    hide ParseOpts, Secret;
  }

  /** After a re-authentication with "xrt", the relying party derives it from the ticket's key, the authenticator's
      nonce and that of the response. */
  lemma XrtReauthKey(c: Crypto, codec: Codec, run: seq<Event>, k: nat, a: Answer)
    requires Accepted(c, codec, map[], run, k) && IsAuthenticator(codec, run[k].s) && AsksXrt(codec, run[k].s)
    requires a.mode.keyed && !a.mode.initial
    ensures var tid, keys := NamedTicket(codec, run[k].s), TicketKeys(c, codec, run, k);
            && tid.Some? && tid.value in keys && VerdictAt(c, codec, map[], run, k).identity.Some?
            && var rp := VerdictAt(c, codec, map[], run, k).identity.value;
            XrtSecret(c, run[k].ctx, Responded(c, run[k].ctx, rp, a.mode, a.jti)) ==
            Ok(c.kdf(c.kdf(keys[tid.value], NonceOf(ClaimsOf(codec, run[k].s))), a.jti))
  {
    hide Outcome, IsAuthenticator, NamedTicket, StateAt, TicketKeys, Unpack, ClaimsOf, NonceOf, AsksXrt, SignedWith, XrtSecret, ParseOpts,
         AddsJti, Base64.Encode, PublicValue, ResponseKey, SigningKey;
    var e := run[k];
    ReauthKeysExactly(c, codec, run, k);
    var rp := VerdictAt(c, codec, map[], run, k).identity.value;
    AskedAdds(c, codec, StateAt(c, codec, map[], run, k), e, a.mode);
    KeyedHasKey(c, e.ctx, rp, a.mode);
    RespondedKeepsSecret(c, e.ctx, rp, a.mode, a.jti);
    XrtSecretIs(c, e.ctx, Responded(c, e.ctx, rp, a.mode, a.jti), a.jti);
  }
}
