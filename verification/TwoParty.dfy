/** Client and relying party together: in every run of full logins, re-authentications, purges and
    arbitrary other traffic, a ticket that both sides hold carries one key. */
module TwoParty {
  import opened Wrappers
  import opened Json
  import opened Crypto
  import opened Identity
  import opened BackedAssertion
  import opened Ticket
  import opened Verify
  import opened ReplayCache
  import opened Entries
  import opened RpRuns
  import opened Justification
  import opened Lineage
  import opened Response
  import Authority
  import KeySet
  import Jwt

  // ----- steps -----

  /** What a client asks of its ticket cache: an authenticator for an audience. */
  datatype Wish = Wish(ctx: Context, aud: string, cb: Option<bytes>, name: Option<string>, opts: Option<Json>, nowMs: int, nonce: bytes)

  function Made(c: Crypto, codec: Codec, tickets: Cache, w: Wish): Result<Acquired> {
    ReauthAssertion(c, codec, w.ctx, tickets, w.aud, w.cb, w.name, w.opts, w.nowMs, w.nonce)
  }

  /** How the relying party answers: the response's other claims, its mode and its nonce. */
  datatype Answer = Answer(extra: Object, mode: Mode, jti: bytes)

  function AnswerClaims(rp: Identity, a: Answer): Result<Object> {
    ResponseClaims(rp, a.extra, a.mode, a.jti)
  }

  /** One exchange. `delivered` says that the relying party's response reached the client, which
      authenticated it. */
  datatype Exchange =
    | Login(client: Context, d: string, rp: Event, delivered: bool, answer: Answer, flags: nat)
    | Reauth(wish: Wish, rp: Event, delivered: bool, answer: Answer, flags: nat)
    | Other(rp: Event)

  /** Both caches, the key that every ticket id ever stood for, and the full logins accepted so far. */
  datatype System = System(tickets: Cache, cache: Cache, keys: map<string, Json>, logins: set<string>)

  const START := System(map[], map[], map[], {})

  /** The relying party's half of an exchange, and what it adds to the history. */
  function RpStep(c: Crypto, codec: Codec, st: System, e: Event): System {
    var cache := Step(c, codec, st.cache, e);
    if !e.Verify? || Outcome(c, codec, st.cache, e).result.Err? then st.(cache := cache)
    else
      var digest := c.digest(e.s);
      st.(cache := cache,
          keys := if Records(codec, e) && digest in cache && "ark" in cache[digest]
                  then st.keys[digest := cache[digest]["ark"]] else st.keys,
          logins := if IsAuthenticator(codec, e.s) then st.logins else st.logins + {e.s})
  }

  /** The client's cache after a response with these claims. */
  function StoredAfter(c: Crypto, ctx: Context, tickets: Cache, settled: Identity, claims: Object, flags: nat): Cache {
    if "tkt" !in claims then tickets
    else
      var stored := StoredTicket(c, ctx, settled, claims["tkt"], flags);
      if stored.Ok? then tickets[stored.value.0 := stored.value.1] else tickets
  }

  /** The client receives the response made from the relying party's identity, settles its own and
      stores the ticket that came with it. */
  function ClientStep(c: Crypto, ctx: Context, tickets: Cache, client: Identity, rp: Identity, a: Answer, flags: nat): Cache {
    var claims := AnswerClaims(rp, a);
    if claims.Err? then tickets
    else
      var settled := Absorb(c, ctx, client, claims.value);
      if settled.Err? then tickets else StoredAfter(c, ctx, tickets, settled.value, claims.value, flags)
  }

  /** The key that an authenticator's ticket id stands for, known as soon as it is made. */
  function NextKey(c: Crypto, ark: Json, claims: Object): Result<Json> {
    var secret :- SessionKey(c, map["ark" := ark], claims);
    Ok(SecretKey(c.kdf(secret, Ascii("ARK"))))
  }

  /** The key of a ticket issued to an identity whose secret is settled. */
  function TicketKeyOf(c: Crypto, id: Identity): Json {
    if id.secret.Some? then SecretKey(c.kdf(id.secret.value, Ascii("ARK"))) else Null
  }

  function SystemStep(c: Crypto, codec: Codec, st: System, x: Exchange): System {
    match x
    case Other(e) => RpStep(c, codec, st, e)
    case Login(ctx, d, e, delivered, answer, flags) =>
      var st' := RpStep(c, codec, st, e);
      if !delivered || !e.Verify? then st'
      else
        var v, client := Outcome(c, codec, st.cache, e), ClientIdentity(c, codec, ctx, e.s, d);
        if v.result.Err? || v.identity.None? || client.Err? then st'
        else st'.(tickets := ClientStep(c, ctx, st.tickets, client.value, v.identity.value, answer, flags))
    case Reauth(w, e, delivered, answer, flags) =>
      var made := Made(c, codec, st.tickets, w);
      if made.Err? || !e.Verify? then st
      else
        var a, e := made.value, e.(s := made.value.text);
        var sent := st.(keys := st.keys[c.digest(a.text) := TicketKeyOf(c, a.identity)]);
        var st' := RpStep(c, codec, sent, e);
        var v := Outcome(c, codec, st.cache, e);
        if !delivered || v.result.Err? || v.identity.None? then st'
        else st'.(tickets := ClientStep(c, w.ctx, st.tickets, a.identity, v.identity.value, answer, flags))
  }

  function SystemAt(c: Crypto, codec: Codec, run: seq<Exchange>, n: nat): System
    requires n <= |run|
  {
    if n == 0 then START else SystemStep(c, codec, SystemAt(c, codec, run, n - 1), run[n - 1])
  }

  // ----- the invariant -----

  function ClaimsOf(codec: Codec, s: string): Object {
    var ba := Unpack(codec, s);
    if ba.Ok? then ba.value.assertion.Claims() else map[]
  }

  /** A credential of the client carries the key its ticket id stands for. */
  ghost predicate Held(keys: map<string, Json>, cred: Object) {
    && "ark" in cred && "tkt" in cred
    && var tid := GetString(Members(cred["tkt"]), "tid");
    && tid.Some? && tid.value in keys && keys[tid.value] == cred["ark"]
  }

  /** Where a key comes from: a full login that was accepted, or the key before it. */
  ghost predicate Grounded(c: Crypto, codec: Codec, keys: map<string, Json>, logins: set<string>, x: string) {
    c.digest(x) in keys ==>
      if !IsAuthenticator(codec, x) then x in logins
      else
        var tid := NamedTicket(codec, x);
        tid.Some? && tid.value in keys && NextKey(c, keys[tid.value], ClaimsOf(codec, x)) == Ok(keys[c.digest(x)])
  }

  ghost predicate Cached(keys: map<string, Json>, cache: Cache, key: string) {
    key in cache && "ark" in cache[key] ==> key in keys && keys[key] == cache[key]["ark"]
  }

  ghost predicate Inv(c: Crypto, codec: Codec, st: System) {
    && (forall key :: Cached(st.keys, st.cache, key))
    && (forall key :: key in st.tickets ==> Held(st.keys, st.tickets[key]))
    && (forall x :: Grounded(c, codec, st.keys, st.logins, x))
  }

  /** The relying party accepts no text of a full login twice. */
  ghost predicate Once(c: Crypto, codec: Codec, st: System, e: Event) {
    e.Verify? && Outcome(c, codec, st.cache, e).result.Ok? && !IsAuthenticator(codec, e.s) ==> e.s !in st.logins
  }

  // ----- keys -----

  /** An authenticator's key follows from the key of the ticket it names, so learning it changes
      nothing that was known. */
  lemma AddKey(c: Crypto, codec: Codec, st: System, x: string, key: Json)
    requires c.Lawful() && Inv(c, codec, st) && IsAuthenticator(codec, x)
    requires var tid := NamedTicket(codec, x);
             tid.Some? && tid.value in st.keys && NextKey(c, st.keys[tid.value], ClaimsOf(codec, x)) == Ok(key)
    ensures c.digest(x) in st.keys ==> st.keys[c.digest(x)] == key
    ensures Inv(c, codec, st.(keys := st.keys[c.digest(x) := key]))
  {
    hide IsAuthenticator, NextKey, NamedTicket, ClaimsOf;
    assert Grounded(c, codec, st.keys, st.logins, x);
    var digest, keys' := c.digest(x), st.keys[c.digest(x) := key];
    if digest in st.keys {
      assert keys' == st.keys;
    } else {
      forall y
        ensures Grounded(c, codec, keys', st.logins, y)
      {
        assert Grounded(c, codec, st.keys, st.logins, y);
      }
      forall k
        ensures Cached(keys', st.cache, k)
      {
        assert Cached(st.keys, st.cache, k);
      }
    }
  }

  /** A full login that was not accepted before has no key yet. */
  lemma AddLogin(c: Crypto, codec: Codec, st: System, x: string, key: Json)
    requires c.Lawful() && Inv(c, codec, st) && !IsAuthenticator(codec, x) && x !in st.logins
    ensures Inv(c, codec, st.(keys := st.keys[c.digest(x) := key], logins := st.logins + {x},
                              cache := st.cache - {c.digest(x)}))
  {
    hide IsAuthenticator, NextKey, NamedTicket, ClaimsOf;
    assert Grounded(c, codec, st.keys, st.logins, x);
    var keys', cache' := st.keys[c.digest(x) := key], st.cache - {c.digest(x)};
    forall y
      ensures Grounded(c, codec, keys', st.logins + {x}, y)
    {
      assert Grounded(c, codec, st.keys, st.logins, y);
    }
    forall k
      ensures Cached(keys', cache', k)
    {
      assert Cached(st.keys, st.cache, k);
    }
  }

  lemma AddEntry(c: Crypto, codec: Codec, st: System, digest: string, entry: Object)
    requires Inv(c, codec, st) && ("ark" in entry ==> digest in st.keys && st.keys[digest] == entry["ark"])
    ensures Inv(c, codec, st.(cache := st.cache[digest := entry]))
  {
    hide Grounded, Held;
    var cache' := st.cache[digest := entry];
    forall k
      ensures Cached(st.keys, cache', k)
    {
      assert Cached(st.keys, st.cache, k);
    }
  }

  lemma MoreLogins(c: Crypto, codec: Codec, st: System, x: string)
    requires Inv(c, codec, st)
    ensures Inv(c, codec, st.(logins := st.logins + {x}))
  {
    hide IsAuthenticator, NextKey, NamedTicket, ClaimsOf, Cached, Held;
    forall y
      ensures Grounded(c, codec, st.keys, st.logins + {x}, y)
    {
      assert Grounded(c, codec, st.keys, st.logins, y);
    }
  }

  // ----- the relying party's half -----

  /** The key in the entry of an accepted authenticator is the one its text determines. */
  lemma AuthenticatorKey(c: Crypto, codec: Codec, st: System, e: Event)
    requires c.Lawful() && Inv(c, codec, st) && e.Verify? && Outcome(c, codec, st.cache, e).result.Ok?
    requires Records(codec, e) && IsAuthenticator(codec, e.s)
    requires c.digest(e.s) in Outcome(c, codec, st.cache, e).cache && "ark" in Outcome(c, codec, st.cache, e).cache[c.digest(e.s)]
    ensures var tid := NamedTicket(codec, e.s);
            && tid.Some? && tid.value in st.keys
            && NextKey(c, st.keys[tid.value], ClaimsOf(codec, e.s)) ==
               Ok(Outcome(c, codec, st.cache, e).cache[c.digest(e.s)]["ark"])
  {
    hide Outcome, Entry, CheckTicket, Records, IssuesTicket, Unpack, TicketHolds, Keyed, Grounded, Held, GetBinary, HasFlag, GetTimestamp;
    RecordedEntry(c, codec, st.cache, e);
    UsedTicket(c, codec, st.cache, e);
    var tid := NamedTicket(codec, e.s).value;
    assert Cached(st.keys, st.cache, tid);
    var id := Keyed(c, codec, st.cache, e).value;
    TicketIdentity(c, e.ctx, st.cache[tid], Unpack(codec, e.s).value.assertion, e.q.t, "ark");
    if IssuesTicket(e.ctx, id, e.q.t, true) {
      MintedTicket(c, e.ctx, id, e.q.t, true);
    } else {
      PlainHasNoArk(c, e.ctx, id, e.q.t, true);
    }
  }

  lemma RpStepKeeps(c: Crypto, codec: Codec, st: System, e: Event)
    requires c.Lawful() && Inv(c, codec, st) && Once(c, codec, st, e)
    ensures Inv(c, codec, RpStep(c, codec, st, e))
    ensures forall key :: key in st.keys && (e.Verify? && !IsAuthenticator(codec, e.s) ==> key != c.digest(e.s)) ==>
              key in RpStep(c, codec, st, e).keys && RpStep(c, codec, st, e).keys[key] == st.keys[key]
  {
    hide Outcome, Entry, IsAuthenticator, Records, Inv, NextKey, NamedTicket, ClaimsOf, Keyed, ShouldPurge;
    var st' := RpStep(c, codec, st, e);
    if e.Purge? {
      PurgeKeeps(c, codec, st, e.at);
    } else if Outcome(c, codec, st.cache, e).result.Err? {
      RefusedWritesNothing(c, codec, st.cache, e);
      assert st' == st;
    } else {
      RecordedEntry(c, codec, st.cache, e);
      var digest := c.digest(e.s);
      if !Records(codec, e) {
        MoreLogins(c, codec, st, e.s);
      } else {
        var entry := st'.cache[digest];
        assert st'.cache == st.cache[digest := entry];
        if "ark" !in entry {
          MoreLogins(c, codec, st, e.s);
          AddEntry(c, codec, st, digest, entry);
          AddEntry(c, codec, st.(logins := st.logins + {e.s}), digest, entry);
        } else if IsAuthenticator(codec, e.s) {
          AuthenticatorKey(c, codec, st, e);
          AddKey(c, codec, st, e.s, entry["ark"]);
          AddEntry(c, codec, st.(keys := st.keys[digest := entry["ark"]]), digest, entry);
        } else {
          AddLogin(c, codec, st, e.s, entry["ark"]);
          var mid := st.(keys := st.keys[digest := entry["ark"]], logins := st.logins + {e.s}, cache := st.cache - {digest});
          AddEntry(c, codec, mid, digest, entry);
          assert mid.cache[digest := entry] == st'.cache;
        }
      }
    }
  }

  lemma PurgeKeeps(c: Crypto, codec: Codec, st: System, at: int)
    requires Inv(c, codec, st)
    ensures Inv(c, codec, st.(cache := Purged(st.cache, at)))
  {
    hide Grounded, Held, ShouldPurge;
    forall k
      ensures Cached(st.keys, Purged(st.cache, at), k)
    {
      assert Cached(st.keys, st.cache, k);
    }
  }

  // ----- the client's half -----

  lemma StoredHolds(c: Crypto, ctx: Context, id: Identity, ticket: Json, flags: nat)
    requires StoredTicket(c, ctx, id, ticket, flags).Ok?
    ensures var cred := StoredTicket(c, ctx, id, ticket, flags).value.1;
            && Get(cred, "tkt") == Some(ticket)
            && Subkey(c, ctx, id, "ARK").Ok? && Get(cred, "ark") == Some(Subkey(c, ctx, id, "ARK").value)
  {
  }

  lemma TicketNames(digest: string, entry: Object)
    ensures GetString(Members(TicketOf(digest, entry)), "tid") == Some(digest)
  {
  }

  /** The ticket in an answer is the relying party's. */
  lemma AnswerTicket(rp: Identity, a: Answer)
    requires AnswerClaims(rp, a).Ok? && "tkt" !in a.extra
    ensures Get(AnswerClaims(rp, a).value, "tkt") == if a.mode.keyed then rp.priv.tkt else None
  {
    hide ParseOpts, Binary, PublicValue, SigningKey, AddsJti;
    assert "tkt"[0] == 't' && "epk"[0] == 'e' && "jti"[0] == 'j' && "nonce"[0] == 'n';
  }

  /** Storing a ticket whose key is the one its id stands for keeps the invariant. */
  lemma ClientStepKeeps(c: Crypto, codec: Codec, st: System, ctx: Context, client: Identity, rp: Identity, a: Answer, flags: nat,
                        digest: string, entry: Object)
    requires Inv(c, codec, st) && "tkt" !in a.extra
    requires rp.priv.tkt.Some? ==> rp.priv.tkt == Some(TicketOf(digest, entry)) && digest in st.keys
    requires var claims := AnswerClaims(rp, a);
             rp.priv.tkt.Some? && claims.Ok? && a.mode.keyed && Absorb(c, ctx, client, claims.value).Ok? ==>
               Subkey(c, ctx, Absorb(c, ctx, client, claims.value).value, "ARK") == Ok(st.keys[digest])
    ensures Inv(c, codec, st.(tickets := ClientStep(c, ctx, st.tickets, client, rp, a, flags)))
  {
    hide AnswerClaims, Absorb, StoredTicket, Grounded, Cached, Subkey, TicketOf;
    var claims := AnswerClaims(rp, a);
    if claims.Ok? && Absorb(c, ctx, client, claims.value).Ok? {
      var id := Absorb(c, ctx, client, claims.value).value;
      AnswerTicket(rp, a);
      if rp.priv.tkt.Some? && a.mode.keyed && StoredTicket(c, ctx, id, rp.priv.tkt.value, flags).Ok? {
        StoredHolds(c, ctx, id, rp.priv.tkt.value, flags);
        TicketNames(digest, entry);
        assert Held(st.keys, StoredTicket(c, ctx, id, rp.priv.tkt.value, flags).value.1);
      }
    }
  }

  /** What the relying party knows after it accepted and recorded an assertion with a ticket. */
  lemma IssuedIdentity(c: Crypto, codec: Codec, cache: Cache, e: Event)
    requires e.Verify? && Outcome(c, codec, cache, e).result.Ok?
    ensures var v, id := Outcome(c, codec, cache, e), Keyed(c, codec, cache, e);
            && v.identity.Some? && id.Ok?
            && (id.value.priv.tkt.None? && v.identity.value.priv.tkt.Some? ==>
                  && Records(codec, e) && c.digest(e.s) in v.cache
                  && IssuesTicket(e.ctx, id.value, e.q.t, v.flags.reauth)
                  && Entry(c, e.ctx, id.value, e.q.t, v.flags.reauth) == Ok(v.cache[c.digest(e.s)])
                  && v.identity.value == Issued(c, e.ctx, id.value, c.digest(e.s), v.cache[c.digest(e.s)], e.q.t, v.flags.reauth))
  {
    hide Unpack, Local, Entry, CheckReplay, VerifierKey, AsksXrt, IsAuthenticator, WithSecret, IssuesTicket, TicketOf;
    LocalFlags(c, codec, e.out, e.ctx, cache, e.s, e.q);
  }

  // ----- full logins -----

  /** The relying party's key pair after a full login: its own, on the client's parameters. */
  lemma LoginKeys(c: Crypto, codec: Codec, cache: Cache, e: Event)
    requires e.Verify? && Outcome(c, codec, cache, e).result.Ok? && !IsAuthenticator(codec, e.s)
    requires "epk" in ClaimsOf(codec, e.s)
    ensures Keyed(c, codec, cache, e).Ok?
    ensures var id, params := Keyed(c, codec, cache, e).value, EcParamsOf(Members(ClaimsOf(codec, e.s)["epk"]));
            && id.priv.tkt.None? && id.secret.None? && id.priv.epk.None? == e.ctx.curve.None?
            && (e.ctx.curve.Some? ==>
                  && params.crv.Some?
                  && var pub := c.publicValue(params.crv.value, e.d);
                  id.priv.epk == Some(EcKey(params, Some(pub.x), Some(pub.y), Some(e.d))))
  {
    hide Unpack, Local, Admit, Attributes;
    RecordedEntry(c, codec, cache, e);
    CertifiedIdentity(c, e.out, e.ctx, cache, Unpack(codec, e.s).value, e.q);
  }

  lemma AnswerKey(rp: Identity, a: Answer)
    requires AnswerClaims(rp, a).Ok? && a.mode.keyed && a.mode.initial
    ensures var claims := AnswerClaims(rp, a).value;
            && "epk" in claims && rp.priv.epk.Some?
            && GetString(Members(claims["epk"]), "x") == rp.priv.epk.value.x
            && GetString(Members(claims["epk"]), "y") == rp.priv.epk.value.y
  {
    hide ParseOpts, Binary, SigningKey, AddsJti;
    assert "tkt"[0] == 't' && "epk"[0] == 'e' && "jti"[0] == 'j' && "nonce"[0] == 'n' && "x"[0] == 'x' && "y"[0] == 'y';
  }

  /** Issuing a ticket changes nothing that key agreement depends on. */
  lemma VerdictKeeps(c: Crypto, codec: Codec, cache: Cache, e: Event)
    requires e.Verify? && Outcome(c, codec, cache, e).result.Ok?
    ensures var v, id := Outcome(c, codec, cache, e), Keyed(c, codec, cache, e);
            && v.identity.Some? && id.Ok?
            && v.identity.value.priv.epk == id.value.priv.epk && v.identity.value.priv.opts == id.value.priv.opts
            && v.identity.value.priv.nonce == id.value.priv.nonce
            && Secret(c, e.ctx, v.identity.value) == Secret(c, e.ctx, id.value)
            && (id.value.secret.Some? ==> v.identity.value.secret == id.value.secret)
  {
    hide Unpack, Local, Entry, CheckReplay, VerifierKey, AsksXrt, IsAuthenticator, IssuesTicket, TicketOf, EcdhSecret, EcdhCurve;
    LocalFlags(c, codec, e.out, e.ctx, cache, e.s, e.q);
  }

  /** The client after a full login whose response it absorbed. */
  ghost predicate LoginMeets(c: Crypto, codec: Codec, cache: Cache, e: Event, ctx: Context, d: string, a: Answer) {
    && e.Verify? && !IsAuthenticator(codec, e.s) && CarriesKey(c, codec, ctx, e.s, d)
    && var v := Outcome(c, codec, cache, e);
    && v.result.Ok? && v.identity.Some? && ClientIdentity(c, codec, ctx, e.s, d).Ok?
    && a.mode.keyed && a.mode.initial && AnswerClaims(v.identity.value, a).Ok?
    && Absorb(c, ctx, ClientIdentity(c, codec, ctx, e.s, d).value, AnswerClaims(v.identity.value, a).value).Ok?
  }

  ghost function LoggedIn(c: Crypto, codec: Codec, cache: Cache, e: Event, ctx: Context, d: string, a: Answer): Identity
    requires LoginMeets(c, codec, cache, e, ctx, d, a)
  {
    Absorb(c, ctx, ClientIdentity(c, codec, ctx, e.s, d).value, AnswerClaims(Outcome(c, codec, cache, e).identity.value, a).value).value
  }

  /** After a full login, with or without a ticket, client and relying party share one secret, provided that
      the relying party can agree on one at all. */
  lemma LoginShares(c: Crypto, codec: Codec, cache: Cache, e: Event, ctx: Context, d: string, a: Answer)
    requires c.Lawful() && LoginMeets(c, codec, cache, e, ctx, d, a)
    requires Secret(c, e.ctx, Outcome(c, codec, cache, e).identity.value).Ok?
    ensures SharedSecret(c, ctx, LoggedIn(c, codec, cache, e, ctx, d, a), e.ctx, Outcome(c, codec, cache, e).identity.value)
  {
    hide Outcome, IsAuthenticator, Unpack, Keyed, Absorb, AnswerClaims, EcdhSecret, ClientIdentity;
    LoginKeys(c, codec, cache, e);
    VerdictKeeps(c, codec, cache, e);
    var v, id := Outcome(c, codec, cache, e), Keyed(c, codec, cache, e).value;
    AnswerKey(v.identity.value, a);
    ClientStarts(c, codec, ctx, e.s, d);
    LoginAgrees(c, ctx, ClientIdentity(c, codec, ctx, e.s, d).value, e.ctx, id, d, e.d, AnswerClaims(v.identity.value, a).value);
  }

  /** The key that the client derives from the response is the one in the relying party's entry. */
  lemma LoginKeyAgrees(c: Crypto, codec: Codec, cache: Cache, e: Event, ctx: Context, d: string, a: Answer)
    requires c.Lawful() && LoginMeets(c, codec, cache, e, ctx, d, a) && Outcome(c, codec, cache, e).identity.value.priv.tkt.Some?
    ensures var v := Outcome(c, codec, cache, e);
            && Subkey(c, ctx, LoggedIn(c, codec, cache, e, ctx, d, a), "ARK").Ok?
            && c.digest(e.s) in v.cache && "ark" in v.cache[c.digest(e.s)]
            && v.cache[c.digest(e.s)]["ark"] == Subkey(c, ctx, LoggedIn(c, codec, cache, e, ctx, d, a), "ARK").value
  {
    hide Outcome, IsAuthenticator, Unpack, Keyed, LoggedIn, AnswerClaims, Absorb, Entry, IssuesTicket, HasFlag, GetTimestamp, Secret,
         TicketOf, ClientIdentity;
    LoginKeys(c, codec, cache, e);
    VerdictKeeps(c, codec, cache, e);
    RecordedEntry(c, codec, cache, e);
    IssuedIdentity(c, codec, cache, e);
    MintedTicket(c, e.ctx, Keyed(c, codec, cache, e).value, e.q.t, false);
    LoginShares(c, codec, cache, e, ctx, d, a);
  }

  lemma ClientStarts(c: Crypto, codec: Codec, ctx: Context, s: string, d: string)
    requires ctx.curve.Some? && ClientIdentity(c, codec, ctx, s, d).Ok?
    ensures var id := ClientIdentity(c, codec, ctx, s, d).value;
            id.secret.None? && id.priv.epk == Some(ClientKey(c, ctx.curve.value, d))
  {
  }

  // ----- re-authentications -----

  lemma FoundIsHeld(c: Crypto, codec: Codec, st: System, ctx: Context, aud: string, name: Option<string>)
    requires Inv(c, codec, st) && FindTicketOrAlias(ctx, st.tickets, aud, name).Ok?
    ensures Held(st.keys, FindTicketOrAlias(ctx, st.tickets, aud, name).value)
  {
  }

  lemma AuthenticatorNames(ctx: Context, aud: string, cb: Option<bytes>, opts: Option<Json>, tid: Json, nowMs: int, nonce: bytes)
    ensures TicketId(Authenticator(ctx, aud, cb, opts, tid, nowMs, nonce)) == if tid.Str? then Some(tid.s) else None
  {
  }

  /** An authenticator names the client's ticket, determines the next key, and verifies under the
      key its ticket id stands for. */
  lemma MadeAuthenticator(c: Crypto, codec: Codec, st: System, w: Wish)
    requires c.Lawful() && codec.Lawful() && Inv(c, codec, st) && Made(c, codec, st.tickets, w).Ok?
    ensures var a := Made(c, codec, st.tickets, w).value;
            && IsAuthenticator(codec, a.text) && a.identity.secret.Some? && a.identity.priv.epk.None? && a.identity.priv.tkt.None?
            && var tid := NamedTicket(codec, a.text);
            && tid.Some? && tid.value in st.keys
            && NextKey(c, st.keys[tid.value], ClaimsOf(codec, a.text)) ==
               Ok(SecretKey(c.kdf(a.identity.secret.value, Ascii("ARK"))))
            && SessionKey(c, map["ark" := st.keys[tid.value]], ClaimsOf(codec, a.text)) == Ok(a.identity.secret.value)
            && Unpack(codec, a.text).Ok?
            && Verifies(c, Unpack(codec, a.text).value.assertion, st.keys[tid.value])
  {
    hide Inv, FindTicketOrAlias, Unpack, Pack, Authenticator, KeySet.VerifySignature, GetBinary, Authority.ValidateExpiry;
    var cred := FindTicketOrAlias(w.ctx, st.tickets, w.aud, w.name).value;
    FoundIsHeld(c, codec, st, w.ctx, w.aud, w.name);
    var tid := Members(cred["tkt"])["tid"];
    var payload := Authenticator(w.ctx, w.aud, w.cb, w.opts, tid, w.nowMs, w.nonce);
    AuthenticatorNames(w.ctx, w.aud, w.cb, w.opts, tid, w.nowMs, w.nonce);
    AuthenticatorVerifies(c, codec, payload, cred["ark"], cred, cred);
  }

  // ----- all runs -----

  /** What the run promises of its exchanges: clients log in with a certificate over claims that carry
      their key, a response's other claims hold no ticket, and no text of a full login is accepted
      twice. */
  ghost predicate Honest(c: Crypto, codec: Codec, st: System, x: Exchange) {
    match x
    case Login(ctx, d, e, _, answer, _) =>
      && e.Verify? && !IsAuthenticator(codec, e.s) && CarriesKey(c, codec, ctx, e.s, d) && Once(c, codec, st, e)
      && answer.mode.initial && "tkt" !in answer.extra
    case Reauth(_, _, _, answer, _) => !answer.mode.initial && "tkt" !in answer.extra
    case Other(e) => Once(c, codec, st, e)
  }

  lemma LoginKeeps(c: Crypto, codec: Codec, st: System, x: Exchange)
    requires c.Lawful() && Inv(c, codec, st) && x.Login? && Honest(c, codec, st, x)
    ensures Inv(c, codec, SystemStep(c, codec, st, x))
  {
    hide Outcome, IsAuthenticator, Unpack, Inv, ClientIdentity, CarriesKey, ClientStep, RpStep;
    var v := Outcome(c, codec, st.cache, x.rp);
    RpStepKeeps(c, codec, st, x.rp);
    if v.result.Ok? && v.identity.Some? && x.delivered && ClientIdentity(c, codec, x.client, x.rp.s, x.d).Ok? {
      LoginStoreKeeps(c, codec, st, x);
    }
  }

  lemma LoginStoreKeeps(c: Crypto, codec: Codec, st: System, x: Exchange)
    requires c.Lawful() && x.Login? && Honest(c, codec, st, x) && Inv(c, codec, RpStep(c, codec, st, x.rp))
    requires Outcome(c, codec, st.cache, x.rp).result.Ok? && Outcome(c, codec, st.cache, x.rp).identity.Some?
    requires ClientIdentity(c, codec, x.client, x.rp.s, x.d).Ok?
    ensures Inv(c, codec, RpStep(c, codec, st, x.rp).(tickets := ClientStep(c, x.client, st.tickets,
              ClientIdentity(c, codec, x.client, x.rp.s, x.d).value, Outcome(c, codec, st.cache, x.rp).identity.value,
              x.answer, x.flags)))
  {
    hide Outcome, IsAuthenticator, Unpack, Keyed, Absorb, AnswerClaims, Inv, ClientIdentity, Subkey, Entry, IssuesTicket, TicketOf,
         ClientStep, WithSecret;
    var e, v := x.rp, Outcome(c, codec, st.cache, x.rp);
    var st', rp := RpStep(c, codec, st, e), v.identity.value;
    var client := ClientIdentity(c, codec, x.client, e.s, x.d).value;
    var claims := AnswerClaims(rp, x.answer);
    LoginKeys(c, codec, st.cache, e);
    IssuedIdentity(c, codec, st.cache, e);
    if rp.priv.tkt.Some? && claims.Ok? && x.answer.mode.keyed && Absorb(c, x.client, client, claims.value).Ok? {
      LoginKeyAgrees(c, codec, st.cache, e, x.client, x.d, x.answer);
    }
    var digest := c.digest(e.s);
    var entry := if digest in v.cache then v.cache[digest] else map[];
    LoginTicket(c, codec, st, e, entry);
    ClientStepKeeps(c, codec, st', x.client, client, rp, x.answer, x.flags, digest, entry);
  }

  /** A ticket that a full login was issued is recorded with its key. */
  lemma LoginTicket(c: Crypto, codec: Codec, st: System, e: Event, entry: Object)
    requires e.Verify? && Outcome(c, codec, st.cache, e).result.Ok? && Outcome(c, codec, st.cache, e).identity.Some?
    requires var v := Outcome(c, codec, st.cache, e); c.digest(e.s) in v.cache ==> entry == v.cache[c.digest(e.s)]
    requires Keyed(c, codec, st.cache, e).Ok? && Keyed(c, codec, st.cache, e).value.priv.tkt.None?
    ensures Outcome(c, codec, st.cache, e).identity.value.priv.tkt.Some? ==>
              && Outcome(c, codec, st.cache, e).identity.value.priv.tkt == Some(TicketOf(c.digest(e.s), entry))
              && "ark" in entry && c.digest(e.s) in RpStep(c, codec, st, e).keys
              && RpStep(c, codec, st, e).keys[c.digest(e.s)] == entry["ark"]
  {
    hide Outcome, IsAuthenticator, Unpack, Keyed, Entry, IssuesTicket, Subkey, WithSecret, HasFlag, GetTimestamp, TicketOf;
    var v := Outcome(c, codec, st.cache, e);
    RecordedEntry(c, codec, st.cache, e);
    IssuedIdentity(c, codec, st.cache, e);
    if v.identity.value.priv.tkt.Some? {
      MintedTicket(c, e.ctx, Keyed(c, codec, st.cache, e).value, e.q.t, v.flags.reauth);
    }
  }

  /** A response to a re-authentication leaves the client's secret alone. */
  lemma ReauthAbsorbs(c: Crypto, ctx: Context, client: Identity, claims: Object)
    requires client.secret.Some? && client.priv.epk.None? && Absorb(c, ctx, client, claims).Ok?
    ensures Absorb(c, ctx, client, claims).value.secret == client.secret
    ensures Subkey(c, ctx, Absorb(c, ctx, client, claims).value, "ARK") == Ok(SecretKey(c.kdf(client.secret.value, Ascii("ARK"))))
  {
  }

  lemma ReauthKeeps(c: Crypto, codec: Codec, st: System, x: Exchange)
    requires c.Lawful() && codec.Lawful() && Inv(c, codec, st) && x.Reauth? && Honest(c, codec, st, x)
    ensures Inv(c, codec, SystemStep(c, codec, st, x))
  {
    hide Outcome, IsAuthenticator, Unpack, Keyed, Inv, Made, ClientStep, RpStep, NextKey, ClaimsOf, NamedTicket, SessionKey, Verifies;
    var made := Made(c, codec, st.tickets, x.wish);
    if made.Ok? && x.rp.Verify? {
      var a, e := made.value, x.rp.(s := made.value.text);
      MadeAuthenticator(c, codec, st, x.wish);
      var key := TicketKeyOf(c, a.identity);
      AddKey(c, codec, st, a.text, key);
      var sent := st.(keys := st.keys[c.digest(a.text) := key]);
      RpStepKeeps(c, codec, sent, e);
      var v := Outcome(c, codec, st.cache, e);
      if x.delivered && v.result.Ok? && v.identity.Some? {
        ReauthStoreKeeps(c, codec, sent, e, x.wish.ctx, a.identity, x.answer, x.flags);
      }
    }
  }

  lemma ReauthStoreKeeps(c: Crypto, codec: Codec, sent: System, e: Event, ctx: Context, client: Identity, a: Answer, flags: nat)
    requires c.Lawful() && e.Verify? && IsAuthenticator(codec, e.s) && Inv(c, codec, RpStep(c, codec, sent, e)) && "tkt" !in a.extra
    requires Outcome(c, codec, sent.cache, e).result.Ok? && Outcome(c, codec, sent.cache, e).identity.Some?
    requires client.secret.Some? && client.priv.epk.None?
    requires c.digest(e.s) in RpStep(c, codec, sent, e).keys
    requires RpStep(c, codec, sent, e).keys[c.digest(e.s)] == SecretKey(c.kdf(client.secret.value, Ascii("ARK")))
    ensures Inv(c, codec, RpStep(c, codec, sent, e).(tickets := ClientStep(c, ctx, sent.tickets, client,
              Outcome(c, codec, sent.cache, e).identity.value, a, flags)))
  {
    hide Outcome, IsAuthenticator, Unpack, Keyed, Absorb, AnswerClaims, Inv, Entry, IssuesTicket, TicketOf, Subkey, ClientStep,
         WithSecret, CheckTicket, TicketHolds;
    var v := Outcome(c, codec, sent.cache, e);
    var st', rp := RpStep(c, codec, sent, e), v.identity.value;
    UsedTicket(c, codec, sent.cache, e);
    NoTicketYet(c, e.ctx, sent.cache[NamedTicket(codec, e.s).value], Unpack(codec, e.s).value.assertion, e.q.t);
    var digest := c.digest(e.s);
    var entry := if digest in v.cache then v.cache[digest] else map[];
    RecordedEntry(c, codec, sent.cache, e);
    LoginTicket(c, codec, sent, e, entry);
    var claims := AnswerClaims(rp, a);
    if claims.Ok? && Absorb(c, ctx, client, claims.value).Ok? {
      ReauthAbsorbs(c, ctx, client, claims.value);
    }
    ClientStepKeeps(c, codec, st', ctx, client, rp, a, flags, digest, entry);
  }

  lemma NoTicketYet(c: Crypto, ctx: Context, cred: Object, ap: Jwt.Jwt, t: int)
    ensures CheckTicket(c, ctx, cred, ap, t).Ok? ==> CheckTicket(c, ctx, cred, ap, t).value.priv.tkt.None?
  {
  }

  ghost predicate HonestRun(c: Crypto, codec: Codec, run: seq<Exchange>) {
    forall k :: 0 <= k < |run| ==> Honest(c, codec, SystemAt(c, codec, run, k), run[k])
  }

  lemma {:induction false} InvAt(c: Crypto, codec: Codec, run: seq<Exchange>, n: nat)
    requires c.Lawful() && codec.Lawful() && HonestRun(c, codec, run) && n <= |run|
    ensures Inv(c, codec, SystemAt(c, codec, run, n))
  {
    hide Inv, SystemStep, Honest;
    if n == 0 {
      assert Inv(c, codec, START) by {
        StartHolds(c, codec);
      }
    } else {
      InvAt(c, codec, run, n - 1);
      var st, x := SystemAt(c, codec, run, n - 1), run[n - 1];
      assert Honest(c, codec, st, x);
      match x {
        case Login(_, _, _, _, _, _) => LoginKeeps(c, codec, st, x);
        case Reauth(_, _, _, _, _) => ReauthKeeps(c, codec, st, x);
        case Other(e) => OtherKeeps(c, codec, st, x);
      }
    }
  }

  lemma StartHolds(c: Crypto, codec: Codec)
    ensures Inv(c, codec, START)
  {
  }

  lemma OtherKeeps(c: Crypto, codec: Codec, st: System, x: Exchange)
    requires c.Lawful() && Inv(c, codec, st) && x.Other? && Honest(c, codec, st, x)
    ensures Inv(c, codec, SystemStep(c, codec, st, x))
  {
    hide Inv, RpStep;
    RpStepKeeps(c, codec, st, x.rp);
  }

  /** Key agreement: in every run, a ticket id that the client holds and that has a key in the
      relying party's cache carries the same key on both sides. */
  lemma KeyAgreement(c: Crypto, codec: Codec, run: seq<Exchange>, n: nat, key: string)
    requires c.Lawful() && codec.Lawful() && HonestRun(c, codec, run) && n <= |run|
    requires key in SystemAt(c, codec, run, n).tickets
    ensures var st := SystemAt(c, codec, run, n);
            var cred := st.tickets[key];
            && "ark" in cred && "tkt" in cred
            && var tid := GetString(Members(cred["tkt"]), "tid");
            && tid.Some?
            && (tid.value in st.cache && "ark" in st.cache[tid.value] ==> st.cache[tid.value]["ark"] == cred["ark"])
  {
    hide SystemAt, Grounded;
    InvAt(c, codec, run, n);
    var st := SystemAt(c, codec, run, n);
    assert Held(st.keys, st.tickets[key]);
    assert Cached(st.keys, st.cache, GetString(Members(st.tickets[key]["tkt"]), "tid").value);
  }

  /** So an honest authenticator always verifies: whatever ticket the client uses, if the relying
      party still has a key for it, the signature holds under that key and both derive one secret. */
  lemma HonestAuthenticatorVerifies(c: Crypto, codec: Codec, run: seq<Exchange>, n: nat, w: Wish)
    requires c.Lawful() && codec.Lawful() && HonestRun(c, codec, run) && n <= |run|
    requires Made(c, codec, SystemAt(c, codec, run, n).tickets, w).Ok?
    ensures var st := SystemAt(c, codec, run, n);
            var a := Made(c, codec, st.tickets, w).value;
            && Unpack(codec, a.text).Ok? && IsAuthenticator(codec, a.text) && a.identity.priv.epk.None?
            && var ap, tid := Unpack(codec, a.text).value.assertion, NamedTicket(codec, a.text);
            && tid.Some?
            && (tid.value in st.cache && "ark" in st.cache[tid.value] ==>
                  && Verifies(c, ap, st.cache[tid.value]["ark"])
                  && var secret := SessionKey(c, st.cache[tid.value], ap.Claims());
                  secret.Ok? && a.identity.secret == Some(secret.value))
  {
    hide SystemAt, Grounded, Made, Unpack, Verifies, NextKey, GetBinary, Held, IsAuthenticator;
    InvAt(c, codec, run, n);
    var st := SystemAt(c, codec, run, n);
    MadeAuthenticator(c, codec, st, w);
    assert Cached(st.keys, st.cache, NamedTicket(codec, Made(c, codec, st.tickets, w).value.text).value);
  }
}
