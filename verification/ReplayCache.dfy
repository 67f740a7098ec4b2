/** The relying party's replay cache, which is also its ticket store (bid_rcache.c), and
    `BIDVerifyAssertion` (bid_identity.c) around it. */
module ReplayCache {
  import opened Wrappers
  import opened Json
  import opened Crypto
  import opened Identity
  import opened BackedAssertion
  import opened Ticket
  import opened Verify
  import Authority
  import Jwt

  // ----- replay check and purge -----

  /** `_BIDCheckReplayCache`. */
  function CheckReplay(c: Crypto, cache: Cache, s: string, t: int): Result<()> {
    var digest := c.digest(s);
    if digest in cache && t < GetTimestamp(cache[digest], "exp") then Err(ReplayedAssertion) else Ok(())
  }

  /** `_BIDShouldPurgeReplayCacheEntryP`. */
  predicate ShouldPurge(entry: Object, now: int) {
    var expiry := GetTimestamp(entry, if "ark" in entry then "exp" else "a-exp");
    expiry == 0 || now >= expiry
  }

  /** `_BIDPurgeReplayCache`. */
  function Purged(cache: Cache, now: int): Cache {
    map key | key in cache && !ShouldPurge(cache[key], now) :: cache[key]
  }

  /** The time from which an entry no longer blocks its assertion. */
  function Horizon(entry: Object): int {
    var exp, aExp := GetTimestamp(entry, "exp"), GetTimestamp(entry, "a-exp");
    if "ark" in entry || exp <= aExp then exp else aExp
  }

  /** A purge followed by a replay check, both at one time, lets an assertion through exactly
      from its entry's horizon on. */
  lemma PassesFromHorizon(c: Crypto, cache: Cache, s: string, t: int)
    requires t >= 0 && c.digest(s) in cache
    ensures CheckReplay(c, Purged(cache, t), s, t).Ok? <==> t >= Horizon(cache[c.digest(s)])
  {
  }

  /** A purge keeps exactly the tickets whose "exp" is still to come, and the other entries whose "a-exp" is; a time
      that is not set counts as past. */
  lemma PurgedExactly(cache: Cache, now: int, key: string)
    ensures key in Purged(cache, now) <==>
            && key in cache
            && var expiry := if "ark" in cache[key] then GetTimestamp(cache[key], "exp") else GetTimestamp(cache[key], "a-exp");
            expiry != 0 && now < expiry
    ensures key in Purged(cache, now) ==> Purged(cache, now)[key] == cache[key]
  {
  }

  // ----- minting -----

  function TimestampOf(j: Option<Json>): int {
    Truncate(IntegerValue(j), 1000)
  }

  /** A ticket is issued for every full login, and for a re-authentication while the ticket it
      used is renewable. */
  predicate IssuesTicket(ctx: Context, id: Identity, t: int, reauth: bool) {
    ctx.reauth && (!reauth || t - TimestampOf(id.priv.renewExp) <= ctx.skew)
  }

  function RenewExpiry(ctx: Context, id: Identity, t: int, reauth: bool): int {
    if !reauth && ctx.renewLifetime != 0 then t + ctx.renewLifetime else TimestampOf(id.priv.renewExp)
  }

  function TicketFlags(ctx: Context, reauth: bool): nat {
    (if reauth then RENEWED else 0) + (if ctx.canMutualAuth then MUTUAL_AUTH else 0)
  }

  /** The entry of an issued ticket before its key strength is recorded. */
  function TicketEntry(ctx: Context, id: Identity, t: int, reauth: bool, ark: Json): Object {
    var e := SetTimestamp(id.attributes, "iat", t);
    var e := Set(e, "a-exp", id.priv.aExp)["ark" := ark];
    var e := if TicketFlags(ctx, reauth) != 0 then e["flags" := Int(TicketFlags(ctx, reauth))] else e;
    var e := if ctx.ticketLifetime != 0 && t + ctx.ticketLifetime != 0
             then SetTimestamp(e, "exp", t + ctx.ticketLifetime) else e;
    if RenewExpiry(ctx, id, t, reauth) != 0 then SetTimestamp(e, "renew-exp", RenewExpiry(ctx, id, t, reauth)) else e
  }

  /** The entry of an assertion that gets no ticket. */
  function PlainEntry(id: Identity, t: int): Result<Object> {
    if "exp" !in id.attributes then Err(UnknownJsonKey)
    else Ok(Set(SetTimestamp(map[], "iat", t), "a-exp", id.priv.aExp)["exp" := id.attributes["exp"]])
  }

  function Entry(c: Crypto, ctx: Context, id: Identity, t: int, reauth: bool): Result<Object> {
    if IssuesTicket(ctx, id, t, reauth) then
      var ark :- Subkey(c, ctx, id, "ARK");
      SaveStrength(ctx, id.priv, TicketEntry(ctx, id, t, reauth, ark))
    else PlainEntry(id, t)
  }

  /** The ticket that goes back to the client. */
  function TicketOf(digest: string, entry: Object): Json {
    Obj(Set(map["tid" := Str(digest)], "exp", Get(entry, "exp")))
  }

  /** `_BIDUpdateReplayCache`: what the identity becomes. */
  function Issued(c: Crypto, ctx: Context, id: Identity, digest: string, entry: Object, t: int, reauth: bool): Identity {
    if IssuesTicket(ctx, id, t, reauth) then
      var settled := WithSecret(c, ctx, id);
      settled.(priv := settled.priv.(tkt := Some(TicketOf(digest, entry))))
    else id
  }

  // ----- BIDVerifyAssertion -----

  /** What a verification reports, and the cache it leaves. The identity stays available when a
      step after the local decision fails. */
  datatype Verdict = Verdict(result: Result<()>, identity: Option<Identity>, flags: Flags, cache: Cache)

  /** What happens to a locally accepted assertion: replay check, key agreement, cache update. */
  function Admit(c: Crypto, ctx: Context, cache: Cache, s: string, t: int, noReplay: bool, d: string, id: Identity, flags: Flags): Verdict {
    var useReplay := !flags.xrt && ctx.replayCache;
    var replay := if useReplay && !noReplay then CheckReplay(c, cache, s, t) else Ok(());
    if replay.Err? then Verdict(replay, Some(id), flags, cache)
    else
      var keyed := if !flags.reauth && ctx.curve.Some? then VerifierKey(c, id, d) else Ok(id);
      if keyed.Err? then Verdict(Err(keyed.error), Some(id), flags, cache)
      else if noReplay || !(useReplay || ctx.reauth) then Verdict(Ok(()), Some(keyed.value), flags, cache)
      else
        var entry := Entry(c, ctx, keyed.value, t, flags.reauth);
        if entry.Err? then
          Verdict(Err(entry.error),
                  Some(if IssuesTicket(ctx, keyed.value, t, flags.reauth) then WithSecret(c, ctx, keyed.value) else keyed.value),
                  flags, cache)
        else
          Verdict(Ok(()), Some(Issued(c, ctx, keyed.value, c.digest(s), entry.value, t, flags.reauth)), flags,
                  cache[c.digest(s) := entry.value])
  }

  /** `BIDVerifyAssertion`; d is the verifier's freshly generated private value. */
  function VerifyAssertion(c: Crypto, codec: Codec, out: Outside, ctx: Context, cache: Cache, s: string, q: Request,
                           noReplay: bool, d: string): Verdict
  {
    var ba := Unpack(codec, s);
    if ba.Err? then Verdict(Err(ba.error), None, NO_FLAGS, cache)
    else
      var (id, flags) := Local(c, out, ctx, cache, ba.value, q);
      if id.Err? then Verdict(Err(id.error), None, flags, cache)
      else Admit(c, ctx, cache, s, q.t, noReplay, d, id.value, flags)
  }

  /** `BIDVerifyAssertion` under BID_CONTEXT_VERIFY_REMOTE, where a remote verifier gives the identity and the
      flags: the steps after the decision are the same. */
  function VerifyRemotely(c: Crypto, codec: Codec, ctx: Context, cache: Cache, s: string, t: int, noReplay: bool, d: string,
                          answer: (Result<Identity>, Flags)): Verdict
  {
    var ba := Unpack(codec, s);
    if ba.Err? then Verdict(Err(ba.error), None, NO_FLAGS, cache)
    else if answer.0.Err? then Verdict(Err(answer.0.error), None, answer.1, cache)
    else Admit(c, ctx, cache, s, t, noReplay, d, answer.0.value, answer.1)
  }

  /** A remote verifier that answers what the local decision would changes nothing. */
  lemma RemoteIsLocal(c: Crypto, codec: Codec, out: Outside, ctx: Context, cache: Cache, s: string, q: Request, noReplay: bool, d: string)
    requires Unpack(codec, s).Ok?
    ensures VerifyRemotely(c, codec, ctx, cache, s, q.t, noReplay, d, Local(c, out, ctx, cache, Unpack(codec, s).value, q)) ==
            VerifyAssertion(c, codec, out, ctx, cache, s, q, noReplay, d)
  {
    hide Unpack, Local, Admit;
  }

  // ----- in place -----

  /** The relying party's cache object and the operations that change it. */
  class RelyingParty {
    var cache: Cache

    constructor ()
      ensures cache == map[]
    {
      cache := map[];
    }

    /** `_BIDUpdateReplayCache`: builds the entry by successive sets, stores it, and leaves the
        ticket with the identity. */
    method UpdateReplayCache(c: Crypto, ctx: Context, id: IdentityObject, s: string, t: int, reauth: bool) returns (r: Result<()>)
      modifies this, id
      ensures var before := old(id.View());
              var entry := Entry(c, ctx, before, t, reauth);
              && r == (if entry.Ok? then Ok(()) else Err(entry.error))
              && cache == (if entry.Ok? then old(cache)[c.digest(s) := entry.value] else old(cache))
              && id.View() == if entry.Ok? then Issued(c, ctx, before, c.digest(s), entry.value, t, reauth)
                              else if IssuesTicket(ctx, before, t, reauth) then WithSecret(c, ctx, before) else before
    {
      hide Subkey, WithSecret, SaveStrength, Truncate, TimestampOf;
      var digest := c.digest(s);
      var renewExpiry := TimestampOf(id.priv.renewExp);
      var storeReauthCreds := ctx.reauth && (!reauth || t - renewExpiry <= ctx.skew);
      var rdata := if storeReauthCreds then id.attributes else map[];
      rdata := SetTimestamp(rdata, "iat", t);
      rdata := Set(rdata, "a-exp", id.priv.aExp);
      var ticketExpiry := 0;
      if ctx.ticketLifetime != 0 {
        ticketExpiry := t + ctx.ticketLifetime;
      }
      if !reauth && ctx.renewLifetime != 0 {
        renewExpiry := t + ctx.renewLifetime;
      }
      if storeReauthCreds {
        var ark :- id.DeriveSessionSubkey(c, ctx, "ARK");
        assert id.attributes == old(id.attributes) && id.priv == old(id.priv);
        rdata := rdata["ark" := ark];
        var ticketFlags := 0;
        if reauth {
          ticketFlags := ticketFlags + RENEWED;
        }
        if ctx.canMutualAuth {
          ticketFlags := ticketFlags + MUTUAL_AUTH;
        }
        if ticketFlags != 0 {
          rdata := rdata["flags" := Int(ticketFlags)];
        }
        if ticketExpiry != 0 {
          rdata := SetTimestamp(rdata, "exp", ticketExpiry);
        }
        if renewExpiry != 0 {
          rdata := SetTimestamp(rdata, "renew-exp", renewExpiry);
        }
        assert rdata == TicketEntry(ctx, old(id.View()), t, reauth, ark);
        rdata :- SaveStrength(ctx, id.priv, rdata);
      } else {
        if "exp" !in id.attributes {
          return Err(UnknownJsonKey);
        }
        rdata := rdata["exp" := id.attributes["exp"]];
      }
      cache := cache[digest := rdata];
      if storeReauthCreds {
        var tkt: Object := map["tid" := Str(digest)];
        tkt := Set(tkt, "exp", Get(rdata, "exp"));
        id.priv := id.priv.(tkt := Some(Obj(tkt)));
      }
      return Ok(());
    }
  }

  /** The steps after the local decision, on objects. */
  method AdmitInPlace(rp: RelyingParty, c: Crypto, ctx: Context, s: string, t: int, noReplay: bool, d: string,
                      id: IdentityObject, flags: Flags) returns (r: Result<()>)
    modifies rp, id
    ensures Verdict(r, Some(id.View()), flags, rp.cache) ==
            Admit(c, ctx, old(rp.cache), s, t, noReplay, d, old(id.View()), flags)
  {
    hide Entry, Issued, CheckReplay, IssuesTicket, VerifierKey, WithSecret;
    var useReplay := !flags.xrt && ctx.replayCache;
    if useReplay && !noReplay {
      r := CheckReplay(c, rp.cache, s, t);
      if r.Err? {
        return;
      }
    }
    if !flags.reauth && ctx.curve.Some? {
      r := id.VerifierKeyAgreement(c, d);
      if r.Err? {
        return;
      }
    }
    r := Ok(());
    if (useReplay || ctx.reauth) && !noReplay {
      r := rp.UpdateReplayCache(c, ctx, id, s, t, flags.reauth);
    }
  }

  /** `BIDVerifyAssertion` on objects: check the arguments, unpack in place, decide, then check and update the
      cache. `rpContext` is BID_CONTEXT_RP, `remote` what a remote verifier answers if one is to be asked. */
  method VerifyInPlace(rp: RelyingParty, c: Crypto, codec: Codec, out: Outside, ctx: Context, rpContext: bool,
                       authorities: Authority.AuthorityCache, net: Authority.Net, s: Option<string>, q: Request,
                       noReplay: bool, d: string, remote: Option<(Result<Identity>, Flags)>)
    returns (r: Result<()>, id: IdentityObject?, expiry: int, flags: Flags)
    requires s.Some? ==> Jwt.NulFree(s.value)
    requires forall h :: out.lookup(h) == Authority.Lookup(ctx, authorities.docs, net, q.t, h)
    modifies rp, authorities
    ensures Verdict(r, if id == null then None else Some(id.View()), flags, rp.cache) ==
            if s.None? then Verdict(Err(InvalidParameter), None, NO_FLAGS, old(rp.cache))
            else if !rpContext then Verdict(Err(InvalidUsage), None, NO_FLAGS, old(rp.cache))
            else if remote.Some? then VerifyRemotely(c, codec, ctx, old(rp.cache), s.value, q.t, noReplay, d, remote.value)
            else VerifyAssertion(c, codec, out, ctx, old(rp.cache), s.value, q, noReplay, d)
    ensures expiry == if r.Ok? && id != null then GetTimestamp(id.attributes, "exp") else 0
  {
    hide Unpack, Local, Admit, Authority.Lookup, GetTimestamp;
    id, expiry, flags := null, 0, NO_FLAGS;
    if s.None? {
      return Err(InvalidParameter), null, 0, flags;
    }
    if !rpContext {
      return Err(InvalidUsage), null, 0, flags;
    }
    var ba, _ := UnpackBackedAssertion(codec, s.value);
    if ba.Err? {
      return Err(ba.error), null, 0, flags;
    }
    var verified;
    if remote.Some? {
      verified, flags := remote.value.0, remote.value.1;
    } else {
      verified, flags := VerifyLocal(c, out, ctx, authorities, net, rp.cache, ba.value, q);
    }
    if verified.Err? {
      return Err(verified.error), null, 0, flags;
    }
    id := new IdentityObject(verified.value.attributes, verified.value.priv, verified.value.secret);
    r := AdmitInPlace(rp, c, ctx, s.value, q.t, noReplay, d, id, flags);
    if r.Ok? {
      expiry := GetTimestamp(id.attributes, "exp");
    }
  }
}
