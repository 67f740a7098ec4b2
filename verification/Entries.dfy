/** What a minted cache entry holds, key by key. */
module Entries {
  import opened Wrappers
  import opened Json
  import opened Crypto
  import opened Identity
  import opened Ticket
  import opened ReplayCache
  import Authority
  import Jwt

  lemma DistinctKeys()
    ensures "a-exp" != "iat" && "a-exp" != "ark" && "a-exp" != "flags" && "a-exp" != "exp" && "a-exp" != "renew-exp" && "a-exp" != "crv"
    ensures "ark" != "iat" && "ark" != "flags" && "ark" != "exp" && "ark" != "renew-exp" && "ark" != "crv"
    ensures "flags" != "iat" && "flags" != "exp" && "flags" != "renew-exp" && "flags" != "crv"
    ensures "exp" != "iat" && "exp" != "renew-exp" && "exp" != "crv"
    ensures "renew-exp" != "iat" && "renew-exp" != "crv" && "crv" != "iat"
    ensures "aud" != "renew-exp" && "aud" != "crv" && "aud" != "ark" && "aud" != "exp" && "aud" != "a-exp"
  {
  }

  /** The fields that minting an entry sets. */
  predicate EntryField(k: string) {
    k == "iat" || k == "a-exp" || k == "ark" || k == "flags" || k == "exp" || k == "renew-exp"
  }

  /** Attributes that no entry field names are copied. */
  lemma EntryKeeps(ctx: Context, id: Identity, t: int, reauth: bool, ark: Json, k: string)
    requires !EntryField(k)
    ensures Get(TicketEntry(ctx, id, t, reauth, ark), k) == Get(id.attributes, k)
  {
  }

  lemma EntryArk(ctx: Context, id: Identity, t: int, reauth: bool, ark: Json)
    ensures Get(TicketEntry(ctx, id, t, reauth, ark), "ark") == Some(ark)
    ensures Get(TicketEntry(ctx, id, t, reauth, ark), "a-exp") == id.priv.aExp
    ensures Get(TicketEntry(ctx, id, t, reauth, ark), "iat") == Some(Int(t * 1000))
  {
  }

  lemma EntryExp(ctx: Context, id: Identity, t: int, reauth: bool, ark: Json)
    requires ctx.ticketLifetime != 0 && t >= 0
    ensures "exp" in TicketEntry(ctx, id, t, reauth, ark)
    ensures GetTimestamp(TicketEntry(ctx, id, t, reauth, ark), "exp") == t + ctx.ticketLifetime
  {
  }

  lemma EntryRenew(ctx: Context, id: Identity, t: int, reauth: bool, ark: Json)
    ensures var renew := RenewExpiry(ctx, id, t, reauth);
            GetTimestamp(TicketEntry(ctx, id, t, reauth, ark), "renew-exp") ==
            if renew != 0 then renew else GetTimestamp(id.attributes, "renew-exp")
  {
  }

  lemma EntryFlags(ctx: Context, id: Identity, t: int, reauth: bool, ark: Json)
    ensures HasFlag(TicketEntry(ctx, id, t, reauth, ark), RENEWED) <==>
            reauth || (!ctx.canMutualAuth && HasFlag(id.attributes, RENEWED))
    ensures HasFlag(TicketEntry(ctx, id, t, reauth, ark), MUTUAL_AUTH) <==>
            ctx.canMutualAuth || (!reauth && HasFlag(id.attributes, MUTUAL_AUTH))
  {
  }

  /** Recording the key strength touches only "crv". */
  lemma StrengthKeeps(ctx: Context, priv: Private, e: Object, k: string)
    requires SaveStrength(ctx, priv, e).Ok?
    ensures k != "crv" ==> Get(SaveStrength(ctx, priv, e).value, k) == Get(e, k)
    ensures Get(e, "crv").Some? ==> Get(SaveStrength(ctx, priv, e).value, "crv") == Get(e, "crv")
    ensures Get(e, "crv").None? && priv.epk.None? ==> Get(SaveStrength(ctx, priv, e).value, "crv") == priv.crv
    ensures Get(e, "crv").None? && priv.epk.Some? && ctx.curve.Some? ==>
              GetString(SaveStrength(ctx, priv, e).value, "crv") == priv.epk.value.params.crv
  {
  }

  // ----- issued tickets -----

  lemma MintedKeeps(c: Crypto, ctx: Context, id: Identity, t: int, reauth: bool, k: string)
    requires IssuesTicket(ctx, id, t, reauth) && Entry(c, ctx, id, t, reauth).Ok?
    requires !EntryField(k) && k != "crv"
    ensures Get(Entry(c, ctx, id, t, reauth).value, k) == Get(id.attributes, k)
  {
    hide SaveStrength, TicketEntry, IssuesTicket, Subkey;
    var ark := Subkey(c, ctx, id, "ARK").value;
    EntryKeeps(ctx, id, t, reauth, ark, k);
    StrengthKeeps(ctx, id.priv, TicketEntry(ctx, id, t, reauth, ark), k);
  }

  lemma MintedTicket(c: Crypto, ctx: Context, id: Identity, t: int, reauth: bool)
    requires IssuesTicket(ctx, id, t, reauth) && Entry(c, ctx, id, t, reauth).Ok?
    ensures var e := Entry(c, ctx, id, t, reauth).value;
            && Subkey(c, ctx, id, "ARK").Ok? && Get(e, "ark") == Some(Subkey(c, ctx, id, "ARK").value)
            && Get(e, "a-exp") == id.priv.aExp && Get(e, "iat") == Some(Int(t * 1000))
            && (HasFlag(e, RENEWED) <==> reauth || (!ctx.canMutualAuth && HasFlag(id.attributes, RENEWED)))
            && (HasFlag(e, MUTUAL_AUTH) <==> ctx.canMutualAuth || (!reauth && HasFlag(id.attributes, MUTUAL_AUTH)))
            && (ctx.ticketLifetime != 0 && t >= 0 ==> "exp" in e && GetTimestamp(e, "exp") == t + ctx.ticketLifetime)
            && GetTimestamp(e, "renew-exp") ==
               (var renew := RenewExpiry(ctx, id, t, reauth); if renew != 0 then renew else GetTimestamp(id.attributes, "renew-exp"))
  {
    hide SaveStrength, TicketEntry, IssuesTicket, Subkey, Truncate, RenewExpiry;
    var ark := Subkey(c, ctx, id, "ARK").value;
    var before := TicketEntry(ctx, id, t, reauth, ark);
    DistinctKeys();
    EntryArk(ctx, id, t, reauth, ark);
    EntryFlags(ctx, id, t, reauth, ark);
    EntryRenew(ctx, id, t, reauth, ark);
    if ctx.ticketLifetime != 0 && t >= 0 {
      EntryExp(ctx, id, t, reauth, ark);
    }
    StrengthKeeps(ctx, id.priv, before, "ark");
    StrengthKeeps(ctx, id.priv, before, "a-exp");
    StrengthKeeps(ctx, id.priv, before, "iat");
    StrengthKeeps(ctx, id.priv, before, "flags");
    StrengthKeeps(ctx, id.priv, before, "exp");
    StrengthKeeps(ctx, id.priv, before, "renew-exp");
  }

  lemma MintedCurve(c: Crypto, ctx: Context, id: Identity, t: int, reauth: bool)
    requires IssuesTicket(ctx, id, t, reauth) && Entry(c, ctx, id, t, reauth).Ok?
    ensures var e := Entry(c, ctx, id, t, reauth).value;
            && (Get(id.attributes, "crv").Some? ==> Get(e, "crv") == Get(id.attributes, "crv"))
            && (Get(id.attributes, "crv").None? && id.priv.epk.None? ==> Get(e, "crv") == id.priv.crv)
            && (Get(id.attributes, "crv").None? && id.priv.epk.Some? && ctx.curve.Some? ==>
                  GetString(e, "crv") == id.priv.epk.value.params.crv)
  {
    hide SaveStrength, TicketEntry, IssuesTicket, Subkey;
    var ark := Subkey(c, ctx, id, "ARK").value;
    DistinctKeys();
    EntryKeeps(ctx, id, t, reauth, ark, "crv");
    StrengthKeeps(ctx, id.priv, TicketEntry(ctx, id, t, reauth, ark), "crv");
  }

  /** The ticket that goes back to the client holds the entry's digest and its expiry, and nothing else. */
  lemma TicketSays(digest: string, entry: Object, k: string)
    ensures var ticket := Members(TicketOf(digest, entry));
            Get(ticket, k) == if k == "tid" then Some(Str(digest)) else if k == "exp" then Get(entry, "exp") else None
  {
  }

  /** An entry made without a ticket has no key. */
  lemma PlainHasNoArk(c: Crypto, ctx: Context, id: Identity, t: int, reauth: bool)
    requires !IssuesTicket(ctx, id, t, reauth) && Entry(c, ctx, id, t, reauth).Ok?
    ensures "ark" !in Entry(c, ctx, id, t, reauth).value
  {
  }

  /** An entry made without a ticket holds the time, the certified expiry and the assertion's, and nothing else. */
  lemma PlainExactly(c: Crypto, ctx: Context, id: Identity, t: int, reauth: bool)
    requires !IssuesTicket(ctx, id, t, reauth)
    ensures Entry(c, ctx, id, t, reauth).Ok? <==> "exp" in id.attributes
    ensures "exp" in id.attributes && id.priv.aExp.Some? ==>
              Entry(c, ctx, id, t, reauth) ==
              Ok(map["iat" := Int(t * 1000), "a-exp" := id.priv.aExp.value, "exp" := id.attributes["exp"]])
  {
    hide IssuesTicket;
  }

  // ----- renewals -----

  /** The fields that may differ between a ticket and the one it renews. */
  predicate Volatile(k: string) {
    k == "iat" || k == "ark" || k == "flags" || k == "exp" || k == "aud" || k == "renew-exp"
  }

  ghost predicate SameLogin(e: Object, e': Object) {
    && (forall k :: !Volatile(k) ==> Get(e, k) == Get(e', k))
    && GetTimestamp(e, "renew-exp") == GetTimestamp(e', "renew-exp")
  }

  /** The identity of a ticket: the credential without its key, its assertion's expiry, its flags and its audience, of
      which expiry and audience are kept in private, with the options that the authenticator asks for. */
  lemma TicketIdentityExactly(c: Crypto, cred: Object, claims: Object, k: string)
    requires ReauthIdentity(c, cred, claims).Ok?
    ensures var id := ReauthIdentity(c, cred, claims).value;
            && Get(id.attributes, k) == (if k == "ark" || k == "a-exp" || k == "flags" || k == "aud" then None else Get(cred, k))
            && id.priv == NO_PRIVATE.(aExp := Get(cred, "a-exp"), aud := Get(cred, "aud"), opts := Get(claims, "opts"))
  {
    hide SessionKey;
    assert "ark"[1] == 'r' && "aud"[1] == 'u' && "a-exp"[1] == '-' && "flags"[0] == 'f';
  }

  lemma TicketIdentity(c: Crypto, ctx: Context, cred: Object, ap: Jwt.Jwt, t: int, k: string)
    requires CheckTicket(c, ctx, cred, ap, t).Ok?
    ensures var id := CheckTicket(c, ctx, cred, ap, t).value;
            && (k !in SECRET_STUFF ==> Get(id.attributes, k) == Get(cred, k))
            && id.priv.aExp == Get(cred, "a-exp") && id.priv.renewExp == Get(cred, "renew-exp")
            && id.priv.crv == Get(cred, "crv") && id.priv.epk.None?
            && SessionKey(c, cred, ap.Claims()).Ok? && id.secret == Some(SessionKey(c, cred, ap.Claims()).value)
  {
  }

  /** A renewed ticket keeps everything of the login except its volatile fields, and is marked. */
  lemma RenewalKeeps(c: Crypto, ctx: Context, cred: Object, ap: Jwt.Jwt, t: int)
    requires CheckTicket(c, ctx, cred, ap, t).Ok?
    requires var id := CheckTicket(c, ctx, cred, ap, t).value;
             IssuesTicket(ctx, id, t, true) && Entry(c, ctx, id, t, true).Ok?
    ensures var e := Entry(c, ctx, CheckTicket(c, ctx, cred, ap, t).value, t, true).value;
            && SameLogin(e, cred) && HasFlag(e, RENEWED)
            && t <= GetTimestamp(cred, "renew-exp") + ctx.skew
  {
    hide CheckTicket, Entry, Truncate;
    var id := CheckTicket(c, ctx, cred, ap, t).value;
    var e := Entry(c, ctx, id, t, true).value;
    DistinctKeys();
    forall k | !Volatile(k)
      ensures Get(e, k) == Get(cred, k)
    {
      RenewalKeepsKey(c, ctx, cred, ap, t, k);
    }
    MintedTicket(c, ctx, id, t, true);
    TicketIdentity(c, ctx, cred, ap, t, "renew-exp");
    assert "renew-exp" !in SECRET_STUFF;
  }

  lemma RenewalKeepsKey(c: Crypto, ctx: Context, cred: Object, ap: Jwt.Jwt, t: int, k: string)
    requires CheckTicket(c, ctx, cred, ap, t).Ok? && !Volatile(k)
    requires var id := CheckTicket(c, ctx, cred, ap, t).value;
             IssuesTicket(ctx, id, t, true) && Entry(c, ctx, id, t, true).Ok?
    ensures Get(Entry(c, ctx, CheckTicket(c, ctx, cred, ap, t).value, t, true).value, k) == Get(cred, k)
  {
    hide CheckTicket, Entry, IssuesTicket;
    var id := CheckTicket(c, ctx, cred, ap, t).value;
    DistinctKeys();
    TicketIdentity(c, ctx, cred, ap, t, k);
    if k == "a-exp" {
      MintedTicket(c, ctx, id, t, true);
    } else if k == "crv" {
      MintedCurve(c, ctx, id, t, true);
    } else {
      MintedKeeps(c, ctx, id, t, true, k);
    }
  }

  /** A renewed ticket has the renewal limit of the one that was used, in whole seconds. */
  lemma RenewalLimit(c: Crypto, ctx: Context, cred: Object, ap: Jwt.Jwt, t: int)
    requires CheckTicket(c, ctx, cred, ap, t).Ok?
    requires var id := CheckTicket(c, ctx, cred, ap, t).value;
             IssuesTicket(ctx, id, t, true) && Entry(c, ctx, id, t, true).Ok?
    ensures var limit := GetTimestamp(cred, "renew-exp");
            Get(Entry(c, ctx, CheckTicket(c, ctx, cred, ap, t).value, t, true).value, "renew-exp") ==
            if limit != 0 then Some(Int(limit * 1000)) else Get(cred, "renew-exp")
  {
    hide CheckTicket, SaveStrength, Subkey, Truncate, TicketEntry;
    var id := CheckTicket(c, ctx, cred, ap, t).value;
    var before := TicketEntry(ctx, id, t, true, Subkey(c, ctx, id, "ARK").value);
    DistinctKeys();
    TicketIdentity(c, ctx, cred, ap, t, "renew-exp");
    StrengthKeeps(ctx, id.priv, before, "renew-exp");
    EntryLimit(ctx, id, t, true, Subkey(c, ctx, id, "ARK").value);
    assert "renew-exp" !in SECRET_STUFF;
  }

  lemma EntryLimit(ctx: Context, id: Identity, t: int, reauth: bool, ark: Json)
    ensures var renew := RenewExpiry(ctx, id, t, reauth);
            Get(TicketEntry(ctx, id, t, reauth, ark), "renew-exp") ==
            if renew != 0 then Some(Int(renew * 1000)) else Get(id.attributes, "renew-exp")
  {
  }
}
