/** Chains of renewed tickets over whole runs: every ticket in the cache descends from one full
    login, whose identity and renewal limit it keeps. */
module Lineage {
  import opened Wrappers
  import opened Json
  import opened Crypto
  import opened Identity
  import opened BackedAssertion
  import opened Ticket
  import opened Verify
  import opened ReplayCache
  import opened Entries
  import opened Justification
  import opened RpRuns
  import Authority
  import Jwt

  /** The event of the full login that a ticket goes back to, the renewals since, and the event
      that wrote the ticket. */
  datatype Origin = Origin(root: nat, renewals: nat, last: nat)

  function NamedTicket(codec: Codec, s: string): Option<string> {
    var ba := Unpack(codec, s);
    if ba.Ok? then TicketId(ba.value.assertion.Claims()) else None
  }

  /** Where the entries recorded by the first n events come from. */
  ghost function Origins(c: Crypto, codec: Codec, run: seq<Event>, n: nat): map<string, Origin>
    requires n <= |run|
  {
    if n == 0 then map[]
    else
      var before, e := Origins(c, codec, run, n - 1), run[n - 1];
      if !Accepted(c, codec, map[], run, n - 1) || !Records(codec, e) then before
      else if !IsAuthenticator(codec, e.s) then before[c.digest(e.s) := Origin(n - 1, 0, n - 1)]
      else
        var tid := NamedTicket(codec, e.s);
        if tid.Some? && tid.value in before
        then before[c.digest(e.s) := Origin(before[tid.value].root, before[tid.value].renewals + 1, n - 1)]
        else before
  }

  /** Event k is a full login that was given a ticket. */
  ghost predicate IssuedAt(c: Crypto, codec: Codec, run: seq<Event>, k: nat) {
    && Accepted(c, codec, map[], run, k) && Records(codec, run[k]) && run[k].ctx.reauth
    && !IsAuthenticator(codec, run[k].s)
    && c.digest(run[k].s) in StateAt(c, codec, map[], run, k + 1)
  }

  /** The entry that event k wrote. */
  ghost function EntryAt(c: Crypto, codec: Codec, run: seq<Event>, k: nat): Object
    requires IssuedAt(c, codec, run, k)
  {
    StateAt(c, codec, map[], run, k + 1)[c.digest(run[k].s)]
  }

  /** The entry belongs to the login at o.root: it keeps that login's attributes, is marked as
      renewed exactly if it was (or if the login's own entry already carried the mark). */
  ghost predicate Descends(c: Crypto, codec: Codec, run: seq<Event>, n: nat, entry: Object, o: Origin) {
    && o.root < n && IssuedAt(c, codec, run, o.root)
    && var first := EntryAt(c, codec, run, o.root);
    && SameLogin(entry, first)
    && (HasFlag(entry, RENEWED) <==> o.renewals > 0 || HasFlag(first, RENEWED))
    && (o.renewals == 0 ==> entry == first && o.last == o.root)
    && WrittenAt(run, n, entry, o, GetTimestamp(first, "renew-exp"))
  }

  /** When the ticket was written: with the lifetime of its context, and unless it is a root
      while the login was renewable. */
  ghost predicate WrittenAt(run: seq<Event>, n: nat, entry: Object, o: Origin, renewExp: int) {
    && o.last < n <= |run| && run[o.last].Verify?
    && var e := run[o.last];
    && (o.renewals > 0 ==> e.q.t <= renewExp + e.ctx.skew)
    && (e.ctx.ticketLifetime != 0 && e.q.t >= 0 ==>
          "exp" in entry && GetTimestamp(entry, "exp") == e.q.t + e.ctx.ticketLifetime)
  }

  /** If there is a ticket under the key, it descends from its origin. */
  ghost predicate KeyDescends(c: Crypto, codec: Codec, run: seq<Event>, n: nat, key: string)
    requires n <= |run|
  {
    var cache, origins := StateAt(c, codec, map[], run, n), Origins(c, codec, run, n);
    key in cache && "ark" in cache[key] ==> key in origins && Descends(c, codec, run, n, cache[key], origins[key])
  }

  ghost predicate AllDescend(c: Crypto, codec: Codec, run: seq<Event>, n: nat)
    requires n <= |run|
  {
    forall key :: KeyDescends(c, codec, run, n, key)
  }

  lemma DescendsLater(c: Crypto, codec: Codec, run: seq<Event>, n: nat, entry: Object, o: Origin)
    requires n < |run| && Descends(c, codec, run, n, entry, o)
    ensures Descends(c, codec, run, n + 1, entry, o)
  {
    hide IssuedAt, EntryAt, SameLogin, HasFlag;
  }

  /** The new entry of an accepted re-authentication, if it holds a key, descends from where the
      ticket that was used does. */
  lemma RenewalDescends(c: Crypto, codec: Codec, run: seq<Event>, k: nat)
    requires Accepted(c, codec, map[], run, k) && Records(codec, run[k]) && IsAuthenticator(codec, run[k].s)
    requires AllDescend(c, codec, run, k)
    ensures KeyDescends(c, codec, run, k + 1, c.digest(run[k].s))
  {
    hide Outcome, Entry, IssuesTicket, CheckTicket, SameLogin, HasFlag, IssuedAt, EntryAt, Unpack, Local, Truncate, TicketHolds, Keyed;
    var e := run[k];
    var cache := StateAt(c, codec, map[], run, k);
    RecordedEntry(c, codec, cache, e);
    UsedTicket(c, codec, cache, e);
    var id := Keyed(c, codec, cache, e).value;
    if IssuesTicket(e.ctx, id, e.q.t, true) {
      var tid := NamedTicket(codec, e.s).value;
      assert KeyDescends(c, codec, run, k, tid);
      RenewalKeeps(c, e.ctx, cache[tid], Unpack(codec, e.s).value.assertion, e.q.t);
      var o := Origins(c, codec, run, k)[tid];
      SameLoginTransitive(Entry(c, e.ctx, id, e.q.t, true).value, cache[tid], EntryAt(c, codec, run, o.root));
      MintedTicket(c, e.ctx, id, e.q.t, true);
      assert GetTimestamp(cache[tid], "renew-exp") == GetTimestamp(EntryAt(c, codec, run, o.root), "renew-exp") by {
        SameRenewal(cache[tid], EntryAt(c, codec, run, o.root));
      }
    } else {
      PlainHasNoArk(c, e.ctx, id, e.q.t, true);
    }
  }

  lemma SameRenewal(a: Object, b: Object)
    requires SameLogin(a, b)
    ensures GetTimestamp(a, "renew-exp") == GetTimestamp(b, "renew-exp")
  {
  }

  lemma SameLoginTransitive(a: Object, b: Object, d: Object)
    requires SameLogin(a, b) && SameLogin(b, d)
    ensures SameLogin(a, d)
  {
  }

  /** The local decision accepts the event's text. */
  ghost predicate LocallyAccepted(c: Crypto, codec: Codec, cache: Cache, e: Event) {
    e.Verify? && Unpack(codec, e.s).Ok? && Local(c, e.out, e.ctx, cache, Unpack(codec, e.s).value, e.q).0.Ok?
  }

  /** An authenticator that the local decision accepts names an entry of the cache that has a key, and its
      identity is that entry's. */
  lemma LocalTicket(c: Crypto, codec: Codec, cache: Cache, e: Event)
    requires LocallyAccepted(c, codec, cache, e) && IsAuthenticator(codec, e.s)
    ensures var tid := NamedTicket(codec, e.s);
            && tid.Some? && tid.value in cache && "ark" in cache[tid.value] && e.ctx.reauth
            && var ap := Unpack(codec, e.s).value.assertion;
            && TicketHolds(c, e.ctx, cache[tid.value], ap, e.q.t)
            && Keyed(c, codec, cache, e) == CheckTicket(c, e.ctx, cache[tid.value], ap, e.q.t)
            && Keyed(c, codec, cache, e).Ok?
  {
    hide Unpack, CheckTicket, CheckClaims, TicketHolds, CertificateHolds, Verifies, ClaimsHold, ParseOpts, PopulateIdentity,
         Attributes, SignedByChain;
    var ba := Unpack(codec, e.s).value;
    AcceptedExactlyWhenJustified(c, e.out, e.ctx, cache, ba, e.q);
    assert "ark" in cache[NamedTicket(codec, e.s).value] by {
      TicketHasKey(c, e.ctx, cache[NamedTicket(codec, e.s).value], ba.assertion, e.q.t);
    }
  }

  lemma AcceptedLocally(c: Crypto, codec: Codec, cache: Cache, e: Event)
    requires e.Verify? && Outcome(c, codec, cache, e).result.Ok?
    ensures LocallyAccepted(c, codec, cache, e)
  {
    hide Unpack, Local, Admit;
  }

  /** An accepted authenticator names an entry of the cache that has a key, and its identity is
      that entry's. */
  lemma UsedTicket(c: Crypto, codec: Codec, cache: Cache, e: Event)
    requires e.Verify? && Outcome(c, codec, cache, e).result.Ok? && IsAuthenticator(codec, e.s)
    ensures var tid := NamedTicket(codec, e.s);
            && tid.Some? && tid.value in cache && "ark" in cache[tid.value]
            && var ap := Unpack(codec, e.s).value.assertion;
            && TicketHolds(c, e.ctx, cache[tid.value], ap, e.q.t)
            && Keyed(c, codec, cache, e) == CheckTicket(c, e.ctx, cache[tid.value], ap, e.q.t)
  {
    hide Outcome, LocallyAccepted, IsAuthenticator, TicketHolds, CheckTicket, Keyed, Unpack, NamedTicket;
    AcceptedLocally(c, codec, cache, e);
    LocalTicket(c, codec, cache, e);
  }

  /** The assertion asks for a protocol option. */
  ghost predicate Asks(claims: Object, option: string) {
    "opts" in claims && claims["opts"].Arr? && Str(option) in claims["opts"].elems
  }

  lemma OptionFlags(claims: Object, flags: Flags)
    requires ParseOpts(Get(claims, "opts"), flags).Ok? && !flags.xrt && !flags.dce && !flags.identify && !flags.mutualAuth
    ensures ParseOpts(Get(claims, "opts"), flags).value ==
            flags.(xrt := Asks(claims, "xrt"), dce := Asks(claims, "dce"), identify := Asks(claims, "ify"),
                   mutualAuth := Asks(claims, "ma"))
  {
    if "opts" in claims {
      OptsKeep(claims["opts"].elems, 0, flags);
      OptsRaise(claims["opts"].elems, 0, flags);
    }
  }

  /** The flags of an acceptance: the options as asked, how the text was justified, and mutual authentication as the
      ticket's entry vouches for it. */
  lemma VerdictFlags(c: Crypto, codec: Codec, cache: Cache, e: Event)
    requires e.Verify? && Outcome(c, codec, cache, e).result.Ok?
    ensures var ba := Unpack(codec, e.s);
            && ba.Ok? && (IsAuthenticator(codec, e.s) ==> NamedTicket(codec, e.s).Some? && NamedTicket(codec, e.s).value in cache)
            && var claims, ticket := ba.value.assertion.Claims(), IsAuthenticator(codec, e.s);
            Outcome(c, codec, cache, e).flags ==
            Flags(ticket, ticket && IntegerValue(Get(cache[NamedTicket(codec, e.s).value], "flags")) / 2 % 2 == 1,
                  !ticket, !ticket && ba.value.certificates == [],
                  Asks(claims, "xrt"), Asks(claims, "dce"), Asks(claims, "ify"), Asks(claims, "ma"))
  {
    hide Unpack, Admit, CheckTicket, CheckClaims, Attributes, PopulateIdentity, ParseOpts, TicketHolds, CredStrength, Asks;
    AcceptedUnpacks(c, codec, cache, e);
    var ba := Unpack(codec, e.s).value;
    if IsAuthenticator(codec, e.s) {
      UsedTicket(c, codec, cache, e);
      TicketIsStrong(c, e.ctx, cache[NamedTicket(codec, e.s).value], ba.assertion, e.q.t);
    }
    var (cred, flags) := FindCredential(c, e.out, e.ctx, cache, ba, e.q);
    var (id, raised) := Local(c, e.out, e.ctx, cache, ba, e.q);
    AdmitFlags(c, e.ctx, cache, e.s, e.q.t, e.noReplay, e.d, id.value, raised);
    OptionFlags(ba.assertion.Claims(), if ba.certificates != [] then flags.(validatedCerts := true) else flags);
  }

  lemma TicketIsStrong(c: Crypto, ctx: Context, entry: Object, ap: Jwt.Jwt, t: int)
    requires TicketHolds(c, ctx, entry, ap, t)
    ensures CredStrength(ctx, entry).Ok? && Authority.ValidateExpiry(ctx.skew, t, entry).Ok?
  {
    WindowExactly(ctx.skew, t, entry);
  }

  lemma AdmitFlags(c: Crypto, ctx: Context, cache: Cache, s: string, t: int, noReplay: bool, d: string, id: Identity, flags: Flags)
    ensures Admit(c, ctx, cache, s, t, noReplay, d, id, flags).flags == flags
  {
  }

  /** The entry of the ticket can be renewed at this time. */
  predicate Renewable(ctx: Context, entry: Object, t: int) {
    t - GetTimestamp(entry, "renew-exp") <= ctx.skew
  }

  /** What the steps after the local decision ask of an authenticator: it is accepted exactly when its own
      text is not blocked and the new entry can be made, which needs a renewable ticket, or one with an
      "exp" to copy, unless nothing is recorded. */
  lemma AuthenticatorOutcome(c: Crypto, codec: Codec, cache: Cache, e: Event)
    requires LocallyAccepted(c, codec, cache, e) && IsAuthenticator(codec, e.s)
    ensures NamedTicket(codec, e.s).Some? && NamedTicket(codec, e.s).value in cache
    ensures var entry := cache[NamedTicket(codec, e.s).value];
            Outcome(c, codec, cache, e).result.Ok? <==>
            !Blocked(c, codec, cache, e) && (e.noReplay || Renewable(e.ctx, entry, e.q.t) || "exp" in entry)
  {
    hide Unpack, Local, CheckTicket, Entry, IsAuthenticator, AsksXrt, TicketHolds, Issued, GetTimestamp, VerifierKey;
    LocalTicket(c, codec, cache, e);
    LocalFlags(c, codec, e.out, e.ctx, cache, e.s, e.q);
    RenewsOrCopies(c, e.ctx, cache[NamedTicket(codec, e.s).value], Unpack(codec, e.s).value.assertion, e.q.t);
  }

  lemma RenewsOrCopies(c: Crypto, ctx: Context, cred: Object, ap: Jwt.Jwt, t: int)
    requires CheckTicket(c, ctx, cred, ap, t).Ok? && ctx.reauth
    ensures Entry(c, ctx, CheckTicket(c, ctx, cred, ap, t).value, t, true).Ok? <==> Renewable(ctx, cred, t) || "exp" in cred
  {
    hide CheckTicket, TicketEntry, Truncate;
    TicketIdentity(c, ctx, cred, ap, t, "exp");
    assert "exp" !in SECRET_STUFF by {
      DistinctKeys();
    }
  }

  lemma TicketHasKey(c: Crypto, ctx: Context, entry: Object, ap: Jwt.Jwt, t: int)
    requires TicketHolds(c, ctx, entry, ap, t)
    ensures "ark" in entry
  {
  }

  lemma StepDescends(c: Crypto, codec: Codec, run: seq<Event>, k: nat)
    requires c.Lawful() && k < |run| && AllDescend(c, codec, run, k)
    ensures AllDescend(c, codec, run, k + 1)
  {
    hide Outcome, Entry, IsAuthenticator, Records, Descends, ShouldPurge;
    var e := run[k];
    var cache, cache' := StateAt(c, codec, map[], run, k), StateAt(c, codec, map[], run, k + 1);
    var origins, origins' := Origins(c, codec, run, k), Origins(c, codec, run, k + 1);
    var n := k + 1;
    forall key
      ensures KeyDescends(c, codec, run, n, key)
    {
      assert KeyDescends(c, codec, run, k, key);
      if !(key in cache' && "ark" in cache'[key]) {
      } else if e.Purge? {
        DescendsLater(c, codec, run, k, cache[key], origins[key]);
      } else if Outcome(c, codec, cache, e).result.Err? {
        RefusedWritesNothing(c, codec, cache, e);
        DescendsLater(c, codec, run, k, cache[key], origins[key]);
      } else {
        RecordedEntry(c, codec, cache, e);
        if !Records(codec, e) || key != c.digest(e.s) {
          DescendsLater(c, codec, run, k, cache[key], origins[key]);
        } else if IsAuthenticator(codec, e.s) {
          RenewalDescends(c, codec, run, k);
        } else {
          LoginDescends(c, codec, run, k);
        }
      }
    }
  }

  lemma LoginDescends(c: Crypto, codec: Codec, run: seq<Event>, k: nat)
    requires Accepted(c, codec, map[], run, k) && Records(codec, run[k]) && !IsAuthenticator(codec, run[k].s)
    requires c.digest(run[k].s) in StateAt(c, codec, map[], run, k + 1)
    requires "ark" in StateAt(c, codec, map[], run, k + 1)[c.digest(run[k].s)]
    ensures Descends(c, codec, run, k + 1, StateAt(c, codec, map[], run, k + 1)[c.digest(run[k].s)], Origin(k, 0, k))
  {
    hide Outcome, Entry, IsAuthenticator, Keyed, Get, GetTimestamp, HasFlag;
    var cache := StateAt(c, codec, map[], run, k);
    RecordedEntry(c, codec, cache, run[k]);
    if run[k].ctx.reauth {
      MintedTicket(c, run[k].ctx, Keyed(c, codec, cache, run[k]).value, run[k].q.t, false);
    } else {
      PlainHasNoArk(c, run[k].ctx, Keyed(c, codec, cache, run[k]).value, run[k].q.t, false);
    }
  }

  /** Every ticket of every reachable cache descends from a full login of the run. */
  lemma {:induction false} Lineage(c: Crypto, codec: Codec, run: seq<Event>, n: nat)
    requires c.Lawful() && n <= |run|
    ensures AllDescend(c, codec, run, n)
  {
    hide KeyDescends;
    if n == 0 {
      EmptyDescends(c, codec, run);
    } else {
      Lineage(c, codec, run, n - 1);
      StepDescends(c, codec, run, n - 1);
    }
  }

  lemma EmptyDescends(c: Crypto, codec: Codec, run: seq<Event>)
    ensures AllDescend(c, codec, run, 0)
  {
  }

  // ----- what the chain conserves -----

  lemma LoginFieldsAreStable()
    ensures !Volatile("sub") && !Volatile("iss") && !Volatile("principal") && !Volatile("crv") && !Volatile("a-exp")
  {
  }

  /** Lineage conservation: subject, issuer, principal, curve, assertion expiry and renewal limit
      of every ticket are those of the root login, and a ticket is marked as renewed exactly when
      it is no root, unless the root's own attributes already set the mark. */
  lemma Conserved(c: Crypto, codec: Codec, run: seq<Event>, n: nat, key: string)
    requires c.Lawful() && n <= |run|
    requires key in StateAt(c, codec, map[], run, n) && "ark" in StateAt(c, codec, map[], run, n)[key]
    ensures key in Origins(c, codec, run, n)
    ensures var o := Origins(c, codec, run, n)[key];
            && o.root < n && IssuedAt(c, codec, run, o.root)
            && var entry, first := StateAt(c, codec, map[], run, n)[key], EntryAt(c, codec, run, o.root);
            && Get(entry, "sub") == Get(first, "sub") && Get(entry, "iss") == Get(first, "iss")
            && Get(entry, "principal") == Get(first, "principal") && Get(entry, "crv") == Get(first, "crv")
            && Get(entry, "a-exp") == Get(first, "a-exp")
            && GetTimestamp(entry, "renew-exp") == GetTimestamp(first, "renew-exp")
            && (HasFlag(entry, RENEWED) <==> o.renewals > 0 || HasFlag(first, RENEWED))
  {
    hide IssuedAt, EntryAt, StateAt, Origins, GetTimestamp, Get, HasFlag, Volatile;
    Lineage(c, codec, run, n);
    assert KeyDescends(c, codec, run, n, key);
    LoginFieldsAreStable();
  }

  /** The attributes a full login is certified with. */
  function CertifiedAttributes(codec: Codec, out: Outside, s: string): Object {
    var ba := Unpack(codec, s);
    if ba.Ok? && Attributes(out, ba.value).Ok? then Attributes(out, ba.value).value else map[]
  }

  /** They are the certificate's claims, or what is known of the subject of the X.509 chain in the header. */
  lemma CertifiedIs(codec: Codec, out: Outside, s: string)
    requires Unpack(codec, s).Ok? && |Unpack(codec, s).value.certificates| <= 1
    ensures var ba := Unpack(codec, s).value;
            && (ba.certificates != [] ==> CertifiedAttributes(codec, out, s) == ba.certificates[0].Claims())
            && (ba.certificates == [] && "x5c" in ba.assertion.header && out.x509Attributes(ba.assertion.header["x5c"]).Ok? ==>
                  CertifiedAttributes(codec, out, s) == out.x509Attributes(ba.assertion.header["x5c"]).value)
  {
    hide Unpack;
  }

  lemma CertifiedIdentity(c: Crypto, out: Outside, ctx: Context, cache: Cache, ba: BackedAssertion, q: Request)
    requires Local(c, out, ctx, cache, ba, q).0.Ok? && (ba.certificates != [] || "x5c" in ba.assertion.header)
    ensures Attributes(out, ba).Ok?
    ensures PopulateIdentity(ctx, Attributes(out, ba).value, ba.assertion.Claims()) == Local(c, out, ctx, cache, ba, q).0
  {
    hide CheckClaims, ParseOpts, VerifyReauth, Attributes, PopulateIdentity;
  }

  lemma LoginIdentity(c: Crypto, codec: Codec, cache: Cache, e: Event)
    requires e.Verify? && Outcome(c, codec, cache, e).result.Ok? && !IsAuthenticator(codec, e.s)
    ensures var attributes := CertifiedAttributes(codec, e.out, e.s);
            && "principal" in attributes && "email" in Members(attributes["principal"])
            && Keyed(c, codec, cache, e).Ok?
            && var id := Keyed(c, codec, cache, e).value;
            && id.attributes == attributes["sub" := Members(attributes["principal"])["email"]]
            && var claims := Unpack(codec, e.s).value.assertion.Claims();
            && id.priv.renewExp == None && id.priv.aExp == Get(claims, "exp") && id.secret == None
            && (e.ctx.curve.Some? ==>
                  "epk" in claims && id.priv.epk.Some? && id.priv.epk.value.params == EcParamsOf(Members(claims["epk"])))
  {
    hide Unpack, Local, Admit, Attributes, EcParamsOf;
    RecordedEntry(c, codec, cache, e);
    CertifiedIdentity(c, e.out, e.ctx, cache, Unpack(codec, e.s).value, e.q);
  }

  /** The root of a chain: its subject is the certified mail address, its other attributes are the
      certified ones, its assertion expiry is the assertion's, its curve is the certificate's if that names
      one and else the one of the key agreement, its renewal limit is the login time plus the renewal
      lifetime, and only a certificate that itself carries "flags" can make it look renewed. */
  lemma RootEntry(c: Crypto, codec: Codec, run: seq<Event>, k: nat)
    requires IssuedAt(c, codec, run, k)
    ensures var e, first := run[k], EntryAt(c, codec, run, k);
            var attributes := CertifiedAttributes(codec, e.out, e.s);
            && "principal" in attributes && "email" in Members(attributes["principal"])
            && Get(first, "sub") == Some(Members(attributes["principal"])["email"])
            && Get(first, "iss") == Get(attributes, "iss") && Get(first, "principal") == Get(attributes, "principal")
            && var claims := Unpack(codec, e.s).value.assertion.Claims();
            && Get(first, "a-exp") == Get(claims, "exp")
            && e.ctx.curve.Some? && "epk" in claims
            && GetString(first, "crv") ==
                 (if "crv" in attributes then GetString(attributes, "crv") else EcParamsOf(Members(claims["epk"])).crv)
            && (e.ctx.renewLifetime != 0 && e.q.t >= 0 ==> GetTimestamp(first, "renew-exp") == e.q.t + e.ctx.renewLifetime)
            && (HasFlag(first, RENEWED) <==> !e.ctx.canMutualAuth && HasFlag(attributes, RENEWED))
  {
    hide Outcome, Entry, IsAuthenticator, Keyed, Truncate, Unpack, CertifiedAttributes, Subkey, EcParamsOf;
    var cache, e := StateAt(c, codec, map[], run, k), run[k];
    RecordedEntry(c, codec, cache, e);
    LoginIdentity(c, codec, cache, e);
    var id := Keyed(c, codec, cache, e).value;
    MintedTicket(c, e.ctx, id, e.q.t, false);
    RootKeys();
    MintedKeeps(c, e.ctx, id, e.q.t, false, "sub");
    MintedKeeps(c, e.ctx, id, e.q.t, false, "iss");
    MintedKeeps(c, e.ctx, id, e.q.t, false, "principal");
    MintedCurve(c, e.ctx, id, e.q.t, false);
    MintedNeedsCurve(c, e.ctx, id, e.q.t);
  }

  /** A full login has no secret yet, so a ticket is minted only by agreement on a curve. */
  lemma MintedNeedsCurve(c: Crypto, ctx: Context, id: Identity, t: int)
    requires IssuesTicket(ctx, id, t, false) && Entry(c, ctx, id, t, false).Ok? && id.secret.None?
    ensures ctx.curve.Some?
  {
  }

  /** The curve on which the text's sender opened a key agreement. */
  function AgreementCurve(codec: Codec, s: string): Option<string> {
    var ba := Unpack(codec, s);
    if ba.Ok? && "epk" in ba.value.assertion.Claims() then EcParamsOf(Members(ba.value.assertion.Claims()["epk"])).crv else None
  }

  /** The recorded curve is the one of the key agreement if and only if the certificate names no other. */
  lemma RecordedCurveExactly(c: Crypto, codec: Codec, run: seq<Event>, k: nat)
    requires IssuedAt(c, codec, run, k)
    ensures var attributes, agreed := CertifiedAttributes(codec, run[k].out, run[k].s), AgreementCurve(codec, run[k].s);
            GetString(EntryAt(c, codec, run, k), "crv") == agreed <==>
            "crv" !in attributes || GetString(attributes, "crv") == agreed
  {
    hide Outcome, IsAuthenticator, Unpack, CertifiedAttributes, EcParamsOf, IssuedAt, EntryAt, HasFlag, GetTimestamp;
    RootEntry(c, codec, run, k);
    IssuedUnpacks(c, codec, run, k);
  }

  lemma IssuedUnpacks(c: Crypto, codec: Codec, run: seq<Event>, k: nat)
    requires IssuedAt(c, codec, run, k)
    ensures Unpack(codec, run[k].s).Ok?
  {
    hide Outcome, Unpack, IsAuthenticator;
    AcceptedUnpacks(c, codec, StateAt(c, codec, map[], run, k), run[k]);
  }

  /** So a certificate can vouch for a stronger curve than was used: the ticket of an agreement on P-256
      whose certificate names P-521 has the strength that a context on P-521 asks for, and not the one that
      a context on P-256 asks for. */
  lemma CertifiedCurveWins(c: Crypto, codec: Codec, run: seq<Event>, k: nat, ctx: Context)
    requires IssuedAt(c, codec, run, k) && AgreementCurve(codec, run[k].s) == Some("P-256")
    requires Get(CertifiedAttributes(codec, run[k].out, run[k].s), "crv") == Some(Str("P-521"))
    ensures CredStrength(ctx.(curve := Some("P-521")), EntryAt(c, codec, run, k)).Ok?
    ensures CredStrength(ctx.(curve := Some("P-256")), EntryAt(c, codec, run, k)).Err?
  {
    hide Outcome, IsAuthenticator, Unpack, CertifiedAttributes, EcParamsOf, IssuedAt, EntryAt, HasFlag, GetTimestamp, AgreementCurve;
    RootEntry(c, codec, run, k);
  }

  lemma RootKeys()
    ensures !EntryField("sub") && !EntryField("iss") && !EntryField("principal")
    ensures "sub" != "crv" && "iss" != "crv" && "principal" != "crv"
    ensures "sub" != "iss" && "sub" != "principal" && "sub" != "flags"
  {
  }

  // ----- what the steps after the local decision ask of a full login -----

  /** The claims offer a key agreement on a known curve. */
  predicate OffersKey(claims: Object) {
    "epk" in claims && EcdhCurve(EcParamsOf(Members(claims["epk"]))).Ok?
  }

  /** And one that the context can complete: the curve is strong enough and the public value is there. */
  predicate AgreesKey(ctx: Context, claims: Object) {
    && ctx.curve.Some? && OffersKey(claims)
    && var params := EcParamsOf(Members(claims["epk"]));
    EcdhCurve(params).value >= CurveSize(ctx.curve.value) && params.x.Some? && params.y.Some?
  }

  /** A full login that the local decision accepts is accepted exactly when its own text is not blocked, it
      offers a key agreement if the context wants one, and its entry can be made: with a key agreement that
      can be completed for a ticket, or with a certified "exp" to copy. */
  lemma LoginOutcome(c: Crypto, codec: Codec, cache: Cache, e: Event)
    requires LocallyAccepted(c, codec, cache, e) && !IsAuthenticator(codec, e.s)
    ensures var claims, attributes := Unpack(codec, e.s).value.assertion.Claims(), CertifiedAttributes(codec, e.out, e.s);
            Outcome(c, codec, cache, e).result.Ok? <==>
            && !Blocked(c, codec, cache, e)
            && (e.ctx.curve.Some? ==> OffersKey(claims))
            && (Records(codec, e) ==> if e.ctx.reauth then AgreesKey(e.ctx, claims) else "exp" in attributes)
  {
    hide Unpack, Local, Entry, IsAuthenticator, AsksXrt, Issued, GetTimestamp, VerifierKey, Attributes, OffersKey, AgreesKey,
         PopulateIdentity;
    var ba := Unpack(codec, e.s).value;
    LocalFlags(c, codec, e.out, e.ctx, cache, e.s, e.q);
    assert ba.certificates != [] || "x5c" in ba.assertion.header by {
      AuthenticatorIs(codec, e.s);
    }
    CertifiedIdentity(c, e.out, e.ctx, cache, ba, e.q);
    LoginEntry(c, e.ctx, Attributes(e.out, ba).value, ba.assertion.Claims(), e.q.t, e.d);
  }

  lemma LoginEntry(c: Crypto, ctx: Context, attributes: Object, claims: Object, t: int, d: string)
    requires PopulateIdentity(ctx, attributes, claims).Ok?
    ensures var id := PopulateIdentity(ctx, attributes, claims).value;
            && (ctx.curve.Some? ==> (VerifierKey(c, id, d).Ok? <==> OffersKey(claims)))
            && var keyed := if ctx.curve.Some? then VerifierKey(c, id, d) else Ok(id);
            keyed.Ok? ==>
              (Entry(c, ctx, keyed.value, t, false).Ok? <==> if ctx.reauth then AgreesKey(ctx, claims) else "exp" in attributes)
  {
    hide EcParamsOf, TicketEntry, CurveSize;
    var id := PopulateIdentity(ctx, attributes, claims).value;
    assert "exp" != "sub";
    if ctx.curve.Some? && VerifierKey(c, id, d).Ok? {
      AgreedKey(c, ctx, id, claims, d);
    }
  }

  lemma AgreedKey(c: Crypto, ctx: Context, id: Identity, claims: Object, d: string)
    requires ctx.curve.Some? && id.secret.None? && VerifierKey(c, id, d).Ok? && "epk" in claims
    requires id.priv.epk == Some(EcKey(EcParamsOf(Members(claims["epk"])), None, None, None))
    ensures Secret(c, ctx, VerifierKey(c, id, d).value).Ok? <==> AgreesKey(ctx, claims)
  {
    hide EcParamsOf, CurveSize;
  }

  // ----- what an accepted re-authentication rests on -----

  /** Every accepted re-authentication rests on a ticket with a key that descends from a full login
      of the run. In a context with a curve, the curve recorded for that login is the context's; the login's
      key agreement was on that curve if and only if its certificate names no other curve. */
  lemma ReauthRests(c: Crypto, codec: Codec, run: seq<Event>, k: nat)
    requires c.Lawful() && Accepted(c, codec, map[], run, k) && IsAuthenticator(codec, run[k].s)
    ensures var tid := NamedTicket(codec, run[k].s);
            && tid.Some? && tid.value in StateAt(c, codec, map[], run, k) && tid.value in Origins(c, codec, run, k)
            && var o := Origins(c, codec, run, k)[tid.value];
            && Descends(c, codec, run, k, StateAt(c, codec, map[], run, k)[tid.value], o)
            && (run[k].ctx.curve.Some? ==>
                  && GetString(EntryAt(c, codec, run, o.root), "crv") == run[k].ctx.curve
                  && var login := run[o.root];
                  && var attributes, agreed := CertifiedAttributes(codec, login.out, login.s), AgreementCurve(codec, login.s);
                  && (agreed == run[k].ctx.curve <==> "crv" !in attributes || GetString(attributes, "crv") == agreed))
            && InWindow(run[k].ctx.skew, run[k].q.t, StateAt(c, codec, map[], run, k)[tid.value])
  {
    hide Outcome, InWindow, Verifies, SessionKey, Unpack, IssuedAt, EntryAt, HasFlag, StateAt, Origins, Volatile, WrittenAt,
         CertifiedAttributes, AgreementCurve;
    var cache := StateAt(c, codec, map[], run, k);
    assert Outcome(c, codec, cache, run[k]).result.Ok?;
    UsedTicket(c, codec, cache, run[k]);
    Lineage(c, codec, run, k);
    assert KeyDescends(c, codec, run, k, NamedTicket(codec, run[k].s).value);
    LoginFieldsAreStable();
    RecordedCurveExactly(c, codec, run, Origins(c, codec, run, k)[NamedTicket(codec, run[k].s).value].root);
  }

  /** All lifetimes are non-zero, tickets last at most `life` and clocks are off by at most `skew`. */
  ghost predicate Policy(run: seq<Event>, life: nat, skew: nat) {
    forall k :: 0 <= k < |run| && run[k].Verify? ==>
      && 0 < run[k].ctx.ticketLifetime <= life && run[k].ctx.skew <= skew && run[k].ctx.renewLifetime != 0
  }

  /** Bounded renewal: a re-authentication, however many renewals lie between, is not accepted later
      than renewal limit, ticket lifetime and twice the skew after its root login; and the ticket
      it used expires within one skew less. */
  lemma BoundedRenewal(c: Crypto, codec: Codec, run: seq<Event>, k: nat, life: nat, skew: nat)
    requires c.Lawful() && Clocked(run) && Policy(run, life, skew)
    requires Accepted(c, codec, map[], run, k) && IsAuthenticator(codec, run[k].s)
    ensures var tid := NamedTicket(codec, run[k].s);
            && tid.Some? && tid.value in Origins(c, codec, run, k) && tid.value in StateAt(c, codec, map[], run, k)
            && var login := Origins(c, codec, run, k)[tid.value].root;
            && login < k && IssuedAt(c, codec, run, login)
            && var limit := run[login].q.t + run[login].ctx.renewLifetime;
            && GetTimestamp(StateAt(c, codec, map[], run, k)[tid.value], "renew-exp") == limit
            && GetTimestamp(StateAt(c, codec, map[], run, k)[tid.value], "exp") <= limit + skew + life
            && run[k].q.t <= limit + life + 2 * skew
  {
    hide Outcome, Unpack, HasFlag, StateAt, Origins, Truncate, Volatile, CertifiedAttributes, IsAuthenticator;
    ReauthRests(c, codec, run, k);
    var tid := NamedTicket(codec, run[k].s).value;
    var o := Origins(c, codec, run, k)[tid];
    RootEntry(c, codec, run, o.root);
    assert run[o.last].Now() >= 0 && run[o.root].Now() >= 0;
  }
}
