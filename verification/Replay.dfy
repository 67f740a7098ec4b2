/** How long an accepted text is blocked, told from the text, its certificate and the context. */
module Replay {
  import opened Wrappers
  import opened Json
  import opened Crypto
  import opened Identity
  import opened BackedAssertion
  import opened Verify
  import opened Ticket
  import opened ReplayCache
  import opened Entries
  import opened RpRuns
  import opened Justification
  import opened Lineage
  import Authority
  import Jwt

  /** The entry that a relying party without tickets records for a full login: the time, the expiry of the
      certificate and that of the assertion. */
  lemma PlainLogin(c: Crypto, codec: Codec, cache: Cache, e: Event)
    requires e.Verify? && Outcome(c, codec, cache, e).result.Ok? && !IsAuthenticator(codec, e.s) && Records(codec, e) && !e.ctx.reauth
    ensures var certified, after := CertifiedAttributes(codec, e.out, e.s), Outcome(c, codec, cache, e).cache;
            && Unpack(codec, e.s).Ok?
            && var claims := Unpack(codec, e.s).value.assertion.Claims();
            && "exp" in certified && "exp" in claims && c.digest(e.s) in after
            && after[c.digest(e.s)] == map["iat" := Int(e.q.t * 1000), "a-exp" := claims["exp"], "exp" := certified["exp"]]
  {
    hide Outcome, IsAuthenticator, Unpack, Keyed, Entry, Records, CertifiedAttributes, EcParamsOf;
    AcceptedUnpacks(c, codec, cache, e);
    RecordedEntry(c, codec, cache, e);
    LoginIdentity(c, codec, cache, e);
    LoginHasExpiry(c, codec, cache, e);
    assert "exp" != "sub";
    PlainExactly(c, e.ctx, Keyed(c, codec, cache, e).value, e.q.t, false);
  }

  lemma LoginHasExpiry(c: Crypto, codec: Codec, cache: Cache, e: Event)
    requires e.Verify? && Outcome(c, codec, cache, e).result.Ok? && !IsAuthenticator(codec, e.s)
    ensures Unpack(codec, e.s).Ok? && "exp" in Unpack(codec, e.s).value.assertion.Claims()
  {
    hide Unpack, Local, Admit, Attributes;
    RecordedEntry(c, codec, cache, e);
    CertifiedIdentity(c, e.out, e.ctx, cache, Unpack(codec, e.s).value, e.q);
  }

  /** When the certificate of a full login expires. */
  function CertifiedExpiry(codec: Codec, e: Event): int
    requires e.Verify?
  {
    GetTimestamp(CertifiedAttributes(codec, e.out, e.s), "exp")
  }

  function Earlier(a: int, b: int): int {
    if a <= b then a else b
  }

  /** So the text of a full login, once a relying party without tickets accepted and recorded it, is in no run
      accepted again before the assertion or the certificate has expired. */
  lemma NeverBeforeExpiry(c: Crypto, codec: Codec, start: Cache, run: seq<Event>, i: nat, j: nat)
    requires c.Lawful() && Clocked(run) && i < j < |run|
    requires Accepted(c, codec, start, run, i) && run[j].Verify?
    requires run[i].s == run[j].s && !AsksXrt(codec, run[i].s) && !IsAuthenticator(codec, run[i].s)
    requires !run[i].noReplay && !run[j].noReplay && !run[i].ctx.reauth
    requires forall k :: 0 <= k < |run| && run[k].Verify? && run[k].s == run[i].s ==> run[k].ctx.replayCache
    requires run[j].q.t < Earlier(CertifiedExpiry(codec, run[i]), ClaimedExpiry(codec, run[i].s))
    ensures !Accepted(c, codec, start, run, j)
  {
    hide Outcome, AsksXrt, IsAuthenticator, CertifiedAttributes, Truncate, Unpack;
    if Accepted(c, codec, start, run, j) {
      ReplaySafety(c, codec, start, run, i, j);
      PlainLogin(c, codec, StateAt(c, codec, start, run, i), run[i]);
      assert false;
    }
  }

  /** The time until which an accepted full login blocks its own text: the end of the ticket's lifetime, or without
      tickets the expiry of the certificate. */
  function BlockedUntil(codec: Codec, e: Event): int
    requires e.Verify?
  {
    if e.ctx.reauth then e.q.t + e.ctx.ticketLifetime else CertifiedExpiry(codec, e)
  }

  lemma LoginBlocks(c: Crypto, codec: Codec, cache: Cache, e: Event)
    requires e.Verify? && Outcome(c, codec, cache, e).result.Ok? && !IsAuthenticator(codec, e.s) && Records(codec, e)
    requires e.ctx.reauth ==> e.ctx.ticketLifetime != 0 && e.q.t >= 0
    ensures var after := Outcome(c, codec, cache, e).cache;
            c.digest(e.s) in after && GetTimestamp(after[c.digest(e.s)], "exp") == BlockedUntil(codec, e)
  {
    hide Outcome, IsAuthenticator, Entry, Records, CertifiedAttributes, Truncate, Keyed, Unpack;
    if e.ctx.reauth {
      RecordedEntry(c, codec, cache, e);
      MintedTicket(c, e.ctx, Keyed(c, codec, cache, e).value, e.q.t, false);
    } else {
      PlainLogin(c, codec, cache, e);
    }
  }

  /** What replay protection is worth for the text itself, exactly: right after its first acceptance, the text of a
      full login passes again if and only if the decision still accepts it and it is no longer blocked. The decision
      forgives the skew, and the block does not last for it, so without tickets there is a time at which a
      replay succeeds whenever the certificate expires no later than the assertion. */
  lemma ReplayedExactly(c: Crypto, codec: Codec, cache: Cache, e: Event, t: int, d: string)
    requires e.Verify? && Outcome(c, codec, cache, e).result.Ok? && !IsAuthenticator(codec, e.s)
    requires !e.noReplay && e.ctx.replayCache && !AsksXrt(codec, e.s)
    requires e.ctx.reauth ==> e.ctx.ticketLifetime != 0 && e.q.t >= 0
    ensures var after, again := Outcome(c, codec, cache, e).cache, e.(q := e.q.(t := t), d := d);
            Outcome(c, codec, after, again).result.Ok? <==>
            LocallyAccepted(c, codec, after, again) && t >= BlockedUntil(codec, e)
  {
    hide Outcome, IsAuthenticator, AsksXrt, CertifiedAttributes, GetTimestamp, Unpack, LocallyAccepted, OffersKey, AgreesKey;
    var after, again := Outcome(c, codec, cache, e).cache, e.(q := e.q.(t := t), d := d);
    LoginBlocks(c, codec, cache, e);
    AcceptedLocally(c, codec, cache, e);
    LoginOutcome(c, codec, cache, e);
    if LocallyAccepted(c, codec, after, again) {
      LoginOutcome(c, codec, after, again);
    }
    if Outcome(c, codec, after, again).result.Ok? {
      AcceptedLocally(c, codec, after, again);
    }
  }

  /** A certificate's justification lasts until an expiry and the skew are over. */
  lemma JustifiedLater(c: Crypto, out: Outside, ctx: Context, cache: Cache, cache': Cache, ba: BackedAssertion, q: Request, t: int)
    requires Justified(c, out, ctx, cache, ba, q) && ba.certificates != [] && q.t <= t
    requires "exp" in ba.assertion.Claims() && t <= GetTimestamp(ba.assertion.Claims(), "exp") + ctx.skew
    requires "exp" in ba.certificates[0].Claims() && t <= GetTimestamp(ba.certificates[0].Claims(), "exp") + ctx.skew
    ensures Justified(c, out, ctx, cache', ba, q.(t := t))
  {
    hide Authority.Authoritative, Verifies, AudienceMatches, BindingsMatch, TicketHolds, GetTimestamp, Names, SignedByChain, BringsKey;
    var domain, issuer :| IssuedBy(c, out, ctx, ba.certificates[0], q.t, domain, issuer);
    assert IssuedBy(c, out, ctx, ba.certificates[0], t, domain, issuer);
  }

  /** There it is: between the certificate's expiry and the end of the skew a relying party without tickets accepts
      the text of a full login again. */
  lemma SkewReplay(c: Crypto, codec: Codec, cache: Cache, e: Event, t: int, d: string)
    requires e.Verify? && Outcome(c, codec, cache, e).result.Ok? && !IsAuthenticator(codec, e.s)
    requires !e.noReplay && e.ctx.replayCache && !AsksXrt(codec, e.s) && !e.ctx.reauth
    requires Unpack(codec, e.s).Ok? && Unpack(codec, e.s).value.certificates != [] && e.q.t <= t
    requires CertifiedExpiry(codec, e) <= t <= Earlier(CertifiedExpiry(codec, e), ClaimedExpiry(codec, e.s)) + e.ctx.skew
    ensures Outcome(c, codec, Outcome(c, codec, cache, e).cache, e.(q := e.q.(t := t), d := d)).result.Ok?
  {
    hide Outcome, IsAuthenticator, AsksXrt, GetTimestamp, Unpack, Justified, Local;
    var ba := Unpack(codec, e.s).value;
    ReplayedExactly(c, codec, cache, e, t, d);
    PlainLogin(c, codec, cache, e);
    AcceptedLocally(c, codec, cache, e);
    AcceptedExactlyWhenJustified(c, e.out, e.ctx, cache, ba, e.q);
    OneCertificate(c, e.out, e.ctx, cache, ba, e.q);
    JustifiedLater(c, e.out, e.ctx, cache, Outcome(c, codec, cache, e).cache, ba, e.q, t);
    AcceptedExactlyWhenJustified(c, e.out, e.ctx, Outcome(c, codec, cache, e).cache, ba, e.q.(t := t));
  }

  lemma OneCertificate(c: Crypto, out: Outside, ctx: Context, cache: Cache, ba: BackedAssertion, q: Request)
    requires Justified(c, out, ctx, cache, ba, q) && ba.certificates != []
    ensures |ba.certificates| == 1
  {
    hide ClaimsHold, CertificateHolds, Verifies, SignedByChain, BringsKey;
  }
}
