/** Whole runs of a relying party: any sequence of verifications and purges, by any contexts that
    share the cache, under a clock that never runs backwards. */
module RpRuns {
  import opened Wrappers
  import opened Json
  import opened Crypto
  import opened Identity
  import opened BackedAssertion
  import opened Ticket
  import opened Verify
  import opened ReplayCache
  import opened Entries
  import opened Justification
  import Authority
  import Jwt
  import KeySet

  datatype Event =
    | Verify(ctx: Context, out: Outside, s: string, q: Request, noReplay: bool, d: string)
    | Purge(at: int)
  {
    function Now(): int {
      if Verify? then q.t else at
    }
  }

  ghost predicate Clocked(run: seq<Event>) {
    && (forall k :: 0 <= k < |run| ==> run[k].Now() >= 0)
    && (forall j, k :: 0 <= j <= k < |run| ==> run[j].Now() <= run[k].Now())
  }

  function Outcome(c: Crypto, codec: Codec, cache: Cache, e: Event): Verdict
    requires e.Verify?
  {
    VerifyAssertion(c, codec, e.out, e.ctx, cache, e.s, e.q, e.noReplay, e.d)
  }

  function Step(c: Crypto, codec: Codec, cache: Cache, e: Event): Cache {
    match e
    case Verify(_, _, _, _, _, _) => Outcome(c, codec, cache, e).cache
    case Purge(at) => Purged(cache, at)
  }

  /** The cache after the first n events. */
  function StateAt(c: Crypto, codec: Codec, start: Cache, run: seq<Event>, n: nat): Cache
    requires n <= |run|
  {
    if n == 0 then start else Step(c, codec, StateAt(c, codec, start, run, n - 1), run[n - 1])
  }

  function VerdictAt(c: Crypto, codec: Codec, start: Cache, run: seq<Event>, k: nat): Verdict
    requires k < |run| && run[k].Verify?
  {
    Outcome(c, codec, StateAt(c, codec, start, run, k), run[k])
  }

  ghost predicate Accepted(c: Crypto, codec: Codec, start: Cache, run: seq<Event>, k: nat) {
    k < |run| && run[k].Verify? && VerdictAt(c, codec, start, run, k).result.Ok?
  }

  // ----- what the text alone decides -----

  /** The text asks for an extra round trip. */
  predicate AsksXrt(codec: Codec, s: string) {
    var ba := Unpack(codec, s);
    && ba.Ok?
    && var opts := ParseOpts(Get(ba.value.assertion.Claims(), "opts"), NO_FLAGS);
    && opts.Ok? && opts.value.xrt
  }

  /** The text can only be an authenticator: it has neither a certificate nor an X.509 chain. */
  predicate IsAuthenticator(codec: Codec, s: string) {
    var ba := Unpack(codec, s);
    ba.Ok? && ba.value.certificates == [] && "x5c" !in ba.value.assertion.header
  }

  lemma OptsXrt(opts: Option<Json>, flags: Flags)
    requires !flags.xrt && ParseOpts(opts, flags).Ok?
    ensures ParseOpts(opts, NO_FLAGS).Ok?
    ensures ParseOpts(opts, flags).value.xrt == ParseOpts(opts, NO_FLAGS).value.xrt
    ensures ParseOpts(opts, flags).value.reauth == flags.reauth
  {
    if opts.Some? {
      OptsRaise(opts.value.elems, 0, flags);
      OptsRaise(opts.value.elems, 0, NO_FLAGS);
      OptsKeep(opts.value.elems, 0, flags);
    }
  }

  lemma CredentialFlags(c: Crypto, out: Outside, ctx: Context, cache: Cache, ba: BackedAssertion, q: Request)
    requires FindCredential(c, out, ctx, cache, ba, q).0.Ok?
    ensures var flags := FindCredential(c, out, ctx, cache, ba, q).1;
            !flags.xrt && (flags.reauth <==> ba.certificates == [] && "x5c" !in ba.assertion.header)
  {
  }

  lemma LocalFlags(c: Crypto, codec: Codec, out: Outside, ctx: Context, cache: Cache, s: string, q: Request)
    requires Unpack(codec, s).Ok? && Local(c, out, ctx, cache, Unpack(codec, s).value, q).0.Ok?
    ensures var flags := Local(c, out, ctx, cache, Unpack(codec, s).value, q).1;
            flags.xrt == AsksXrt(codec, s) && flags.reauth == IsAuthenticator(codec, s)
  {
    hide Unpack, FindCredential, CheckClaims, Attributes, PopulateIdentity, ParseOpts;
    var ba := Unpack(codec, s).value;
    var (cred, flags) := FindCredential(c, out, ctx, cache, ba, q);
    CredentialFlags(c, out, ctx, cache, ba, q);
    OptsXrt(Get(ba.assertion.Claims(), "opts"), if ba.certificates != [] then flags.(validatedCerts := true) else flags);
  }

  /** An identity keeps the options of the assertion that it came from. */
  lemma LocalOpts(c: Crypto, out: Outside, ctx: Context, cache: Cache, ba: BackedAssertion, q: Request)
    requires Local(c, out, ctx, cache, ba, q).0.Ok?
    ensures Local(c, out, ctx, cache, ba, q).0.value.priv.opts == Get(ba.assertion.Claims(), "opts")
  {
    hide CheckClaims, Attributes, ParseOpts, SessionKey, CredStrength;
  }

  /** So the options of a verdict's identity, which a response is made from, ask for an extra round trip
      exactly when the verdict's own flags do. */
  lemma VerdictOpts(c: Crypto, codec: Codec, cache: Cache, e: Event)
    requires e.Verify? && Outcome(c, codec, cache, e).identity.Some?
    ensures var v := Outcome(c, codec, cache, e);
            var opts := ParseOpts(v.identity.value.priv.opts, NO_FLAGS);
            opts.Ok? && opts.value.xrt == v.flags.xrt == AsksXrt(codec, e.s)
  {
    hide Unpack, Local, ParseOpts, Entry, CheckReplay, EcdhCurve, IssuesTicket, TicketOf, Secret;
    var ba := Unpack(codec, e.s).value;
    LocalOpts(c, e.out, e.ctx, cache, ba, e.q);
    LocalFlags(c, codec, e.out, e.ctx, cache, e.s, e.q);
    LocalParsed(c, e.out, e.ctx, cache, ba, e.q);
  }

  lemma LocalParsed(c: Crypto, out: Outside, ctx: Context, cache: Cache, ba: BackedAssertion, q: Request)
    requires Local(c, out, ctx, cache, ba, q).0.Ok?
    ensures ParseOpts(Get(ba.assertion.Claims(), "opts"), NO_FLAGS).Ok?
  {
    hide FindCredential, CheckClaims, Attributes, PopulateIdentity;
  }

  // ----- one step -----

  /** A verification writes at most the entry of its own assertion, and only when it accepts. */
  lemma VerifyWrites(c: Crypto, codec: Codec, cache: Cache, e: Event)
    requires e.Verify?
    ensures var v := Outcome(c, codec, cache, e);
            || v.cache == cache
            || (v.result.Ok? && c.digest(e.s) in v.cache && v.cache == cache[c.digest(e.s) := v.cache[c.digest(e.s)]])
    ensures e.noReplay ==> Outcome(c, codec, cache, e).cache == cache
  {
    hide Unpack, Local, Entry, CheckReplay, VerifierKey, Issued;
  }

  /** An accepted assertion that is not exempt passed the replay check and is recorded. */
  lemma AcceptedIsRecorded(c: Crypto, codec: Codec, cache: Cache, e: Event)
    requires e.Verify? && Outcome(c, codec, cache, e).result.Ok?
    requires !e.noReplay && e.ctx.replayCache && !AsksXrt(codec, e.s)
    ensures CheckReplay(c, cache, e.s, e.q.t).Ok?
    ensures c.digest(e.s) in Outcome(c, codec, cache, e).cache
  {
    hide Unpack, Local, Entry, CheckReplay, VerifierKey, Issued, AsksXrt, IsAuthenticator;
    LocalFlags(c, codec, e.out, e.ctx, cache, e.s, e.q);
  }

  /** The identity that an accepted event records, and whether a ticket was used. */
  function Keyed(c: Crypto, codec: Codec, cache: Cache, e: Event): Result<Identity>
    requires e.Verify?
  {
    var ba :- Unpack(codec, e.s);
    var id :- Local(c, e.out, e.ctx, cache, ba, e.q).0;
    if !IsAuthenticator(codec, e.s) && e.ctx.curve.Some? then VerifierKey(c, id, e.d) else Ok(id)
  }

  /** Events whose acceptance is recorded. */
  predicate Records(codec: Codec, e: Event) {
    e.Verify? && !e.noReplay && (e.ctx.reauth || (e.ctx.replayCache && !AsksXrt(codec, e.s)))
  }

  /** What an accepted event writes: the entry of its identity under its own digest, or nothing. */
  lemma RecordedEntry(c: Crypto, codec: Codec, cache: Cache, e: Event)
    requires e.Verify? && Outcome(c, codec, cache, e).result.Ok?
    ensures var v, id := Outcome(c, codec, cache, e), Keyed(c, codec, cache, e);
            && id.Ok? && v.flags.reauth == IsAuthenticator(codec, e.s)
            && (Records(codec, e) ==>
                  && Entry(c, e.ctx, id.value, e.q.t, v.flags.reauth).Ok?
                  && v.cache == cache[c.digest(e.s) := Entry(c, e.ctx, id.value, e.q.t, v.flags.reauth).value])
            && (!Records(codec, e) ==> v.cache == cache)
  {
    hide Unpack, Local, Entry, CheckReplay, VerifierKey, Issued, AsksXrt, IsAuthenticator;
    LocalFlags(c, codec, e.out, e.ctx, cache, e.s, e.q);
  }

  lemma RefusedWritesNothing(c: Crypto, codec: Codec, cache: Cache, e: Event)
    requires e.Verify? && Outcome(c, codec, cache, e).result.Err?
    ensures Outcome(c, codec, cache, e).cache == cache
  {
    hide Unpack, Local, Entry, CheckReplay, VerifierKey, Issued;
  }

  // ----- replay -----

  /** From the event that recorded an entry on, the entry is still there or its horizon is past. */
  lemma {:induction false} EntryStays(c: Crypto, codec: Codec, start: Cache, run: seq<Event>, i: nat, n: nat)
    requires c.Lawful() && Clocked(run) && i < n <= |run|
    requires Accepted(c, codec, start, run, i) && c.digest(run[i].s) in StateAt(c, codec, start, run, i + 1)
    requires !AsksXrt(codec, run[i].s)
    requires forall k :: i < k < n && run[k].Verify? && run[k].s == run[i].s ==> run[k].ctx.replayCache
    ensures var digest := c.digest(run[i].s);
            var entry := StateAt(c, codec, start, run, i + 1)[digest];
            || EntryOf(StateAt(c, codec, start, run, n), digest) == Some(entry)
            || run[n - 1].Now() >= Horizon(entry)
  {
    hide Outcome, CheckReplay, Horizon, AsksXrt;
    if n > i + 1 {
      EntryStays(c, codec, start, run, i, n - 1);
      var digest := c.digest(run[i].s);
      var entry := StateAt(c, codec, start, run, i + 1)[digest];
      var cache := StateAt(c, codec, start, run, n - 1);
      if EntryOf(cache, digest) == Some(entry) {
        EntryStep(c, codec, cache, run[n - 1], run[i].s, entry);
      }
      assert run[n - 2].Now() <= run[n - 1].Now();
    }
  }

  function EntryOf(cache: Cache, key: string): Option<Object> {
    if key in cache then Some(cache[key]) else None
  }

  lemma EntryStep(c: Crypto, codec: Codec, cache: Cache, e: Event, s: string, entry: Object)
    requires c.Lawful() && e.Now() >= 0 && !AsksXrt(codec, s)
    requires e.Verify? && e.s == s ==> e.ctx.replayCache
    requires EntryOf(cache, c.digest(s)) == Some(entry)
    ensures EntryOf(Step(c, codec, cache, e), c.digest(s)) == Some(entry) || e.Now() >= Horizon(entry)
  {
    hide Outcome, AsksXrt, GetTimestamp;
    if e.Verify? {
      VerifyWrites(c, codec, cache, e);
      var v := Outcome(c, codec, cache, e);
      if v.cache != cache && e.s == s {
        AcceptedIsRecorded(c, codec, cache, e);
      }
    }
  }

  /** Replay safety. A text that was accepted and recorded is accepted again only at or past the horizon
      of the entry it got the first time. */
  lemma ReplaySafety(c: Crypto, codec: Codec, start: Cache, run: seq<Event>, i: nat, j: nat)
    requires c.Lawful() && Clocked(run) && i < j < |run|
    requires Accepted(c, codec, start, run, i) && Accepted(c, codec, start, run, j)
    requires run[i].s == run[j].s && !AsksXrt(codec, run[i].s)
    requires !run[i].noReplay && !run[j].noReplay
    requires forall k :: 0 <= k < |run| && run[k].Verify? && run[k].s == run[i].s ==> run[k].ctx.replayCache
    ensures c.digest(run[i].s) in StateAt(c, codec, start, run, i + 1)
    ensures run[j].q.t >= Horizon(StateAt(c, codec, start, run, i + 1)[c.digest(run[i].s)])
  {
    hide Outcome, AsksXrt, GetTimestamp;
    AcceptedIsRecorded(c, codec, StateAt(c, codec, start, run, i), run[i]);
    EntryStays(c, codec, start, run, i, j);
    AcceptedIsRecorded(c, codec, StateAt(c, codec, start, run, j), run[j]);
    assert run[j - 1].Now() <= run[j].Now();
  }

  /** The "exp" claim of a text. */
  function ClaimedExpiry(codec: Codec, s: string): int {
    var ba := Unpack(codec, s);
    if ba.Ok? then GetTimestamp(ba.value.assertion.Claims(), "exp") else 0
  }

  lemma AcceptedInTime(c: Crypto, codec: Codec, cache: Cache, e: Event)
    requires e.Verify? && Outcome(c, codec, cache, e).result.Ok? && !IsAuthenticator(codec, e.s)
    ensures e.q.t <= ClaimedExpiry(codec, e.s) + e.ctx.skew
  {
    hide Unpack, Local, Admit, CertificateHolds, Verifies, AudienceMatches, BindingsMatch, Truncate;
    var ba := Unpack(codec, e.s).value;
    AcceptedExactlyWhenJustified(c, e.out, e.ctx, cache, ba, e.q);
  }

  /** The text of a full login in a ticket-issuing context, whose assertion expires (skew included) before
      the ticket does, is never accepted a second time. */
  lemma NeverTwice(c: Crypto, codec: Codec, start: Cache, run: seq<Event>, i: nat, j: nat)
    requires c.Lawful() && Clocked(run) && i < j < |run|
    requires Accepted(c, codec, start, run, i) && run[j].Verify?
    requires run[i].s == run[j].s && !AsksXrt(codec, run[i].s) && !IsAuthenticator(codec, run[i].s)
    requires !run[i].noReplay && !run[j].noReplay
    requires forall k :: 0 <= k < |run| && run[k].Verify? && run[k].s == run[i].s ==> run[k].ctx.replayCache
    requires run[i].ctx.reauth && run[i].ctx.ticketLifetime != 0
    requires ClaimedExpiry(codec, run[i].s) + run[j].ctx.skew < run[i].q.t + run[i].ctx.ticketLifetime
    ensures !Accepted(c, codec, start, run, j)
  {
    hide Outcome, AsksXrt, IsAuthenticator, Entry, Keyed, ClaimedExpiry, GetTimestamp, Subkey;
    if Accepted(c, codec, start, run, j) {
      ReplaySafety(c, codec, start, run, i, j);
      var cache := StateAt(c, codec, start, run, i);
      RecordedEntry(c, codec, cache, run[i]);
      MintedTicket(c, run[i].ctx, Keyed(c, codec, cache, run[i]).value, run[i].q.t, false);
      AcceptedInTime(c, codec, StateAt(c, codec, start, run, j), run[j]);
      assert false;
    }
  }

  /** The exemption is real: a full login that asks for an extra round trip gets the same answer
      whatever the cache holds, its own entry included. */
  lemma XrtIsExempt(c: Crypto, codec: Codec, cache: Cache, cache': Cache, e: Event)
    requires e.Verify? && AsksXrt(codec, e.s) && !IsAuthenticator(codec, e.s)
    ensures Outcome(c, codec, cache, e).result == Outcome(c, codec, cache', e).result
  {
    hide Unpack, CheckClaims, ParseOpts, VerifierKey, Entry, Conclude, AsksXrt, VerifyReauth, Issued;
    if Unpack(codec, e.s).Ok? {
      var ba := Unpack(codec, e.s).value;
      assert FindCredential(c, e.out, e.ctx, cache, ba, e.q) == FindCredential(c, e.out, e.ctx, cache', ba, e.q);
      assert Local(c, e.out, e.ctx, cache, ba, e.q) == Local(c, e.out, e.ctx, cache', ba, e.q);
      if Local(c, e.out, e.ctx, cache, ba, e.q).0.Ok? {
        LocalFlags(c, codec, e.out, e.ctx, cache, e.s, e.q);
      }
    }
  }

  // ----- other texts of one assertion -----

  /** The decision looks at the content of tokens, not at their texts. */
  lemma LocalIgnoresText(c: Crypto, out: Outside, ctx: Context, cache: Cache, ba: BackedAssertion, ba': BackedAssertion, q: Request)
    requires SameTokens(ba, ba')
    ensures Local(c, out, ctx, cache, ba', q) == Local(c, out, ctx, cache, ba, q)
  {
    hide SessionKey, CredStrength, PopulateIdentity, ParseOpts, ValidateAudience, Authority.ValidateExpiry, KeySet.VerifySignature,
         CertIssuer, Authority.IssuerIsAuthoritative, RootKey;
    assert ba.certificates == [] <==> ba'.certificates == [];
    CertificatesIgnoreText(c, out, ctx, ba, ba', q);
  }

  lemma CertificatesIgnoreText(c: Crypto, out: Outside, ctx: Context, ba: BackedAssertion, ba': BackedAssertion, q: Request)
    requires SameTokens(ba, ba')
    ensures CheckClaims(c, out, ctx, ba', q) == CheckClaims(c, out, ctx, ba, q)
  {
    hide ValidateAudience, Authority.ValidateExpiry, KeySet.VerifySignature, CertIssuer, Authority.IssuerIsAuthoritative, RootKey,
         ChainFrom;
    if |ba.certificates| == 1 {
      var root := RootKey(out.lookup, ba.certificates[0].Claims());
      if root.Ok? {
        OneLink(c, ctx.skew, q.t, ba.certificates, root.value);
        OneLink(c, ctx.skew, q.t, ba'.certificates, root.value);
      }
    }
  }

  lemma OneLink(c: Crypto, skew: nat, t: int, certs: seq<Jwt.Jwt>, key: Json)
    requires |certs| == 1
    ensures ChainFrom(c, skew, t, certs, 0, key) ==
            var timely := Authority.ValidateExpiry(skew, t, certs[0].Claims());
            if timely.Err? then timely
            else KeySet.VerifySignature(c, certs[0].header, certs[0].SigningInput(), certs[0].signature, Some(key))
  {
  }

  /** The cache matters to the decision only through the ticket that an authenticator names. */
  lemma LocalReadsTicket(c: Crypto, out: Outside, ctx: Context, cache: Cache, cache': Cache, ba: BackedAssertion, q: Request)
    requires ba.certificates == [] && "x5c" !in ba.assertion.header ==> SameTicket(cache, cache', ba.assertion.Claims())
    ensures Local(c, out, ctx, cache, ba, q) == Local(c, out, ctx, cache', ba, q)
  {
    hide CheckTicket, PopulateIdentity, ParseOpts, CheckClaims, Attributes, Conclude;
  }

  predicate SameTicket(cache: Cache, cache': Cache, claims: Object) {
    var tid := TicketId(claims);
    tid.Some? ==> EntryOf(cache, tid.value) == EntryOf(cache', tid.value)
  }

  /** The text's own entry blocks it: the replay cache is consulted, and has an unexpired entry under the
      digest of this very text. */
  predicate Blocked(c: Crypto, codec: Codec, cache: Cache, e: Event)
    requires e.Verify?
  {
    && !e.noReplay && e.ctx.replayCache && !AsksXrt(codec, e.s)
    && c.digest(e.s) in cache && e.q.t < GetTimestamp(cache[c.digest(e.s)], "exp")
  }

  /** What replay protection is worth for the assertion itself: once one text of it is accepted, any other
      text with the same header, payload, signature and signing input, its certificates likewise, is accepted
      on any later cache exactly when that other text has no unexpired entry of its own. */
  lemma OtherTextExactly(c: Crypto, codec: Codec, cache: Cache, cache': Cache, e: Event, s': string)
    requires e.Verify? && Outcome(c, codec, cache, e).result.Ok? && SameAssertion(codec, e.s, s')
    requires IsAuthenticator(codec, e.s) ==> SameTicket(cache, cache', Unpack(codec, e.s).value.assertion.Claims())
    ensures Outcome(c, codec, cache', e.(s := s')).result.Ok? <==> !Blocked(c, codec, cache', e.(s := s'))
  {
    hide Unpack, Local, Entry, VerifierKey, Issued, AsksXrt, IsAuthenticator, GetTimestamp, SameTicket;
    var ba, ba' := Unpack(codec, e.s).value, Unpack(codec, s').value;
    LocalIgnoresText(c, e.out, e.ctx, cache', ba, ba', e.q);
    assert ba.certificates == [] && "x5c" !in ba.assertion.header ==> IsAuthenticator(codec, e.s) by {
      AuthenticatorIs(codec, e.s);
    }
    LocalReadsTicket(c, e.out, e.ctx, cache, cache', ba, e.q);
    LocalFlags(c, codec, e.out, e.ctx, cache, e.s, e.q);
    LocalFlags(c, codec, e.out, e.ctx, cache', s', e.q);
  }

  lemma AuthenticatorIs(codec: Codec, s: string)
    requires Unpack(codec, s).Ok?
    ensures IsAuthenticator(codec, s) <==>
            Unpack(codec, s).value.certificates == [] && "x5c" !in Unpack(codec, s).value.assertion.header
  {
    hide Unpack;
  }

  /** So every accepted full login is accepted a second time at once, with one more separator in front,
      unless that longer text has been recorded too. */
  lemma AcceptedAgainAtOnce(c: Crypto, codec: Codec, cache: Cache, e: Event)
    requires c.Lawful() && e.Verify? && Outcome(c, codec, cache, e).result.Ok? && !IsAuthenticator(codec, e.s)
    requires c.digest("~" + e.s) !in cache
    ensures Outcome(c, codec, Outcome(c, codec, cache, e).cache, e.(s := "~" + e.s)).result.Ok?
  {
    hide Outcome, Unpack, IsAuthenticator;
    LeadingSeparator(codec, e.s);
    VerifyWrites(c, codec, cache, e);
    assert "~" + e.s != e.s by {
      assert |"~" + e.s| == |e.s| + 1;
    }
    assert Unpack(codec, e.s).Ok? by {
      AcceptedUnpacks(c, codec, cache, e);
    }
    OtherTextExactly(c, codec, cache, Outcome(c, codec, cache, e).cache, e, "~" + e.s);
  }

  /** And with its signature padded, whatever follows the padding: an accepted full login has any number of
      texts that are accepted at once. */
  lemma AcceptedRepadded(c: Crypto, codec: Codec, cache: Cache, e: Event, junk: string)
    requires c.Lawful() && e.Verify? && Outcome(c, codec, cache, e).result.Ok? && !IsAuthenticator(codec, e.s)
    requires '=' !in AssertionSignature(e.s) && '~' !in junk && c.digest(Repadded(e.s, junk)) !in cache
    ensures SameAssertion(codec, e.s, Repadded(e.s, junk)) && Repadded(e.s, junk) != e.s
    ensures Outcome(c, codec, Outcome(c, codec, cache, e).cache, e.(s := Repadded(e.s, junk))).result.Ok?
  {
    hide Outcome, Unpack, IsAuthenticator, AssertionSignature;
    var s' := Repadded(e.s, junk);
    AcceptedUnpacks(c, codec, cache, e);
    RepaddedIsSame(codec, e.s, junk);
    assert |s'| > |e.s|;
    VerifyWrites(c, codec, cache, e);
    OtherTextExactly(c, codec, cache, Outcome(c, codec, cache, e).cache, e, s');
  }

  lemma AcceptedUnpacks(c: Crypto, codec: Codec, cache: Cache, e: Event)
    requires e.Verify? && Outcome(c, codec, cache, e).result.Ok?
    ensures Unpack(codec, e.s).Ok?
  {
    hide Unpack, Local, Admit;
  }
}
