/** The client's ticket cache over whole runs: what it stores, and which ticket it finds for an audience. */
module ClientTickets {
  import opened Wrappers
  import opened Json
  import opened Crypto
  import opened Identity
  import opened Ticket
  import opened RpRuns
  import opened ReplayCache
  import opened Justification
  import opened Response
  import opened TwoParty
  import opened KeySchedule
  import Authority
  import BackedAssertion
  import Spn

  /** The credential that is stored with a ticket: under the context's curve and the identity's audience, the
      identity's attributes with the ticket, the audience, the flags, the key derived from the secret, and a
      strength if none is certified. */
  lemma StoredExactly(c: Crypto, ctx: Context, id: Identity, ticket: Json, flags: nat, k: string)
    requires StoredTicket(c, ctx, id, ticket, flags).Ok?
    ensures ctx.curve.Some? && StringValue(id.priv.aud).Some? && Secret(c, ctx, id).Ok? && GetString(id.attributes, "sub").Some?
    ensures var (key, cred) := StoredTicket(c, ctx, id, ticket, flags).value;
            var aud := StringValue(id.priv.aud).value;
            && key == ctx.curve.value + "$" + aud
            && Get(cred, "tkt") == Some(ticket) && Get(cred, "aud") == Some(Str(aud)) && Get(cred, "flags") == Some(Int(flags))
            && Get(cred, "ark") == Some(TicketKeyFor(c, Secret(c, ctx, id).value))
            && (Get(id.attributes, "crv").None? ==>
                  if id.priv.epk.None? then Get(cred, "crv") == id.priv.crv else GetString(cred, "crv") == id.priv.epk.value.params.crv)
            && (k != "tkt" && k != "aud" && k != "flags" && k != "ark" && (k == "crv" ==> Get(id.attributes, k).Some?) ==>
                  Get(cred, k) == Get(id.attributes, k))
  {
    hide Secret, Subkey, KeyOf;
    SubkeyIs(c, ctx, id);
    assert "tkt"[0] == 't' && "aud"[1] == 'u' && "ark"[1] == 'r' && "flags"[0] == 'f' && "crv"[0] == 'c';
  }

  /** The audience for which a ticket is filed is its own. */
  ghost predicate Filed(tickets: Cache, key: string) {
    key in tickets ==> exists crv, aud :: FiledAs(key, tickets[key], crv, aud)
  }

  ghost predicate FiledAs(key: string, cred: Object, crv: string, aud: string) {
    crv in CURVES && key == crv + "$" + aud && GetString(cred, "aud") == Some(aud)
  }

  /** A context's curve is one that the library knows. */
  predicate KnownCurve(ctx: Context) {
    ctx.curve.Some? ==> ctx.curve.value in CURVES
  }

  ghost predicate KnownCurves(run: seq<Exchange>) {
    forall k :: 0 <= k < |run| ==>
      match run[k]
      case Login(ctx, _, _, _, _, _) => KnownCurve(ctx)
      case Reauth(w, _, _, _, _) => KnownCurve(w.ctx)
      case Other(_) => true
  }

  lemma ClientStepFiles(c: Crypto, ctx: Context, tickets: Cache, client: Identity, rp: Identity, a: Answer, flags: nat)
    requires KnownCurve(ctx) && forall key :: Filed(tickets, key)
    ensures forall key :: Filed(ClientStep(c, ctx, tickets, client, rp, a, flags), key)
  {
    hide AnswerClaims, Absorb, StoredTicket;
    var after := ClientStep(c, ctx, tickets, client, rp, a, flags);
    forall key
      ensures Filed(after, key)
    {
      assert Filed(tickets, key);
      if key in after && !(key in tickets && after[key] == tickets[key]) {
        var claims := AnswerClaims(rp, a).value;
        var settled := Absorb(c, ctx, client, claims).value;
        StoredExactly(c, ctx, settled, claims["tkt"], flags, "aud");
        assert FiledAs(key, after[key], ctx.curve.value, StringValue(settled.priv.aud).value);
      }
    }
  }

  lemma RpStepFilesNothing(c: Crypto, codec: Codec, st: System, e: Event)
    ensures RpStep(c, codec, st, e).tickets == st.tickets
  {
    hide Outcome;
  }

  lemma StepFiles(c: Crypto, codec: Codec, st: System, x: Exchange)
    requires forall key :: Filed(st.tickets, key)
    requires match x
             case Login(ctx, _, _, _, _, _) => KnownCurve(ctx)
             case Reauth(w, _, _, _, _) => KnownCurve(w.ctx)
             case Other(_) => true
    ensures forall key :: Filed(SystemStep(c, codec, st, x).tickets, key)
  {
    hide Filed, RpStep, Outcome, ClientIdentity, Made, ClientStep, KnownCurve;
    match x {
      case Other(e) => RpStepFilesNothing(c, codec, st, e);
      case Login(ctx, d, e, delivered, answer, flags) =>
        RpStepFilesNothing(c, codec, st, e);
        if delivered && e.Verify? {
          var v, client := Outcome(c, codec, st.cache, e), ClientIdentity(c, codec, ctx, e.s, d);
          if v.identity.Some? && client.Ok? {
            ClientStepFiles(c, ctx, st.tickets, client.value, v.identity.value, answer, flags);
          }
        }
      case Reauth(w, e, delivered, answer, flags) =>
        var made := Made(c, codec, st.tickets, w);
        if made.Ok? && e.Verify? {
          var a, e' := made.value, e.(s := made.value.text);
          RpStepFilesNothing(c, codec, st.(keys := st.keys[c.digest(a.text) := TicketKeyOf(c, a.identity)]), e');
          var v := Outcome(c, codec, st.cache, e');
          if v.identity.Some? {
            ClientStepFiles(c, w.ctx, st.tickets, a.identity, v.identity.value, answer, flags);
          }
        }
    }
  }

  lemma {:induction false} AllFiled(c: Crypto, codec: Codec, run: seq<Exchange>, n: nat)
    requires KnownCurves(run) && n <= |run|
    ensures forall key :: Filed(SystemAt(c, codec, run, n).tickets, key)
  {
    hide SystemStep;
    if n > 0 {
      AllFiled(c, codec, run, n - 1);
      StepFiles(c, codec, SystemAt(c, codec, run, n - 1), run[n - 1]);
    }
  }

  lemma SplitsOnce(crv: string, aud: string, crv': string, aud': string)
    requires crv in CURVES && crv' in CURVES && crv + "$" + aud == crv' + "$" + aud'
    ensures crv == crv' && aud == aud'
  {
    assert |crv| == 5 && |crv'| == 5;
    var s := crv + "$" + aud;
    assert s[..5] == crv && s[6..] == aud && s == crv' + "$" + aud' && s[..5] == crv' && s[6..] == aud';
  }

  /** In every run, the ticket that an authenticator is made from is of the context's curve, unexpired, of the wanted
      identity if one is named, and for the wanted audience, or, where aliases are allowed and there is none for
      the audience itself, for its canonical host name. */
  lemma FoundIsWanted(c: Crypto, codec: Codec, run: seq<Exchange>, n: nat, w: Wish)
    requires KnownCurves(run) && KnownCurve(w.ctx) && n <= |run| && Made(c, codec, SystemAt(c, codec, run, n).tickets, w).Ok?
    ensures var st := SystemAt(c, codec, run, n);
            var a := Made(c, codec, st.tickets, w).value;
            && w.ctx.curve.Some? && GetString(a.cred, "crv") == w.ctx.curve
            && "tkt" in a.cred && InWindow(w.ctx.skew, Truncate(w.nowMs, 1000), Members(a.cred["tkt"]))
            && a.expiry == GetTimestamp(Members(a.cred["tkt"]), "exp")
            && (w.name.Some? ==> GetString(a.cred, "sub") == w.name)
            && var own := w.ctx.curve.value + "$" + w.aud;
            if own in st.tickets && (w.name.Some? ==> GetString(st.tickets[own], "sub") == w.name) then
              a.cred == st.tickets[own] && GetString(a.cred, "aud") == Some(w.aud)
            else
              && w.ctx.hostSpnAlias && Spn.Hostify(w.aud).Ok?
              && GetString(a.cred, "aud") == Some(Spn.Hostify(w.aud).value)
  {
    hide SystemAt, Authenticator, Spn.Hostify, InWindow, Authority.ValidateExpiry, ReauthIdentity, GetTimestamp, BackedAssertion.Pack;
    var st := SystemAt(c, codec, run, n);
    AllFiled(c, codec, run, n);
    var cred := FindTicketOrAlias(w.ctx, st.tickets, w.aud, w.name).value;
    WindowExactly(w.ctx.skew, Truncate(w.nowMs, 1000), Members(cred["tkt"]));
    var own := w.ctx.curve.value + "$" + w.aud;
    assert Filed(st.tickets, own);
    FoundAs(st.tickets, w.ctx, w.aud);
    if Spn.Hostify(w.aud).Ok? {
      FoundAs(st.tickets, w.ctx, Spn.Hostify(w.aud).value);
    }
  }

  lemma FoundAs(tickets: Cache, ctx: Context, aud: string)
    requires ctx.curve.Some? && KnownCurve(ctx) && Filed(tickets, ctx.curve.value + "$" + aud)
    ensures var key := ctx.curve.value + "$" + aud;
            key in tickets ==> GetString(tickets[key], "aud") == Some(aud)
  {
    var key := ctx.curve.value + "$" + aud;
    if key in tickets {
      var crv, aud' :| FiledAs(key, tickets[key], crv, aud');
      SplitsOnce(crv, aud', ctx.curve.value, aud);
    }
  }
}
