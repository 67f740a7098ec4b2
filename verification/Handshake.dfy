/** Initiator and acceptor together, and the acceptor's verdicts tied to the verification library. */
module Handshake {
  import opened Wrappers
  import opened Json
  import opened Crypto
  import opened Identity
  import opened BackedAssertion
  import opened Ticket
  import opened Verify
  import opened ReplayCache
  import opened RpRuns
  import opened Justification
  import opened Lineage
  import opened Response
  import opened TwoParty
  import opened Acceptor
  import opened Initiator
  import opened KeySchedule
  import Authority
  import Base64
  import Jwt
  import KeySet
  import Spn

  // ----- what the library can answer -----

  /** A verdict as the acceptor hears it. */
  function Hearing(v: Verdict): Heard {
    Heard(v.result, v.flags, v.identity.Some?)
  }

  lemma FlagsOfFailure(c: Crypto, out: Outside, ctx: Context, cache: Cache, ba: BackedAssertion, q: Request)
    requires Local(c, out, ctx, cache, ba, q).0.Err?
    ensures !Local(c, out, ctx, cache, ba, q).1.xrt
    ensures Local(c, out, ctx, cache, ba, q).1.reauth ==> q.reauth && ba.certificates == [] && "x5c" !in ba.assertion.header
  {
    hide CheckClaims, CheckTicket, Attributes, PopulateIdentity, ParseOpts;
  }

  /** The errors of a step after the local decision are none that a new assertion could mend. */
  ghost predicate Final(r: Result<()>) {
    r != Err(InvalidAssertion) && r != Err(ExpiredAssertion) && r != Err(BadAudience)
  }

  lemma KeyErrors(c: Crypto, ctx: Context, id: Identity, t: int, reauth: bool, d: string)
    ensures VerifierKey(c, id, d).Err? ==> Final(Err(VerifierKey(c, id, d).error))
    ensures Entry(c, ctx, id, t, reauth).Err? ==> Final(Err(Entry(c, ctx, id, t, reauth).error))
  {
  }

  lemma AdmitErrors(c: Crypto, ctx: Context, cache: Cache, s: string, t: int, noReplay: bool, d: string, id: Identity, flags: Flags)
    ensures var v := Admit(c, ctx, cache, s, t, noReplay, d, id, flags);
            v.identity.Some? && v.flags == flags && Final(v.result)
  {
    hide Entry, Issued, IssuesTicket, VerifierKey, WithSecret, GetTimestamp;
    KeyErrors(c, ctx, id, t, flags.reauth, d);
    if VerifierKey(c, id, d).Ok? {
      KeyErrors(c, ctx, VerifierKey(c, id, d).value, t, flags.reauth, d);
    }
  }

  lemma TicketFlagMeansTicket(c: Crypto, out: Outside, ctx: Context, cache: Cache, ba: BackedAssertion, q: Request)
    requires Local(c, out, ctx, cache, ba, q).0.Ok? && Local(c, out, ctx, cache, ba, q).1.reauth
    ensures q.reauth
  {
    hide Local, ClaimsHold, CertificateHolds, TicketHolds, Verifies;
    AcceptedExactlyWhenJustified(c, out, ctx, cache, ba, q);
    if ba.certificates != [] || "x5c" in ba.assertion.header {
      CertifiedHasNoTicketFlag(c, out, ctx, cache, ba, q);
    }
  }

  lemma CertifiedHasNoTicketFlag(c: Crypto, out: Outside, ctx: Context, cache: Cache, ba: BackedAssertion, q: Request)
    requires Local(c, out, ctx, cache, ba, q).0.Ok? && (ba.certificates != [] || "x5c" in ba.assertion.header)
    ensures !Local(c, out, ctx, cache, ba, q).1.reauth
  {
    hide CheckClaims, CheckTicket, Attributes, PopulateIdentity, ParseOpts;
    var (cred, flags) := FindCredential(c, out, ctx, cache, ba, q);
    OptsXrt(Get(ba.assertion.Claims(), "opts"), if ba.certificates != [] then flags.(validatedCerts := true) else flags);
  }

  /** One call's business with the library: the event that `BIDVerifyAssertion` is asked about, on which
      cache, and what `BIDMakeRPResponseToken` is given afterwards: the acceptor's own claims, whether the
      mechanism has an encryption type, the relying party's certificate, and a nonce. */
  datatype Ask = Ask(e: Event, cache: Cache, extra: Object, keyed: bool, rpKey: Option<RpKey>, jti: bytes)

  function Answered(c: Crypto, codec: Codec, ask: Ask): Verdict
    requires ask.e.Verify?
  {
    Outcome(c, codec, ask.cache, ask.e)
  }

  /** No identity: nothing is known, and there is no session key. */
  const NOBODY := Identity(map[], NO_PRIVATE, None)

  function Responder(v: Verdict): Identity {
    if v.identity.Some? then v.identity.value else NOBODY
  }

  /** How `makeResponseToken` asks for the response: with a session key if there is an identity, as an initial
      exchange unless a ticket was used, and without forcing an extra round trip. */
  function ResponseMode(v: Verdict, ask: Ask): Mode
    requires ask.e.Verify?
  {
    Mode(ask.keyed && v.identity.Some?, !(v.flags.reauth && !Recoverable(v.result, ask.e.ctx.hostSpnAlias)), false, ask.rpKey)
  }

  function ResponseTo(c: Crypto, codec: Codec, v: Verdict, ask: Ask): Result<string>
    requires ask.e.Verify?
  {
    ResponseText(c, codec, ask.e.ctx, Responder(v), ask.extra, ResponseMode(v, ask), ask.jti)
  }

  /** The call hears what the library answers: the verdict, and a response made and signed from its identity.
      The acceptor's own claims carry no "jti". */
  ghost predicate Answers(c: Crypto, codec: Codec, ask: Ask, call: Call) {
    && ask.e.Verify? && "jti" !in ask.extra && call.hostSpnAlias == ask.e.ctx.hostSpnAlias
    && var v := Answered(c, codec, ask);
    && call.heard == Hearing(v)
    && (call.responded ==>
          && ResponseTo(c, codec, v, ask).Ok?
          && var claims := ResponseClaims(Responder(v), ask.extra, ResponseMode(v, ask), ask.jti);
          && claims.Ok? && (call.jti <==> "jti" in claims.value)
          && (call.certified <==> CertificateSigns(Responder(v), ResponseMode(v, ask))))
  }

  /** The response is signed with the relying party's certificate. */
  predicate CertificateSigns(id: Identity, mode: Mode) {
    ParseOpts(id.priv.opts, NO_FLAGS).Ok? && SigningKey(mode, ParseOpts(id.priv.opts, NO_FLAGS).value).Some?
  }

  /** The mode is the context's: a context that awaits an assertion has not used a ticket yet, so after the
      verdict it carries the mark of a ticket exactly if the response is no initial one. */
  lemma ModeIsContext(c: Crypto, codec: Codec, handle: Option<Ctx>, ask: Ask, call: Call)
    requires ValidHandle(handle) && (StateOf(handle) == Initial || StateOf(handle) == RetryInitial) && Answers(c, codec, ask, call)
    ensures Hear(if handle.Some? then handle.value else FRESH, call).0.reauth <==> !ResponseMode(Answered(c, codec, ask), ask).initial
  {
    hide Outcome, ResponseText, ResponseClaims;
  }

  ghost predicate Rests(c: Crypto, codec: Codec, ask: Ask) {
    && ask.e.Verify? && Unpack(codec, ask.e.s).Ok?
    && Justified(c, ask.e.out, ask.e.ctx, ask.cache, Unpack(codec, ask.e.s).value, ask.e.q)
  }

  /** The response carries a "jti" exactly when the verdict has the flag that moves the acceptor to the
      extra round trip, although one comes from the assertion and the other from the identity's options. */
  lemma JtiIsFlag(c: Crypto, codec: Codec, ask: Ask, call: Call)
    requires Answers(c, codec, ask, call) && call.responded && (call.heard.flags.xrt ==> call.heard.locally)
    ensures call.jti <==> call.heard.flags.xrt
  {
    hide Outcome, PublicValue, Binary, ParseOpts, SigningKey, ResponseKey, Pack, Recoverable;
    var v := Answered(c, codec, ask);
    if v.identity.Some? {
      VerdictOpts(c, codec, ask.cache, ask.e);
    }
    assert "jti"[0] == 'j' && "tkt"[0] == 't' && "epk"[0] == 'e' && "nonce"[0] == 'n';
    NoOptions();
  }

  lemma NoOptions()
    ensures ParseOpts(None, NO_FLAGS) == Ok(NO_FLAGS)
  {
  }

  /** Whatever the library answers is feasible for the state it is asked in: tickets are asked for only in
      the first round. A verdict with a local acceptance comes from a justified assertion, and the ticket
      flag only from a text without certificates. */
  lemma VerdictsAreFeasible(c: Crypto, codec: Codec, ask: Ask, state: State, call: Call)
    requires Answers(c, codec, ask, call) && ask.e.q.reauth == (state == Initial)
    ensures Feasible(call, state)
    ensures call.heard.locally ==> Rests(c, codec, ask)
    ensures call.heard.flags.reauth ==> IsAuthenticator(codec, ask.e.s)
  {
    hide Unpack, Local, Admit, Justified, ResponseTo, ResponseMode, ResponseClaims;
    var e := ask.e;
    if Unpack(codec, e.s).Ok? {
      var ba := Unpack(codec, e.s).value;
      AcceptedExactlyWhenJustified(c, e.out, e.ctx, ask.cache, ba, e.q);
      var (id, flags) := Local(c, e.out, e.ctx, ask.cache, ba, e.q);
      if id.Err? {
        FlagsOfFailure(c, e.out, e.ctx, ask.cache, ba, e.q);
      } else {
        AdmitErrors(c, e.ctx, ask.cache, e.s, e.q.t, e.noReplay, e.d, id.value, flags);
        LocalFlags(c, codec, e.out, e.ctx, ask.cache, e.s, e.q);
        if flags.reauth {
          TicketFlagMeansTicket(c, e.out, e.ctx, ask.cache, ba, e.q);
        }
      }
    }
    if call.responded {
      JtiIsFlag(c, codec, ask, call);
    }
  }

  /** Every call that awaits an assertion hears what the library answers, asked for a ticket exactly in the
      first round. */
  ghost predicate AsksInOrder(c: Crypto, codec: Codec, handle: Option<Ctx>, asks: seq<Ask>, calls: seq<Call>)
    requires |asks| == |calls|
    decreases |calls|
  {
    calls != [] ==>
      && calls[0].present && AskedWell(c, codec, StateOf(handle), asks[0], calls[0])
      && var after := Accept(handle, calls[0]).0;
      after.None? || after.value.state == Established || AsksInOrder(c, codec, after, asks[1..], calls[1..])
  }

  ghost predicate AskedWell(c: Crypto, codec: Codec, state: State, ask: Ask, call: Call) {
    state != ExtraRoundTrip ==> Answers(c, codec, ask, call) && ask.e.q.reauth == (state == Initial)
  }

  lemma {:induction false} AsksAreFeasible(c: Crypto, codec: Codec, handle: Option<Ctx>, asks: seq<Ask>, calls: seq<Call>)
    requires |asks| == |calls| && AsksInOrder(c, codec, handle, asks, calls)
    ensures FeasibleRun(handle, calls)
    decreases |calls|
  {
    hide Accept, Answers;
    if calls != [] {
      var after := Accept(handle, calls[0]).0;
      if StateOf(handle) != ExtraRoundTrip {
        VerdictsAreFeasible(c, codec, asks[0], StateOf(handle), calls[0]);
      }
      if after.Some? && after.value.state != Established {
        AsksAreFeasible(c, codec, after, asks[1..], calls[1..]);
      }
    }
  }

  /** The handle after the first n calls. */
  function HandleAt(handle: Option<Ctx>, calls: seq<Call>, n: nat): Option<Ctx>
    requires n <= |calls|
    decreases n
  {
    if n == 0 then handle else HandleAt(Accept(handle, calls[0]).0, calls[1..], n - 1)
  }

  /** The k-th call decides the run: a context that awaits an assertion hears one that is justified. Without
      "xrt" the verdict is no error and the context is established; with "xrt" the context waits for the
      next token, which verifies and establishes it. */
  ghost predicate Decides(c: Crypto, codec: Codec, handle: Option<Ctx>, asks: seq<Ask>, calls: seq<Call>, k: nat) {
    && k < |calls| == |asks| && asks[k].e.Verify? && Rests(c, codec, asks[k])
    && (StateOf(HandleAt(handle, calls, k)) == Initial || StateOf(HandleAt(handle, calls, k)) == RetryInitial)
    && var after := HandleAt(handle, calls, k + 1);
    if AsksXrt(codec, asks[k].e.s) then
      && StateOf(after) == ExtraRoundTrip && k + 1 < |calls| && calls[k + 1].xrt.Ok?
      && StateOf(HandleAt(handle, calls, k + 2)) == Established && HandleAt(handle, calls, k + 2) == Feed(handle, calls)
    else
      StateOf(after) == Established && Answered(c, codec, asks[k]).result.Ok? && after == Feed(handle, calls)
  }

  /** What the verdict of a call is that leaves an awaiting context established or in the extra round trip. */
  lemma DecidedBy(c: Crypto, codec: Codec, handle: Option<Ctx>, ask: Ask, call: Call)
    requires ValidHandle(handle) && (StateOf(handle) == Initial || StateOf(handle) == RetryInitial)
    requires call.present && AskedWell(c, codec, StateOf(handle), ask, call)
    ensures var state := StateOf(Accept(handle, call).0);
            (state == Established || state == ExtraRoundTrip) && Accept(handle, call).0.Some? ==>
              && Rests(c, codec, ask)
              && (state == ExtraRoundTrip <==> AsksXrt(codec, ask.e.s))
              && (state == Established ==> Answered(c, codec, ask).result.Ok?)
  {
    hide Answers, Rests, AsksXrt, Outcome, RaiseGss;
    VerdictsAreFeasible(c, codec, ask, StateOf(handle), call);
    HeardIsVerdict(c, codec, ask, call);
  }

  lemma HeardIsVerdict(c: Crypto, codec: Codec, ask: Ask, call: Call)
    requires Answers(c, codec, ask, call)
    ensures ask.e.Verify? && call.heard.result == Answered(c, codec, ask).result
    ensures call.heard.locally ==> call.heard.flags.xrt == AsksXrt(codec, ask.e.s)
  {
    hide Outcome, AsksXrt, ResponseTo, ResponseMode, ResponseClaims, ParseOpts;
    if call.heard.locally {
      VerdictOpts(c, codec, ask.cache, ask.e);
    }
  }

  lemma {:induction false} DecidedAt(c: Crypto, codec: Codec, handle: Option<Ctx>, asks: seq<Ask>, calls: seq<Call>) returns (k: nat)
    requires ValidHandle(handle) && (StateOf(handle) == Initial || StateOf(handle) == RetryInitial)
    requires |asks| == |calls| && AsksInOrder(c, codec, handle, asks, calls)
    requires Feed(handle, calls).Some? && StateOf(Feed(handle, calls)) == Established
    ensures Decides(c, codec, handle, asks, calls, k)
    decreases |calls|
  {
    hide Accept, Answers, AskedWell, Rests, AsksXrt, Outcome;
    var after := Accept(handle, calls[0]).0;
    DecidedBy(c, codec, handle, asks[0], calls[0]);
    AsksAreFeasible(c, codec, handle, asks, calls);
    CallKeeps(handle, calls[0]);
    assert HandleAt(handle, calls, 1) == after;
    if StateOf(after) == RetryInitial {
      var j := DecidedAt(c, codec, after, asks[1..], calls[1..]);
      k := j + 1;
    } else {
      k := 0;
      if StateOf(after) == ExtraRoundTrip {
        RoundTripEnds(after, calls[1]);
        assert calls[1..][0] == calls[1] && HandleAt(handle, calls, 2) == HandleAt(after, calls[1..], 1);
        assert HandleAt(after, calls[1..], 1) == Accept(after, calls[1]).0;
      }
      AskIsVerify(c, codec, handle, asks[0], calls[0]);
    }
  }

  lemma AskIsVerify(c: Crypto, codec: Codec, handle: Option<Ctx>, ask: Ask, call: Call)
    requires AskedWell(c, codec, StateOf(handle), ask, call) && StateOf(handle) != ExtraRoundTrip
    ensures ask.e.Verify?
  {
    hide Outcome, ResponseTo, ResponseMode, ResponseClaims;
  }

  /** A call in the extra round trip releases the handle, or establishes it on a token that verifies. */
  lemma RoundTripEnds(handle: Option<Ctx>, call: Call)
    requires StateOf(handle) == ExtraRoundTrip && call.present
    ensures var after := Accept(handle, call).0;
            after.None? || (StateOf(after) == Established && call.xrt.Ok?)
  {
  }

  /** An acceptor that asks the library: three tokens after its start a live handle is established, and one
      call decided it. */
  lemma EstablishedIsJustified(c: Crypto, codec: Codec, asks: seq<Ask>, calls: seq<Call>)
    requires |asks| == |calls| >= 3 && AsksInOrder(c, codec, None, asks, calls)
    ensures Feed(None, calls).Some? ==>
              && Feed(None, calls).value.state == Established
              && exists k :: Decides(c, codec, None, asks, calls, k)
  {
    hide Feed, FeasibleRun, Decides, AsksInOrder;
    AsksAreFeasible(c, codec, None, asks, calls);
    EndsWithinThree(None, calls);
    if Feed(None, calls).Some? {
      var k := DecidedAt(c, codec, None, asks, calls);
    }
  }

  // ----- the conversation -----

  datatype Wire = ToAcceptor(token: Token) | ToInitiator(reply: Reply) | Silent

  datatype Conversation = Conversation(i: Option<ICtx>, h: Option<Ctx>, wire: Wire)

  datatype Move = Move(init: ICall, accept: Call, ask: Ask)

  /** The first call of the initiator. */
  function Open(call: ICall): Conversation {
    var (i, major, output) := InitCall(None, call, None);
    Conversation(i, None, if output.Some? then ToAcceptor(output.value) else Silent)
  }

  function Turn(v: Conversation, m: Move): Conversation {
    match v.wire
    case ToAcceptor(token) =>
      var (h, major, reply) := Accept(v.h, m.accept);
      v.(h := h, wire := if reply.Some? then ToInitiator(reply.value) else Silent)
    case ToInitiator(reply) =>
      var (i, major, output) := InitCall(v.i, m.init, Some(reply));
      v.(i := i, wire := if output.Some? then ToAcceptor(output.value) else Silent)
    case Silent => v
  }

  /** The initiator's credentials are what they are taken for: an assertion that was not made from a ticket
      is signed with certificates. */
  ghost predicate Certified(codec: Codec, call: ICall) {
    && (call.credential.Some? && IsAuthenticator(codec, call.credential.value.text) ==> call.credential.value.ticket)
    && (call.fallback.Some? ==> !IsAuthenticator(codec, call.fallback.value))
  }

  /** The acceptor asks the library about the text that is on the wire, for a ticket exactly in its first
      round; the initiator's credentials are certified. */
  ghost predicate Served(c: Crypto, codec: Codec, v: Conversation, m: Move) {
    match v.wire
    case ToAcceptor(token) =>
      && m.accept.present
      && (token.Assertion? ==>
            AskedWell(c, codec, StateOf(v.h), m.ask, m.accept) && m.ask.e.Verify? && m.ask.e.s == token.text)
    case ToInitiator(_) => Certified(codec, m.init)
    case Silent => true
  }

  /** A live initiator sends an authenticator only as a ticket's. */
  ghost predicate KnowsItsToken(codec: Codec, ctx: ICtx) {
    Initiator.Valid(ctx) && (IsAuthenticator(codec, ctx.cred.value) ==> ctx.reauth)
  }

  ghost predicate Sound(codec: Codec, v: Conversation) {
    && (v.i.Some? ==> KnowsItsToken(codec, v.i.value))
    && ValidHandle(v.h)
    && match v.wire
       case ToAcceptor(Assertion(text)) =>
         && v.i.Some? && v.i.value.cred == Some(text)
         && (v.i.value.state == Authenticate ==> v.h.None?)
         && (v.i.value.state == RetryAuthenticate ==> StateOf(v.h) == RetryInitial)
         && v.i.value.state != Established
       case ToAcceptor(XrtToken) => v.i.Some? && v.i.value.state == Established && StateOf(v.h) == ExtraRoundTrip
       case ToInitiator(reply) =>
         && v.i.Some? && v.h.Some? && v.i.value.state != Established && reply.major == Complete
         && (reply.jti <==> v.h.value.state == ExtraRoundTrip)
         && (reply.minor == ReauthFailed <==> v.h.value.state == RetryInitial)
         && (reply.minor == ReauthFailed ==> v.i.value.reauth && v.i.value.state == Authenticate)
       case Silent => true
  }

  lemma OpensSound(codec: Codec, call: ICall)
    requires Certified(codec, call)
    ensures Sound(codec, Open(call))
  {
    hide IsAuthenticator;
  }

  /** What the library's answer means in a conversation: it is feasible, and the ticket flag is heard only
      from an initiator that used a ticket. */
  lemma ServedIsFaithful(c: Crypto, codec: Codec, v: Conversation, m: Move)
    requires Sound(codec, v) && Served(c, codec, v, m) && v.wire.ToAcceptor?
    ensures Feasible(m.accept, StateOf(v.h))
    ensures StateOf(v.h) != ExtraRoundTrip && m.accept.heard.flags.reauth ==> v.i.value.reauth
  {
    hide IsAuthenticator, Answers;
    if v.wire.token.Assertion? {
      VerdictsAreFeasible(c, codec, m.ask, StateOf(v.h), m.accept);
    }
  }

  /** A conversation stays sound; in it no call of the initiator diverges, so each runs its loop at
      most twice, and the context falls back at most once. */
  lemma TurnKeeps(c: Crypto, codec: Codec, v: Conversation, m: Move)
    requires Sound(codec, v) && Served(c, codec, v, m)
    ensures Sound(codec, Turn(v, m))
    ensures v.wire.ToInitiator? ==> !Diverges(Entered(v.i, m.init), m.init, Some(v.wire.reply))
  {
    hide Accept, InitCall, Loop, AskedWell, IsAuthenticator, Feasible;
    match v.wire {
      case ToAcceptor(token) =>
        ServedIsFaithful(c, codec, v, m);
        CallKeeps(v.h, m.accept);
        if Accept(v.h, m.accept).2.Some? {
          ReplyTells(v.h, m.accept);
        }
      case ToInitiator(reply) =>
        InitKeeps(v.i, m.init, Some(reply));
        FallsBackOnce(codec, v.i.value, m.init, reply);
      case Silent =>
    }
  }

  /** What a reply says about the acceptor that sent it. */
  lemma ReplyTells(handle: Option<Ctx>, call: Call)
    requires ValidHandle(handle) && Feasible(call, StateOf(handle)) && Accept(handle, call).2.Some?
    ensures var (after, major, reply) := Accept(handle, call);
            && after.Some? && reply.value.major == Complete && StateOf(handle) != ExtraRoundTrip
            && (reply.value.jti <==> after.value.state == ExtraRoundTrip)
            && (reply.value.minor == ReauthFailed <==> after.value.state == RetryInitial)
            && (reply.value.minor == ReauthFailed ==> call.heard.flags.reauth && StateOf(handle) == Initial)
  {
  }

  lemma FallsBackOnce(codec: Codec, ctx: ICtx, call: ICall, reply: Reply)
    requires KnowsItsToken(codec, ctx) && Certified(codec, call) && reply.major == Complete && !Diverges(ctx, call, Some(reply))
    ensures var (after, major, output) := InitCall(Some(ctx), call, Some(reply));
            && (after.Some? ==> KnowsItsToken(codec, after.value))
            && (output.Some? ==>
                  && after.Some?
                  && (output.value.Assertion? ==> reply.minor == ReauthFailed && after.value.state == RetryAuthenticate)
                  && (output.value == XrtToken ==> reply.minor == NoMinor && reply.jti && after.value.state == Established))
  {
    hide IsAuthenticator;
  }

  function Conversed(call: ICall, moves: seq<Move>, n: nat): Conversation
    requires n <= |moves|
  {
    if n == 0 then Open(call) else Turn(Conversed(call, moves, n - 1), moves[n - 1])
  }

  /** Every move of the acceptor is answered by the library, and every credential is certified. */
  ghost predicate ServedMoves(c: Crypto, codec: Codec, call: ICall, moves: seq<Move>) {
    Certified(codec, call) && forall k :: 0 <= k < |moves| ==> Served(c, codec, Conversed(call, moves, k), moves[k])
  }

  lemma {:induction false} ConversationSound(c: Crypto, codec: Codec, call: ICall, moves: seq<Move>, n: nat)
    requires ServedMoves(c, codec, call, moves) && n <= |moves|
    ensures Sound(codec, Conversed(call, moves, n))
  {
    hide Sound, Served, Turn, Open, Certified;
    if n == 0 {
      OpensSound(codec, call);
    } else {
      ConversationSound(c, codec, call, moves, n - 1);
      assert Served(c, codec, Conversed(call, moves, n - 1), moves[n - 1]);
      TurnKeeps(c, codec, Conversed(call, moves, n - 1), moves[n - 1]);
    }
  }

  /** The composed handshake, for every conversation with an acceptor that asks the library: the
      initiator's loop never runs more than twice, it falls back at most once, and the token of the
      extra round trip is on the wire only when the acceptor waits for it. */
  lemma ComposedHandshake(c: Crypto, codec: Codec, call: ICall, moves: seq<Move>, n: nat)
    requires ServedMoves(c, codec, call, moves) && n <= |moves|
    ensures var v := Conversed(call, moves, n);
            && (v.i.Some? ==> v.i.value.fallbacks <= 1)
            && (v.wire.ToInitiator? && n < |moves| ==>
                  !Running(Loop(Begin(Entered(v.i, moves[n].init), Some(v.wire.reply)), moves[n].init, 2)))
            && (v.wire == ToAcceptor(XrtToken) ==> StateOf(v.h) == ExtraRoundTrip)
  {
    hide Turn, Open, Loop, Served, Certified, IsAuthenticator;
    ConversationSound(c, codec, call, moves, n);
    var v := Conversed(call, moves, n);
    if v.wire.ToInitiator? && n < |moves| {
      assert Served(c, codec, v, moves[n]);
      TurnKeeps(c, codec, v, moves[n]);
      LoopEndsExactly(Entered(v.i, moves[n].init), moves[n].init, Some(v.wire.reply));
    }
  }

  /** Conversely, in every conversation, when the acceptor waits for the extra round trip and reported no
      error, an initiator whose own operations succeed sends the token. */
  lemma XrtIsSent(c: Crypto, codec: Codec, call: ICall, moves: seq<Move>, n: nat, m: ICall)
    requires ServedMoves(c, codec, call, moves) && n <= |moves|
    requires Conversed(call, moves, n).wire.ToInitiator? && StateOf(Conversed(call, moves, n).h) == ExtraRoundTrip
    requires m.parsed && m.verify.Ok? && m.sentXrt && m.ready && m.finished
    ensures var v := Conversed(call, moves, n);
            v.wire.reply.minor == NoMinor <==> InitCall(v.i, m, Some(v.wire.reply)).2 == Some(XrtToken)
  {
    hide Turn, Open, Served, Certified, IsAuthenticator, Conversed;
    ConversationSound(c, codec, call, moves, n);
  }

  /** Messages that can still be sent. */
  function Remaining(v: Conversation): nat {
    match v.wire
    case ToAcceptor(_) => 2 * Rank(StateOf(v.h))
    case ToInitiator(_) => 2 * Rank(StateOf(v.h)) + 1
    case Silent => 0
  }

  /** Every message leaves fewer to come, so a conversation falls silent. */
  lemma TurnsRunOut(c: Crypto, codec: Codec, v: Conversation, m: Move)
    requires Sound(codec, v) && Served(c, codec, v, m) && v.wire != Silent
    ensures Remaining(Turn(v, m)) < Remaining(v)
  {
    hide Accept, InitCall, AskedWell, IsAuthenticator, Feasible;
    TurnKeeps(c, codec, v, m);
    if v.wire.ToAcceptor? {
      ServedIsFaithful(c, codec, v, m);
      CallKeeps(v.h, m.accept);
    }
  }

  // ----- mutual authentication -----

  lemma VerdictKeepsOpts(c: Crypto, codec: Codec, cache: Cache, e: Event)
    requires e.Verify? && Outcome(c, codec, cache, e).result.Ok?
    ensures Outcome(c, codec, cache, e).identity.Some? && Unpack(codec, e.s).Ok?
    ensures Outcome(c, codec, cache, e).identity.value.priv.opts == Get(Unpack(codec, e.s).value.assertion.Claims(), "opts")
  {
    hide Unpack, Local, Admit;
    AcceptedUnpacks(c, codec, cache, e);
    VerdictKeeps(c, codec, cache, e);
    LocalOpts(c, e.out, e.ctx, cache, Unpack(codec, e.s).value, e.q);
  }

  /** What makes an acceptor's context mutually authenticated: the initiator asked for it, and a ticket whose entry
      vouches for it was used, or the relying party's certificate signed the response to a full login. */
  lemma MutualExactly(c: Crypto, codec: Codec, handle: Option<Ctx>, ask: Ask, call: Call)
    requires ValidHandle(handle) && (StateOf(handle) == Initial || StateOf(handle) == RetryInitial)
    requires call.present && AskedWell(c, codec, StateOf(handle), ask, call) && ask.e.Verify?
    requires Answered(c, codec, ask).result.Ok? && Accept(handle, call).0.Some?
    ensures Unpack(codec, ask.e.s).Ok?
    ensures IsAuthenticator(codec, ask.e.s) ==> NamedTicket(codec, ask.e.s).Some? && NamedTicket(codec, ask.e.s).value in ask.cache
    ensures var before, claims := handle.Some? && handle.value.gss.mutual, Unpack(codec, ask.e.s).value.assertion.Claims();
            Accept(handle, call).0.value.gss.mutual <==>
            || before
            || (&& Asks(claims, "ma")
                && if IsAuthenticator(codec, ask.e.s)
                   then IntegerValue(Get(ask.cache[NamedTicket(codec, ask.e.s).value], "flags")) / 2 % 2 == 1
                   else ask.rpKey.Some?)
  {
    hide Accept, Outcome, Unpack, IsAuthenticator, ResponseTo, ResponseClaims, Feasible, ParseOpts, Asks, NamedTicket;
    VerdictsAreFeasible(c, codec, ask, StateOf(handle), call);
    AwaitingExactly(handle, call);
    VerdictFlags(c, codec, ask.cache, ask.e);
    VerdictKeepsOpts(c, codec, ask.cache, ask.e);
    VerdictOpts(c, codec, ask.cache, ask.e);
    OptionFlags(Unpack(codec, ask.e.s).value.assertion.Claims(), NO_FLAGS);
  }

  // ----- the fall-back -----

  /** The object is issued in the future, or was in its window and is no longer. */
  ghost predicate Lapsed(skew: nat, t: int, o: Object) {
    || ("iat" in o && GetTimestamp(o, "iat") > t + skew)
    || (&& ("nbf" in o ==> GetTimestamp(o, "nbf") <= t + skew) && ("exp" in o || GetTimestamp(o, "iat") != 0)
        && t > ExpiryOf(skew, o) + skew)
  }

  /** The ticket that an authenticator names is gone or has lapsed; or it holds, but the authenticator is for another
      audience, where no alias is allowed, or has itself lapsed. */
  ghost predicate TicketLost(c: Crypto, codec: Codec, cache: Cache, e: Event)
    requires e.Verify? && Unpack(codec, e.s).Ok?
  {
    var ap, tid := Unpack(codec, e.s).value.assertion, NamedTicket(codec, e.s);
    && tid.Some?
    && (|| tid.value !in cache
        || ((e.ctx.curve.Some? ==> GetString(cache[tid.value], "crv") == e.ctx.curve) && Lapsed(e.ctx.skew, e.q.t, cache[tid.value]))
        || (TicketHolds(c, e.ctx, cache[tid.value], ap, e.q.t) && AuthenticatorLost(e, ap.Claims())))
  }

  ghost predicate AuthenticatorLost(e: Event, claims: Object)
    requires e.Verify?
  {
    var asserted := GetString(claims, "aud");
    || (e.q.aud.Some? && asserted.Some? && asserted != e.q.aud && !e.ctx.hostSpnAlias)
    || (AudienceMatches(e.ctx, claims, e.q.aud) && BindingsMatch(claims, e.q.cb) && Lapsed(e.ctx.skew, e.q.t, claims))
  }

  /** The errors that a certificate can mend. */
  ghost predicate Mendable(r: Result<()>, hostSpnAlias: bool) {
    r.Err? && (r.error == InvalidAssertion || r.error == ExpiredAssertion || (r.error == BadAudience && !hostSpnAlias))
  }

  lemma LapsedExactly(skew: nat, t: int, o: Object, hostSpnAlias: bool)
    ensures Mendable(Authority.ValidateExpiry(skew, t, o), hostSpnAlias) <==> Lapsed(skew, t, o)
    ensures InWindow(skew, t, o) ==> !Lapsed(skew, t, o)
  {
    WindowErrors(skew, t, o);
  }

  lemma AudienceMends(ctx: Context, claims: Object, aud: Option<string>, cb: Option<bytes>)
    ensures Mendable(ValidateAudience(ctx, claims, aud, cb), ctx.hostSpnAlias) <==>
            var asserted := GetString(claims, "aud"); aud.Some? && asserted.Some? && asserted != aud && !ctx.hostSpnAlias
  {
    hide Spn.HostStart, Spn.HostEnd, Spn.Lower, GetBinary;
    DecodeErrors(claims, "cb");
  }

  lemma DecodeErrors(o: Object, key: string)
    ensures !Mendable(if GetBinary(o, key).Err? then Err(GetBinary(o, key).error) else Ok(()), false)
  {
    if GetString(o, key).Some? {
      Base64.DecodeErrors(GetString(o, key).value);
    }
  }

  /** A ticket's key, if it has one, makes no such error. */
  lemma KeyErrorsMendNothing(c: Crypto, jwt: Jwt.Jwt, key: Option<Json>, k: bytes, hostSpnAlias: bool)
    requires key.Some? ==> key == Some(KeyOf(k))
    ensures !Mendable(KeySet.VerifySignature(c, jwt.header, jwt.SigningInput(), jwt.signature, key), hostSpnAlias)
  {
    hide KeySet.VerifierFrom, KeyOf, GetBinary;
    KeyOfReads(k);
    if GetString(jwt.header, "alg").Some? {
      var name := GetString(jwt.header, "alg").value;
      SelectionErrors(c, key, k, name, 0, UnknownAlgorithm);
      if key.Some? && KeySet.Verifier(c, key, name).Ok? {
        OnlyHmacSelects(c, k, name);
      }
    }
  }

  lemma {:induction false} SelectionErrors(c: Crypto, key: Option<Json>, k: bytes, name: string, i: nat, err: BIDError)
    requires (key.Some? ==> key == Some(KeyOf(k))) && i <= |KeySet.ALGORITHMS|
    requires err == UnknownAlgorithm || err == InvalidKeyset
    ensures var r := KeySet.VerifierFrom(c, key, name, i, err);
            (r.Err? ==> r.error == UnknownAlgorithm || r.error == InvalidKeyset) && (key.None? ==> r.Err?)
    decreases |KeySet.ALGORITHMS| - i
  {
    hide KeySet.KeyMatches;
    if i < |KeySet.ALGORITHMS| {
      SelectionErrors(c, key, k, name, i + 1, err);
      SelectionErrors(c, key, k, name, i + 1, InvalidKeyset);
    }
  }

  /** The entry that an authenticator names has the key k, if it has one. */
  ghost predicate KeyIs(codec: Codec, cache: Cache, s: string, k: bytes) {
    var tid := NamedTicket(codec, s);
    tid.Some? && tid.value in cache && "ark" in cache[tid.value] ==> cache[tid.value]["ark"] == KeyOf(k)
  }

  lemma TicketMends(c: Crypto, ctx: Context, cred: Object, ap: Jwt.Jwt, t: int, k: bytes)
    requires "ark" in cred ==> cred["ark"] == KeyOf(k)
    ensures var r := CheckTicket(c, ctx, cred, ap, t);
            r.Err? ==>
              (Mendable(Err(r.error), ctx.hostSpnAlias) <==> CredStrength(ctx, cred).Ok? && Lapsed(ctx.skew, t, cred))
  {
    hide Authority.ValidateExpiry, KeySet.VerifySignature, KeyOf, Lapsed, GetBinary;
    LapsedExactly(ctx.skew, t, cred, ctx.hostSpnAlias);
    KeyErrorsMendNothing(c, ap, Get(cred, "ark"), k, ctx.hostSpnAlias);
    DecodeErrors(if "ark" in cred then Members(cred["ark"]) else map[], "secret-key");
    DecodeErrors(ap.Claims(), "nonce");
  }

  /** What the library reports of an authenticator: a ticket that failed, with an error that a certificate can mend,
      exactly when the ticket is lost. */
  lemma LossIsReported(c: Crypto, codec: Codec, cache: Cache, e: Event, k: bytes)
    requires e.Verify? && Unpack(codec, e.s).Ok? && IsAuthenticator(codec, e.s) && e.q.reauth && e.ctx.reauth
    requires KeyIs(codec, cache, e.s, k)
    ensures var v := Outcome(c, codec, cache, e);
            v.flags.reauth && Mendable(v.result, e.ctx.hostSpnAlias) <==> TicketLost(c, codec, cache, e)
  {
    hide Unpack, Authority.ValidateExpiry, KeySet.VerifySignature, TicketHolds, CheckTicket, HasFlag, Lapsed, InWindow, ValidateAudience,
         AudienceMatches, BindingsMatch, Admit, RaiseOpts, KeyOf;
    var ba := Unpack(codec, e.s).value;
    var claims := ba.assertion.Claims();
    var tid := NamedTicket(codec, e.s);
    if tid.Some? && tid.value in cache {
      var cred := cache[tid.value];
      TicketMends(c, e.ctx, cred, ba.assertion, e.q.t, k);
      TicketExactly(c, e.ctx, cred, ba.assertion, e.q.t);
      LapsedExactly(e.ctx.skew, e.q.t, cred, e.ctx.hostSpnAlias);
      LapsedExactly(e.ctx.skew, e.q.t, claims, e.ctx.hostSpnAlias);
      WindowExactly(e.ctx.skew, e.q.t, claims);
      AudienceMends(e.ctx, claims, e.q.aud, e.q.cb);
      AudienceExactly(e.ctx, claims, e.q.aud, e.q.cb);
      if TicketHolds(c, e.ctx, cred, ba.assertion, e.q.t) {
        HoldsInWindow(c, e.ctx, cred, ba.assertion, e.q.t);
        TicketVerifies(c, e.ctx, cred, ba.assertion, e.q.t);
      }
      var (id, flags) := Local(c, e.out, e.ctx, cache, ba, e.q);
      if id.Ok? {
        AdmitErrors(c, e.ctx, cache, e.s, e.q.t, e.noReplay, e.d, id.value, flags);
      }
    }
  }

  lemma HoldsInWindow(c: Crypto, ctx: Context, entry: Object, ap: Jwt.Jwt, t: int)
    requires TicketHolds(c, ctx, entry, ap, t)
    ensures InWindow(ctx.skew, t, entry)
  {
  }

  /** In every run of the relying party, an authenticator is answered with REAUTH_FAILED, and a certificate awaited,
      exactly when its ticket is lost. */
  lemma FallBackExactly(c: Crypto, codec: Codec, run: seq<Event>, n: nat, ask: Ask, call: Call)
    requires n <= |run| && ask.cache == StateAt(c, codec, map[], run, n)
    requires Answers(c, codec, ask, call) && ask.e.q.reauth && ask.e.ctx.reauth && Smooth(call)
    requires Unpack(codec, ask.e.s).Ok? && IsAuthenticator(codec, ask.e.s)
    ensures var (after, major, reply) := Accept(None, call);
            && (reply.Some? && reply.value.minor == ReauthFailed <==> TicketLost(c, codec, ask.cache, ask.e))
            && (TicketLost(c, codec, ask.cache, ask.e) ==>
                  StateOf(after) == RetryInitial && !after.value.reauth && major == Continue
                  && reply == Some(Reply(Complete, ReauthFailed, false)))
  {
    hide Accept, Outcome, TicketLost, ResponseTo, ResponseMode, ResponseClaims, Feasible, Unpack, IsAuthenticator, StateAt, KeyOf,
         NamedTicket, TicketKeys;
    var k: bytes := [];
    var tid := NamedTicket(codec, ask.e.s);
    TicketKeysExactly(c, codec, run, n);
    if tid.Some? && tid.value in ask.cache && "ark" in ask.cache[tid.value] {
      assert HasItsKey(c, codec, run, n, tid.value);
      k := TicketKeys(c, codec, run, n)[tid.value];
    }
    LossIsReported(c, codec, ask.cache, ask.e, k);
    VerdictsAreFeasible(c, codec, ask, Initial, call);
    AwaitingExactly(None, call);
  }

  /** The four moves of a fall-back: the acceptor finds the ticket lost, the initiator turns to its certificate, the
      acceptor accepts that, and the initiator trusts the response. */
  ghost predicate FallBackMoves(c: Crypto, codec: Codec, call: ICall, moves: seq<Move>) {
    && |moves| == 4 && ServedMoves(c, codec, call, moves)
    && call.credential.Some? && call.begun && call.made && call.finished
    && (forall k :: k == 0 || k == 2 ==> Smooth(moves[k].accept) && moves[k].ask.e.Verify?)
    && (forall k :: k == 1 || k == 3 ==> moves[k].init.parsed && moves[k].init.made && moves[k].init.ready && moves[k].init.finished)
    && moves[1].init.fallback.Some? && moves[3].init.verify.Ok?
    && Mendable(Answered(c, codec, moves[0].ask).result, moves[0].ask.e.ctx.hostSpnAlias) && Answered(c, codec, moves[0].ask).flags.reauth
    && Answered(c, codec, moves[2].ask).result.Ok? && !AsksXrt(codec, moves[2].ask.e.s)
  }

  /** How the acceptor hears a lost ticket, and then a certificate. */
  lemma HearsLoss(c: Crypto, codec: Codec, ask: Ask, call: Call)
    requires AskedWell(c, codec, Initial, ask, call) && ask.e.Verify? && Smooth(call)
    requires Mendable(Answered(c, codec, ask).result, ask.e.ctx.hostSpnAlias) && Answered(c, codec, ask).flags.reauth
    ensures var (after, _, reply) := Accept(None, call);
            ValidHandle(after) && StateOf(after) == RetryInitial && reply == Some(Reply(Complete, ReauthFailed, false))
  {
    hide Accept, Outcome, ResponseTo, ResponseMode, ResponseClaims, Feasible;
    VerdictsAreFeasible(c, codec, ask, Initial, call);
    AwaitingExactly(None, call);
    CallKeeps(None, call);
  }

  lemma HearsCertificate(c: Crypto, codec: Codec, handle: Option<Ctx>, ask: Ask, call: Call)
    requires ValidHandle(handle) && StateOf(handle) == RetryInitial && AskedWell(c, codec, RetryInitial, ask, call)
    requires ask.e.Verify? && Smooth(call) && Answered(c, codec, ask).result.Ok? && !AsksXrt(codec, ask.e.s)
    ensures var (after, _, reply) := Accept(handle, call);
            StateOf(after) == Established && !after.value.reauth && reply == Some(Reply(Complete, NoMinor, false))
  {
    hide Accept, Answers, Outcome, AsksXrt;
    VerdictsAreFeasible(c, codec, ask, RetryInitial, call);
    HeardIsVerdict(c, codec, ask, call);
    AwaitingExactly(handle, call);
  }

  lemma TurnIs(call: ICall, moves: seq<Move>, n: nat)
    requires n < |moves|
    ensures Conversed(call, moves, n + 1) == Turn(Conversed(call, moves, n), moves[n])
  {
  }

  /** Then both contexts are established, neither marked as using a ticket, with nothing left to send. */
  lemma FallBackCompletes(c: Crypto, codec: Codec, call: ICall, moves: seq<Move>)
    requires FallBackMoves(c, codec, call, moves) && call.credential.value.ticket
    ensures var v := Conversed(call, moves, 4);
            && v.wire == Silent && v.i.Some? && v.h.Some?
            && v.i.value.state == Established && !v.i.value.reauth && v.i.value.cred == moves[1].init.fallback
            && v.h.value.state == Established && !v.h.value.reauth
  {
    hide Accept, InitCall, Conversed, AskedWell, Smooth, Outcome, AsksXrt, Mendable, Certified;
    TurnIs(call, moves, 0);
    TurnIs(call, moves, 1);
    TurnIs(call, moves, 2);
    TurnIs(call, moves, 3);
    OpenIs(call, moves);
    FirstCall(call);
    assert Served(c, codec, Conversed(call, moves, 0), moves[0]);
    HearsLoss(c, codec, moves[0].ask, moves[0].accept);
    var v1 := Conversed(call, moves, 1);
    ReplyExactly(v1.i.value, moves[1].init, v1.wire.reply);
    var v2 := Conversed(call, moves, 2);
    assert Served(c, codec, v2, moves[2]);
    HearsCertificate(c, codec, v2.h, moves[2].ask, moves[2].accept);
    var v3 := Conversed(call, moves, 3);
    ReplyExactly(v3.i.value, moves[3].init, v3.wire.reply);
  }

  lemma OpenIs(call: ICall, moves: seq<Move>)
    ensures Conversed(call, moves, 0) == Open(call)
  {
  }

  /** A verdict without an identity, such as that on a lost ticket, is answered without a signature, whenever the answer
      can be encoded. */
  lemma LossIsAnswered(c: Crypto, codec: Codec, v: Verdict, ask: Ask)
    requires c.Lawful() && codec.Lawful() && ask.e.Verify? && v.identity.None?
    ensures ResponseTo(c, codec, v, ask).Ok? <==>
            |codec.dumps(map["alg" := Str("none")])| <= Base64.MAX_INPUT && |codec.dumps(ask.extra)| <= Base64.MAX_INPUT
    ensures ResponseTo(c, codec, v, ask).Ok? ==>
              var ba := Unpack(codec, ResponseTo(c, codec, v, ask).value);
              ba.Ok? && ba.value.assertion.signature == [] && ba.value.assertion.Claims() == ask.extra
  {
    hide Jwt.MakeSigned, Unpack, Recoverable, Jwt.EncodeJson, Base64.Encode, Join, Texts;
    NoOptions();
    Jwt.SignsExactly(c, codec, map[], ask.extra, None, None);
    var header: Object := map[];
    assert header["alg" := Str("none")] == map["alg" := Str("none")];
    if ResponseTo(c, codec, v, ask).Ok? {
      PackedAlone(c, codec, ask.extra, None, None);
    }
  }

  // ----- the odd status -----

  /** Every operation of the acceptor around the library succeeds. */
  predicate Smooth(call: Call) {
    call.present && call.parsed && call.alloc && call.prepared && call.ready && call.responded && call.wrapped && call.finished
  }

  /** A step after the local decision fails, told from the text, the context and the cache: for an
      authenticator, the ticket is past its renewal and its entry has no "exp" to copy; for a full login, the
      key agreement that the context wants is not offered, or the one that a ticket needs cannot be
      completed. */
  ghost predicate LaterFails(codec: Codec, cache: Cache, e: Event) {
    && e.Verify? && Unpack(codec, e.s).Ok?
    && var claims := Unpack(codec, e.s).value.assertion.Claims();
    if IsAuthenticator(codec, e.s) then
      && !e.noReplay && NamedTicket(codec, e.s).Some? && NamedTicket(codec, e.s).value in cache
      && var entry := cache[NamedTicket(codec, e.s).value];
      !Renewable(e.ctx, entry, e.q.t) && "exp" !in entry
    else
      (e.ctx.curve.Some? && !OffersKey(claims)) || (e.ctx.reauth && !e.noReplay && !AgreesKey(e.ctx, claims))
  }

  /** The response to a full login is signed with the session's key: there is an encryption type, and the
      relying party has no certificate or the initiator did not ask for one. */
  ghost predicate SessionSigned(codec: Codec, ask: Ask) {
    && ask.keyed && ask.e.Verify? && Unpack(codec, ask.e.s).Ok?
    && var opts := ParseOpts(Get(Unpack(codec, ask.e.s).value.assertion.Claims(), "opts"), NO_FLAGS);
    opts.Ok? && !(opts.value.mutualAuth && ask.rpKey.Some?)
  }

  /** An assertion with "xrt" that passes the local decision is then refused exactly if a later step fails. */
  lemma LaterFailsExactly(c: Crypto, codec: Codec, cache: Cache, e: Event)
    requires LocallyAccepted(c, codec, cache, e) && AsksXrt(codec, e.s)
    ensures Outcome(c, codec, cache, e).result.Err? <==> LaterFails(codec, cache, e)
  {
    hide Outcome, Local, Unpack, AsksXrt, IsAuthenticator, OffersKey, AgreesKey, Renewable, NamedTicket, CertifiedAttributes;
    if IsAuthenticator(codec, e.s) {
      AuthenticatorOutcome(c, codec, cache, e);
    } else {
      LoginOutcome(c, codec, cache, e);
    }
  }

  /** A first assertion that asks for an extra round trip, passes the local decision and is answered at all
      gets a reply with an error as its minor status, no error as its major status, and the acceptor waiting
      for the token, exactly when a step after the local decision fails. A full login that is answered with
      the session's key never gets it: where its key agreement fails, no such answer can be made. */
  lemma OddReplyExactly(c: Crypto, codec: Codec, ask: Ask, call: Call)
    requires Answers(c, codec, ask, call) && ask.e.q.reauth && Smooth(call)
    requires LocallyAccepted(c, codec, ask.cache, ask.e) && AsksXrt(codec, ask.e.s)
    ensures var (after, major, reply) := Accept(None, call);
            && StateOf(after) == ExtraRoundTrip && major == Continue && reply.Some?
            && reply.value.major == Complete && reply.value.jti
            && (reply.value.minor == OtherMinor <==> LaterFails(codec, ask.cache, ask.e))
            && (!IsAuthenticator(codec, ask.e.s) && SessionSigned(codec, ask) ==> reply.value.minor == NoMinor)
  {
    hide AsksXrt, Answers, ResponseTo, LocallyAccepted, LaterFails, SessionSigned, IsAuthenticator, Outcome;
    AskFlags(c, codec, ask, call);
    VerdictsAreFeasible(c, codec, ask, Initial, call);
    LaterFailsExactly(c, codec, ask.cache, ask.e);
    if !IsAuthenticator(codec, ask.e.s) && SessionSigned(codec, ask) {
      SessionSignedAgrees(c, codec, ask, call);
    }
  }

  /** A response that is signed with the session's key needs a key agreement that can be completed. */
  lemma SessionSignedAgrees(c: Crypto, codec: Codec, ask: Ask, call: Call)
    requires Answers(c, codec, ask, call) && call.responded && LocallyAccepted(c, codec, ask.cache, ask.e)
    requires !IsAuthenticator(codec, ask.e.s) && SessionSigned(codec, ask)
    ensures !LaterFails(codec, ask.cache, ask.e)
  {
    hide Unpack, Local, IsAuthenticator, ParseOpts, Pack, Outcome, Recoverable, ResponseClaims, OffersKey, Secret, ResponseKey, PublicValue;
    var e, v := ask.e, Answered(c, codec, ask);
    LoginResponder(c, codec, ask.cache, e);
    SessionNeeds(c, e.ctx, v.identity.value, ask.extra, ResponseMode(v, ask), ask.jti);
  }

  /** What a session-signed initial response needs of the identity. */
  lemma SessionNeeds(c: Crypto, ctx: Context, id: Identity, extra: Object, mode: Mode, jti: bytes)
    requires mode.keyed && mode.initial && ResponseClaims(id, extra, mode, jti).Ok? && ResponseKey(c, ctx, id, mode).Ok?
    requires SigningKey(mode, ParseOpts(id.priv.opts, NO_FLAGS).value).None?
    ensures PublicValue(id).Ok? && Secret(c, ctx, id).Ok?
  {
    hide ParseOpts, Secret;
  }

  /** The identity that a verdict on a full login leaves: with a public value and a secret only if its key
      agreement can be completed. */
  lemma LoginResponder(c: Crypto, codec: Codec, cache: Cache, e: Event)
    requires LocallyAccepted(c, codec, cache, e) && !IsAuthenticator(codec, e.s)
    ensures var v := Outcome(c, codec, cache, e);
            && v.identity.Some? && !v.flags.reauth
            && v.identity.value.priv.opts == Get(Unpack(codec, e.s).value.assertion.Claims(), "opts")
            && (PublicValue(v.identity.value).Ok? && Secret(c, e.ctx, v.identity.value).Ok? ==>
                  AgreesKey(e.ctx, Unpack(codec, e.s).value.assertion.Claims()))
  {
    hide Unpack, Local, IsAuthenticator, Attributes, Admit, AgreesKey, EcdhCurve, Secret, AsksXrt;
    var ba := Unpack(codec, e.s).value;
    var (id, flags) := Local(c, e.out, e.ctx, cache, ba, e.q);
    LocalFlags(c, codec, e.out, e.ctx, cache, e.s, e.q);
    assert ba.certificates != [] || "x5c" in ba.assertion.header by {
      AuthenticatorIs(codec, e.s);
    }
    CertifiedIdentity(c, e.out, e.ctx, cache, ba, e.q);
    AdmitErrors(c, e.ctx, cache, e.s, e.q.t, e.noReplay, e.d, id.value, flags);
    AdmittedKey(c, e.ctx, cache, e.s, e.q.t, e.noReplay, e.d, id.value, flags);
    if e.ctx.curve.Some? && VerifierKey(c, id.value, e.d).Ok? {
      AgreedKey(c, e.ctx, id.value, ba.assertion.Claims(), e.d);
    }
  }

  /** Two identities answer for the same key agreement. */
  ghost predicate SameKey(c: Crypto, ctx: Context, a: Identity, b: Identity) {
    a.priv.opts == b.priv.opts && a.priv.epk == b.priv.epk && Secret(c, ctx, a) == Secret(c, ctx, b)
  }

  /** The steps after the local decision leave an identity with its own key, or with the verifier's. */
  lemma AdmittedKey(c: Crypto, ctx: Context, cache: Cache, s: string, t: int, noReplay: bool, d: string, id: Identity, flags: Flags)
    ensures var v := Admit(c, ctx, cache, s, t, noReplay, d, id, flags);
            && v.identity.Some?
            && (SameKey(c, ctx, v.identity.value, id) ||
                (ctx.curve.Some? && VerifierKey(c, id, d).Ok? && SameKey(c, ctx, v.identity.value, VerifierKey(c, id, d).value)))
  {
    hide Entry, CheckReplay, EcdhCurve, EcdhSecret, IssuesTicket;
  }

  lemma AskFlags(c: Crypto, codec: Codec, ask: Ask, call: Call)
    requires Answers(c, codec, ask, call) && LocallyAccepted(c, codec, ask.cache, ask.e)
    ensures call.heard.locally && call.heard.result == Answered(c, codec, ask).result
    ensures call.heard.flags.xrt == AsksXrt(codec, ask.e.s)
  {
    hide Unpack, Local, Admit, AsksXrt, ResponseTo, ResponseMode, ResponseClaims;
    var e := ask.e;
    LocalFlags(c, codec, e.out, e.ctx, ask.cache, e.s, e.q);
    var (id, flags) := Local(c, e.out, e.ctx, ask.cache, Unpack(codec, e.s).value, e.q);
    AdmitErrors(c, e.ctx, ask.cache, e.s, e.q.t, e.noReplay, e.d, id.value, flags);
  }

  /** So for a re-authentication with "xrt" the acceptor really sends it: exactly when the ticket is no longer
      renewable and its entry has no "exp". The initiator then reports success on a context that is not
      established, and sends nothing. */
  lemma OddStatusHappens(c: Crypto, codec: Codec, ask: Ask, call: Call, ctx: ICtx, init: ICall)
    requires Answers(c, codec, ask, call) && ask.e.q.reauth && Smooth(call) && !ask.e.noReplay
    requires LocallyAccepted(c, codec, ask.cache, ask.e) && AsksXrt(codec, ask.e.s) && IsAuthenticator(codec, ask.e.s)
    requires Initiator.Valid(ctx) && ctx.state == Authenticate && init.parsed && init.finished
    ensures NamedTicket(codec, ask.e.s).Some? && NamedTicket(codec, ask.e.s).value in ask.cache
    ensures var entry := ask.cache[NamedTicket(codec, ask.e.s).value];
            var reply := Accept(None, call).2;
            && reply.Some?
            && (OddStatus(ctx, init, reply) <==> !Renewable(ask.e.ctx, entry, ask.e.q.t) && "exp" !in entry)
            && (OddStatus(ctx, init, reply) ==> InitCall(Some(ctx), init, reply) == (Some(ctx), Complete, None))
  {
    hide Accept, Answers, AsksXrt, IsAuthenticator, LocallyAccepted, Outcome, NamedTicket, Renewable, InitCall, Unpack, SessionSigned;
    OddReplyExactly(c, codec, ask, call);
    AuthenticatorOutcome(c, codec, ask.cache, ask.e);
    UnpacksLocally(c, codec, ask.cache, ask.e);
    var reply := Accept(None, call).2;
    if OddStatus(ctx, init, reply) {
      InitKeeps(Some(ctx), init, reply);
      StaysOpen(ctx, init, reply.value);
    }
  }

  lemma UnpacksLocally(c: Crypto, codec: Codec, cache: Cache, e: Event)
    requires LocallyAccepted(c, codec, cache, e)
    ensures e.Verify? && Unpack(codec, e.s).Ok?
  {
    hide Unpack, Local;
  }

  lemma StaysOpen(ctx: ICtx, call: ICall, reply: Reply)
    requires OddStatus(ctx, call, Some(reply)) && ctx.cred.Some? && call.finished && reply.major == Complete
    ensures InitCall(Some(ctx), call, Some(reply)) == (Some(ctx), Complete, None)
  {
  }
}
