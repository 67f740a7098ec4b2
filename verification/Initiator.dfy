/** The initiator's state machine (mech_browserid/init_sec_context.c; GSS_Init_sec_context, section
    2.2.1 of RFC 2743), with its loop around the fall-back from a ticket to a certificate. */
module Initiator {
  import opened Wrappers
  import opened Acceptor

  /** A resolved credential: its assertion, and whether that was made from a ticket. */
  datatype Cred = Cred(ticket: bool, text: string)

  /** `cred` is the resolved credential's assertion, None before one was found, `keyed` says that the
      mechanism has an encryption type; `fallbacks` counts the fall-backs of this context. */
  datatype ICtx = ICtx(state: State, reauth: bool, keyed: bool, xrt: bool, cred: Option<string>, fallbacks: nat)

  const BLANK := ICtx(Initial, false, false, false, None, 0)

  datatype Token = Assertion(text: string) | XrtToken

  /** How each operation of a call turns out. `credential` is what `gssBidResolveInitiatorCred` finds, and
      `fallback` the assertion that it finds without tickets; `verify` is what `BIDVerifyRPResponseToken`
      reports. */
  datatype ICall = ICall(keyed: bool, credential: Option<Cred>, begun: bool, made: bool, parsed: bool, verify: Result<()>,
                         sentXrt: bool, ready: bool, fallback: Option<string>, finished: bool)

  /** The variables of the loop; `stopped` is its `goto`. */
  datatype Round = Round(ctx: ICtx, major: Major, minor: Minor, input: Option<Reply>, output: Option<Token>, stopped: bool)

  predicate Running(r: Round) {
    r.minor == ReauthFailed && !r.stopped
  }

  // ----- one iteration -----

  /** `gssBidInitAssertionToken`. */
  function SendAssertion(r: Round, call: ICall): Round
    requires r.ctx.state == Initial || r.ctx.state == RetryInitial
  {
    if r.input.Some? || (r.ctx.state == Initial && !call.begun) || !call.made || r.ctx.cred.None?
    then r.(major := Failure, minor := OtherMinor)
    else r.(ctx := r.ctx.(state := r.ctx.state.Next()), major := Continue, minor := NoMinor,
            output := Some(Assertion(r.ctx.cred.value)))
  }

  /** `gssBidInitResponseToken`. The status inside the response comes before its verification. */
  function ReadResponse(r: Round, call: ICall): Round {
    if r.input.None? || !call.parsed then r.(major := Failure, minor := OtherMinor, output := None)
    else
      var reply, r := r.input.value, r.(output := None);
      if reply.major == Failure || reply.minor != NoMinor then r.(major := reply.major, minor := reply.minor)
      else
        var unsigned := call.verify == Err(MissingSignature) && !r.ctx.keyed;
        if call.verify.Err? && !unsigned then r.(major := Failure, minor := OtherMinor)
        else
          var xrt := reply.jti && call.verify.Ok?;
          var r := r.(ctx := r.ctx.(xrt := r.ctx.xrt || xrt));
          if xrt && !call.sentXrt then r.(major := Failure, minor := OtherMinor)
          else
            var r := r.(output := if xrt then Some(XrtToken) else None);
            if !call.ready then r.(major := Failure, minor := OtherMinor)
            else r.(ctx := r.ctx.(state := Established), major := Complete, minor := NoMinor)
  }

  /** The body of the loop. */
  function Iterate(r: Round, call: ICall): Round {
    match r.ctx.state
    case Initial => SendAssertion(r, call)
    case RetryInitial => SendAssertion(r, call)
    case Authenticate =>
      var r := ReadResponse(r, call);
      if r.minor != ReauthFailed || !r.ctx.reauth then r
      else if call.fallback.None? then r.(major := Failure, stopped := true)
      else r.(ctx := r.ctx.(reauth := false, cred := call.fallback, state := RetryInitial, fallbacks := r.ctx.fallbacks + 1),
              input := None)
    case RetryAuthenticate => ReadResponse(r, call)
    case ExtraRoundTrip => r.(major := Failure, minor := OtherMinor)
    case Established => r.(major := Failure, minor := OtherMinor)
  }

  /** The loop after at most n iterations. */
  function Loop(r: Round, call: ICall, n: nat): Round
    decreases n
  {
    if n == 0 || !Running(r) then r else Loop(Iterate(r, call), call, n - 1)
  }

  function Begin(ctx: ICtx, input: Option<Reply>): Round {
    Round(ctx, Failure, ReauthFailed, input, None, false)
  }

  /** A peer that answers REAUTH_FAILED to a context that used no ticket, or that already fell
      back. */
  predicate Diverges(ctx: ICtx, call: ICall, input: Option<Reply>) {
    && (ctx.state == RetryAuthenticate || (ctx.state == Authenticate && !ctx.reauth))
    && input.Some? && call.parsed && input.value.minor == ReauthFailed
  }

  lemma {:induction false} StuckForever(ctx: ICtx, call: ICall, input: Option<Reply>, r: Round, n: nat)
    requires Diverges(ctx, call, input) && r.ctx == ctx && r.input == input && Running(r)
    ensures Running(Loop(r, call, n)) && Loop(r, call, n).ctx == ctx
    decreases n
  {
    if n > 0 {
      StuckForever(ctx, call, input, Iterate(r, call), n - 1);
    }
  }

  /** The loop ends exactly when the peer does not do that, and then within two iterations. */
  lemma LoopEndsExactly(ctx: ICtx, call: ICall, input: Option<Reply>)
    ensures Diverges(ctx, call, input) <==> forall n: nat :: Running(Loop(Begin(ctx, input), call, n))
    ensures !Diverges(ctx, call, input) ==>
              !Running(Loop(Begin(ctx, input), call, 2))
              && forall n: nat :: n >= 2 ==> Loop(Begin(ctx, input), call, n) == Loop(Begin(ctx, input), call, 2)
  {
    var r := Begin(ctx, input);
    if Diverges(ctx, call, input) {
      forall n: nat
        ensures Running(Loop(r, call, n))
      {
        StuckForever(ctx, call, input, r, n);
      }
    } else {
      var r1 := Iterate(r, call);
      var r2 := if Running(r1) then Iterate(r1, call) else r1;
      assert !Running(r2);
      forall n: nat | n >= 2
        ensures Loop(r, call, n) == r2
      {
        assert Loop(r, call, n) == Loop(r1, call, n - 1);
        LoopSplits(r1, call, n - 1);
      }
      assert !Running(Loop(r, call, 2));
    }
  }

  lemma LoopSplits(r: Round, call: ICall, n: nat)
    requires n >= 1 && !Running(if Running(r) then Iterate(r, call) else r)
    ensures Loop(r, call, n) == if Running(r) then Iterate(r, call) else r
  {
  }

  // ----- the whole call -----

  /** The context that a call works on: a new one for a new handle, with its credential. */
  function Entered(handle: Option<ICtx>, call: ICall): ICtx {
    var ctx := if handle.Some? then handle.value else BLANK.(keyed := call.keyed);
    if ctx.cred.Some? || call.credential.None? then ctx
    else ctx.(cred := Some(call.credential.value.text), reauth := call.credential.value.ticket)
  }

  /** `gss_init_sec_context`, for calls whose loop ends. */
  function InitCall(handle: Option<ICtx>, call: ICall, input: Option<Reply>): (Option<ICtx>, Major, Option<Token>)
  {
    if handle.None? && input.Some? then (None, Failure, None)
    else if Entered(handle, call).cred.None? then (None, Failure, None)
    else
      var r := Loop(Begin(Entered(handle, call), input), call, 2);
      if r.major == Failure || !call.finished then (None, Failure, None) else (Some(r.ctx), r.major, r.output)
  }

  /** The call never returns. */
  predicate Hangs(handle: Option<ICtx>, call: ICall, input: Option<Reply>) {
    Entered(handle, call).cred.Some? && Diverges(Entered(handle, call), call, input)
  }

  class InitiatorHandle {
    var ctx: Option<ICtx>

    constructor ()
      ensures ctx == None
    {
      ctx := None;
    }

    /** `gssBidInitSecContext` inside `gss_init_sec_context`, watched for as many iterations of its loop as
        there is patience. A call that ends does so within two; one that does not leaves its context
        unchanged for ever. */
    method InitSecContext(call: ICall, input: Option<Reply>, patience: nat)
      returns (ended: bool, major: Major, output: Option<Token>)
      requires patience >= 2
      modifies this
      ensures ended <==> !Hangs(old(ctx), call, input)
      ensures ended ==> (ctx, major, output) == InitCall(old(ctx), call, input)
      ensures !ended ==> ctx == Some(Entered(old(ctx), call))
    {
      hide Iterate;
      if ctx.None? {
        if input.Some? {
          return true, Failure, None;
        }
        ctx := Some(BLANK.(keyed := call.keyed));
      }
      if ctx.value.cred.None? {
        if call.credential.None? {
          ctx := None;
          return true, Failure, None;
        }
        ctx := Some(ctx.value.(cred := Some(call.credential.value.text), reauth := call.credential.value.ticket));
      }
      var r, left := Begin(ctx.value, input), patience;
      ghost var start := r;
      while Running(r) && left > 0
        invariant 0 <= left <= patience && Loop(r, call, left) == Loop(start, call, patience)
        decreases left
      {
        r := Iterate(r, call);
        left := left - 1;
      }
      LoopEndsExactly(start.ctx, call, input);
      if Running(r) {
        StuckForever(start.ctx, call, input, start, patience);
        return false, r.major, r.output;
      }
      if r.major == Failure || !call.finished {
        ctx := None;
        return true, Failure, None;
      }
      ctx := Some(r.ctx);
      return true, r.major, r.output;
    }
  }

  // ----- what every call keeps -----

  /** A live context between calls: it has sent an assertion or is established, and has fallen back
      at most once, after which it uses no ticket. */
  ghost predicate Valid(ctx: ICtx) {
    && ctx.cred.Some? && ctx.fallbacks <= 1
    && (ctx.state == Authenticate ==> ctx.fallbacks == 0)
    && (ctx.state == RetryAuthenticate ==> ctx.fallbacks == 1)
    && (ctx.fallbacks == 1 ==> !ctx.reauth)
    && (ctx.state == Authenticate || ctx.state == RetryAuthenticate || ctx.state == Established)
  }

  /** The response carries a minor status that is no error of the loop, under a major status that is
      no error: the call then reports that major status and leaves the context as it was. */
  ghost predicate OddStatus(ctx: ICtx, call: ICall, input: Option<Reply>) {
    && (ctx.state == Authenticate || ctx.state == RetryAuthenticate)
    && input.Some? && call.parsed && input.value.minor == OtherMinor && input.value.major != Failure
  }

  /** Every call that ends releases the context with an error, waits with CONTINUE after sending one
      assertion, or completes in ESTABLISHED, with a token of the extra round trip exactly if the
      response asked for one; the odd status above is the only exception. */
  lemma InitKeeps(handle: Option<ICtx>, call: ICall, input: Option<Reply>)
    requires handle.Some? ==> Valid(handle.value)
    requires !Diverges(Entered(handle, call), call, input)
    ensures var (after, major, output) := InitCall(handle, call, input);
            && (after.Some? ==> Valid(after.value))
            && (after.None? ==> major == Failure && output == None)
            && (after.Some? && !OddStatus(Entered(handle, call), call, input) ==>
                  || (major == Continue && after.value.state != Established && output == Some(Assertion(after.value.cred.value)))
                  || (major == Complete && after.value.state == Established && input.Some?
                      && (output == Some(XrtToken) <==> input.value.jti && call.verify.Ok?) && (output.None? || output == Some(XrtToken))))
            && (after.Some? && OddStatus(Entered(handle, call), call, input) ==>
                  after == Some(Entered(handle, call)) && major == input.value.major && output == None)
  {
    var r := Begin(Entered(handle, call), input);
    LoopEndsExactly(r.ctx, call, input);
    var r1 := Iterate(r, call);
    assert Loop(r, call, 2) == if Running(r1) then Iterate(r1, call) else r1 by {
      LoopSplits(r1, call, 1);
    }
  }

  const RELEASED: (Option<ICtx>, Major, Option<Token>) := (None, Failure, None)

  /** The first call sends the credential's assertion and waits in AUTHENTICATE, exactly when a credential was found
      and every operation succeeds. */
  lemma FirstCall(call: ICall)
    ensures InitCall(None, call, None) ==
            if call.credential.Some? && call.begun && call.made && call.finished then
              var cred := call.credential.value;
              (Some(ICtx(Authenticate, cred.ticket, call.keyed, false, Some(cred.text), 0)), Continue, Some(Assertion(cred.text)))
            else RELEASED
  {
    if Entered(None, call).cred.Some? {
      LoopSplits(Iterate(Begin(Entered(None, call), None), call), call, 1);
    }
  }

  /** The response verifies, or may go without a signature because there is no session key. */
  predicate Trusts(ctx: ICtx, call: ICall) {
    call.verify.Ok? || (call.verify == Err(MissingSignature) && !ctx.keyed)
  }

  /** Every reply to a waiting context, with the loop and its fall-back told as one table: a failed ticket is answered
      with the certificate's assertion, an error ends the exchange, the odd status changes nothing, and a
      response that is trusted establishes the context, with the token of the extra round trip if it asked for
      one. */
  lemma ReplyExactly(ctx: ICtx, call: ICall, reply: Reply)
    requires Valid(ctx) && ctx.state != Established && !Diverges(ctx, call, Some(reply))
    ensures InitCall(Some(ctx), call, Some(reply)) ==
            if !call.parsed || !call.finished then RELEASED
            else if reply.minor == ReauthFailed then
              if call.fallback.Some? && call.made then
                (Some(ICtx(RetryAuthenticate, false, ctx.keyed, ctx.xrt, call.fallback, 1)), Continue, Some(Assertion(call.fallback.value)))
              else RELEASED
            else if reply.major == Failure then RELEASED
            else if reply.minor == OtherMinor then (Some(ctx), reply.major, None)
            else
              var xrt := reply.jti && call.verify.Ok?;
              if Trusts(ctx, call) && (xrt ==> call.sentXrt) && call.ready then
                (Some(ctx.(state := Established, xrt := ctx.xrt || xrt)), Complete, if xrt then Some(XrtToken) else None)
              else RELEASED
  {
    var r := Begin(ctx, Some(reply));
    LoopEndsExactly(ctx, call, Some(reply));
    LoopSplits(Iterate(r, call), call, 1);
  }

  /** So a ticket that failed is answered with the certificate's assertion, and the context no longer counts as one
      that used a ticket. */
  lemma FallsBack(ctx: ICtx, call: ICall, reply: Reply)
    requires Valid(ctx) && ctx.state == Authenticate && ctx.reauth && reply.minor == ReauthFailed
    requires call.parsed && call.made && call.finished && call.fallback.Some?
    ensures var (after, major, output) := InitCall(Some(ctx), call, Some(reply));
            && after.Some? && after.value.state == RetryAuthenticate && !after.value.reauth && after.value.cred == call.fallback
            && major == Continue && output == Some(Assertion(call.fallback.value))
  {
    hide InitCall;
    ReplyExactly(ctx, call, reply);
  }
}
