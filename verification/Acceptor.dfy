/** The acceptor's state machine (mech_browserid/accept_sec_context.c; GSS_Accept_sec_context,
    section 2.2.2 of RFC 2743). What the library and the system answer during a call are
    parameters of the call. */
module Acceptor {
  import opened Wrappers
  import opened Ticket

  // ----- states and status codes -----

  datatype State = Initial | Authenticate | RetryInitial | RetryAuthenticate | ExtraRoundTrip | Established {
    function Value(): nat {
      match this
      case Initial => 0x01
      case Authenticate => 0x02
      case RetryInitial => 0x04
      case RetryAuthenticate => 0x08
      case ExtraRoundTrip => 0x10
      case Established => 0x20
    }

    /** GSSBID_STATE_NEXT: the state's bit, shifted left. */
    function Next(): (next: State)
      requires this != Established
      ensures next.Value() == 2 * Value()
    {
      match this
      case Initial => Authenticate
      case Authenticate => RetryInitial
      case RetryInitial => RetryAuthenticate
      case RetryAuthenticate => ExtraRoundTrip
      case ExtraRoundTrip => Established
    }
  }

  /** GSS_S_COMPLETE, GSS_S_CONTINUE_NEEDED, or a major status that GSS_ERROR selects. */
  datatype Major = Complete | Continue | Failure

  /** The minor status; of the error codes only GSSBID_REAUTH_FAILED is told apart. */
  datatype Minor = NoMinor | ReauthFailed | OtherMinor

  /** `gssBidMapError`: an error has an error major and a minor other than REAUTH_FAILED. */
  function MapError(r: Result<()>): (Major, Minor) {
    if r.Ok? then (Complete, NoMinor) else (Failure, OtherMinor)
  }

  // ----- contexts and calls -----

  /** The fields of an acceptor context. `verified` and `proved` record that an assertion passed
      the local decision, and that a token of the extra round trip was verified. */
  datatype Ctx = Ctx(state: State, reauth: bool, xrt: bool, gss: GssFlags, verified: bool, proved: bool)

  /** GSS_C_MUTUAL_FLAG, GSS_C_DCE_STYLE and GSS_C_IDENTIFY_FLAG. */
  datatype GssFlags = GssFlags(mutual: bool, dce: bool, identify: bool)

  const FRESH := Ctx(Initial, false, false, GssFlags(false, false, false), false, false)

  /** What `BIDVerifyAssertion` reports; `locally` says that its local decision accepted. */
  datatype Heard = Heard(result: Result<()>, flags: Flags, locally: bool)

  /** One call: whether there is a token and it parses, and how each operation turns out. `jti` and `certified` say that
      the response, if it could be made, carries a "jti", and that a certificate signed it. */
  datatype Call = Call(present: bool, parsed: bool, alloc: bool, prepared: bool, heard: Heard, hostSpnAlias: bool,
                       xrt: Result<()>, ready: bool, responded: bool, jti: bool, certified: bool, wrapped: bool, finished: bool)

  /** What the response tells the initiator: an error status, and whether it carries a "jti". */
  datatype Reply = Reply(major: Major, minor: Minor, jti: bool)

  /** Errors of a ticket that a certificate-signed assertion can recover from. */
  predicate Recoverable(r: Result<()>, hostSpnAlias: bool) {
    r == Err(InvalidAssertion) || r == Err(ExpiredAssertion) || (!hostSpnAlias && r == Err(BadAudience))
  }

  // ----- the inner call -----

  /** The flags that an assertion raises. A ticket vouches for mutual authentication only if the
      initiator asked for it. */
  function RaiseGss(gss: GssFlags, flags: Flags): GssFlags {
    GssFlags(gss.mutual || (flags.reauthMutual && flags.mutualAuth), gss.dce || flags.dce, gss.identify || flags.identify)
  }

  /** `makeResponseToken`: a response that a certificate signed makes the context mutually authenticated. */
  function Respond(ctx: Ctx, call: Call): Ctx {
    if call.responded && call.certified then ctx.(gss := ctx.gss.(mutual := true)) else ctx
  }

  /** The `switch` for a context that awaits an assertion. */
  function Hear(ctx: Ctx, call: Call): (Ctx, Major, Minor) {
    var h, (major, minor) := call.heard, MapError(call.heard.result);
    var failed := h.flags.reauth && Recoverable(h.result, call.hostSpnAlias);
    var ctx := ctx.(reauth := ctx.reauth || (h.flags.reauth && !failed),
                    xrt := ctx.xrt || h.flags.xrt,
                    gss := RaiseGss(ctx.gss, h.flags),
                    verified := ctx.verified || h.locally);
    (ctx, if failed || h.flags.xrt then Continue else major, if failed then ReauthFailed else minor)
  }

  /** `gssBidAcceptSecContext`. */
  function Inner(ctx: Ctx, call: Call): (Ctx, Major, Option<Reply>) {
    if !call.prepared || ctx.state == Established then (ctx, Failure, None)
    else if ctx.state == ExtraRoundTrip then
      var ctx := ctx.(proved := ctx.proved || call.xrt.Ok?);
      var major := MapError(call.xrt).0;
      (ctx.(state := Established), if major == Complete && !call.ready then Failure else major, None)
    else
      var (ctx, major, minor) := Hear(ctx, call);
      var (major, minor) := if major == Complete && !call.ready then (Failure, OtherMinor) else (major, minor);
      var ctx := Respond(ctx, call);
      if major == Failure || !call.responded then (ctx, Failure, None)
      else
        var next := if major == Complete then Established else if ctx.xrt then ExtraRoundTrip else RetryInitial;
        (ctx.(state := next), major, Some(Reply(Complete, minor, call.jti)))
  }

  // ----- the wrapper -----

  /** `gss_accept_sec_context`: the handle, None once released. */
  function Accept(handle: Option<Ctx>, call: Call): (Option<Ctx>, Major, Option<Reply>) {
    if !call.present then (handle, Failure, None)
    else if !call.parsed || (handle.None? && !call.alloc) then (None, Failure, None)
    else
      var (ctx, major, reply) := Inner(if handle.Some? then handle.value else FRESH, call);
      if major == Failure || (reply.Some? && !call.wrapped) || !call.finished then (None, Failure, None)
      else (Some(ctx), major, reply)
  }

  // ----- in place -----

  class SecContext {
    var state: State
    var reauth: bool
    var xrt: bool
    var gss: GssFlags
    ghost var verified: bool
    ghost var proved: bool

    ghost function View(): Ctx
      reads this
    {
      Ctx(state, reauth, xrt, gss, verified, proved)
    }

    constructor ()
      ensures View() == FRESH
    {
      state := Initial;
      reauth, xrt, verified, proved := false, false, false, false;
      gss := GssFlags(false, false, false);
    }

    method HearAssertion(call: Call) returns (major: Major, minor: Minor)
      modifies this
      ensures (View(), major, minor) == Hear(old(View()), call)
    {
      hide Recoverable, RaiseGss;
      var h := call.heard;
      var mapped := MapError(h.result);
      major, minor := mapped.0, mapped.1;
      verified := verified || h.locally;
      if h.flags.reauth {
        if Recoverable(h.result, call.hostSpnAlias) {
          major, minor := Continue, ReauthFailed;
        } else {
          reauth := true;
        }
      }
      gss := RaiseGss(gss, h.flags);
      if h.flags.xrt {
        major := Continue;
        xrt := true;
      }
    }

    method AcceptInner(call: Call) returns (major: Major, reply: Option<Reply>)
      requires state != Authenticate && state != RetryAuthenticate
      modifies this
      ensures (View(), major, reply) == Inner(old(View()), call)
    {
      hide Hear;
      reply := None;
      if !call.prepared || state == Established {
        return Failure, None;
      }
      var minor;
      var xrtState := state == ExtraRoundTrip;
      if xrtState {
        var mapped := MapError(call.xrt);
        major, minor := mapped.0, mapped.1;
        proved := proved || call.xrt.Ok?;
      } else {
        major, minor := HearAssertion(call);
      }
      if major == Complete && !call.ready {
        major, minor := Failure, OtherMinor;
      }
      if !xrtState {
        if !call.responded {
          major := Failure;
        } else if call.certified {
          gss := gss.(mutual := true);
        }
        if major == Failure {
          return Failure, None;
        }
        reply := Some(Reply(Complete, minor, call.jti));
      }
      if major == Continue {
        state := if xrt then ExtraRoundTrip else RetryInitial;
      } else {
        state := Established;
      }
    }
  }

  /** The caller's handle. */
  class Handle {
    var ctx: SecContext?

    ghost function View(): Option<Ctx>
      reads this, if ctx == null then {} else {ctx}
    {
      if ctx == null then None else Some(ctx.View())
    }

    constructor ()
      ensures View() == None
    {
      ctx := null;
    }

    method AcceptSecContext(call: Call) returns (major: Major, reply: Option<Reply>)
      requires ctx != null ==> ctx.state != Authenticate && ctx.state != RetryAuthenticate
      modifies this, ctx
      ensures (View(), major, reply) == Accept(old(View()), call)
    {
      hide Inner;
      if !call.present {
        return Failure, None;
      }
      reply := None;
      if !call.parsed {
        major := Failure;
      } else if ctx == null && !call.alloc {
        major := Failure;
      } else {
        if ctx == null {
          ctx := new SecContext();
        }
        major, reply := ctx.AcceptInner(call);
        if reply.Some? && !call.wrapped {
          major := Failure;
        }
        if !call.finished {
          major := Failure;
        }
      }
      if major == Failure {
        ctx, reply := null, None;
      }
    }
  }

  // ----- the invariant of all runs -----

  /** What the library can answer to a context that awaits an assertion: the ticket flag only in its first
      round, options only after the local decision, no recoverable error after it, and a response with a
      "jti" exactly for the option. */
  ghost predicate Feasible(call: Call, state: State) {
    var h := call.heard;
    state != ExtraRoundTrip ==>
      && (h.result.Ok? ==> h.locally)
      && (h.flags.xrt ==> h.locally)
      && (h.flags.reauth ==> state == Initial)
      && (h.locally ==> !Recoverable(h.result, call.hostSpnAlias))
      && (call.responded ==> call.jti == h.flags.xrt)
  }

  /** A live context between calls. */
  ghost predicate Valid(ctx: Ctx) {
    && (ctx.state == Initial || ctx.state == RetryInitial ==> !ctx.xrt && !ctx.reauth)
    && (ctx.state == ExtraRoundTrip ==> ctx.verified && ctx.xrt)
    && (ctx.state == Established ==> ctx.verified && (ctx.xrt ==> ctx.proved))
    && ctx.state != Authenticate && ctx.state != RetryAuthenticate
  }

  ghost predicate ValidHandle(handle: Option<Ctx>) {
    handle.Some? ==> Valid(handle.value) && handle.value.state != Initial
  }

  function StateOf(handle: Option<Ctx>): State {
    if handle.Some? then handle.value.state else Initial
  }

  /** Tokens that can still be consumed. */
  function Rank(state: State): nat {
    match state
    case Initial => 3
    case RetryInitial => 2
    case ExtraRoundTrip => 1
    case _ => 0
  }

  /** Every call leaves the handle released, established with COMPLETE, or waiting with CONTINUE in
      RETRY_INITIAL or EXTRA_ROUND_TRIP, and a live handle is valid. A call without a token is the
      exception: it reports an error and leaves the handle as it was. */
  lemma CallKeeps(handle: Option<Ctx>, call: Call)
    requires ValidHandle(handle) && Feasible(call, StateOf(handle))
    ensures var (after, major, reply) := Accept(handle, call);
            && ValidHandle(after)
            && (call.present ==>
                  || (after.None? && major == Failure)
                  || (StateOf(after) == Established && major == Complete)
                  || ((StateOf(after) == RetryInitial || StateOf(after) == ExtraRoundTrip) && major == Continue))
            && (!call.present ==> after == handle && major == Failure)
            && (call.present && after.Some? ==> Rank(StateOf(after)) < Rank(StateOf(handle)))
  {
  }

  /** Every operation of the acceptor around the verification and the readiness of the context succeeds. */
  predicate Operates(handle: Option<Ctx>, call: Call) {
    && call.present && call.parsed && (handle.None? ==> call.alloc) && call.prepared
    && call.responded && call.wrapped && call.finished
  }

  /** What a call makes of a context that awaits an assertion: a ticket that failed in a way that a certificate can
      mend is answered with REAUTH_FAILED and awaited once more; "xrt" moves on to the extra round trip with the
      verdict's status; otherwise an accepted assertion establishes the context and any error releases it. */
  lemma AwaitingExactly(handle: Option<Ctx>, call: Call)
    requires ValidHandle(handle) && (StateOf(handle) == Initial || StateOf(handle) == RetryInitial)
    requires Feasible(call, StateOf(handle)) && call.present
    ensures var (after, major, reply) := Accept(handle, call);
            var h := call.heard;
            if !Operates(handle, call) then (after, major, reply) == (None, Failure, None)
            else if h.flags.reauth && Recoverable(h.result, call.hostSpnAlias) then
              && StateOf(after) == RetryInitial && !after.value.reauth && !after.value.xrt
              && major == Continue && reply == Some(Reply(Complete, ReauthFailed, false))
            else if h.flags.xrt then
              && StateOf(after) == ExtraRoundTrip && major == Continue
              && reply == Some(Reply(Complete, if h.result.Ok? then NoMinor else OtherMinor, true))
            else if h.result.Ok? && call.ready then
              && StateOf(after) == Established && after.value.reauth == h.flags.reauth && !after.value.xrt
              && major == Complete && reply == Some(Reply(Complete, NoMinor, false))
            else (after, major, reply) == (None, Failure, None)
    ensures var (after, _, _) := Accept(handle, call);
            var h, before := call.heard.flags, if handle.Some? then handle.value.gss else GssFlags(false, false, false);
            after.Some? ==>
              && (after.value.gss.mutual <==> before.mutual || (h.reauthMutual && h.mutualAuth) || call.certified)
              && (after.value.gss.dce <==> before.dce || h.dce) && (after.value.gss.identify <==> before.identify || h.identify)
  {
  }

  /** What a call makes of a context that awaits the token of the extra round trip. */
  lemma RoundTripExactly(handle: Option<Ctx>, call: Call)
    requires ValidHandle(handle) && StateOf(handle) == ExtraRoundTrip && call.present
    ensures Accept(handle, call) ==
            if call.parsed && call.prepared && call.xrt.Ok? && call.ready && call.finished then
              (Some(handle.value.(state := Established, proved := true)), Complete, None)
            else (None, Failure, None)
  {
  }

  /** A handle fed with tokens until it is released or established. */
  function Feed(handle: Option<Ctx>, calls: seq<Call>): Option<Ctx>
    decreases |calls|
  {
    if calls == [] then handle
    else
      var after := Accept(handle, calls[0]).0;
      if after.None? || after.value.state == Established then after else Feed(after, calls[1..])
  }

  ghost predicate FeasibleRun(handle: Option<Ctx>, calls: seq<Call>)
    decreases |calls|
  {
    calls != [] ==>
      && calls[0].present && Feasible(calls[0], StateOf(handle))
      && var after := Accept(handle, calls[0]).0;
      after.None? || after.value.state == Established || FeasibleRun(after, calls[1..])
  }

  /** Every run ends within three tokens, and a handle that is then alive is established: its
      assertion was verified and, if an extra round trip was asked for, that token too. */
  lemma {:induction false} EndsWithinThree(handle: Option<Ctx>, calls: seq<Call>)
    requires ValidHandle(handle) && FeasibleRun(handle, calls)
    requires |calls| >= Rank(StateOf(handle)) && (handle.Some? ==> handle.value.state != Established)
    ensures var end := Feed(handle, calls);
            end.Some? ==> end.value.state == Established && end.value.verified && (end.value.xrt ==> end.value.proved)
    decreases |calls|
  {
    hide Accept;
    CallKeeps(handle, calls[0]);
    var after := Accept(handle, calls[0]).0;
    if after.Some? && after.value.state != Established {
      EndsWithinThree(after, calls[1..]);
    }
  }
}
