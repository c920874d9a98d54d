/**
 The two halves of device binding put together: a late request that still shows its SSO session to a handler comes
 from a browser that lately proved the key.
 */
module SessionKeyPossession {
  import opened Wrappers
  import opened Numerals
  import opened Cookies
  import opened SessionStamp
  import opened SessionKey
  import opened SessionKeyRuns
  import Cache = SessionKeyCache

  /** Nothing is logged, or the delivery of this request as it arrived. */
  ghost predicate LogsArrival(st: State, next: State, request: Request, inner: Headers) {
    next.log == st.log
    || exists seen, failed :: next.log == st.log + [Delivered(request, inner, seen, st.nanos, st.secs, failed)]
  }

  lemma DeliverLogs(st: State, request: Request, inner: Headers, seen: Headers)
    ensures LogsArrival(st, Deliver(st, request, inner, seen, st.nanos, st.secs, false), request, inner)
  {
  }

  lemma EnforceLogs(env: Env, st: State, id: nat, request: Request, inner: Headers, session: string, valid: bool)
    ensures LogsArrival(st, Enforce(env, st, id, request, inner, session, valid), request, inner)
  {
    var answer := Cache.Answer(st.cache, CacheKey(env.site, session), st.nanos);
    if valid {
      DeliverLogs(st, request, inner, inner);
    } else if answer.Some? {
      DeliverLogs(st, request, inner, Guarded(inner, answer.value));
    }
  }

  lemma RefreshLogs(st: State, id: nat, request: Request, session: Option<string>)
    ensures RefreshArrives(st, id, request, session).log == st.log
  {
  }

  lemma ArriveLogs(env: Env, st: State, id: nat, request: Request)
    requires ArriveStep(env, st, id, request).Some?
    ensures LogsArrival(st, ArriveStep(env, st, id, request).value, request, BindRequest(env.site.policy, request.cookies))
  {
    var inner := BindRequest(env.site.policy, request.cookies);
    var session := Get(inner, SSO_SESSION_COOKIE);
    if request.path == REGISTRATION_PATH {
    } else if request.path == REFRESH_PATH {
      RefreshLogs(st, id, request, session);
    } else if Exempt(request.path) || session.None? {
      DeliverLogs(st, request, inner, inner);
    } else {
      EnforceLogs(env, st, id, request, inner, session.value,
                  HasValidShortCookie(env.site, inner, session.value, st.secs));
    }
  }

  /** A step appends at most one event to the log. */
  predicate LogsOne(st: State, next: State) {
    st.log <= next.log && |next.log| <= |st.log| + 1
  }

  lemma ArrivalLogsOne(st: State, next: State, request: Request, inner: Headers)
    requires LogsArrival(st, next, request, inner)
    ensures LogsOne(st, next)
  {
  }

  lemma StepLogs(env: Env, st: State, move: Move)
    requires Step(env, st, move).Some?
    ensures LogsOne(st, Step(env, st, move).value)
  {
    match move {
      case Arrive(id, request) =>
        ArriveLogs(env, st, id, request);
        ArrivalLogsOne(st, ArriveStep(env, st, id, request).value, request, BindRequest(env.site.policy, request.cookies));
      case Finish(id) => FinishLogs(env, st, id);
      case _ =>
    }
  }

  lemma FinishLogs(env: Env, st: State, id: nat)
    requires FinishStep(env, st, id).Some?
    ensures LogsOne(st, FinishStep(env, st, id).value)
  {
  }

  lemma {:induction false} RunLogs(env: Env, st: State, moves: seq<Move>)
    requires Run(env, st, moves).Some?
    ensures st.log <= Run(env, st, moves).value.log
    decreases |moves|
  {
    if moves != [] {
      StepLogs(env, st, moves[0]);
      RunLogs(env, Step(env, st, moves[0]).value, moves[1..]);
    }
  }

  /** The step of a run that logged its event number `i`. */
  lemma {:induction false} LoggedBy(env: Env, st: State, moves: seq<Move>, i: nat) returns (before: seq<Move>, at: State, move: Move)
    requires Run(env, st, moves).Some? && |st.log| <= i < |Run(env, st, moves).value.log|
    ensures Run(env, st, before) == Some(at) && Step(env, at, move).Some?
    ensures var log := Run(env, st, moves).value.log; at.log == log[..i] && Step(env, at, move).value.log == log[..i + 1]
    decreases |moves|
  {
    var log := Run(env, st, moves).value.log;
    var next := Step(env, st, moves[0]).value;
    StepLogs(env, st, moves[0]);
    RunLogs(env, next, moves[1..]);
    if |next.log| > i {
      before, at, move := [], st, moves[0];
      assert st.log == log[..i] && next.log == log[..i + 1];
    } else {
      var rest;
      rest, at, move := LoggedBy(env, next, moves[1..], i);
      before := [moves[0]] + rest;
      RunCons(env, st, moves[0], rest, next);
    }
  }

  /** A delivery whose short cookie was valid on arrival is logged by the arrival itself. */
  lemma ValidDeliveryArrives(env: Env, at: State, move: Move, e: Event, session: string)
    requires Inv(env, at) && Step(env, at, move).Some? && Step(env, at, move).value.log == at.log + [e]
    requires e.Delivered? && !Exempt(e.request.path) && Get(Inner(env, e), SSO_SESSION_COOKIE) == Some(session)
    requires HasValidShortCookie(env.site, Inner(env, e), session, e.secs)
    ensures e.secs == at.secs && session in env.sessions
  {
    match move {
      case Arrive(id, request) =>
        ArriveLogs(env, at, id, request);
        ArrivalDelivers(at, ArriveStep(env, at, id, request).value, request, BindRequest(env.site.policy, request.cookies), e);
        ArriveKnown(env, at, id, request, session);
      case Finish(id) =>
        FinishDelivers(env, at, id, e, session);
      case AnswerKey(id, answer) =>
        AnswerKeyDelivers(at, id, answer, e);
      case _ =>
        OtherMoveDelivers(env, at, move, e);
    }
  }

  lemma OtherMoveDelivers(env: Env, at: State, move: Move, e: Event)
    requires !move.Arrive? && !move.Finish? && !move.AnswerKey?
    requires Step(env, at, move).Some? && Step(env, at, move).value.log == at.log + [e]
    ensures !e.Delivered?
  {
    assert (at.log + [e])[|at.log|] == e;
  }

  lemma AnswerKeyDelivers(at: State, id: nat, answer: KeyAnswer, e: Event)
    requires AnswerKeyStep(at, id, answer).Some? && AnswerKeyStep(at, id, answer).value.log == at.log + [e]
    ensures !e.Delivered?
  {
    assert (at.log + [e])[|at.log|] == e;
  }

  lemma ArrivalDelivers(at: State, next: State, request: Request, inner: Headers, e: Event)
    requires LogsArrival(at, next, request, inner) && next.log == at.log + [e]
    ensures e.Delivered? && e.request == request && e.inner == inner && e.secs == at.secs
  {
    assert (at.log + [e])[|at.log|] == e;
  }

  lemma ArriveKnown(env: Env, at: State, id: nat, request: Request, session: string)
    requires ArriveStep(env, at, id, request).Some?
    requires Get(BindRequest(env.site.policy, request.cookies), SSO_SESSION_COOKIE) == Some(session)
    ensures session in env.sessions
  {
  }

  /** What api was asked about had no valid short cookie. */
  lemma FinishDelivers(env: Env, at: State, id: nat, e: Event, session: string)
    requires Inv(env, at) && FinishStep(env, at, id).Some? && FinishStep(env, at, id).value.log == at.log + [e]
    requires e.Delivered? && Get(Inner(env, e), SSO_SESSION_COOKIE) == Some(session)
    ensures !HasValidShortCookie(env.site, Inner(env, e), session, e.secs)
  {
    assert CallOk(env, at, at.calls[id]);
    assert (at.log + [e])[|at.log|] == e;
  }

  /**
   In every run, a guarded request that arrives at least 60 seconds plus the cache delay after api bound its session,
   and reaches its handler with the SSO cookie, carried a valid short cookie. Unless that was forged, web had issued it
   less than 600 seconds before, for this session, after api answered that the session is bound.
   */
  lemma LateRequestsProveTheKey(env: Env, st: State, i: nat, session: string)
    requires CollisionFree(env) && Reachable(env, st) && i < |st.log| && st.log[i].Delivered?
    requires !Exempt(st.log[i].request.path) && Get(Inner(env, st.log[i]), SSO_SESSION_COOKIE) == Some(session)
    requires session in st.boundAt && st.boundAt[session] + Cache.BINDING_CACHE_TTL + env.delay <= st.log[i].arrived
    requires Get(st.log[i].seen, SSO_SESSION_COOKIE).Some?
    ensures var e := st.log[i];
            var cookie := Get(Inner(env, e), BoundCookieName(env.site));
            && cookie.Some? && BoundCookieIsValid(env.site.crypto, env.site.key, session, cookie.value, e.secs)
            && (Unforged(env, st.log[..i], session, cookie.value) ==>
                  exists k, j | 0 <= j < k < i ::
                    && st.log[j] == ApiBound(session)
                    && IsBoundReply(st.log[k]) && st.log[k].session == session
                    && e.secs - BOUND_COOKIE_MAX_AGE_SECS < st.log[k].secs <= e.secs)
  {
    var e := st.log[i];
    if !HasValidShortCookie(env.site, Inner(env, e), session, e.secs) {
      LongCookieAloneStopsWorking(env, st, e, session, SSO_SESSION_COOKIE);
      assert false;
    }
    var cookie := Get(Inner(env, e), BoundCookieName(env.site)).value;
    if Unforged(env, st.log[..i], session, cookie) {
      var at := ArrivalState(env, st, i, session);
      IssuedBefore(env, at, session, cookie, st.log, i);
    }
  }

  /** The state in which such a request arrived. */
  lemma ArrivalState(env: Env, st: State, i: nat, session: string) returns (at: State)
    requires CollisionFree(env) && Reachable(env, st) && i < |st.log| && st.log[i].Delivered?
    requires !Exempt(st.log[i].request.path) && Get(Inner(env, st.log[i]), SSO_SESSION_COOKIE) == Some(session)
    requires HasValidShortCookie(env.site, Inner(env, st.log[i]), session, st.log[i].secs)
    ensures Reachable(env, at) && at.log == st.log[..i] && at.secs == st.log[i].secs && session in env.sessions
  {
    var move;
    at, move := ReachedBefore(env, st, i);
    ReachableInv(env, at);
    ValidDeliveryArrives(env, at, move, st.log[i], session);
  }

  lemma ReachedBefore(env: Env, st: State, i: nat) returns (at: State, move: Move)
    requires Reachable(env, st) && i < |st.log|
    ensures Reachable(env, at) && at.log == st.log[..i]
    ensures Step(env, at, move).Some? && Step(env, at, move).value.log == at.log + [st.log[i]]
  {
    var secs: I64, moves :| ClockInRange(secs) && Run(env, Init(secs), moves) == Some(st);
    var before;
    before, at, move := LoggedBy(env, Init(secs), moves, i);
    StillReachable(env, secs, before, at);
    OneMore(st.log, i);
  }

  lemma StillReachable(env: Env, secs: I64, moves: seq<Move>, at: State)
    requires ClockInRange(secs) && Run(env, Init(secs), moves) == Some(at)
    ensures Reachable(env, at)
  {
  }

  lemma OneMore<T>(s: seq<T>, i: nat)
    requires i < |s|
    ensures s[..i + 1] == s[..i] + [s[i]]
  {
  }

  lemma IssuedBefore(env: Env, at: State, session: string, cookie: string, log: seq<Event>, i: nat)
    requires CollisionFree(env) && Reachable(env, at) && session in env.sessions && i <= |log| && at.log == log[..i]
    requires Unforged(env, at.log, session, cookie)
    requires BoundCookieIsValid(env.site.crypto, env.site.key, session, cookie, at.secs)
    ensures exists k, j | 0 <= j < k < i ::
              && log[j] == ApiBound(session) && IsBoundReply(log[k]) && log[k].session == session
              && at.secs - BOUND_COOKIE_MAX_AGE_SECS < log[k].secs <= at.secs
  {
    ShortCookiesFollowBinding(env, at, session, cookie);
    var k, j :| && 0 <= j < k < |at.log| && at.log[j] == ApiBound(session)
                && IsBoundReply(at.log[k]) && at.log[k].session == session
                && at.secs - BOUND_COOKIE_MAX_AGE_SECS < at.log[k].secs <= at.secs;
    assert log[j] == at.log[j] && log[k] == at.log[k];
  }
}
