/**
 Whole runs of the device-binding protocol: browsers send arbitrary requests, api answers when it
 likes, other requests interleave between a question and the use of its answer, and two clocks move.

 `Step` is the only way a run moves. It is a function of the move, so a theorem about every list of
 moves is a theorem about every run.
 */
module SessionKeyRuns {
  import opened Wrappers
  import opened Numerals
  import opened Cookies
  import opened SessionStamp
  import opened SessionKey
  import Cache = SessionKeyCache

  /**
   `delay` bounds the time between api's answer and the moment web puts it in its cache.
   `sessions` are the session identifiers a run mentions.
   */
  datatype Env = Env(site: Site, delay: nat, sessions: set<string>)

  /** No two sessions of the run have the same SHA-256. */
  ghost predicate CollisionFree(env: Env) {
    forall a, b | a in env.sessions && b in env.sessions && env.site.crypto.sha(a) == env.site.crypto.sha(b) :: a == b
  }

  /** A question on its way to api, or its answer on the way back. Times are nanoseconds. */
  datatype Call =
    | Check(session: string, request: Request, inner: Headers, arrived: nat, secs: I64, answer: Option<BindingAnswer>, answeredAt: nat)
    | Probe(session: string, identifier: string, answer: Option<BindingAnswer>)
    | Register(session: string, keyAnswer: Option<KeyAnswer>)
    | Refresh(session: string, identifier: string, keyAnswer: Option<KeyAnswer>)

  datatype Event =
    | ApiBound(session: string)
    | RegisterReply(session: string, answer: KeyAnswer, secs: I64)
    | RefreshReply(session: string, identifier: string, answer: KeyAnswer, secs: I64)
    | ProbeReply(session: string, identifier: string, bindingAnswer: BindingAnswer, secs: I64)
    | SignInReply(session: string, secs: I64)
    | Delivered(request: Request, inner: Headers, seen: Headers, arrived: nat, secs: I64, failed: bool)

  /** `nanos` is web's monotonic clock, `secs` its wall clock; `boundAt` is api's own record. */
  datatype State = State(
    nanos: nat, secs: I64, cache: Cache.Entries, boundAt: map<string, nat>, calls: map<nat, Call>, log: seq<Event>)

  datatype Move =
    | Tick(nanos: nat, secs: int)
    | Arrive(id: nat, request: Request)
    | AnswerBinding(id: nat, binding: BindingAnswer)
    | AnswerKey(id: nat, answer: KeyAnswer)
    | Finish(id: nat)
    | BindUnseen(session: string)
    | SignIn(session: string)

  function Init(secs: I64): State {
    State(0, secs, map[], map[], map[], [])
  }

  predicate ClockInRange(secs: int) {
    0 <= secs <= I64_MAX - BOUND_COOKIE_MAX_AGE_SECS
  }

  /** The middleware and the two handlers, up to the point where they need an answer from api. */
  function ArriveStep(env: Env, st: State, id: nat, request: Request): Option<State> {
    var inner := BindRequest(env.site.policy, request.cookies);
    var session := Get(inner, SSO_SESSION_COOKIE);
    if id in st.calls || (session.Some? && session.value !in env.sessions) then None
    else if request.path == REGISTRATION_PATH then
      Some(if session.None? || HeaderStr(request.proof).None? then st
           else st.(calls := st.calls[id := Register(session.value, None)]))
    else if request.path == REFRESH_PATH then
      Some(RefreshArrives(st, id, request, session))
    else if Exempt(request.path) || session.None? then
      Some(Deliver(st, request, inner, inner, st.nanos, st.secs, false))
    else
      Some(Enforce(env, st, id, request, inner, session.value, HasValidShortCookie(env.site, inner, session.value, st.secs)))
  }

  /** `enforce`, once the SSO session is known and its short cookie judged. */
  function Enforce(env: Env, st: State, id: nat, request: Request, inner: Headers, session: string, valid: bool): State {
    if valid then Deliver(st, request, inner, inner, st.nanos, st.secs, false)
    else match Cache.Answer(st.cache, CacheKey(env.site, session), st.nanos)
      case Some(bound) => Deliver(st, request, inner, Guarded(inner, bound), st.nanos, st.secs, false)
      case None => st.(calls := st.calls[id := Check(session, request, inner, st.nanos, st.secs, None, 0)])
  }

  function RefreshArrives(st: State, id: nat, request: Request, session: Option<string>): State {
    var identifier := HeaderStr(request.identifier);
    if session.None? || identifier.None? || !IsSessionIdentifier(identifier.value) then st
    else if HeaderStr(request.proof).None? then
      st.(calls := st.calls[id := Probe(session.value, identifier.value, None)])
    else
      st.(calls := st.calls[id := Refresh(session.value, identifier.value, None)])
  }

  function Guarded(inner: Headers, bound: bool): Headers {
    if bound then StripSessionCookie(inner) else inner
  }

  function Deliver(st: State, request: Request, inner: Headers, seen: Headers, arrived: nat, secs: I64, failed: bool): State {
    st.(log := st.log + [Delivered(request, inner, seen, arrived, secs, failed)])
  }

  /** api tells the truth about what it has bound, or fails. */
  predicate Truthful(st: State, session: string, answer: BindingAnswer) {
    match answer
    case BoundTo(_) => session in st.boundAt
    case Unbound => session !in st.boundAt
    case BindingFailed => true
  }

  function AnswerBindingStep(st: State, id: nat, binding: BindingAnswer): Option<State> {
    if id !in st.calls then None
    else match st.calls[id]
      case Check(session, request, inner, arrived, secs, answer, _) =>
        if answer.Some? || !Truthful(st, session, binding) then None
        else Some(st.(calls := st.calls[id := Check(session, request, inner, arrived, secs, Some(binding), st.nanos)]))
      case Probe(session, identifier, answer) =>
        if answer.Some? || !Truthful(st, session, binding) then None
        else Some(st.(calls := st.calls[id := Probe(session, identifier, Some(binding))]))
      case _ => None
  }

  function Record(boundAt: map<string, nat>, session: string, now: nat): map<string, nat> {
    if session in boundAt then boundAt else boundAt[session := now]
  }

  function AnswerKeyStep(st: State, id: nat, answer: KeyAnswer): Option<State> {
    if id !in st.calls then None
    else match st.calls[id]
      case Register(session, given) =>
        if given.Some? then None
        else
          var st' := st.(calls := st.calls[id := Register(session, Some(answer))]);
          Some(if answer.Bound?
               then st'.(boundAt := Record(st.boundAt, session, st.nanos), log := st.log + [ApiBound(session)])
               else st')
      case Refresh(session, identifier, given) =>
        if given.Some? || (answer.Bound? && session !in st.boundAt) then None
        else
          var st' := st.(calls := st.calls[id := Refresh(session, identifier, Some(answer))]);
          Some(if answer.Bound? then st'.(log := st.log + [ApiBound(session)]) else st')
      case _ => None
  }

  /** `enforce`, once api has answered or failed to. */
  function Conclude(env: Env, st: State, request: Request, inner: Headers, session: string, arrived: nat, secs: I64, answer: BindingAnswer): State {
    if answer.BindingFailed? then
      Deliver(st, request, inner, Guarded(inner, true), arrived, secs, true)
    else
      var cache := Cache.Remember(st.cache, CacheKey(env.site, session), answer.BoundTo?, st.nanos);
      Deliver(st.(cache := cache), request, inner, Guarded(inner, answer.BoundTo?), arrived, secs, false)
  }

  function FinishStep(env: Env, st: State, id: nat): Option<State> {
    if id !in st.calls then None
    else
      var rest := st.(calls := st.calls - {id});
      match st.calls[id]
      case Check(session, request, inner, arrived, secs, Some(answer), answeredAt) =>
        if st.nanos > answeredAt + env.delay then None
        else Some(Conclude(env, rest, request, inner, session, arrived, secs, answer))
      case Probe(session, identifier, Some(answer)) =>
        Some(rest.(log := st.log + [ProbeReply(session, identifier, answer, st.secs)]))
      case Register(session, Some(answer)) =>
        var cache := if answer.Bound? then Cache.Remember(st.cache, CacheKey(env.site, session), true, st.nanos) else st.cache;
        Some(rest.(cache := cache, log := st.log + [RegisterReply(session, answer, st.secs)]))
      case Refresh(session, identifier, Some(answer)) =>
        Some(rest.(log := st.log + [RefreshReply(session, identifier, answer, st.secs)]))
      case _ => None
  }

  function Step(env: Env, st: State, move: Move): Option<State> {
    match move
    case Tick(nanos, secs) =>
      if ClockInRange(st.secs + secs) then Some(st.(nanos := st.nanos + nanos, secs := st.secs + secs)) else None
    case Arrive(id, request) => ArriveStep(env, st, id, request)
    case AnswerBinding(id, binding) => AnswerBindingStep(st, id, binding)
    case AnswerKey(id, answer) => AnswerKeyStep(st, id, answer)
    case Finish(id) => FinishStep(env, st, id)
    case BindUnseen(session) => Some(st.(boundAt := Record(st.boundAt, session, st.nanos)))
    case SignIn(session) =>
      if session in env.sessions then Some(st.(log := st.log + [SignInReply(session, st.secs)])) else None
  }

  function Run(env: Env, st: State, moves: seq<Move>): Option<State>
    decreases |moves|
  {
    if moves == [] then Some(st)
    else match Step(env, st, moves[0])
      case Some(next) => Run(env, next, moves[1..])
      case None => None
  }

  ghost predicate Reachable(env: Env, st: State) {
    exists secs: I64, moves :: ClockInRange(secs) && Run(env, Init(secs), moves) == Some(st)
  }

  // What a state must satisfy

  predicate CacheEntryOk(env: Env, st: State, session: string) {
    var key := CacheKey(env.site, session);
    key in st.cache ==>
      var e := st.cache[key];
      && e.at <= st.nanos
      && (e.bound ==> session in st.boundAt)
      && (!e.bound && session in st.boundAt ==> e.at <= st.boundAt[session] + env.delay)
  }

  ghost predicate CacheOk(env: Env, st: State) {
    forall s | s in env.sessions :: CacheEntryOk(env, st, s)
  }

  predicate CallOk(env: Env, st: State, call: Call) {
    && call.session in env.sessions
    && match call
       case Check(session, request, inner, arrived, secs, answer, answeredAt) =>
         && !HasValidShortCookie(env.site, inner, session, secs)
         && Get(inner, SSO_SESSION_COOKIE) == Some(session)
         && inner == BindRequest(env.site.policy, request.cookies)
         && !Exempt(request.path)
         && arrived <= st.nanos
         && (answer.Some? ==>
               && arrived <= answeredAt <= st.nanos
               && (answer.value.BoundTo? ==> session in st.boundAt)
               && (answer.value.Unbound? && session in st.boundAt ==> answeredAt <= st.boundAt[session]))
       case Register(session, Some(Bound(_, _))) => session in st.boundAt && ApiBound(session) in st.log
       case Refresh(session, _, Some(Bound(_, _))) => ApiBound(session) in st.log
       case _ => true
  }

  ghost predicate CallsOk(env: Env, st: State) {
    forall id | id in st.calls :: CallOk(env, st, st.calls[id])
  }

  /** What a delivered request may show to the handler, given what api has bound by now. */
  predicate DeliveryOk(env: Env, boundAt: map<string, nat>, e: Event)
    requires e.Delivered?
  {
    var session := Get(e.inner, SSO_SESSION_COOKIE);
    && e.inner == BindRequest(env.site.policy, e.request.cookies)
    && (e.seen == e.inner || e.seen == StripSessionCookie(e.inner))
    && (Exempt(e.request.path) || session.None? || HasValidShortCookie(env.site, e.inner, session.value, e.secs)
        ==> e.seen == e.inner)
    && (session.Some? && !Exempt(e.request.path) && !HasValidShortCookie(env.site, e.inner, session.value, e.secs) ==>
          && (Get(e.seen, SSO_SESSION_COOKIE).Some? && session.value in boundAt
              ==> e.arrived < boundAt[session.value] + Cache.BINDING_CACHE_TTL + env.delay)
          && (Get(e.seen, SSO_SESSION_COOKIE).None? ==> session.value in boundAt || e.failed))
  }

  predicate IsReply(e: Event) {
    e.RegisterReply? || e.RefreshReply? || e.ProbeReply? || e.SignInReply?
  }

  predicate IsBoundReply(e: Event) {
    (e.RegisterReply? || e.RefreshReply?) && e.answer.Bound?
  }

  predicate EventOk(env: Env, st: State, i: nat)
    requires i < |st.log|
  {
    var e := st.log[i];
    && (e.Delivered? ==> e.arrived <= st.nanos && DeliveryOk(env, st.boundAt, e))
    && (!e.Delivered? ==> e.session in env.sessions)
    && (IsReply(e) ==> ClockInRange(e.secs))
    && (IsBoundReply(e) ==> ApiBound(e.session) in st.log[..i])
  }

  ghost predicate LogOk(env: Env, st: State) {
    forall i: nat | i < |st.log| :: EventOk(env, st, i)
  }

  ghost predicate Inv(env: Env, st: State) {
    && ClockInRange(st.secs)
    && (forall s | s in st.boundAt :: st.boundAt[s] <= st.nanos)
    && CacheOk(env, st)
    && CallsOk(env, st)
    && LogOk(env, st)
  }

  // Every step keeps it

  /** Moving the clock forward or binding one more session disturbs nothing that was already true. */
  lemma GrowKeeps(env: Env, st: State, next: State)
    requires Inv(env, st)
    requires next.cache == st.cache && next.calls == st.calls && next.log == st.log
    requires st.nanos <= next.nanos && ClockInRange(next.secs)
    requires forall s | s in st.boundAt :: s in next.boundAt && next.boundAt[s] == st.boundAt[s]
    requires forall s | s in next.boundAt && s !in st.boundAt :: next.boundAt[s] == st.nanos
    ensures Inv(env, next)
  {
    forall s | s in env.sessions ensures CacheEntryOk(env, next, s) {
      assert CacheEntryOk(env, st, s);
    }
    forall id | id in next.calls ensures CallOk(env, next, next.calls[id]) {
      assert CallOk(env, st, st.calls[id]);
    }
    forall i: nat | i < |next.log| ensures EventOk(env, next, i) {
      assert EventOk(env, st, i);
    }
  }

  /** One more log entry, fewer calls, the rest unchanged. */
  lemma AppendKeeps(env: Env, st: State, next: State, e: Event)
    requires Inv(env, st)
    requires next.nanos == st.nanos && next.secs == st.secs && next.boundAt == st.boundAt
    requires CacheOk(env, next)
    requires forall id | id in next.calls :: id in st.calls && next.calls[id] == st.calls[id]
    requires next.log == st.log + [e]
    requires EventOk(env, next, |st.log|)
    ensures Inv(env, next)
  {
    forall id | id in next.calls ensures CallOk(env, next, next.calls[id]) {
      assert CallOk(env, st, st.calls[id]);
    }
    forall i: nat | i < |next.log| ensures EventOk(env, next, i) {
      if i < |st.log| {
        assert EventOk(env, st, i);
        assert next.log[..i] == st.log[..i];
      }
    }
  }

  /** One call added or answered, the rest unchanged. */
  lemma CallKeeps(env: Env, st: State, next: State, id: nat, call: Call)
    requires Inv(env, st)
    requires next == st.(calls := st.calls[id := call])
    requires CallOk(env, st, call)
    ensures Inv(env, next)
  {
    forall s | s in env.sessions ensures CacheEntryOk(env, next, s) {
      assert CacheEntryOk(env, st, s);
    }
    forall i | i in next.calls ensures CallOk(env, next, next.calls[i]) {
      if i != id {
        assert CallOk(env, st, st.calls[i]);
      }
    }
    forall i: nat | i < |next.log| ensures EventOk(env, next, i) {
      assert EventOk(env, st, i);
    }
  }

  /** A put made now keeps the cache honest, provided its value is. */
  lemma RememberKeeps(env: Env, st: State, next: State, session: string, bound: bool)
    requires CollisionFree(env) && CacheOk(env, st) && session in env.sessions
    requires next.nanos == st.nanos && next.boundAt == st.boundAt
    requires next.cache == Cache.Remember(st.cache, CacheKey(env.site, session), bound, st.nanos)
    requires bound ==> session in st.boundAt
    requires !bound && session in st.boundAt ==> st.nanos <= st.boundAt[session] + env.delay
    ensures CacheOk(env, next)
  {
    forall s | s in env.sessions ensures CacheEntryOk(env, next, s) {
      assert CacheEntryOk(env, st, s);
      if CacheKey(env.site, s) == CacheKey(env.site, session) {
        HexInjective(env.site.crypto.sha(s), env.site.crypto.sha(session));
      }
    }
  }

  lemma GuardedReads(inner: Headers, bound: bool)
    requires Get(inner, SSO_SESSION_COOKIE).Some?
    ensures Get(Guarded(inner, bound), SSO_SESSION_COOKIE).Some? <==> !bound
  {
    StripReads(inner, SSO_SESSION_COOKIE);
  }

  /** Delivering a request that is allowed to show what it shows keeps the invariant. */
  lemma DeliverKeeps(env: Env, st: State, e: Event)
    requires Inv(env, st) && e.Delivered? && e.arrived <= st.nanos
    requires DeliveryOk(env, st.boundAt, e)
    ensures Inv(env, st.(log := st.log + [e]))
  {
    var next := st.(log := st.log + [e]);
    CacheUnchanged(env, st, next);
    assert next.log[|st.log|] == e;
    AppendKeeps(env, st, next, e);
  }

  /** A cached answer lets the SSO session through only while it may still be stale. */
  lemma EnforceKeeps(env: Env, st: State, id: nat, request: Request, inner: Headers, session: string, valid: bool)
    requires Inv(env, st) && session in env.sessions && id !in st.calls
    requires valid == HasValidShortCookie(env.site, inner, session, st.secs)
    requires inner == BindRequest(env.site.policy, request.cookies)
    requires Get(inner, SSO_SESSION_COOKIE) == Some(session) && !Exempt(request.path)
    ensures Inv(env, Enforce(env, st, id, request, inner, session, valid))
  {
    var answer := Cache.Answer(st.cache, CacheKey(env.site, session), st.nanos);
    if valid {
      DeliverKeeps(env, st, Delivered(request, inner, inner, st.nanos, st.secs, false));
    } else if answer.Some? {
      GuardedReads(inner, answer.value);
      assert CacheEntryOk(env, st, session);
      DeliverKeeps(env, st, Delivered(request, inner, Guarded(inner, answer.value), st.nanos, st.secs, false));
    } else {
      var call := Check(session, request, inner, st.nanos, st.secs, None, 0);
      CallKeeps(env, st, st.(calls := st.calls[id := call]), id, call);
    }
  }

  lemma ArriveKeeps(env: Env, st: State, id: nat, request: Request)
    requires Inv(env, st) && ArriveStep(env, st, id, request).Some?
    ensures Inv(env, ArriveStep(env, st, id, request).value)
  {
    var inner := BindRequest(env.site.policy, request.cookies);
    var session := Get(inner, SSO_SESSION_COOKIE);
    if request.path == REGISTRATION_PATH {
      if session.Some? && HeaderStr(request.proof).Some? {
        var call := Register(session.value, None);
        CallKeeps(env, st, st.(calls := st.calls[id := call]), id, call);
      }
    } else if request.path == REFRESH_PATH {
      var next := RefreshArrives(st, id, request, session);
      if next != st {
        CallKeeps(env, st, next, id, next.calls[id]);
      }
    } else if Exempt(request.path) || session.None? {
      DeliverKeeps(env, st, Delivered(request, inner, inner, st.nanos, st.secs, false));
    } else {
      EnforceKeeps(env, st, id, request, inner, session.value,
                   HasValidShortCookie(env.site, inner, session.value, st.secs));
    }
  }

  lemma CacheUnchanged(env: Env, st: State, next: State)
    requires CacheOk(env, st)
    requires next.cache == st.cache && next.nanos == st.nanos && next.boundAt == st.boundAt
    ensures CacheOk(env, next)
  {
    forall s | s in env.sessions ensures CacheEntryOk(env, next, s) {
      assert CacheEntryOk(env, st, s);
    }
  }

  lemma AnswerBindingKeeps(env: Env, st: State, id: nat, binding: BindingAnswer)
    requires Inv(env, st) && AnswerBindingStep(st, id, binding).Some?
    ensures Inv(env, AnswerBindingStep(st, id, binding).value)
  {
    var next := AnswerBindingStep(st, id, binding).value;
    assert CallOk(env, st, st.calls[id]);
    CallKeeps(env, st, next, id, next.calls[id]);
  }

  lemma AnswerKeyKeeps(env: Env, st: State, id: nat, answer: KeyAnswer)
    requires Inv(env, st) && AnswerKeyStep(st, id, answer).Some?
    ensures Inv(env, AnswerKeyStep(st, id, answer).value)
  {
    var next := AnswerKeyStep(st, id, answer).value;
    var call := st.calls[id];
    assert CallOk(env, st, call);
    if answer.Bound? {
      var grown := st.(boundAt := next.boundAt);
      GrowKeeps(env, st, grown);
      var logged := grown.(log := next.log);
      CacheUnchanged(env, grown, logged);
      AppendKeeps(env, grown, logged, ApiBound(call.session));
      assert logged.log[|st.log|] == ApiBound(call.session);
      CallKeeps(env, logged, next, id, next.calls[id]);
    } else {
      CallKeeps(env, st, next, id, next.calls[id]);
    }
  }

  lemma DropCallKeeps(env: Env, st: State, id: nat)
    requires Inv(env, st) && id in st.calls
    ensures Inv(env, st.(calls := st.calls - {id}))
  {
    var next := st.(calls := st.calls - {id});
    CacheUnchanged(env, st, next);
    forall i | i in next.calls ensures CallOk(env, next, next.calls[i]) {
      assert CallOk(env, st, st.calls[i]);
    }
    forall i: nat | i < |next.log| ensures EventOk(env, next, i) {
      assert EventOk(env, st, i);
    }
  }

  lemma RememberedKeeps(env: Env, st: State, session: string, bound: bool)
    requires CollisionFree(env) && Inv(env, st) && session in env.sessions
    requires bound ==> session in st.boundAt
    requires !bound && session in st.boundAt ==> st.nanos <= st.boundAt[session] + env.delay
    ensures Inv(env, st.(cache := Cache.Remember(st.cache, CacheKey(env.site, session), bound, st.nanos)))
  {
    var next := st.(cache := Cache.Remember(st.cache, CacheKey(env.site, session), bound, st.nanos));
    RememberKeeps(env, st, next, session, bound);
    forall i | i in next.calls ensures CallOk(env, next, next.calls[i]) {
      assert CallOk(env, st, st.calls[i]);
    }
    forall i: nat | i < |next.log| ensures EventOk(env, next, i) {
      assert EventOk(env, st, i);
    }
  }

  lemma ReplyKeeps(env: Env, st: State, e: Event)
    requires Inv(env, st) && !e.Delivered? && e.session in env.sessions
    requires IsReply(e) ==> e.secs == st.secs
    requires IsBoundReply(e) ==> ApiBound(e.session) in st.log
    ensures Inv(env, st.(log := st.log + [e]))
  {
    var next := st.(log := st.log + [e]);
    CacheUnchanged(env, st, next);
    assert next.log[|st.log|] == e && next.log[..|st.log|] == st.log;
    AppendKeeps(env, st, next, e);
  }

  lemma ConcludeKeeps(env: Env, st: State, call: Call)
    requires CollisionFree(env) && Inv(env, st)
    requires call.Check? && CallOk(env, st, call) && call.answer.Some?
    requires st.nanos <= call.answeredAt + env.delay
    ensures Inv(env, Conclude(env, st, call.request, call.inner, call.session, call.arrived, call.secs, call.answer.value))
  {
    var answer := call.answer.value;
    GuardedReads(call.inner, !answer.Unbound?);
    if answer.BindingFailed? {
      DeliverKeeps(env, st, Delivered(call.request, call.inner, Guarded(call.inner, true), call.arrived, call.secs, true));
    } else {
      RememberedKeeps(env, st, call.session, answer.BoundTo?);
      var next := st.(cache := Cache.Remember(st.cache, CacheKey(env.site, call.session), answer.BoundTo?, st.nanos));
      DeliverKeeps(env, next, Delivered(call.request, call.inner, Guarded(call.inner, answer.BoundTo?), call.arrived, call.secs, false));
    }
  }

  lemma FinishKeeps(env: Env, st: State, id: nat)
    requires CollisionFree(env) && Inv(env, st) && FinishStep(env, st, id).Some?
    ensures Inv(env, FinishStep(env, st, id).value)
  {
    var call := st.calls[id];
    var rest := st.(calls := st.calls - {id});
    assert CallOk(env, st, call);
    DropCallKeeps(env, st, id);
    match call {
      case Check(_, _, _, _, _, _, _) => ConcludeKeeps(env, rest, call);
      case Probe(session, identifier, answer) =>
        ReplyKeeps(env, rest, ProbeReply(session, identifier, answer.value, st.secs));
      case Register(session, answer) =>
        if answer.value.Bound? {
          RememberedKeeps(env, rest, session, true);
          rest := rest.(cache := Cache.Remember(st.cache, CacheKey(env.site, session), true, st.nanos));
        }
        ReplyKeeps(env, rest, RegisterReply(session, answer.value, st.secs));
      case Refresh(session, identifier, answer) =>
        ReplyKeeps(env, rest, RefreshReply(session, identifier, answer.value, st.secs));
    }
  }

  lemma StepKeeps(env: Env, st: State, move: Move)
    requires CollisionFree(env) && Inv(env, st) && Step(env, st, move).Some?
    ensures Inv(env, Step(env, st, move).value)
  {
    var next := Step(env, st, move).value;
    match move {
      case Tick(_, _) => GrowKeeps(env, st, next);
      case Arrive(id, request) => ArriveKeeps(env, st, id, request);
      case AnswerBinding(id, binding) => AnswerBindingKeeps(env, st, id, binding);
      case AnswerKey(id, answer) => AnswerKeyKeeps(env, st, id, answer);
      case Finish(id) => FinishKeeps(env, st, id);
      case BindUnseen(_) => GrowKeeps(env, st, next);
      case SignIn(session) => ReplyKeeps(env, st, SignInReply(session, st.secs));
    }
  }

  lemma {:induction false} RunKeeps(env: Env, st: State, moves: seq<Move>)
    requires CollisionFree(env) && Inv(env, st) && Run(env, st, moves).Some?
    ensures Inv(env, Run(env, st, moves).value)
    decreases |moves|
  {
    if moves != [] {
      StepKeeps(env, st, moves[0]);
      RunKeeps(env, Step(env, st, moves[0]).value, moves[1..]);
    }
  }

  lemma ReachableInv(env: Env, st: State)
    requires CollisionFree(env) && Reachable(env, st)
    ensures Inv(env, st)
  {
    var secs: I64, moves :| ClockInRange(secs) && Run(env, Init(secs), moves) == Some(st);
    RunKeeps(env, Init(secs), moves);
  }

  // Over every run

  /** The headers the inner layers would have seen without the guard. */
  function Inner(env: Env, e: Event): Headers
    requires e.Delivered?
  {
    BindRequest(env.site.policy, e.request.cookies)
  }

  /**
   Once api has bound a session, its long cookie alone stops working: a request that arrives
   60 seconds plus the cache delay after the binding, with no valid short cookie, reaches a handler
   without the SSO cookie, and with every other cookie as it was.
   */
  lemma LongCookieAloneStopsWorking(env: Env, st: State, e: Event, session: string, name: string)
    requires CollisionFree(env) && Reachable(env, st)
    requires e.Delivered? && e in st.log && !Exempt(e.request.path)
    requires Get(Inner(env, e), SSO_SESSION_COOKIE) == Some(session)
    requires !HasValidShortCookie(env.site, Inner(env, e), session, e.secs)
    requires session in st.boundAt && st.boundAt[session] + Cache.BINDING_CACHE_TTL + env.delay <= e.arrived
    ensures Get(e.seen, SSO_SESSION_COOKIE).None?
    ensures name != SSO_SESSION_COOKIE ==> Get(e.seen, name) == Get(Inner(env, e), name)
  {
    ReachableInv(env, st);
    var i :| 0 <= i < |st.log| && st.log[i] == e;
    assert EventOk(env, st, i);
    StripReads(e.inner, name);
  }

  /**
   The converse: a handler loses the SSO cookie only on a guarded path, without a valid short cookie,
   and for a session api has bound or when api could not be asked.
   */
  lemma OnlyBoundSessionsAreStripped(env: Env, st: State, e: Event, session: string)
    requires CollisionFree(env) && Reachable(env, st)
    requires e.Delivered? && e in st.log
    requires Get(Inner(env, e), SSO_SESSION_COOKIE) == Some(session)
    requires Get(e.seen, SSO_SESSION_COOKIE).None?
    ensures !Exempt(e.request.path) && !HasValidShortCookie(env.site, Inner(env, e), session, e.secs)
    ensures session in st.boundAt || e.failed
  {
    ReachableInv(env, st);
    var i :| 0 <= i < |st.log| && st.log[i] == e;
    assert EventOk(env, st, i);
  }

  // Where short cookies come from

  /** The stamps a reply puts into the world: a short cookie, or a challenge. */
  predicate Reveals(e: Event, purpose: string, session: string, at: I64) {
    match e
    case RegisterReply(s, answer, secs) =>
      answer.Bound? && purpose == BOUND_COOKIE_PURPOSE && session == s && at == secs + BOUND_COOKIE_MAX_AGE_SECS
    case RefreshReply(s, _, answer, secs) =>
      session == s
      && ((answer.Bound? && purpose == BOUND_COOKIE_PURPOSE && at == secs + BOUND_COOKIE_MAX_AGE_SECS)
          || (answer.Rejected? && purpose == CHALLENGE_PURPOSE && at == secs))
    case ProbeReply(s, identifier, answer, secs) =>
      answer == BoundTo(identifier) && purpose == CHALLENGE_PURPOSE && session == s && at == secs
    case SignInReply(s, secs) =>
      purpose == CHALLENGE_PURPOSE && session == s && at == secs
    case _ => false
  }

  /** The response a reply stands for. */
  function ReplyResponse(env: Env, e: Event): Response
    requires IsReply(e) && ClockInRange(e.secs)
  {
    match e
    case RegisterReply(session, answer, secs) => RegisterResponse(env.site, session, answer, secs)
    case RefreshReply(session, identifier, answer, secs) => RefreshResponse(env.site, session, identifier, answer, secs)
    case ProbeReply(session, identifier, answer, secs) => ProbeResponse(env.site, session, identifier, answer, secs)
    case SignInReply(session, secs) => SignInResponse(env.site, session, secs)
  }

  /** `value` was not forged: if its tag checks out for this session, web has revealed that very MAC. */
  ghost predicate Unforged(env: Env, log: seq<Event>, session: string, value: string) {
    var c, key := env.site.crypto, env.site.key;
    var at := ReadStamp(c, key, BOUND_COOKIE_PURPOSE, session, value);
    at.Some? ==>
      exists i, purpose, s, t: I64 | 0 <= i < |log| && Reveals(log[i], purpose, s, t) ::
        purpose == BOUND_COOKIE_PURPOSE && Message(c, s, t) == Message(c, session, at.value)
  }

  /**
   A short cookie that is valid for a session now was issued for that session less than 600 seconds
   ago, in a reply to api answering that this session is bound.
   */
  lemma ShortCookiesFollowBinding(env: Env, st: State, session: string, value: string)
    requires CollisionFree(env) && Reachable(env, st) && session in env.sessions
    requires Unforged(env, st.log, session, value)
    requires BoundCookieIsValid(env.site.crypto, env.site.key, session, value, st.secs)
    ensures exists i, j | 0 <= j < i < |st.log| ::
              && st.log[j] == ApiBound(session)
              && IsBoundReply(st.log[i]) && st.log[i].session == session
              && st.secs - BOUND_COOKIE_MAX_AGE_SECS < st.log[i].secs <= st.secs
  {
    ReachableClock(env, st);
    var at := ValidCookieTime(env, session, value, st.secs);
    var i, j := RevealingReply(env, st, session, value, at);
  }

  lemma ReachableClock(env: Env, st: State)
    requires CollisionFree(env) && Reachable(env, st)
    ensures ClockInRange(st.secs)
  {
    ReachableInv(env, st);
  }

  lemma ValidCookieTime(env: Env, session: string, value: string, now: I64) returns (at: I64)
    requires now >= 0 && BoundCookieIsValid(env.site.crypto, env.site.key, session, value, now)
    ensures ReadStamp(env.site.crypto, env.site.key, BOUND_COOKIE_PURPOSE, session, value) == Some(at)
    ensures now < at <= now + BOUND_COOKIE_MAX_AGE_SECS
  {
    at := ReadStamp(env.site.crypto, env.site.key, BOUND_COOKIE_PURPOSE, session, value).value;
  }

  lemma RevealingReply(env: Env, st: State, session: string, value: string, at: I64) returns (i: nat, j: nat)
    requires CollisionFree(env) && Reachable(env, st) && session in env.sessions
    requires Unforged(env, st.log, session, value)
    requires ReadStamp(env.site.crypto, env.site.key, BOUND_COOKIE_PURPOSE, session, value) == Some(at)
    ensures j < i < |st.log| && IsBoundReply(st.log[i]) && st.log[i].session == session
    ensures st.log[j] == ApiBound(session)
    ensures at == st.log[i].secs + BOUND_COOKIE_MAX_AGE_SECS
  {
    ReachableInv(env, st);
    var c := env.site.crypto;
    var k, purpose, s, t: I64 :|
      && 0 <= k < |st.log| && Reveals(st.log[k], purpose, s, t)
      && purpose == BOUND_COOKIE_PURPOSE && Message(c, s, t) == Message(c, session, at);
    MessageDetermines(c, s, t, session, at);
    RevealsBound(st.log[k], s, t);
    assert EventOk(env, st, k);
    i := k;
    j := BoundReplyFollowsBinding(env, st, i);
  }

  lemma RevealsBound(e: Event, s: string, t: I64)
    requires Reveals(e, BOUND_COOKIE_PURPOSE, s, t)
    ensures IsBoundReply(e) && e.session == s && t == e.secs + BOUND_COOKIE_MAX_AGE_SECS
  {
    assert BOUND_COOKIE_PURPOSE[5] != CHALLENGE_PURPOSE[5];
  }

  lemma BoundReplyFollowsBinding(env: Env, st: State, i: nat) returns (j: nat)
    requires LogOk(env, st) && i < |st.log| && IsBoundReply(st.log[i])
    ensures ClockInRange(st.log[i].secs)
    ensures j < i && st.log[j] == ApiBound(st.log[i].session)
  {
    assert EventOk(env, st, i);
    j :| 0 <= j < i && st.log[..i][j] == ApiBound(st.log[i].session);
  }

  /** A browser that presents the short cookie it was given passes, untouched, for the next 600 seconds. */
  lemma FreshCookiePasses(env: Env, st: State, e: Event, at: I64, id: nat, request: Request)
    requires CollisionFree(env) && Reachable(env, st)
    requires e in st.log && IsBoundReply(e) && Reveals(e, BOUND_COOKIE_PURPOSE, e.session, at) && id !in st.calls
    requires e.secs <= st.secs < e.secs + BOUND_COOKIE_MAX_AGE_SECS
    requires !Exempt(request.path)
    requires var inner := BindRequest(env.site.policy, request.cookies);
             && Get(inner, SSO_SESSION_COOKIE) == Some(e.session)
             && Get(inner, BoundCookieName(env.site))
                == Some(BoundCookie(env.site.crypto, env.site.key, e.session, at))
    ensures var inner := BindRequest(env.site.policy, request.cookies);
            Step(env, st, Arrive(id, request)) == Some(Deliver(st, request, inner, inner, st.nanos, st.secs, false))
  {
    ReachableInv(env, st);
    var i :| 0 <= i < |st.log| && st.log[i] == e;
    RevealsBound(e, e.session, at);
    assert EventOk(env, st, i);
    IssuedCookieIsValid(env, e.session, at, st.secs, BindRequest(env.site.policy, request.cookies));
    ValidCookiePasses(env, st, id, request, e.session);
  }

  lemma ValidCookiePasses(env: Env, st: State, id: nat, request: Request, session: string)
    requires id !in st.calls && session in env.sessions && !Exempt(request.path)
    requires var inner := BindRequest(env.site.policy, request.cookies);
             && Get(inner, SSO_SESSION_COOKIE) == Some(session)
             && HasValidShortCookie(env.site, inner, session, st.secs)
    ensures var inner := BindRequest(env.site.policy, request.cookies);
            Step(env, st, Arrive(id, request)) == Some(Deliver(st, request, inner, inner, st.nanos, st.secs, false))
  {
    if request.path == REGISTRATION_PATH || request.path == REFRESH_PATH {
      HandlersAreExempt(request.path);
    }
  }

  lemma HandlersAreExempt(path: string)
    requires path == REGISTRATION_PATH || path == REFRESH_PATH
    ensures Exempt(path)
  {
  }

  lemma IssuedCookieIsValid(env: Env, session: string, at: I64, now: I64, inner: Headers)
    requires 0 <= now < at <= now + BOUND_COOKIE_MAX_AGE_SECS
    requires Get(inner, BoundCookieName(env.site)) == Some(BoundCookie(env.site.crypto, env.site.key, session, at))
    ensures HasValidShortCookie(env.site, inner, session, now)
  {
    BoundCookieWindow(env.site.crypto, env.site.key, session, at, now);
  }

  // The bound is exact

  lemma RunCons(env: Env, st: State, move: Move, rest: seq<Move>, next: State)
    requires Step(env, st, move) == Some(next)
    ensures Run(env, st, [move] + rest) == Run(env, next, rest)
  {
    assert ([move] + rest)[1..] == rest;
  }

  /** A question asked just before the binding, answered "unbound", and put in the cache after the whole delay. */
  function LateAnswer(env: Env, request: Request, session: string): seq<Move> {
    [Arrive(0, request), AnswerBinding(0, Unbound), BindUnseen(session), Tick(env.delay, 0)] + LateUse(env, request)
  }

  function LateUse(env: Env, request: Request): seq<Move> {
    [Finish(0), Tick(Cache.BINDING_CACHE_TTL - 1, 0), Arrive(1, request)]
  }

  predicate LongCookieOnly(env: Env, secs: I64, request: Request, inner: Headers, session: string) {
    && ClockInRange(secs) && session in env.sessions && !Exempt(request.path)
    && inner == BindRequest(env.site.policy, request.cookies)
    && Get(inner, SSO_SESSION_COOKIE) == Some(session)
    && !HasValidShortCookie(env.site, inner, session, secs)
  }

  /** The state once the delay has passed: bound at time 0, with a stale answer about to be put. */
  function Waiting(env: Env, secs: I64, request: Request, inner: Headers, session: string): State {
    State(env.delay, secs, map[], map[session := 0],
          map[0 := Check(session, request, inner, 0, secs, Some(Unbound), 0)], [])
  }

  lemma UntilWaiting(env: Env, secs: I64, request: Request, inner: Headers, session: string)
    requires LongCookieOnly(env, secs, request, inner, session)
    ensures Run(env, Init(secs), LateAnswer(env, request, session))
         == Run(env, Waiting(env, secs, request, inner, session), LateUse(env, request))
  {
    var s0 := Init(secs);
    var s1 := s0.(calls := map[0 := Check(session, request, inner, 0, secs, None, 0)]);
    var s2 := s0.(calls := map[0 := Check(session, request, inner, 0, secs, Some(Unbound), 0)]);
    var s3 := s2.(boundAt := map[session := 0]);
    var use := LateUse(env, request);
    FirstArrival(env, s0, 0, request, inner, session);
    FirstAnswer(env, s1, session, request, inner, secs);
    var m2 := [Tick(env.delay, 0)] + use;
    var m3 := [BindUnseen(session)] + m2;
    var m4 := [AnswerBinding(0, Unbound)] + m3;
    assert LateAnswer(env, request, session) == [Arrive(0, request)] + m4;
    RunCons(env, s0, Arrive(0, request), m4, s1);
    RunCons(env, s1, AnswerBinding(0, Unbound), m3, s2);
    RunCons(env, s2, BindUnseen(session), m2, s3);
    RunCons(env, s3, Tick(env.delay, 0), use, Waiting(env, secs, request, inner, session));
  }

  lemma FirstAnswer(env: Env, st: State, session: string, request: Request, inner: Headers, secs: I64)
    requires st.nanos == 0 && st.boundAt == map[] && st.calls == map[0 := Check(session, request, inner, 0, secs, None, 0)]
    ensures Step(env, st, AnswerBinding(0, Unbound))
         == Some(st.(calls := map[0 := Check(session, request, inner, 0, secs, Some(Unbound), 0)]))
  {
    var answered := map[0 := Check(session, request, inner, 0, secs, Some(Unbound), 0)];
    assert st.calls[0 := answered[0]] == answered;
  }

  /**
   No smaller bound holds: for every delay there is a run in which the long cookie alone is accepted
   one nanosecond before the end of the 60 seconds plus the delay.
   */
  lemma BoundIsExact(env: Env, secs: I64, request: Request, inner: Headers, session: string)
    requires LongCookieOnly(env, secs, request, inner, session)
    ensures var run := Run(env, Init(secs), LateAnswer(env, request, session));
            && run.Some? && session in run.value.boundAt && |run.value.log| == 2
            && run.value.log[1] == Delivered(request, inner, inner,
                                             run.value.boundAt[session] + Cache.BINDING_CACHE_TTL + env.delay - 1, secs, false)
  {
    UntilWaiting(env, secs, request, inner, session);
    UntilResumed(env, secs, request, inner, session);
    var s := Resumed(env, secs, request, inner, session);
    StaleArrival(env, s, 1, request, inner, session);
    var last := Deliver(s, request, inner, inner, s.nanos, secs, false);
    assert [Arrive(1, request)] == [Arrive(1, request)] + [];
    RunCons(env, s, Arrive(1, request), [], last);
  }

  /** The state one nanosecond before the stale answer expires. */
  function Resumed(env: Env, secs: I64, request: Request, inner: Headers, session: string): State {
    State(env.delay + Cache.BINDING_CACHE_TTL - 1, secs,
          map[CacheKey(env.site, session) := Cache.Entry(false, env.delay)], map[session := 0], map[],
          [Delivered(request, inner, inner, 0, secs, false)])
  }

  lemma UntilResumed(env: Env, secs: I64, request: Request, inner: Headers, session: string)
    requires ClockInRange(secs)
    ensures Run(env, Waiting(env, secs, request, inner, session), LateUse(env, request))
         == Run(env, Resumed(env, secs, request, inner, session), [Arrive(1, request)])
  {
    var s4 := Waiting(env, secs, request, inner, session);
    var s5 := PutUnbound(env, s4, 0);
    var wait := Tick(Cache.BINDING_CACHE_TTL - 1, 0);
    assert s5.calls == map[];
    assert s5.log == [Delivered(request, inner, inner, 0, secs, false)];
    assert Step(env, s5, wait) == Some(Resumed(env, secs, request, inner, session));
    RunCons(env, s4, Finish(0), [wait] + [Arrive(1, request)], s5);
    RunCons(env, s5, wait, [Arrive(1, request)], Resumed(env, secs, request, inner, session));
    assert LateUse(env, request) == [Finish(0)] + ([wait] + [Arrive(1, request)]);
  }

  lemma PutUnbound(env: Env, st: State, id: nat) returns (next: State)
    requires id in st.calls && st.calls[id].Check? && st.calls[id].answer == Some(Unbound) && st.cache == map[]
    requires st.nanos <= st.calls[id].answeredAt + env.delay
    ensures Step(env, st, Finish(id)) == Some(next)
    ensures var call := st.calls[id];
            next == st.(calls := st.calls - {id},
                        cache := map[CacheKey(env.site, call.session) := Cache.Entry(false, st.nanos)],
                        log := st.log + [Delivered(call.request, call.inner, call.inner, call.arrived, call.secs, false)])
  {
    var call := st.calls[id];
    var key := CacheKey(env.site, call.session);
    assert Cache.Remember(st.cache, key, false, st.nanos) == map[key := Cache.Entry(false, st.nanos)];
    next := Conclude(env, st.(calls := st.calls - {id}), call.request, call.inner, call.session, call.arrived, call.secs, Unbound);
  }

  lemma StaleArrival(env: Env, st: State, id: nat, request: Request, inner: Headers, session: string)
    requires id !in st.calls && LongCookieOnly(env, st.secs, request, inner, session)
    requires CacheKey(env.site, session) in st.cache
    requires var e := st.cache[CacheKey(env.site, session)]; !e.bound && Cache.Young(e, st.nanos)
    ensures Step(env, st, Arrive(id, request)) == Some(Deliver(st, request, inner, inner, st.nanos, st.secs, false))
  {
    FirstArrival(env, st, id, request, inner, session);
  }

  lemma FirstArrival(env: Env, st: State, id: nat, request: Request, inner: Headers, session: string)
    requires id !in st.calls && LongCookieOnly(env, st.secs, request, inner, session)
    ensures Step(env, st, Arrive(id, request)) == Some(Enforce(env, st, id, request, inner, session, false))
  {
    if request.path == REGISTRATION_PATH || request.path == REFRESH_PATH {
      HandlersAreExempt(request.path);
    }
  }
}
