/**
 The three copies of the settings over whole runs: the table, api's start-up snapshot, and the shared values
 web fetched when it started (crates/web/src/lib.rs, crates/api/src/lib.rs). Saves, starts, stops and fetches
 interleave freely; starting may fail at any point, which is a move that does not happen.
 */
module SettingsRuns {
  import opened Wrappers
  import opened Settings

  datatype Deployment = Deployment(
    defs: seq<Definition>,
    apiEnv: Values,
    bootable: (Definition, string) -> bool)

  datatype Api = ApiDown | ApiUp(start: Values)

  datatype Web = WebDown | WebFetching(attempt: nat, backoffMs: nat) | WebUp(shared: Values, version: nat)

  /** `history` holds every version of the table, the current one last; `started` is the version api last started with. */
  datatype State = State(history: seq<Table>, api: Api, started: nat, web: Web)

  datatype Move =
    | Save(key: string, value: Option<string>)
    | ApiStart
    | ApiStop
    | WebBoot
    | FetchOk
    | FetchFails
    | WebStop

  const ATTEMPTS: nat := 5
  const INITIAL_BACKOFF_MS: nat := 500

  function Step(d: Deployment, s: State, m: Move): Option<State>
    requires s.history != []
    ensures Step(d, s, m).Some? ==> Step(d, s, m).value.history != []
  {
    var table := s.history[|s.history| - 1];
    match m
    case Save(key, value) =>
      (match UpdateRuntimeSetting(d.defs, d.bootable, table, key, value)
       case Err(_) => Some(s)
       case Ok(after) => Some(s.(history := s.history + [after])))
    case ApiStart =>
      if s.api.ApiUp? then None else Some(s.(api := ApiUp(LoadDbManaged(table)), started := |s.history| - 1))
    case ApiStop => Some(s.(api := ApiDown))
    case WebBoot => if s.web.WebDown? then Some(s.(web := WebFetching(1, INITIAL_BACKOFF_MS))) else None
    case FetchOk =>
      if s.web.WebFetching? && s.api.ApiUp? then
        Some(s.(web := WebUp(Served(d.defs, d.apiEnv, s.api.start), s.started)))
      else None
    case FetchFails =>
      if !s.web.WebFetching? then None
      else if s.web.attempt < ATTEMPTS then Some(s.(web := WebFetching(s.web.attempt + 1, s.web.backoffMs * 2)))
      else Some(s.(web := WebDown))
    case WebStop => Some(s.(web := WebDown))
  }

  function Run(d: Deployment, s: State, moves: seq<Move>): (r: Option<State>)
    requires s.history != []
    ensures r.Some? ==> r.value.history != []
    decreases |moves|
  {
    if moves == [] then Some(s)
    else match Step(d, s, moves[0])
      case None => None
      case Some(next) => Run(d, next, moves[1..])
  }

  predicate Initial(d: Deployment, s: State) {
    && DistinctKeys(d.defs) && |s.history| == 1 && PlainRows(d.defs, s.history[0])
    && s.api.ApiDown? && s.started == 0 && s.web.WebDown?
  }

  function Current(s: State): Table
    requires s.history != []
  {
    s.history[|s.history| - 1]
  }

  /** Each copy is the content of some version, and no copy is newer than the one it was made from. */
  predicate Inv(d: Deployment, s: State) {
    && DistinctKeys(d.defs) && s.started < |s.history|
    && (forall k | 0 <= k < |s.history| :: PlainRows(d.defs, s.history[k]))
    && (s.api.ApiUp? ==> s.api.start == LoadDbManaged(s.history[s.started]))
    && (s.web.WebUp? ==>
          s.web.version <= s.started
          && s.web.shared == Served(d.defs, d.apiEnv, LoadDbManaged(s.history[s.web.version])))
    && (s.web.WebFetching? ==> 1 <= s.web.attempt <= ATTEMPTS && s.web.backoffMs == Backoff(s.web.attempt))
  }

  /** The pause after a failed attempt, in milliseconds. */
  function Backoff(attempt: nat): nat {
    if attempt <= 1 then INITIAL_BACKOFF_MS else 2 * Backoff(attempt - 1)
  }

  lemma SaveKeepsPlainRows(d: Deployment, table: Table, key: string, value: Option<string>)
    requires PlainRows(d.defs, table)
    ensures var r := UpdateRuntimeSetting(d.defs, d.bootable, table, key, value); r.Ok? ==> PlainRows(d.defs, r.value)
  {
  }

  lemma StepKeeps(d: Deployment, s: State, m: Move)
    requires s.history != [] && Inv(d, s) && Step(d, s, m).Some?
    ensures Inv(d, Step(d, s, m).value) && s.started <= Step(d, s, m).value.started
    ensures s.history <= Step(d, s, m).value.history
  {
    if m.Save? {
      SaveKeepsPlainRows(d, Current(s), m.key, m.value);
    }
  }

  lemma {:induction false} RunKeeps(d: Deployment, s: State, moves: seq<Move>)
    requires s.history != [] && Inv(d, s) && Run(d, s, moves).Some?
    ensures Inv(d, Run(d, s, moves).value) && s.started <= Run(d, s, moves).value.started
    decreases |moves|
  {
    if moves != [] {
      StepKeeps(d, s, moves[0]);
      RunKeeps(d, Step(d, s, moves[0]).value, moves[1..]);
    }
  }

  lemma InitialKeeps(d: Deployment, s: State)
    requires Initial(d, s)
    ensures Inv(d, s)
  {
  }

  /** In every run: web's values are never newer than api's, nor api's than the table's, and api never goes back. */
  lemma NoCopyRunsAhead(d: Deployment, s: State, moves: seq<Move>)
    requires Initial(d, s) && Run(d, s, moves).Some?
    ensures var t := Run(d, s, moves).value;
            && t.started < |t.history|
            && (t.api.ApiUp? ==> t.api.start == LoadDbManaged(t.history[t.started]))
            && (t.web.WebUp? ==>
                  t.web.version <= t.started
                  && t.web.shared == Served(d.defs, d.apiEnv, LoadDbManaged(t.history[t.web.version])))
  {
    InitialKeeps(d, s);
    RunKeeps(d, s, moves);
  }

  /** In every run, the settings page flags exactly the settings a restart of api would now change. */
  lemma FlagsAreExact(d: Deployment, s: State, moves: seq<Move>, def: Definition)
    requires Initial(d, s) && Run(d, s, moves).Some? && Run(d, s, moves).value.api.ApiUp?
    requires Find(d.defs, def.key) == Some(def)
    ensures var t := Run(d, s, moves).value;
            PendingShown(d.defs, d.apiEnv, t.api.start, Current(t), def) <==>
              Watched(def) && Resolve(d.defs, d.apiEnv, t.api.start, def)
                              != Resolve(d.defs, d.apiEnv, LoadDbManaged(Current(t)), def)
  {
    InitialKeeps(d, s);
    RunKeeps(d, s, moves);
    var t := Run(d, s, moves).value;
    PendingShownIsExact(d.defs, d.apiEnv, t.api.start, Current(t), def);
  }

  // Restarting in order

  predicate NoSaves(moves: seq<Move>) {
    forall k | 0 <= k < |moves| :: !moves[k].Save?
  }

  predicate ApiCurrent(s: State) {
    s.started == |s.history| - 1
  }

  predicate BothCurrent(s: State) {
    ApiCurrent(s) && (s.web.WebUp? ==> s.web.version == |s.history| - 1)
  }

  lemma {:induction false} StaysCurrent(d: Deployment, s: State, moves: seq<Move>)
    requires s.history != [] && Inv(d, s) && ApiCurrent(s) && NoSaves(moves) && Run(d, s, moves).Some?
    ensures Inv(d, Run(d, s, moves).value) && ApiCurrent(Run(d, s, moves).value)
    ensures BothCurrent(s) ==> BothCurrent(Run(d, s, moves).value)
    decreases |moves|
  {
    if moves != [] {
      StepKeeps(d, s, moves[0]);
      StaysCurrent(d, Step(d, s, moves[0]).value, moves[1..]);
    }
  }

  lemma {:induction false} RunConcat(d: Deployment, s: State, a: seq<Move>, b: seq<Move>)
    requires s.history != []
    ensures Run(d, s, a + b) == if Run(d, s, a).Some? then Run(d, Run(d, s, a).value, b) else None
    decreases |a|
  {
    if a == [] {
      assert a + b == b;
    } else {
      assert (a + b)[1..] == a[1..] + b;
      if Step(d, s, a[0]).Some? {
        RunConcat(d, Step(d, s, a[0]).value, a[1..], b);
      }
    }
  }

  /** What both services run with is what the table says, no setting is flagged, and no shared key is stale. */
  predicate FullyCurrent(d: Deployment, s: State)
    requires s.history != []
  {
    var db := LoadDbManaged(Current(s));
    && (s.api.ApiUp? ==> s.api.start == db && NothingFlagged(d, s.api.start, Current(s)))
    && (s.web.WebUp? ==> s.web.shared == Served(d.defs, d.apiEnv, db))
    && (s.api.ApiUp? && s.web.WebUp? ==> s.web.shared == Served(d.defs, d.apiEnv, s.api.start))
  }

  predicate NothingFlagged(d: Deployment, start: Values, table: Table) {
    forall k | 0 <= k < |d.defs| :: !PendingShown(d.defs, d.apiEnv, start, table, d.defs[k])
  }

  lemma CurrentIsFully(d: Deployment, s: State)
    requires s.history != [] && Inv(d, s) && BothCurrent(s)
    ensures FullyCurrent(d, s)
  {
    if s.api.ApiUp? {
      NoneFlagged(d, Current(s));
    }
  }

  lemma NoneFlagged(d: Deployment, table: Table)
    requires DistinctKeys(d.defs) && PlainRows(d.defs, table)
    ensures NothingFlagged(d, LoadDbManaged(table), table)
  {
    var start := LoadDbManaged(table);
    forall k | 0 <= k < |d.defs| ensures !PendingShown(d.defs, d.apiEnv, start, table, d.defs[k]) {
      FindIs(d.defs, k);
      PendingShownIsExact(d.defs, d.apiEnv, start, table, d.defs[k]);
    }
  }

  /**
   Restart api, then let web fetch: whatever else is started and stopped between and after, as long as nothing is
   saved, both services run with the table's values.
   */
  lemma ApiThenWeb(d: Deployment, s: State, moves: seq<Move>, between: seq<Move>, after: seq<Move>)
    requires Initial(d, s) && NoSaves(between) && NoSaves(after)
    requires Run(d, s, moves + ([ApiStart] + (between + ([FetchOk] + after)))).Some?
    ensures FullyCurrent(d, Run(d, s, moves + ([ApiStart] + (between + ([FetchOk] + after)))).value)
  {
    var last := [FetchOk] + after;
    var tail := between + last;
    InitialKeeps(d, s);
    RunConcat(d, s, moves, [ApiStart] + tail);
    RunKeeps(d, s, moves);
    var t := Run(d, s, moves).value;
    assert ([ApiStart] + tail)[1..] == tail;
    StepKeeps(d, t, ApiStart);
    FetchCurrent(d, Step(d, t, ApiStart).value, between, after);
  }

  lemma FetchCurrent(d: Deployment, s: State, between: seq<Move>, after: seq<Move>)
    requires s.history != [] && Inv(d, s) && ApiCurrent(s) && NoSaves(between) && NoSaves(after)
    requires Run(d, s, between + ([FetchOk] + after)).Some?
    ensures FullyCurrent(d, Run(d, s, between + ([FetchOk] + after)).value)
  {
    RunConcat(d, s, between, [FetchOk] + after);
    StaysCurrent(d, s, between);
    var t := Run(d, s, between).value;
    assert ([FetchOk] + after)[1..] == after;
    StepKeeps(d, t, FetchOk);
    StaysCurrent(d, Step(d, t, FetchOk).value, after);
    CurrentIsFully(d, Run(d, s, between + ([FetchOk] + after)).value);
  }

  lemma RunOn(d: Deployment, s: State, next: State, m: Move, rest: seq<Move>)
    requires s.history != [] && next.history != [] && Step(d, s, m) == Some(next)
    ensures Run(d, s, [m] + rest) == Run(d, next, rest)
  {
    assert ([m] + rest)[1..] == rest;
  }

  lemma WebRestarts(d: Deployment, s: State, rest: seq<Move>)
    requires s.history != [] && s.api.ApiUp?
    ensures Run(d, s, [WebStop] + ([WebBoot] + ([FetchOk] + rest)))
         == Run(d, s.(web := WebUp(Served(d.defs, d.apiEnv, s.api.start), s.started)), rest)
  {
    var stopped := s.(web := WebDown);
    var fetching := s.(web := WebFetching(1, INITIAL_BACKOFF_MS));
    RunOn(d, s, stopped, WebStop, [WebBoot] + ([FetchOk] + rest));
    RunOn(d, stopped, fetching, WebBoot, [FetchOk] + rest);
    RunOn(d, fetching, s.(web := WebUp(Served(d.defs, d.apiEnv, s.api.start), s.started)), FetchOk, rest);
  }

  lemma ApiRestarts(d: Deployment, s: State)
    requires s.history != []
    ensures Run(d, s, [ApiStop] + [ApiStart])
         == Some(s.(api := ApiUp(LoadDbManaged(Current(s))), started := |s.history| - 1))
  {
    var stopped := s.(api := ApiDown);
    RunOn(d, s, stopped, ApiStop, [ApiStart]);
    RunOn(d, stopped, s.(api := ApiUp(LoadDbManaged(Current(s))), started := |s.history| - 1), ApiStart, []);
    assert [ApiStart] + [] == [ApiStart];
  }

  const WEB_FIRST: seq<Move> := [WebStop] + ([WebBoot] + ([FetchOk] + ([ApiStop] + [ApiStart])))

  /** The other order, web before api, leaves web behind whenever what was saved matters to web. */
  lemma WebThenApi(d: Deployment, s: State, key: string, value: Option<string>)
    requires s.history != [] && s.api.ApiUp?
    requires UpdateRuntimeSetting(d.defs, d.bootable, Current(s), key, value).Ok?
    requires var table := UpdateRuntimeSetting(d.defs, d.bootable, Current(s), key, value).value;
             Served(d.defs, d.apiEnv, LoadDbManaged(table)) != Served(d.defs, d.apiEnv, s.api.start)
    ensures var r := Run(d, s, [Save(key, value)] + WEB_FIRST);
            && r.Some? && r.value.web.WebUp? && r.value.api.ApiUp?
            && r.value.web.shared != Served(d.defs, d.apiEnv, r.value.api.start)
  {
    var after := UpdateRuntimeSetting(d.defs, d.bootable, Current(s), key, value).value;
    var saved := s.(history := s.history + [after]);
    RunOn(d, s, saved, Save(key, value), WEB_FIRST);
    WebRestarts(d, saved, [ApiStop] + [ApiStart]);
    ApiRestarts(d, saved.(web := WebUp(Served(d.defs, d.apiEnv, s.api.start), s.started)));
  }

  // The fetch at web's start

  function FirstSome<T>(answers: seq<Option<T>>): Option<T> {
    if answers == [] then None
    else if answers[0].Some? then answers[0]
    else FirstSome(answers[1..])
  }

  lemma {:induction false} FirstSomeSkips<T>(answers: seq<Option<T>>, k: nat)
    requires k <= |answers| && forall i | 0 <= i < k :: answers[i].None?
    ensures FirstSome(answers) == FirstSome(answers[k..])
  {
    if k > 0 {
      FirstSomeSkips(answers[1..], k - 1);
      assert answers[1..][k - 1..] == answers[k..];
    } else {
      assert answers[0..] == answers;
    }
  }

  /** `fetch_shared_runtime_settings`; the answers are what api, or the lack of it, gives at each attempt. */
  method FetchSharedRuntimeSettings(answers: seq<Option<Values>>) returns (r: Option<Values>, waits: seq<nat>)
    requires |answers| == ATTEMPTS
    ensures r == FirstSome(answers)
    ensures r.None? ==> |waits| == ATTEMPTS - 1
    ensures |waits| < ATTEMPTS && forall k | 0 <= k < |waits| :: answers[k].None? && waits[k] == Backoff(k + 1)
    ensures r.Some? ==> answers[|waits|] == r
  {
    var backoff := INITIAL_BACKOFF_MS;
    waits := [];
    for attempt := 1 to ATTEMPTS + 1
      invariant |waits| == if attempt <= ATTEMPTS then attempt - 1 else ATTEMPTS - 1
      invariant forall k | 0 <= k < attempt - 1 :: answers[k].None?
      invariant forall k | 0 <= k < |waits| :: waits[k] == Backoff(k + 1)
      invariant attempt <= ATTEMPTS ==> backoff == Backoff(attempt)
    {
      if answers[attempt - 1].Some? {
        FirstSomeSkips(answers, attempt - 1);
        return answers[attempt - 1], waits;
      }
      if attempt < ATTEMPTS {
        waits := waits + [backoff];
        backoff := backoff * 2;
      }
    }
    FirstSomeSkips(answers, ATTEMPTS);
    return None, waits;
  }
}
