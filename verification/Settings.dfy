/**
 Layered settings: how api resolves them (crates/core/src/config.rs), what an operator is told about saved
 values (`is_pending_restart`), what api hands to web, and how web resolves the shared ones
 (crates/web/src/config.rs). A table of definitions is any table with distinct keys.
 */
module Settings {
  import opened Wrappers
  import opened Text
  import opened Sequences

  datatype Owner = Builtin | EnvLocked | DbManaged

  datatype Source = FromBuiltin | FromEnv | FromDb

  datatype Definition = Definition(
    key: string,
    owner: Owner,
    sharedWithWeb: bool,
    secret: bool,
    restartRequired: bool,
    defaultValue: Option<string>)

  type Values = map<string, string>

  datatype Row = Row(value: string, isSecret: bool)

  /** The `system_settings` table. */
  type Table = map<string, Row>

  predicate DistinctKeys(defs: seq<Definition>) {
    forall i, j | 0 <= i < j < |defs| :: defs[i].key != defs[j].key
  }

  /** `runtime_setting_definition` */
  function Find(defs: seq<Definition>, key: string): (r: Option<Definition>)
    ensures r.Some? ==> r.value in defs && r.value.key == key
    ensures r.None? ==> forall k | 0 <= k < |defs| :: defs[k].key != key
  {
    if defs == [] then None
    else if defs[0].key == key then Some(defs[0])
    else Find(defs[1..], key)
  }

  lemma FindIs(defs: seq<Definition>, k: nat)
    requires DistinctKeys(defs) && k < |defs|
    ensures Find(defs, defs[k].key) == Some(defs[k])
  {
  }

  function Lookup<V>(m: map<string, V>, key: string): Option<V> {
    if key in m then Some(m[key]) else None
  }

  /** `.filter(|v| !v.is_empty())` */
  function NonEmpty(v: Option<string>): Option<string> {
    if v == Some("") then None else v
  }

  function OrElse<T>(first: Option<T>, second: Option<T>): Option<T> {
    if first.Some? then first else second
  }

  /** An empty environment variable counts as unset. */
  function EnvLookup(env: Values, key: string): Option<string> {
    NonEmpty(Lookup(env, key))
  }

  // Resolution in api

  /** `load_db_managed_settings`: the start-up snapshot. */
  function LoadDbManaged(table: Table): Values {
    map key | key in table && !table[key].isSecret :: table[key].value
  }

  predicate DbAllowed(defs: seq<Definition>, key: string) {
    Find(defs, key).Some? && Find(defs, key).value.owner.DbManaged?
  }

  function DbValue(defs: seq<Definition>, db: Values, key: string): Option<string> {
    if DbAllowed(defs, key) then NonEmpty(Lookup(db, key)) else None
  }

  /** `ConfigResolver::optional_string` */
  function OptionalString(defs: seq<Definition>, env: Values, db: Values, key: string): Option<string> {
    OrElse(DbValue(defs, db, key), EnvLookup(env, key))
  }

  /** `ConfigResolver::source` */
  function SourceOf(defs: seq<Definition>, env: Values, db: Values, key: string): Source {
    if DbValue(defs, db, key).Some? then FromDb
    else if EnvLookup(env, key).Some? then FromEnv
    else FromBuiltin
  }

  datatype Resolved = Resolved(
    key: string,
    owner: Owner,
    source: Source,
    secret: bool,
    restartRequired: bool,
    value: Option<string>)

  function Resolve(defs: seq<Definition>, env: Values, db: Values, def: Definition): Resolved {
    Resolved(
      def.key, def.owner,
      if def.owner.Builtin? then FromBuiltin else SourceOf(defs, env, db, def.key),
      def.secret, def.restartRequired,
      if def.secret then None else OrElse(OptionalString(defs, env, db, def.key), def.defaultValue))
  }

  function ResolvedSettings(defs: seq<Definition>, env: Values, db: Values): seq<Resolved> {
    seq(|defs|, k requires 0 <= k < |defs| => Resolve(defs, env, db, defs[k]))
  }

  // Saved, but not yet in effect

  predicate IsPendingRestart(s: Resolved, dbCurrent: Option<string>) {
    if !s.restartRequired || s.secret || !s.owner.DbManaged? then false
    else match dbCurrent
      case Some(value) => !(s.source.FromDb? && s.value == Some(value))
      case None => s.source.FromDb?
  }

  /** The keys for which a restart could change what is in effect. */
  predicate Watched(def: Definition) {
    def.restartRequired && !def.secret && def.owner.DbManaged?
  }

  /**
   The flag is raised exactly when resolving again on the current values would give another result, or when the
   current value is an empty override, which no resolution ever adopts.
   */
  lemma PendingIffDiffers(defs: seq<Definition>, env: Values, start: Values, now: Values, def: Definition)
    requires Find(defs, def.key) == Some(def)
    ensures IsPendingRestart(Resolve(defs, env, start, def), Lookup(now, def.key)) <==>
              Watched(def) && (Resolve(defs, env, start, def) != Resolve(defs, env, now, def)
                               || Lookup(now, def.key) == Some(""))
  {
    if Watched(def) {
      assert DbValue(defs, start, def.key) == NonEmpty(Lookup(start, def.key));
      assert DbValue(defs, now, def.key) == NonEmpty(Lookup(now, def.key));
    }
  }

  /** An empty override raises the flag, and no restart lowers it. */
  lemma EmptyOverrideStaysPending()
    ensures exists def: Definition, now: Values ::
              && Find([def], def.key) == Some(def)
              && IsPendingRestart(Resolve([def], map[], now, def), Lookup(now, def.key))
  {
    var def := Definition("k", DbManaged, false, false, true, None);
    var now: Values := map["k" := ""];
    PendingIffDiffers([def], map[], now, now, def);
    assert Lookup(now, def.key) == Some("");
  }

  /** `runtime_overrides`: what the settings page compares with. */
  function RuntimeOverrides(defs: seq<Definition>, table: Table): Values {
    map key | key in table && table[key].value != "" && Find(defs, key).Some? && !Find(defs, key).value.secret
      :: table[key].value
  }

  /** The flag on the settings page. */
  predicate PendingShown(defs: seq<Definition>, env: Values, start: Values, table: Table, def: Definition) {
    IsPendingRestart(Resolve(defs, env, start, def), Lookup(RuntimeOverrides(defs, table), def.key))
  }

  /** The rows of the settings that are not secret are not stored as secrets. */
  predicate PlainRows(defs: seq<Definition>, table: Table) {
    forall key | key in table && Find(defs, key).Some? && !Find(defs, key).value.secret :: !table[key].isSecret
  }

  /** The page filters empty overrides out, so there the flag is exact. */
  lemma PendingShownIsExact(defs: seq<Definition>, env: Values, start: Values, table: Table, def: Definition)
    requires Find(defs, def.key) == Some(def) && PlainRows(defs, table)
    ensures PendingShown(defs, env, start, table, def) <==>
              Watched(def) && Resolve(defs, env, start, def) != Resolve(defs, env, LoadDbManaged(table), def)
  {
    if Watched(def) {
      var overrides, loaded := RuntimeOverrides(defs, table), LoadDbManaged(table);
      PendingIffDiffers(defs, env, start, overrides, def);
      assert NonEmpty(Lookup(overrides, def.key)) == NonEmpty(Lookup(loaded, def.key));
    }
  }

  // Saving

  datatype UpdateError = UnknownKey | NotDbManaged | Refused

  /** `update_runtime_setting`; `bootable` stands for the checks on a nonempty value. */
  function UpdateRuntimeSetting(defs: seq<Definition>, bootable: (Definition, string) -> bool, table: Table, key: string,
                                value: Option<string>): Result<Table, UpdateError>
  {
    match Find(defs, key)
    case None => Err(UnknownKey)
    case Some(def) =>
      if !def.owner.DbManaged? || def.secret then Err(NotDbManaged)
      else
        var v := if value.Some? then Trim(value.value) else "";
        if v != "" && !bootable(def, v) then Err(Refused) else Ok(table[key := Row(v, false)])
  }

  /** What is saved is what the next start resolves; a cleared override falls back to the environment and the default. */
  lemma SavedIsResolved(defs: seq<Definition>, bootable: (Definition, string) -> bool, env: Values, table: Table,
                        key: string, value: Option<string>, def: Definition)
    requires Find(defs, def.key) == Some(def) && PlainRows(defs, table)
    requires UpdateRuntimeSetting(defs, bootable, table, key, value).Ok?
    ensures var after := UpdateRuntimeSetting(defs, bootable, table, key, value).value;
            && PlainRows(defs, after)
            && Resolve(defs, env, LoadDbManaged(after), def)
               == if def.key != key then Resolve(defs, env, LoadDbManaged(table), def)
                  else if value.Some? && Trim(value.value) != "" then
                    Resolve(defs, env, map[key := Trim(value.value)], def)
                  else Resolve(defs, env, map[], def)
    ensures def.key == key && value.Some? && Trim(value.value) != "" ==>
              var after := UpdateRuntimeSetting(defs, bootable, table, key, value).value;
              Resolve(defs, env, LoadDbManaged(after), def).source == FromDb
              && Resolve(defs, env, LoadDbManaged(after), def).value == Some(Trim(value.value))
  {
  }

  // What api hands to web

  predicate IsSharedWithWeb(defs: seq<Definition>, key: string) {
    Find(defs, key).Some? && Find(defs, key).value.sharedWithWeb && !Find(defs, key).value.secret
  }

  /** `shared_runtime_settings`: of the snapshot, the shared values that came from the database. */
  function SharedSettings(defs: seq<Definition>, settings: seq<Resolved>): Values {
    if settings == [] then map[]
    else
      var rest, last := SharedSettings(defs, settings[..|settings| - 1]), settings[|settings| - 1];
      if last.source.FromDb? && IsSharedWithWeb(defs, last.key) && last.value.Some? then rest[last.key := last.value.value]
      else rest
  }

  function Served(defs: seq<Definition>, env: Values, db: Values): Values {
    SharedSettings(defs, ResolvedSettings(defs, env, db))
  }

  /** A shared, database-managed setting that is not secret. */
  predicate Sharable(defs: seq<Definition>, key: string) {
    IsSharedWithWeb(defs, key) && DbAllowed(defs, key)
  }

  lemma {:induction false} SharedOf(defs: seq<Definition>, env: Values, db: Values, n: nat, key: string)
    requires DistinctKeys(defs) && n <= |defs|
    ensures Lookup(SharedSettings(defs, ResolvedSettings(defs, env, db)[..n]), key)
         == if Listed(defs, n, key) && Sharable(defs, key) then NonEmpty(Lookup(db, key)) else None
  {
    if n > 0 {
      SharedOf(defs, env, db, n - 1, key);
      FindIs(defs, n - 1);
      ListedStep(defs, n, key);
      ResolvedStep(defs, env, db, n);
      SharedStep(defs, env, db, ResolvedSettings(defs, env, db)[..n - 1], defs[n - 1], key);
    }
  }

  lemma ListedStep(defs: seq<Definition>, n: nat, key: string)
    requires DistinctKeys(defs) && 0 < n <= |defs|
    ensures Listed(defs, n, key) <==> Listed(defs, n - 1, key) || defs[n - 1].key == key
    ensures defs[n - 1].key == key ==> !Listed(defs, n - 1, key)
  {
  }

  lemma ResolvedStep(defs: seq<Definition>, env: Values, db: Values, n: nat)
    requires 0 < n <= |defs|
    ensures var settings := ResolvedSettings(defs, env, db);
            settings[..n] == settings[..n - 1] + [Resolve(defs, env, db, defs[n - 1])]
  {
  }

  predicate Listed(defs: seq<Definition>, n: nat, key: string)
    requires n <= |defs|
  {
    exists k | 0 <= k < n :: defs[k].key == key
  }

  lemma SharedStep(defs: seq<Definition>, env: Values, db: Values, before: seq<Resolved>, def: Definition, key: string)
    requires Find(defs, def.key) == Some(def)
    ensures Lookup(SharedSettings(defs, before + [Resolve(defs, env, db, def)]), key)
         == if def.key == key && Sharable(defs, key) && NonEmpty(Lookup(db, key)).Some? then NonEmpty(Lookup(db, key))
            else Lookup(SharedSettings(defs, before), key)
  {
    var all := before + [Resolve(defs, env, db, def)];
    assert all[..|before|] == before;
  }

  /** Web is given exactly the nonempty overrides of sharable settings: no secret, no environment value, no cleared key. */
  lemma ServedExactly(defs: seq<Definition>, env: Values, db: Values, key: string)
    requires DistinctKeys(defs)
    ensures Lookup(Served(defs, env, db), key) == if Sharable(defs, key) then NonEmpty(Lookup(db, key)) else None
  {
    var settings := ResolvedSettings(defs, env, db);
    SharedOf(defs, env, db, |defs|, key);
    assert settings[..|defs|] == settings;
    if Sharable(defs, key) {
      var k :| 0 <= k < |defs| && defs[k] == Find(defs, key).value;
    }
  }

  // Resolution in web

  function WebString(shared: Values, env: Values, key: string): Option<string> {
    OrElse(NonEmpty(Lookup(shared, key)), EnvLookup(env, key))
  }

  /** The resolver web starts with; it notes which keys were taken from api. */
  class SharedSettingResolver {
    const shared: Values
    const env: Values
    var applied: seq<string>

    constructor (shared: Values, env: Values)
      ensures this.shared == shared && this.env == env && applied == []
    {
      this.shared := shared;
      this.env := env;
      applied := [];
    }

    method OptionalString(key: string) returns (r: Option<string>)
      modifies this
      ensures r == WebString(shared, env, key)
      ensures applied == old(applied) + (if NonEmpty(Lookup(shared, key)).Some? then [key] else [])
    {
      if NonEmpty(Lookup(shared, key)).Some? {
        applied := applied + [key];
        return Some(shared[key]);
      }
      return EnvLookup(env, key);
    }
  }

  /** Given what api hands over, web resolves a sharable setting as api does, if their environments agree on it. */
  lemma WebFollowsApi(defs: seq<Definition>, apiEnv: Values, webEnv: Values, db: Values, key: string)
    requires DistinctKeys(defs) && Sharable(defs, key) && EnvLookup(webEnv, key) == EnvLookup(apiEnv, key)
    ensures WebString(Served(defs, apiEnv, db), webEnv, key) == OptionalString(defs, apiEnv, db, key)
  {
    ServedExactly(defs, apiEnv, db, key);
  }

  // Which keys web has not picked up

  /** `Vec::dedup`: drop repeats of the element before. */
  function Dedup(s: seq<string>): seq<string> {
    if |s| <= 1 then s
    else if s[0] == s[1] then Dedup(s[1..])
    else [s[0]] + Dedup(s[1..])
  }

  predicate StrictlyAscending(s: seq<string>, leq: (string, string) -> bool) {
    forall i, j | 0 <= i < j < |s| :: leq(s[i], s[j]) && s[i] != s[j]
  }

  lemma {:induction false} DedupOfAscending(s: seq<string>, leq: (string, string) -> bool)
    requires TotalOrder(leq) && Ascending(s, leq)
    ensures StrictlyAscending(Dedup(s), leq) && forall key :: key in Dedup(s) <==> key in s
  {
    if |s| > 1 {
      DedupOfAscending(s[1..], leq);
      assert s == [s[0]] + s[1..];
      if s[0] != s[1] {
        forall j | 0 <= j < |Dedup(s[1..])| ensures leq(s[0], Dedup(s[1..])[j]) && s[0] != Dedup(s[1..])[j] {
          assert Dedup(s[1..])[j] in s[1..];
          var k :| 0 <= k < |s[1..]| && s[1..][k] == Dedup(s[1..])[j];
          assert s[k + 1] == Dedup(s[1..])[j] && leq(s[0], s[1]) && leq(s[1], s[k + 1]) && leq(s[0], s[k + 1]);
        }
      }
    }
  }

  /** `stale_shared_settings`; the maps are walked in any order, and `leq` is the order of strings. */
  method StaleSharedSettings(applied: Values, current: Values, leq: (string, string) -> bool) returns (keys: seq<string>)
    requires TotalOrder(leq)
    ensures StrictlyAscending(keys, leq)
    ensures forall key :: key in keys <==> Lookup(applied, key) != Lookup(current, key)
  {
    keys := [];
    var rest := current.Keys;
    while rest != {}
      invariant rest <= current.Keys
      invariant forall key :: key in keys <==> key in current.Keys - rest && Lookup(applied, key) != Some(current[key])
    {
      var key :| key in rest;
      if Lookup(applied, key) != Some(current[key]) {
        keys := keys + [key];
      }
      rest := rest - {key};
    }
    ghost var changed := keys;
    rest := applied.Keys;
    while rest != {}
      invariant rest <= applied.Keys
      invariant forall key :: key in keys <==> key in changed || (key in applied.Keys - rest && key !in current)
    {
      var key :| key in rest;
      if key !in current {
        keys := keys + [key];
      }
      rest := rest - {key};
    }
    ghost var found := keys;
    keys := Sorted(keys, leq);
    SortedAscends(found, leq);
    assert forall key :: key in keys <==> key in multiset(keys);
    DedupOfAscending(keys, leq);
    keys := Dedup(keys);
  }

  /** The answer does not depend on the order the maps are walked in, and it is empty exactly for equal maps. */
  lemma StaleKeysAreDetermined(applied: Values, current: Values, leq: (string, string) -> bool, a: seq<string>, b: seq<string>)
    requires TotalOrder(leq) && StrictlyAscending(a, leq) && StrictlyAscending(b, leq)
    requires forall key :: key in a <==> Lookup(applied, key) != Lookup(current, key)
    requires forall key :: key in b <==> Lookup(applied, key) != Lookup(current, key)
    ensures a == b
    ensures a == [] <==> applied == current
  {
    SameAscending(a, b, leq);
    if a == [] {
      forall key ensures Lookup(applied, key) == Lookup(current, key) {
        assert key !in a;
      }
      SameLookups(applied, current);
    } else {
      assert a[0] in a;
    }
  }

  lemma SameLookups(a: Values, b: Values)
    requires forall key :: Lookup(a, key) == Lookup(b, key)
    ensures a == b
  {
    forall key ensures key in a <==> key in b {
      assert Lookup(a, key) == Lookup(b, key);
    }
    forall key | key in a ensures a[key] == b[key] {
      assert Lookup(a, key) == Lookup(b, key);
    }
  }

  lemma {:induction false} SameAscending(a: seq<string>, b: seq<string>, leq: (string, string) -> bool)
    requires TotalOrder(leq) && StrictlyAscending(a, leq) && StrictlyAscending(b, leq)
    requires forall key :: key in a <==> key in b
    ensures a == b
  {
    if a == [] {
      var key := if b == [] then "" else b[0];
      assert key in b <==> b != [];
      assert key in a <==> key in b;
    } else {
      assert a[0] in a && b != [];
      assert b[0] in b;
      assert a[0] == b[0];
      forall key ensures key in a[1..] <==> key in b[1..] {
        assert a == [a[0]] + a[1..] && b == [b[0]] + b[1..];
        assert key in a <==> key in b;
        assert a[0] !in a[1..] && b[0] !in b[1..];
      }
      SameAscending(a[1..], b[1..], leq);
      assert a == [a[0]] + a[1..] && b == [b[0]] + b[1..];
    }
  }
}
