/**
 The short memory of "is this SSO session bound to a device key?" (crates/web/src/session_key.rs).

 Times are nanoseconds of the process's monotonic clock. `Remember` and `Answer` say what one call does to the
 map of entries; `Replay` says what a whole history of calls leaves behind.
 */
module SessionKeyCache {
  import opened Wrappers

  const SECOND: nat := 1_000_000_000
  const BINDING_CACHE_TTL: nat := 60 * SECOND
  const BINDING_CACHE_MAX: nat := 10_000

  datatype Entry = Entry(bound: bool, at: nat)
  type Entries = map<string, Entry>

  predicate Young(e: Entry, now: nat) {
    now - e.at < BINDING_CACHE_TTL
  }

  function Answer(entries: Entries, key: string, now: nat): Option<bool> {
    if key in entries && Young(entries[key], now) then Some(entries[key].bound) else None
  }

  function Retain(entries: Entries, now: nat): Entries {
    map k | k in entries && Young(entries[k], now) :: entries[k]
  }

  /** The entries that survive the eviction a put begins with. */
  function Evict(entries: Entries, now: nat): Entries {
    if |entries| < BINDING_CACHE_MAX then entries
    else if |Retain(entries, now)| < BINDING_CACHE_MAX then Retain(entries, now)
    else map[]
  }

  function Remember(entries: Entries, key: string, bound: bool, now: nat): Entries {
    Evict(entries, now)[key := Entry(bound, now)]
  }

  class SessionKeyCache {
    var entries: Entries
    /** Every put so far. */
    ghost var history: seq<PutCall>

    ghost predicate Valid()
      reads this
    {
      entries == Replay(history) && Monotone(history)
    }

    constructor ()
      ensures Valid() && history == []
    {
      entries := map[];
      history := [];
    }

    method Get(key: string, now: nat) returns (bound: Option<bool>)
      requires Valid()
      ensures bound == Answer(Replay(history), key, now)
    {
      if key !in entries {
        return None;
      }
      var e := entries[key];
      if now - e.at < BINDING_CACHE_TTL {
        bound := Some(e.bound);
      } else {
        bound := None;
      }
    }

    method Put(key: string, bound: bool, now: nat)
      requires Valid()
      requires history != [] ==> history[|history| - 1].at <= now
      modifies this
      ensures Valid()
      ensures history == old(history) + [PutCall(key, bound, now)]
      ensures entries == Remember(old(entries), key, bound, now)
    {
      if |entries| >= BINDING_CACHE_MAX {
        entries := map k | k in entries && now - entries[k].at < BINDING_CACHE_TTL :: entries[k];
        assert entries == Retain(old(entries), now);
        if |entries| >= BINDING_CACHE_MAX {
          entries := map[];
        }
      }
      entries := entries[key := Entry(bound, now)];
      history := history + [PutCall(key, bound, now)];
      assert history[..|history| - 1] == old(history);
    }

    /** A session found bound at registration is remembered as bound. */
    method MarkBound(key: string, now: nat)
      requires Valid()
      requires history != [] ==> history[|history| - 1].at <= now
      modifies this
      ensures Valid()
      ensures history == old(history) + [PutCall(key, true, now)]
      ensures Answer(entries, key, now) == Some(true)
    {
      Put(key, true, now);
    }
  }

  // Histories

  datatype PutCall = PutCall(key: string, bound: bool, at: nat)

  /** The monotonic clock never runs backwards between puts. */
  predicate Monotone(h: seq<PutCall>) {
    forall i, j | 0 <= i < j < |h| :: h[i].at <= h[j].at
  }

  function Replay(h: seq<PutCall>): Entries {
    if h == [] then map[]
    else
      var last := h[|h| - 1];
      Remember(Replay(h[..|h| - 1]), last.key, last.bound, last.at)
  }

  /** The reference: the latest put for each key, with no limit and no eviction. */
  function Latest(h: seq<PutCall>): Entries {
    if h == [] then map[]
    else
      var last := h[|h| - 1];
      Latest(h[..|h| - 1])[last.key := Entry(last.bound, last.at)]
  }

  lemma {:induction false} LatestIsLatest(h: seq<PutCall>, key: string)
    ensures key in Latest(h) <==> exists i :: 0 <= i < |h| && h[i].key == key
    ensures key in Latest(h) ==>
              exists i | 0 <= i < |h| ::
                && h[i] == PutCall(key, Latest(h)[key].bound, Latest(h)[key].at)
                && forall j | i < j < |h| :: h[j].key != key
  {
    if h != [] {
      var n := |h| - 1;
      var before := h[..n];
      LatestIsLatest(before, key);
      if h[n].key == key {
        assert h[n] == PutCall(key, Latest(h)[key].bound, Latest(h)[key].at);
      } else if key in Latest(before) {
        var i :| 0 <= i < |before| && before[i] == PutCall(key, Latest(before)[key].bound, Latest(before)[key].at)
                 && forall j | i < j < |before| :: before[j].key != key;
        assert forall j | i < j < |h| :: h[j].key != key by {
          assert forall j | i < j < n :: h[j] == before[j];
        }
        assert h[i] == before[i];
      } else {
        assert forall i | 0 <= i < n :: h[i] == before[i];
      }
    }
  }

  /** Whatever was evicted, the cache holds only latest puts, and never more than its limit. */
  lemma {:induction false} ReplayWithinLatest(h: seq<PutCall>)
    ensures |Replay(h)| <= BINDING_CACHE_MAX
    ensures forall k | k in Replay(h) :: k in Latest(h) && Latest(h)[k] == Replay(h)[k]
  {
    if h != [] {
      var last := h[|h| - 1];
      var before := h[..|h| - 1];
      ReplayWithinLatest(before);
      var kept := Evict(Replay(before), last.at);
      assert |kept| < BINDING_CACHE_MAX;
      InsertSize(kept, last.key, Entry(last.bound, last.at));
    }
  }

  lemma InsertSize(m: Entries, key: string, e: Entry)
    ensures |m[key := e]| <= |m| + 1
  {
    assert m[key := e].Keys == m.Keys + {key};
  }

  /** An answer is the value of the latest put for that key, made less than 60 seconds earlier. */
  lemma AnswersAreLatest(h: seq<PutCall>, key: string, now: nat, b: bool)
    requires Answer(Replay(h), key, now) == Some(b)
    ensures Answer(Latest(h), key, now) == Some(b)
    ensures exists i | 0 <= i < |h| ::
              && h[i].key == key && h[i].bound == b && now - h[i].at < BINDING_CACHE_TTL
              && forall j | i < j < |h| :: h[j].key != key
  {
    ReplayWithinLatest(h);
    LatestIsLatest(h, key);
  }

  /** The keys that still have an answer at a time. */
  function Live(h: seq<PutCall>, now: nat): set<string> {
    Retain(Latest(h), now).Keys
  }

  /** No put ever found the limit reached by answers that are still young. */
  ghost predicate NeverCrowded(h: seq<PutCall>) {
    forall i | 0 <= i < |h| :: |Live(h[..i], h[i].at)| < BINDING_CACHE_MAX
  }

  lemma NeverCrowdedPrefix(h: seq<PutCall>)
    requires h != [] && NeverCrowded(h)
    ensures NeverCrowded(h[..|h| - 1])
  {
    var before := h[..|h| - 1];
    forall i | 0 <= i < |before| ensures |Live(before[..i], before[i].at)| < BINDING_CACHE_MAX {
      assert before[..i] == h[..i];
    }
  }

  /** Unless crowded, the cache is the reference map: it forgets nothing that is still young. */
  lemma {:induction false} CacheIsExact(h: seq<PutCall>, key: string, now: nat)
    requires Monotone(h) && NeverCrowded(h)
    requires h != [] ==> h[|h| - 1].at <= now
    ensures Answer(Replay(h), key, now) == Answer(Latest(h), key, now)
  {
    if h != [] {
      var last := h[|h| - 1];
      var before := h[..|h| - 1];
      NeverCrowdedPrefix(h);
      if key != last.key {
        assert before != [] ==> before[|before| - 1] == h[|h| - 2];
        CacheIsExact(before, key, now);
        NotCleared(before, last.at);
        assert before == h[..|h| - 1] && |Live(before, last.at)| < BINDING_CACHE_MAX;
        EvictKeepsYoung(Replay(before), key, last.at, now);
      }
    }
  }

  /** Young entries outnumbering the limit is the only reason to drop one. */
  lemma NotCleared(h: seq<PutCall>, now: nat)
    ensures |Retain(Replay(h), now)| <= |Live(h, now)|
  {
    ReplayWithinLatest(h);
    SubsetSize(Retain(Replay(h), now).Keys, Live(h, now));
  }

  lemma EvictKeepsYoung(entries: Entries, key: string, at: nat, now: nat)
    requires at <= now && |Retain(entries, at)| < BINDING_CACHE_MAX
    ensures Answer(Evict(entries, at), key, now) == Answer(entries, key, now)
  {
  }

  lemma SubsetSize(a: set<string>, b: set<string>)
    requires a <= b
    ensures |a| <= |b|
  {
    assert b == a + (b - a);
  }
}
