/**
 Cookie names, `Set-Cookie` values and the reading of `Cookie` headers (crates/contracts/src/cookies.rs),
 with the thin request adapter of crates/web/src/cookies.rs.

 A request is represented by its `Cookie` header values, in order; a pair is one trimmed, nonempty
 piece of such a value between semicolons.
 */
module Cookies {
  import opened Wrappers
  import opened Text
  import opened Numerals

  const SSO_SESSION_COOKIE := "sso_session_id"
  const AUTH_SESSION_COOKIE := "auth_session_id"
  const ORIGIN_BOUND_SESSION_COOKIES := [SSO_SESSION_COOKIE, AUTH_SESSION_COOKIE]
  const HOST_PREFIX := "__Host-"

  type Headers = seq<string>

  // Reading

  function ReadParts(parts: seq<string>, name: string): Option<string> {
    if parts == [] then None
    else match SplitOnce(Trim(parts[0]), '=')
      case Some((k, v)) => if k == name then Some(v) else ReadParts(parts[1..], name)
      case None => ReadParts(parts[1..], name)
  }

  /** `read`: the value of the first pair called `name`, over all raw headers. */
  function Read(raws: seq<string>, name: string): Option<string> {
    if raws == [] then None
    else match ReadParts(Split(raws[0], {';'}), name)
      case Some(v) => Some(v)
      case None => Read(raws[1..], name)
  }

  /** `HeaderValue::to_str` succeeds on visible ASCII and tabs. */
  predicate Visible(s: string) {
    forall i | 0 <= i < |s| :: s[i] == '\t' || ' ' <= s[i] <= '~'
  }

  /** `HeaderValue::from_str` refuses control characters other than tab. */
  predicate ValidHeaderValue(s: string) {
    forall i | 0 <= i < |s| :: s[i] == '\t' || (' ' <= s[i] && s[i] as int != 127)
  }

  /** `.filter_map(|value| value.to_str().ok())` */
  function Readable(headers: Headers): (r: seq<string>)
    ensures forall k | 0 <= k < |r| :: Visible(r[k])
  {
    if headers == [] then []
    else (if Visible(headers[0]) then [headers[0]] else []) + Readable(headers[1..])
  }

  /** The web adapter `cookies::get`. */
  function Get(headers: Headers, name: string): Option<string> {
    Read(Readable(headers), name)
  }

  // Pairs: the view shared by the reader and the three rewriters

  function Pairs(raws: seq<string>): seq<string> {
    if raws == [] then [] else Clean(Split(raws[0], {';'})) + Pairs(raws[1..])
  }

  function ValueFor(pair: string, name: string): Option<string> {
    match SplitOnce(pair, '=')
    case Some((k, v)) => if k == name then Some(v) else None
    case None => None
  }

  function Lookup(pairs: seq<string>, name: string): Option<string> {
    if pairs == [] then None
    else if ValueFor(pairs[0], name).Some? then ValueFor(pairs[0], name)
    else Lookup(pairs[1..], name)
  }

  lemma {:induction false} LookupConcat(a: seq<string>, b: seq<string>, name: string)
    ensures Lookup(a + b, name) == if Lookup(a, name).Some? then Lookup(a, name) else Lookup(b, name)
  {
    if a == [] {
      assert a + b == b;
    } else {
      assert (a + b)[1..] == a[1..] + b;
      LookupConcat(a[1..], b, name);
    }
  }

  lemma {:induction false} ReadPartsIsLookup(parts: seq<string>, name: string)
    ensures ReadParts(parts, name) == Lookup(Clean(parts), name)
  {
    if parts != [] {
      ReadPartsIsLookup(parts[1..], name);
      LookupConcat(if Trim(parts[0]) == [] then [] else [Trim(parts[0])], Clean(parts[1..]), name);
    }
  }

  lemma {:induction false} ReadIsLookup(raws: seq<string>, name: string)
    ensures Read(raws, name) == Lookup(Pairs(raws), name)
  {
    if raws != [] {
      ReadPartsIsLookup(Split(raws[0], {';'}), name);
      ReadIsLookup(raws[1..], name);
      LookupConcat(Clean(Split(raws[0], {';'})), Pairs(raws[1..]), name);
    }
  }

  predicate CookiePairs(pairs: seq<string>) {
    CleanPieces(pairs, {';'}) && forall k | 0 <= k < |pairs| :: Visible(pairs[k])
  }

  ghost predicate Inside(part: string, whole: string) {
    forall i | 0 <= i < |part| :: part[i] in whole
  }

  lemma {:induction false} CleanInside(parts: seq<string>, whole: string)
    requires forall k | 0 <= k < |parts| :: Inside(parts[k], whole)
    ensures forall k | 0 <= k < |Clean(parts)| :: Inside(Clean(parts)[k], whole)
  {
    if parts != [] {
      TrimInside(parts[0], whole);
      CleanInside(parts[1..], whole);
    }
  }

  lemma {:induction false} TrimInside(s: string, whole: string)
    requires Inside(s, whole)
    ensures Inside(Trim(s), whole)
  {
    if s != [] && IsWhite(s[0]) {
      TrimInside(s[1..], whole);
    }
  }

  lemma {:induction false} SplitInside(s: string, seps: set<char>, whole: string)
    requires Inside(s, whole)
    ensures forall k | 0 <= k < |Split(s, seps)| :: Inside(Split(s, seps)[k], whole)
    decreases |s|
  {
    var i := IndexOf(s, seps);
    if i < |s| {
      SplitInside(s[i + 1..], seps, whole);
    }
  }

  lemma PiecesOfVisible(raw: string)
    requires Visible(raw)
    ensures CookiePairs(Clean(Split(raw, {';'})))
  {
    CleanSplitPieces(raw, {';'});
    SplitInside(raw, {';'}, raw);
    CleanInside(Split(raw, {';'}), raw);
  }

  lemma {:induction false} PairsOfVisible(raws: seq<string>)
    requires forall k | 0 <= k < |raws| :: Visible(raws[k])
    ensures CookiePairs(Pairs(raws))
  {
    if raws != [] {
      PiecesOfVisible(raws[0]);
      PairsOfVisible(raws[1..]);
    }
  }

  function RequestPairs(headers: Headers): (pairs: seq<string>)
    ensures CookiePairs(pairs)
  {
    PairsOfVisible(Readable(headers));
    Pairs(Readable(headers))
  }

  lemma GetIsLookup(headers: Headers, name: string)
    ensures Get(headers, name) == Lookup(RequestPairs(headers), name)
  {
    ReadIsLookup(Readable(headers), name);
  }

  // Rewriting a request's cookies

  /** One header with these pairs; no header when there are none, or when the text is no header value. */
  function Rebuild(pairs: seq<string>): Headers {
    var joined := Join(pairs, "; ");
    if joined == "" || !ValidHeaderValue(joined) then [] else [joined]
  }

  lemma {:induction false} JoinVisible(pairs: seq<string>)
    requires forall k | 0 <= k < |pairs| :: Visible(pairs[k])
    ensures Visible(Join(pairs, "; "))
  {
    if |pairs| > 1 {
      JoinVisible(pairs[1..]);
    }
  }

  /** The rebuilt header is always accepted, and carries exactly the given pairs. */
  lemma RebuildReads(pairs: seq<string>)
    requires CookiePairs(pairs)
    ensures RequestPairs(Rebuild(pairs)) == pairs
    ensures ValidHeaderValue(Join(pairs, "; "))
    ensures Rebuild(pairs) == if pairs == [] then [] else [Join(pairs, "; ")]
  {
    JoinVisible(pairs);
    if pairs != [] {
      var joined := Join(pairs, "; ");
      assert pairs[0] <= joined;
      assert "; " == [';'] + " ";
      CleanSplitJoin(pairs, ';', " ", {';'});
      assert Readable([joined]) == [joined];
      assert Pairs([joined]) == Clean(Split(joined, {';'})) + Pairs([]);
    }
  }

  /** Replace or drop each pair. */
  function Rewrite(pairs: seq<string>, f: string -> Option<string>): seq<string> {
    if pairs == [] then []
    else (match f(pairs[0]) case Some(p) => [p] case None => []) + Rewrite(pairs[1..], f)
  }

  ghost predicate Carries(pair: string, f: string -> Option<string>, from: string, to: string) {
    match f(pair)
    case None => ValueFor(pair, from).None?
    case Some(p) => ValueFor(p, to) == ValueFor(pair, from)
  }

  /** When every pair carries `from` over to `to`, so does the whole list. */
  lemma {:induction false} LookupRewrite(pairs: seq<string>, f: string -> Option<string>, from: string, to: string)
    requires forall k | 0 <= k < |pairs| :: Carries(pairs[k], f, from, to)
    ensures Lookup(Rewrite(pairs, f), to) == Lookup(pairs, from)
  {
    if pairs != [] {
      LookupRewrite(pairs[1..], f, from, to);
      LookupConcat(match f(pairs[0]) case Some(p) => [p] case None => [], Rewrite(pairs[1..], f), to);
    }
  }

  lemma {:induction false} LookupNone(pairs: seq<string>, name: string)
    requires forall k | 0 <= k < |pairs| :: ValueFor(pairs[k], name).None?
    ensures Lookup(pairs, name).None?
  {
    if pairs != [] {
      LookupNone(pairs[1..], name);
    }
  }

  // Set-Cookie values

  function Build(name: string, value: string, maxAge: nat, secure: bool, domain: Option<string>): string {
    name + "=" + value + "; Max-Age=" + Dec(maxAge)
    + (if domain.Some? then "; Domain=" + domain.value else "")
    + "; Path=/; HttpOnly; SameSite=Lax"
    + (if secure then "; Secure" else "")
  }

  function BuildPreference(name: string, value: string, maxAge: nat, secure: bool): string {
    name + "=" + value + "; Max-Age=" + Dec(maxAge) + "; Path=/; SameSite=Lax"
    + (if secure then "; Secure" else "")
  }

  datatype CookiePolicy = CookiePolicy(secure: bool, legacyCleanupDomain: Option<string>) {

    function OriginBoundSessionName(name: string): string {
      if secure && name in ORIGIN_BOUND_SESSION_COOKIES then HOST_PREFIX + name else name
    }

    function OriginBoundName(name: string): string {
      if secure then HOST_PREFIX + name else name
    }

    /** The cookie itself, then the deletions of the unprefixed and of the legacy `Domain` cookie. */
    function SetSession(name: string, value: string, maxAge: nat): seq<string> {
      var bound := OriginBoundSessionName(name);
      [Build(bound, value, maxAge, secure, None)]
      + (if bound != name then [Build(name, "", 0, secure, None)] else [])
      + (if legacyCleanupDomain.Some? then [Build(name, "", 0, secure, legacyCleanupDomain)] else [])
    }

    function ExpireSession(name: string): seq<string> {
      SetSession(name, "", 0)
    }

    function SetLocal(name: string, value: string, maxAge: nat): string {
      Build(name, value, maxAge, secure, None)
    }

    function SetPreference(name: string, value: string, maxAge: nat): string {
      BuildPreference(name, value, maxAge, secure)
    }

    function SetCrossSiteLocal(name: string, value: string, maxAge: nat): string {
      if !secure then SetLocal(name, value, maxAge)
      else name + "=" + value + "; Max-Age=" + Dec(maxAge) + "; Path=/; HttpOnly; SameSite=None; Secure"
    }

    /** `bind_session_cookie_names`, loop for loop. */
    method BindSessionCookieNames(rawHeaders: seq<string>) returns (rebuilt: Option<string>)
      ensures rebuilt == BoundHeader(secure, rawHeaders)
    {
      if !secure {
        return None;
      }
      var changed := false;
      var pairs: seq<string> := [];
      var todo := Pairs(rawHeaders);
      while todo != []
        invariant changed || AnySessionPair(todo) <==> AnySessionPair(Pairs(rawHeaders))
        invariant pairs + Rewrite(todo, BindPair) == Rewrite(Pairs(rawHeaders), BindPair)
        decreases |todo|
      {
        var pair := todo[0];
        BindCases(pair);
        RewriteStep(pairs, todo, BindPair);
        todo := todo[1..];
        var name := NameOf(pair);
        if name in ORIGIN_BOUND_SESSION_COOKIES {
          changed := true;
        } else if HOST_PREFIX <= name && name[|HOST_PREFIX|..] in ORIGIN_BOUND_SESSION_COOKIES {
          changed := true;
          pairs := pairs + [pair[|HOST_PREFIX|..]];
        } else {
          pairs := pairs + [pair];
        }
      }
      assert pairs == pairs + Rewrite(todo, BindPair);
      return if changed then Some(Join(pairs, "; ")) else None;
    }
  }

  // Binding session cookie names to the origin

  /** `pair.split_once('=').map_or(pair, |(k, _)| k)` */
  function NameOf(pair: string): string {
    match SplitOnce(pair, '=')
    case Some((k, _)) => k
    case None => pair
  }

  lemma NamePrefixes(pair: string)
    ensures NameOf(pair) <= pair
  {
  }

  function BindPair(pair: string): Option<string> {
    var name := NameOf(pair);
    NamePrefixes(pair);
    if name in ORIGIN_BOUND_SESSION_COOKIES then None
    else if HOST_PREFIX <= name && name[|HOST_PREFIX|..] in ORIGIN_BOUND_SESSION_COOKIES then Some(pair[|HOST_PREFIX|..])
    else Some(pair)
  }

  predicate IsSessionPair(pair: string) {
    var name := NameOf(pair);
    || name in ORIGIN_BOUND_SESSION_COOKIES
    || (HOST_PREFIX <= name && name[|HOST_PREFIX|..] in ORIGIN_BOUND_SESSION_COOKIES)
  }

  predicate AnySessionPair(pairs: seq<string>) {
    pairs != [] && (IsSessionPair(pairs[0]) || AnySessionPair(pairs[1..]))
  }

  function BoundHeader(secure: bool, rawHeaders: seq<string>): Option<string> {
    if secure && AnySessionPair(Pairs(rawHeaders))
    then Some(Join(Rewrite(Pairs(rawHeaders), BindPair), "; "))
    else None
  }

  lemma RewriteStep(done: seq<string>, todo: seq<string>, f: string -> Option<string>)
    requires todo != []
    ensures done + Rewrite(todo, f)
         == (match f(todo[0]) case Some(p) => done + [p] case None => done) + Rewrite(todo[1..], f)
  {
  }

  lemma BindCases(pair: string)
    ensures var name := NameOf(pair);
            var prefixed := HOST_PREFIX <= name && name[|HOST_PREFIX|..] in ORIGIN_BOUND_SESSION_COOKIES;
            && (HOST_PREFIX <= name ==> |HOST_PREFIX| <= |pair|)
            && IsSessionPair(pair) == (name in ORIGIN_BOUND_SESSION_COOKIES || prefixed)
            && BindPair(pair) == (if name in ORIGIN_BOUND_SESSION_COOKIES then None
                                  else if prefixed then Some(pair[|HOST_PREFIX|..])
                                  else Some(pair))
  {
    NamePrefixes(pair);
  }

  /** The middleware: what the inner layers see as the request's `Cookie` headers. */
  function BindRequest(policy: CookiePolicy, headers: Headers): Headers {
    match BoundHeader(policy.secure, Readable(headers))
    case None => headers
    case Some(rebuilt) => if rebuilt == "" || !ValidHeaderValue(rebuilt) then [] else [rebuilt]
  }

  lemma BindPairKeepsPairs(pair: string)
    requires pair != [] && Trimmed(pair) && Free(pair, {';'}) && Visible(pair)
    ensures BindPair(pair).Some? ==>
              var p := BindPair(pair).value;
              p != [] && Trimmed(p) && Free(p, {';'}) && Visible(p)
  {
    NamePrefixes(pair);
    if IsSessionPair(pair) && BindPair(pair).Some? {
      assert NameOf(pair)[|HOST_PREFIX|..] <= BindPair(pair).value;
    }
  }

  lemma {:induction false} RewriteKeepsPairs(pairs: seq<string>, f: string -> Option<string>)
    requires forall k | 0 <= k < |pairs| :: f(pairs[k]).Some? ==> CookiePairs([f(pairs[k]).value])
    ensures CookiePairs(Rewrite(pairs, f))
  {
    if pairs != [] {
      RewriteKeepsPairs(pairs[1..], f);
      if f(pairs[0]).Some? {
        assert CookiePairs([f(pairs[0]).value]);
      }
    }
  }

  lemma BindKeepsPairs(pairs: seq<string>)
    requires CookiePairs(pairs)
    ensures CookiePairs(Rewrite(pairs, BindPair))
  {
    forall k | 0 <= k < |pairs| && BindPair(pairs[k]).Some?
      ensures CookiePairs([BindPair(pairs[k]).value])
    {
      BindPairKeepsPairs(pairs[k]);
    }
    RewriteKeepsPairs(pairs, BindPair);
  }

  /** What reaches the inner layers, as pairs: every session pair is renamed or dropped, the rest is kept. */
  lemma BindRequestPairs(policy: CookiePolicy, headers: Headers)
    requires policy.secure
    ensures RequestPairs(BindRequest(policy, headers)) == Rewrite(RequestPairs(headers), BindPair)
  {
    var pairs := RequestPairs(headers);
    if AnySessionPair(pairs) {
      BindKeepsPairs(pairs);
      RebuildReads(Rewrite(pairs, BindPair));
    } else {
      RewriteUntouched(pairs);
    }
  }

  lemma {:induction false} RewriteUntouched(pairs: seq<string>)
    requires !AnySessionPair(pairs)
    ensures Rewrite(pairs, BindPair) == pairs
  {
    if pairs != [] {
      RewriteUntouched(pairs[1..]);
    }
  }

  lemma ValueForName(pair: string, name: string)
    ensures ValueFor(pair, name).Some? ==> NameOf(pair) == name && pair == name + "=" + ValueFor(pair, name).value
    ensures NameOf(pair) == name && !Free(pair, {'='}) ==> ValueFor(pair, name).Some?
  {
  }

  /** Dropping the front of a pair's name leaves the rest of the name, and the value. */
  lemma ShorterName(front: string, pair: string, name: string)
    requires front <= NameOf(pair)
    ensures |front| <= |pair|
    ensures NameOf(pair[|front|..]) == NameOf(pair)[|front|..]
    ensures ValueFor(pair[|front|..], name) == ValueFor(pair, front + name)
  {
    NamePrefixes(pair);
    var base := NameOf(pair)[|front|..];
    assert NameOf(pair) == front + base;
    match SplitOnce(pair, '=') {
      case None =>
        assert forall i | 0 <= i < |base| :: base[i] == pair[i + |front|];
      case Some((k, v)) =>
        assert pair[|front|..] == base + ['='] + v;
        assert forall i | 0 <= i < |base| :: base[i] == k[i + |front|];
        SplitOnceIs(base, '=', v);
        if front + base == front + name {
          assert base == (front + base)[|front|..] == (front + name)[|front|..] == name;
        }
    }
  }

  lemma SessionPairCarries(pair: string, name: string)
    requires name in ORIGIN_BOUND_SESSION_COOKIES
    ensures Carries(pair, BindPair, HOST_PREFIX + name, name)
  {
    BindCases(pair);
    ValueForName(pair, HOST_PREFIX + name);
    ValueForName(pair, name);
    assert (HOST_PREFIX + name)[|HOST_PREFIX|..] == name;
    if HOST_PREFIX <= NameOf(pair) {
      ShorterName(HOST_PREFIX, pair, name);
    }
  }

  /** Over HTTPS the inner layers read a session cookie exactly as the browser sent it under its prefixed name. */
  lemma BoundSessionReads(policy: CookiePolicy, headers: Headers, name: string)
    requires policy.secure && name in ORIGIN_BOUND_SESSION_COOKIES
    ensures Get(BindRequest(policy, headers), name) == Get(headers, HOST_PREFIX + name)
  {
    var pairs := RequestPairs(headers);
    forall k | 0 <= k < |pairs| ensures Carries(pairs[k], BindPair, HOST_PREFIX + name, name) {
      SessionPairCarries(pairs[k], name);
    }
    LookupRewrite(pairs, BindPair, HOST_PREFIX + name, name);
    BindRequestPairs(policy, headers);
    GetIsLookup(headers, HOST_PREFIX + name);
    GetIsLookup(BindRequest(policy, headers), name);
  }

  predicate IsSessionName(name: string) {
    || name in ORIGIN_BOUND_SESSION_COOKIES
    || (HOST_PREFIX <= name && name[|HOST_PREFIX|..] in ORIGIN_BOUND_SESSION_COOKIES)
  }

  /** Every other cookie reads the same before and after, and the prefixed session names become unreadable. */
  lemma BoundOthersRead(policy: CookiePolicy, headers: Headers, name: string)
    ensures !IsSessionName(name) ==> Get(BindRequest(policy, headers), name) == Get(headers, name)
    ensures policy.secure && IsSessionName(name) && name !in ORIGIN_BOUND_SESSION_COOKIES
            ==> Get(BindRequest(policy, headers), name).None?
  {
    if policy.secure {
      var pairs := RequestPairs(headers);
      BindRequestPairs(policy, headers);
      GetIsLookup(headers, name);
      GetIsLookup(BindRequest(policy, headers), name);
      if !IsSessionName(name) {
        forall k | 0 <= k < |pairs| ensures Carries(pairs[k], BindPair, name, name) {
          OtherPair(pairs[k], name);
        }
        LookupRewrite(pairs, BindPair, name, name);
      } else if name !in ORIGIN_BOUND_SESSION_COOKIES {
        forall k | 0 <= k < |pairs| && BindPair(pairs[k]).Some?
          ensures ValueFor(BindPair(pairs[k]).value, name).None?
        {
          NoPrefixedLeft(pairs[k], name);
        }
        LookupRewriteNone(pairs, BindPair, name);
      }
    }
  }

  lemma OtherPair(pair: string, name: string)
    requires !IsSessionName(name)
    ensures Carries(pair, BindPair, name, name)
  {
    ValueForName(pair, name);
    if IsSessionPair(pair) && BindPair(pair).Some? {
      ValueForName(BindPair(pair).value, name);
      ShorterName(HOST_PREFIX, pair, name);
    }
  }

  lemma {:induction false} LookupRewriteNone(pairs: seq<string>, f: string -> Option<string>, name: string)
    requires forall k | 0 <= k < |pairs| :: f(pairs[k]).Some? ==> ValueFor(f(pairs[k]).value, name).None?
    ensures Lookup(Rewrite(pairs, f), name).None?
  {
    if pairs != [] {
      LookupRewriteNone(pairs[1..], f, name);
      assert f(pairs[0]).Some? ==> ValueFor(f(pairs[0]).value, name).None?;
      LookupConcat(match f(pairs[0]) case Some(p) => [p] case None => [], Rewrite(pairs[1..], f), name);
    }
  }

  lemma NoPrefixedLeft(pair: string, name: string)
    requires IsSessionName(name) && name !in ORIGIN_BOUND_SESSION_COOKIES && BindPair(pair).Some?
    ensures ValueFor(BindPair(pair).value, name).None?
  {
    ValueForName(BindPair(pair).value, name);
    if IsSessionPair(pair) {
      ShorterName(HOST_PREFIX, pair, name);
    }
  }
}
