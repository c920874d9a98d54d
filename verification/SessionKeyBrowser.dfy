/**
 The device-binding protocol with a real browser at the other end: the cookies of a reply, stored in the jar of
 `BrowserJar` and sent back, are the ones the guard looks for.
 */
module SessionKeyBrowser {
  import opened Wrappers
  import opened Text
  import opened Numerals
  import opened Cookies
  import opened SessionStamp
  import opened SessionKey
  import opened SessionKeyRuns
  import Cache = SessionKeyCache
  import B = BrowserJar
  import Replies = SessionKeyReplies

  // A request that carries the long cookie alone

  lemma LookupSingle(pair: string, name: string)
    ensures Lookup([pair], name) == ValueFor(pair, name)
  {
    assert [pair][1..] == [];
  }

  /** A header with one pair reads as that pair. */
  lemma SingleReads(name: string, value: string, wanted: string)
    requires B.NameOk(name) && B.ValueOk(value) && Visible(name) && Visible(value)
    ensures Get([name + "=" + value], wanted) == if wanted == name then Some(value) else None
  {
    var pair := name + "=" + value;
    B.PairTextClean(name, value);
    assert CookiePairs([pair]);
    assert Join([pair], "; ") == pair;
    RebuildReads([pair]);
    GetIsLookup([pair], wanted);
    LookupSingle(pair, wanted);
    B.PairValue(name, value, wanted);
  }

  lemma SessionNameVisible(policy: CookiePolicy)
    ensures B.NameOk(policy.OriginBoundSessionName(SSO_SESSION_COOKIE))
    ensures Visible(policy.OriginBoundSessionName(SSO_SESSION_COOKIE))
  {
    B.SessionNamesOk(SSO_SESSION_COOKIE);
    assert Visible(HOST_PREFIX) && Visible(SSO_SESSION_COOKIE);
    var name := HOST_PREFIX + SSO_SESSION_COOKIE;
    assert forall i | 0 <= i < |name| :: name[i] in HOST_PREFIX || name[i] in SSO_SESSION_COOKIE;
  }

  /** The short cookie's name is none of the session names, so binding does not touch it. */
  lemma ShortNameIsOther(policy: CookiePolicy)
    ensures policy.secure ==> !IsSessionName(policy.OriginBoundName(BOUND_COOKIE))
    ensures policy.OriginBoundName(BOUND_COOKIE) != policy.OriginBoundSessionName(SSO_SESSION_COOKIE)
  {
    assert |HOST_PREFIX + BOUND_COOKIE| == 16 && |HOST_PREFIX + SSO_SESSION_COOKIE| == 21;
    assert |BOUND_COOKIE| == 9 && |SSO_SESSION_COOKIE| == 14 && |AUTH_SESSION_COOKIE| == 15;
    assert (HOST_PREFIX + BOUND_COOKIE)[|HOST_PREFIX|..] == BOUND_COOKIE;
  }

  lemma BoundReads(policy: CookiePolicy, headers: Headers)
    ensures Get(BindRequest(policy, headers), SSO_SESSION_COOKIE)
         == Get(headers, policy.OriginBoundSessionName(SSO_SESSION_COOKIE))
    ensures Get(BindRequest(policy, headers), policy.OriginBoundName(BOUND_COOKIE))
         == Get(headers, policy.OriginBoundName(BOUND_COOKIE))
  {
    if policy.secure {
      BoundSessionReads(policy, headers, SSO_SESSION_COOKIE);
      ShortNameIsOther(policy);
      BoundOthersRead(policy, headers, policy.OriginBoundName(BOUND_COOKIE));
    }
  }

  function LongCookieRequest(policy: CookiePolicy, session: string): Request {
    Request("/", [policy.OriginBoundSessionName(SSO_SESSION_COOKIE) + "=" + session], None, None)
  }

  /** Under every policy, every session a header can carry has a request that shows its long cookie and no short one. */
  lemma LongCookieAlone(env: Env, secs: I64, session: string)
    requires ClockInRange(secs) && session in env.sessions && B.ValueOk(session) && Visible(session)
    ensures var request := LongCookieRequest(env.site.policy, session);
            LongCookieOnly(env, secs, request, BindRequest(env.site.policy, request.cookies), session)
  {
    var policy := env.site.policy;
    var name, request := policy.OriginBoundSessionName(SSO_SESSION_COOKIE), LongCookieRequest(policy, session);
    SessionNameVisible(policy);
    ShortNameIsOther(policy);
    SingleReads(name, session, name);
    SingleReads(name, session, BoundCookieName(env.site));
    BoundReads(policy, request.cookies);
  }

  /**
   No smaller bound holds: for every delay and every session there is a request and a run in which its long cookie
   alone is accepted one nanosecond before 60 seconds plus the delay have passed since the binding.
   */
  lemma BoundIsReached(env: Env, secs: I64, session: string) returns (request: Request, st: State)
    requires ClockInRange(secs) && session in env.sessions && B.ValueOk(session) && Visible(session)
    ensures Run(env, Init(secs), LateAnswer(env, request, session)) == Some(st) && |st.log| == 2 && session in st.boundAt
    ensures var e, inner := st.log[1], BindRequest(env.site.policy, request.cookies);
            && e == Delivered(request, inner, inner, st.boundAt[session] + Cache.BINDING_CACHE_TTL + env.delay - 1, secs, false)
            && !Exempt(request.path) && Get(inner, SSO_SESSION_COOKIE) == Some(session)
            && !HasValidShortCookie(env.site, inner, session, secs)
  {
    request := LongCookieRequest(env.site.policy, session);
    var inner := BindRequest(env.site.policy, request.cookies);
    LongCookieAlone(env, secs, session);
    BoundIsExact(env, secs, request, inner, session);
    st := Run(env, Init(secs), LateAnswer(env, request, session)).value;
  }

  // A browser that has just been bound

  lemma ShortNameOk(policy: CookiePolicy)
    requires policy.secure
    ensures B.NameOk(policy.OriginBoundName(BOUND_COOKIE)) && HOST_PREFIX <= policy.OriginBoundName(BOUND_COOKIE)
    ensures policy.OriginBoundName(BOUND_COOKIE) != SSO_SESSION_COOKIE
    ensures policy.OriginBoundName(BOUND_COOKIE) != HOST_PREFIX + SSO_SESSION_COOKIE
  {
    Replies.NamesDiffer(policy);
    var name := HOST_PREFIX + BOUND_COOKIE;
    assert name[0] == '_' && name[|name| - 1] == 'd';
  }

  lemma StampOk(site: Site, session: string, at: I64)
    ensures var value := BoundCookie(site.crypto, site.key, session, at); B.ValueOk(value) && Visible(value)
  {
    var c := site.crypto;
    var n: nat := if at < 0 then 0 - at else at;
    var digits, tag := Dec(n), Hex(Tag(c, site.key, BOUND_COOKIE_PURPOSE, session, at));
    assert AllDigits(digits);
    var text := DecInt(at) + "." + tag;
    assert forall i | 0 <= i < |text| :: text[i] == '-' || text[i] == '.' || IsDigit(text[i]) || 'a' <= text[i] <= 'f';
  }

  lemma StoreFirst(site: B.Site, defaultPath: string, jar: B.Jar, now: int, first: string, rest: seq<string>)
    ensures B.StoreAll(site, defaultPath, jar, now, [first] + rest)
         == B.StoreAll(site, defaultPath, B.Store(site, defaultPath, jar, now, first), now, rest)
  {
    assert ([first] + rest)[1..] == rest;
  }

  /** The jar after the cookies of a bound reply: the short cookie put in place, then the session stored. */
  lemma BoundCookiesStored(site: Site, browser: B.Site, defaultPath: string, jar: B.Jar, at: int, session: string,
                           remaining: nat, now: I64)
    requires site.policy.secure && browser.https && B.CleanupOk(browser, site.policy) && B.ValueOk(session) && ClockInRange(now)
    ensures var value := BoundCookie(site.crypto, site.key, session, now + BOUND_COOKIE_MAX_AGE_SECS);
            var key := B.Key(BoundCookieName(site), browser.host, "/");
            B.StoreAll(browser, defaultPath, jar, at, BoundCookies(site, session, remaining, now))
            == B.StoreAll(browser, defaultPath, jar[key := B.Stored(value, true, true, Some(at + BOUND_COOKIE_MAX_AGE_SECS))], at,
                          site.policy.SetSession(SSO_SESSION_COOKIE, session, remaining))
  {
    var value := BoundCookie(site.crypto, site.key, session, now + BOUND_COOKIE_MAX_AGE_SECS);
    ShortNameOk(site.policy);
    StampOk(site, session, now + BOUND_COOKIE_MAX_AGE_SECS);
    B.StoreHostOnly(browser, defaultPath, jar, at, BoundCookieName(site), value, BOUND_COOKIE_MAX_AGE_SECS, true);
    StoreFirst(browser, defaultPath, jar, at, site.policy.SetLocal(BoundCookieName(site), value, BOUND_COOKIE_MAX_AGE_SECS),
               site.policy.SetSession(SSO_SESSION_COOKIE, session, remaining));
  }

  lemma JarWithShort(jar: B.Jar, key: B.Key, value: string, expiry: int)
    requires B.JarOk(jar) && B.HostPrefixOk(jar) && B.NameOk(key.name) && B.ValueOk(value) && key.path == "/"
    ensures var next := jar[key := B.Stored(value, true, true, Some(expiry))]; B.JarOk(next) && B.HostPrefixOk(next)
  {
  }

  /** Storing the session leaves cookies of other names alone. */
  lemma SessionLeaves(browser: B.Site, policy: CookiePolicy, jar: B.Jar, at: int, bound: string, value: string, maxAge: nat, key: B.Key)
    requires key in jar && key.name != SSO_SESSION_COOKIE && key.name != bound
    ensures var after := B.AfterSession(browser, policy, jar, at, SSO_SESSION_COOKIE, bound, value, maxAge);
            key in after && after[key] == jar[key]
  {
  }

  /** Storing the session keeps both guarantees of the jar, and a short cookie that was there. */
  lemma ShortStays(browser: B.Site, policy: CookiePolicy, defaultPath: string, jar: B.Jar, at: int, session: string, maxAge: nat,
                   after: B.Jar, key: B.Key)
    requires policy.secure && browser.https && B.CleanupOk(browser, policy) && B.ValueOk(session)
    requires B.JarOk(jar) && B.HostPrefixOk(jar) && key in jar && key.name == policy.OriginBoundName(BOUND_COOKIE)
    requires after == B.StoreAll(browser, defaultPath, jar, at, policy.SetSession(SSO_SESSION_COOKIE, session, maxAge))
    ensures B.JarOk(after) && B.HostPrefixOk(after) && key in after && after[key] == jar[key]
  {
    var bound := HOST_PREFIX + SSO_SESSION_COOKIE;
    ShortNameOk(policy);
    B.SessionNamesOk(SSO_SESSION_COOKIE);
    B.SessionStored(browser, policy, defaultPath, jar, at, SSO_SESSION_COOKIE, session, maxAge);
    SessionLeaves(browser, policy, jar, at, bound, session, maxAge, key);
    B.AfterSecure(browser, policy, jar, at, SSO_SESSION_COOKIE, bound, session, maxAge);
  }

  /** A cookie with the host prefix is read with its stored value while it lasts. */
  lemma PrefixedReads(browser: B.Site, path: string, jar: B.Jar, now: int, order: seq<B.Key>, key: B.Key)
    requires B.JarOk(jar) && B.HostPrefixOk(jar) && HOST_PREFIX <= key.name && key.domain == browser.host && key.path == "/"
    requires key in jar && B.IsSent(browser, path, jar, now, key)
    requires B.SendingOrder(browser, path, jar, now, order) && B.AllVisible(B.CookieHeader(jar, order))
    ensures Get(B.CookieHeader(jar, order), key.name) == Some(jar[key].value)
  {
    B.OnlyPrefixed(browser, path, jar, now, key.name);
    B.ReadsOnly(browser, path, jar, now, order, key);
  }

  /** A live secure cookie of the host at the root path goes to every path of the host. */
  lemma RootIsSent(browser: B.Site, path: string, jar: B.Jar, now: int, key: B.Key, value: string, expiry: int)
    requires browser.https && path != "" && path[0] == '/' && key.domain == browser.host && key.path == "/"
    requires key in jar && jar[key] == B.Stored(value, true, true, Some(expiry)) && now < expiry
    ensures B.IsSent(browser, path, jar, now, key)
  {
  }

  /** Both cookies of a bound reply read back from the next request, while they last and the header is readable. */
  lemma BothRead(site: Site, browser: B.Site, defaultPath: string, jar: B.Jar, at: int, session: string, remaining: nat, now: I64,
                 path: string, later: int, after: B.Jar, order: seq<B.Key>)
    requires site.policy.secure && browser.https && B.CleanupOk(browser, site.policy) && B.ValueOk(session) && ClockInRange(now)
    requires B.JarOk(jar) && B.HostPrefixOk(jar) && path != "" && path[0] == '/'
    requires after == B.StoreAll(browser, defaultPath, jar, at, BoundCookies(site, session, remaining, now))
    requires B.SendingOrder(browser, path, after, later, order) && B.AllVisible(B.CookieHeader(after, order))
    requires at <= later < at + BOUND_COOKIE_MAX_AGE_SECS && later < at + remaining
    ensures var inner := BindRequest(site.policy, B.CookieHeader(after, order));
            && Get(inner, SSO_SESSION_COOKIE) == Some(session)
            && Get(inner, BoundCookieName(site))
               == Some(BoundCookie(site.crypto, site.key, session, now + BOUND_COOKIE_MAX_AGE_SECS))
  {
    var value := BoundCookie(site.crypto, site.key, session, now + BOUND_COOKIE_MAX_AGE_SECS);
    var key := B.Key(BoundCookieName(site), browser.host, "/");
    BoundCookiesStored(site, browser, defaultPath, jar, at, session, remaining, now);
    ShortNameOk(site.policy);
    StampOk(site, session, now + BOUND_COOKIE_MAX_AGE_SECS);
    JarWithShort(jar, key, value, at + BOUND_COOKIE_MAX_AGE_SECS);
    BothReadFrom(browser, site.policy, defaultPath, jar[key := B.Stored(value, true, true, Some(at + BOUND_COOKIE_MAX_AGE_SECS))],
                 at, key, value, at + BOUND_COOKIE_MAX_AGE_SECS, session, remaining, path, later, after, order);
  }

  lemma BothReadFrom(browser: B.Site, policy: CookiePolicy, defaultPath: string, jar: B.Jar, at: int, key: B.Key, value: string,
                     expiry: int, session: string, remaining: nat, path: string, later: int, after: B.Jar, order: seq<B.Key>)
    requires policy.secure && browser.https && B.CleanupOk(browser, policy) && B.ValueOk(session)
    requires B.JarOk(jar) && B.HostPrefixOk(jar) && path != "" && path[0] == '/'
    requires key == B.Key(policy.OriginBoundName(BOUND_COOKIE), browser.host, "/")
    requires key in jar && jar[key] == B.Stored(value, true, true, Some(expiry))
    requires after == B.StoreAll(browser, defaultPath, jar, at, policy.SetSession(SSO_SESSION_COOKIE, session, remaining))
    requires B.SendingOrder(browser, path, after, later, order) && B.AllVisible(B.CookieHeader(after, order))
    requires at <= later < expiry && later < at + remaining
    ensures var inner := BindRequest(policy, B.CookieHeader(after, order));
            && Get(inner, SSO_SESSION_COOKIE) == Some(session)
            && Get(inner, policy.OriginBoundName(BOUND_COOKIE)) == Some(value)
  {
    B.SecureSessionReads(browser, policy, defaultPath, jar, at, SSO_SESSION_COOKIE, session, remaining, path, later, after, order);
    ShortNameOk(policy);
    ShortStays(browser, policy, defaultPath, jar, at, session, remaining, after, key);
    RootIsSent(browser, path, after, later, key, value, expiry);
    PrefixedReads(browser, path, after, later, order, key);
    BoundReads(policy, B.CookieHeader(after, order));
  }

  lemma BrowserReads(
      site: Site, e: Event, browser: B.Site, defaultPath: string, received: seq<B.Received>, at: int, later: int, after: B.Jar,
      order: seq<B.Key>, path: string)
    requires IsBoundReply(e) && ClockInRange(e.secs)
    requires site.policy.secure && browser.https && B.CleanupOk(browser, site.policy) && B.ValueOk(e.session)
    requires after == B.StoreAll(browser, defaultPath, B.Browsed(received), at,
                                 BoundCookies(site, e.session, e.answer.remainingSecs, e.secs))
    requires at <= later < at + BOUND_COOKIE_MAX_AGE_SECS && later < at + e.answer.remainingSecs
    requires B.SendingOrder(browser, path, after, later, order) && B.AllVisible(B.CookieHeader(after, order))
    requires path != "" && path[0] == '/'
    ensures var inner := BindRequest(site.policy, B.CookieHeader(after, order));
            && Get(inner, SSO_SESSION_COOKIE) == Some(e.session)
            && Get(inner, BoundCookieName(site))
               == Some(BoundCookie(site.crypto, site.key, e.session, e.secs + BOUND_COOKIE_MAX_AGE_SECS))
  {
    B.BrowsedIsOk(received);
    BothRead(site, browser, defaultPath, B.Browsed(received), at, e.session, e.answer.remainingSecs, e.secs, path, later, after,
             order);
  }

  /**
   Over HTTPS, in every run: whatever any sites have made a browser store before, once it has stored the cookies of a
   reply to a bound session, its next guarded request passes the guard at once, with the SSO session readable, for as
   long as both cookies last. The Cookie header must be readable; the browser's clock and web's need not agree.
   */
  lemma BoundBrowserPasses(
      env: Env, st: State, e: Event, browser: B.Site, defaultPath: string, received: seq<B.Received>, at: int,
      later: int, after: B.Jar, order: seq<B.Key>, id: nat, request: Request)
    requires CollisionFree(env) && Reachable(env, st) && e in st.log && IsBoundReply(e) && ClockInRange(e.secs) && id !in st.calls
    requires e.secs <= st.secs < e.secs + BOUND_COOKIE_MAX_AGE_SECS
    requires env.site.policy.secure && browser.https && B.CleanupOk(browser, env.site.policy) && B.ValueOk(e.session)
    requires after == B.StoreAll(browser, defaultPath, B.Browsed(received), at, ReplyResponse(env, e).setCookies)
    requires at <= later < at + BOUND_COOKIE_MAX_AGE_SECS && later < at + e.answer.remainingSecs
    requires B.SendingOrder(browser, request.path, after, later, order) && B.AllVisible(B.CookieHeader(after, order))
    requires request.cookies == B.CookieHeader(after, order)
    requires !Exempt(request.path) && request.path != "" && request.path[0] == '/'
    ensures var inner := BindRequest(env.site.policy, request.cookies);
            && Step(env, st, Arrive(id, request)) == Some(Deliver(st, request, inner, inner, st.nanos, st.secs, false))
            && Get(inner, SSO_SESSION_COOKIE) == Some(e.session)
  {
    BoundReplySets(env, e);
    BrowserReads(env.site, e, browser, defaultPath, received, at, later, after, order, request.path);
    FreshCookiePasses(env, st, e, e.secs + BOUND_COOKIE_MAX_AGE_SECS, id, request);
  }

  lemma BoundReplySets(env: Env, e: Event)
    requires IsBoundReply(e) && ClockInRange(e.secs)
    ensures ReplyResponse(env, e).setCookies == BoundCookies(env.site, e.session, e.answer.remainingSecs, e.secs)
    ensures Reveals(e, BOUND_COOKIE_PURPOSE, e.session, e.secs + BOUND_COOKIE_MAX_AGE_SECS)
  {
  }
}
