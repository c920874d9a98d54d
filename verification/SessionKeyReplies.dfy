/**
 What web's replies put into the world: the stamps in the texts of a response are exactly the ones that
 `SessionKeyRuns.Reveals` counts.
 */
module SessionKeyReplies {
  import opened Wrappers
  import opened Text
  import opened Numerals
  import opened Cookies
  import opened SessionStamp
  import opened SessionKey
  import opened SessionKeyRuns

  // Reading a response

  /** The value a `Set-Cookie` text gives to a cookie of this name, unless it clears it. */
  function ValueSet(text: string, name: string): seq<string> {
    match SplitOnce(Split(text, {';'})[0], '=')
    case None => []
    case Some((n, v)) => if n == name && v != "" then [v] else []
  }

  function ValuesSet(texts: seq<string>, name: string): seq<string> {
    if texts == [] then [] else ValueSet(texts[0], name) + ValuesSet(texts[1..], name)
  }

  /** The piece of a header at a place between quotes. */
  function Quoted(header: Option<string>, place: nat): seq<string> {
    if header.None? then []
    else
      var parts := Split(header.value, {'"'});
      if place < |parts| then [parts[place]] else []
  }

  /** Every stamp a response carries: short cookies, the challenge, the registration's challenge. */
  function StampsIn(site: Site, r: Response): seq<string> {
    ValuesSet(r.setCookies, BoundCookieName(site)) + Quoted(r.challenge, 1) + Quoted(r.registration, 3)
  }

  // Cookies

  lemma {:induction false} ValuesConcat(a: seq<string>, b: seq<string>, name: string)
    ensures ValuesSet(a + b, name) == ValuesSet(a, name) + ValuesSet(b, name)
  {
    if a == [] {
      assert a + b == b;
    } else {
      assert (a + b)[1..] == a[1..] + b;
      ValuesConcat(a[1..], b, name);
    }
  }

  lemma ValuesOne(text: string, name: string)
    ensures ValuesSet([text], name) == ValueSet(text, name)
  {
    assert [text][1..] == [];
  }

  lemma BuildFront(name: string, value: string, maxAge: nat, secure: bool, domain: Option<string>) returns (rest: string)
    ensures Build(name, value, maxAge, secure, domain) == name + "=" + (value + [';'] + rest)
  {
    rest := " Max-Age=" + Dec(maxAge) + (if domain.Some? then "; Domain=" + domain.value else "")
            + "; Path=/; HttpOnly; SameSite=Lax" + (if secure then "; Secure" else "");
    SemicolonFirst();
    Regroup(name + "=", value, "; Max-Age=", " Max-Age=", Dec(maxAge),
            if domain.Some? then "; Domain=" + domain.value else "", "; Path=/; HttpOnly; SameSite=Lax",
            if secure then "; Secure" else "");
  }

  lemma SemicolonFirst()
    ensures "; Max-Age=" == [';'] + " Max-Age="
  {
  }

  lemma Regroup(a: string, v: string, m: string, m': string, d: string, e: string, f: string, g: string)
    requires m == [';'] + m'
    ensures a + v + m + d + e + f + g == a + (v + [';'] + (m' + d + e + f + g))
  {
    assert a + v + m == a + v + [';'] + m';
  }

  predicate PlainName(name: string) {
    Free(name, {';', '='})
  }

  /** A text for another cookie sets nothing here, whatever its value contains. */
  lemma OtherSets(text: string, name: string, wanted: string, rest: string)
    requires PlainName(name) && name != wanted && text == name + "=" + rest
    ensures ValueSet(text, wanted) == []
  {
    FirstPair(text, name, rest);
  }

  lemma FirstPair(text: string, name: string, rest: string)
    requires PlainName(name) && text == name + "=" + rest
    ensures SplitOnce(Split(text, {';'})[0], '=') == Some((name, Split(rest, {';'})[0]))
  {
    SplitPrefix(name + "=", rest, {';'});
    var value := Split(rest, {';'})[0];
    assert name + "=" + value == name + ['='] + value;
    SplitOnceIs(name, '=', value);
  }

  lemma OwnSets(text: string, name: string, value: string, rest: string)
    requires PlainName(name) && Free(value, {';'}) && text == name + "=" + (value + [';'] + rest)
    ensures ValueSet(text, name) == if value == "" then [] else [value]
  {
    FirstPair(text, name, value + [';'] + rest);
    SplitHead(value, ';', rest, {';'});
  }

  lemma NamesDiffer(policy: CookiePolicy)
    ensures var bound := policy.OriginBoundName(BOUND_COOKIE);
            && PlainName(bound) && PlainName(SSO_SESSION_COOKIE) && PlainName(policy.OriginBoundSessionName(SSO_SESSION_COOKIE))
            && bound != SSO_SESSION_COOKIE && bound != policy.OriginBoundSessionName(SSO_SESSION_COOKIE)
  {
    assert PlainName(HOST_PREFIX) && PlainName(BOUND_COOKIE) && PlainName(SSO_SESSION_COOKIE);
    assert |HOST_PREFIX + BOUND_COOKIE| == 16 && |HOST_PREFIX + SSO_SESSION_COOKIE| == 21;
    assert |BOUND_COOKIE| == 9 && |SSO_SESSION_COOKIE| == 14;
  }

  lemma BuildSetsNothing(name: string, wanted: string, value: string, maxAge: nat, secure: bool, domain: Option<string>)
    requires PlainName(name) && name != wanted
    ensures ValuesSet([Build(name, value, maxAge, secure, domain)], wanted) == []
  {
    var text := Build(name, value, maxAge, secure, domain);
    var rest := BuildFront(name, value, maxAge, secure, domain);
    OtherSets(text, name, wanted, value + [';'] + rest);
    ValuesOne(text, wanted);
  }

  /** Setting or clearing the long cookie sets no short one, whatever the session is called. */
  lemma SessionSetsNothing(policy: CookiePolicy, session: string, maxAge: nat)
    ensures ValuesSet(policy.SetSession(SSO_SESSION_COOKIE, session, maxAge), policy.OriginBoundName(BOUND_COOKIE)) == []
  {
    var name, wanted := SSO_SESSION_COOKIE, policy.OriginBoundName(BOUND_COOKIE);
    var bound := policy.OriginBoundSessionName(name);
    var first := [Build(bound, session, maxAge, policy.secure, None)];
    var a := if bound != name then [Build(name, "", 0, policy.secure, None)] else [];
    var b := if policy.legacyCleanupDomain.Some? then [Build(name, "", 0, policy.secure, policy.legacyCleanupDomain)] else [];
    NamesDiffer(policy);
    BuildSetsNothing(bound, wanted, session, maxAge, policy.secure, None);
    BuildSetsNothing(name, wanted, "", 0, policy.secure, None);
    BuildSetsNothing(name, wanted, "", 0, policy.secure, policy.legacyCleanupDomain);
    ValuesConcat(first + a, b, wanted);
    ValuesConcat(first, a, wanted);
  }

  lemma LocalSets(policy: CookiePolicy, value: string, maxAge: nat)
    requires Free(value, {';'})
    ensures var name := policy.OriginBoundName(BOUND_COOKIE);
            ValuesSet([policy.SetLocal(name, value, maxAge)], name) == if value == "" then [] else [value]
  {
    var name := policy.OriginBoundName(BOUND_COOKIE);
    NamesDiffer(policy);
    var rest := BuildFront(name, value, maxAge, policy.secure, None);
    OwnSets(policy.SetLocal(name, value, maxAge), name, value, rest);
    ValuesOne(policy.SetLocal(name, value, maxAge), name);
  }

  // Stamps

  /** A stamp has no character that ends a cookie's value or a quoted string. */
  lemma StampText(c: Crypto, key: seq<Byte>, purpose: string, session: string, at: I64)
    ensures Stamp(c, key, purpose, session, at) != "" && Free(Stamp(c, key, purpose, session, at), {';', '"'})
  {
    var n: nat := if at < 0 then 0 - at else at;
    var digits, tag := Dec(n), Hex(Tag(c, key, purpose, session, at));
    assert AllDigits(digits);
    var text := DecInt(at) + "." + tag;
    assert forall i | 0 <= i < |text| :: text[i] == '-' || text[i] == '.' || IsDigit(text[i]) || 'a' <= text[i] <= 'f';
  }

  lemma BoundCookiesStamp(site: Site, session: string, remaining: nat, now: I64)
    requires ClockInRange(now)
    ensures ValuesSet(BoundCookies(site, session, remaining, now), BoundCookieName(site))
         == [BoundCookie(site.crypto, site.key, session, now + BOUND_COOKIE_MAX_AGE_SECS)]
  {
    var value := BoundCookie(site.crypto, site.key, session, now + BOUND_COOKIE_MAX_AGE_SECS);
    StampText(site.crypto, site.key, BOUND_COOKIE_PURPOSE, session, now + BOUND_COOKIE_MAX_AGE_SECS);
    LocalSets(site.policy, value, BOUND_COOKIE_MAX_AGE_SECS);
    SessionSetsNothing(site.policy, session, remaining);
    ValuesConcat([site.policy.SetLocal(BoundCookieName(site), value, BOUND_COOKIE_MAX_AGE_SECS)],
                 site.policy.SetSession(SSO_SESSION_COOKIE, session, remaining), BoundCookieName(site));
  }

  lemma ExpireCookiesStamp(site: Site)
    ensures ValuesSet(ExpireCookies(site), BoundCookieName(site)) == []
  {
    LocalSets(site.policy, "", 0);
    SessionSetsNothing(site.policy, "", 0);
    ValuesConcat([site.policy.SetLocal(BoundCookieName(site), "", 0)],
                 site.policy.ExpireSession(SSO_SESSION_COOKIE), BoundCookieName(site));
  }

  lemma QuotedFirst(text: string, tail: string)
    requires Free(text, {'"'})
    ensures Quoted(Some("\"" + text + "\"" + tail), 1) == [text]
  {
    assert "\"" + text + "\"" + tail == "" + ['"'] + (text + ['"'] + tail);
    SplitHead("", '"', text + ['"'] + tail, {'"'});
    SplitHead(text, '"', tail, {'"'});
  }

  lemma ChallengeStamp(site: Site, session: string, identifier: string, now: I64)
    ensures StampsIn(site, ChallengeResponse(site, session, identifier, now)) == [Challenge(site.crypto, site.key, session, now)]
  {
    var challenge := Challenge(site.crypto, site.key, session, now);
    StampText(site.crypto, site.key, CHALLENGE_PURPOSE, session, now);
    QuotedFirst(challenge, ";id=\"" + identifier + "\"");
    ChallengeText(challenge, identifier);
  }

  lemma ChallengeText(challenge: string, identifier: string)
    ensures "\"" + challenge + "\";id=\"" + identifier + "\"" == "\"" + challenge + "\"" + (";id=\"" + identifier + "\"")
  {
    assert "\";id=\"" == "\"" + ";id=\"";
  }

  lemma QuotedThird(a: string, b: string, c: string, text: string)
    requires Free(a, {'"'}) && Free(b, {'"'}) && Free(c, {'"'}) && Free(text, {'"'})
    ensures Quoted(Some(a + ['"'] + (b + ['"'] + (c + ['"'] + (text + ['"'] + "")))), 3) == [text]
  {
    SplitHead(a, '"', b + ['"'] + (c + ['"'] + (text + ['"'] + "")), {'"'});
    SplitHead(b, '"', c + ['"'] + (text + ['"'] + ""), {'"'});
    SplitHead(c, '"', text + ['"'] + "", {'"'});
    SplitHead(text, '"', "", {'"'});
  }

  lemma RegistrationPieces(front: string, a: string, path: string, middle: string, c: string, text: string)
    requires front == a + "\"" && middle == "\"" + c + "\""
    ensures front + path + middle + text + "\"" == a + ['"'] + (path + ['"'] + (c + ['"'] + (text + ['"'] + "")))
  {
    assert front + path + middle == a + ['"'] + (path + ['"'] + (c + ['"']));
  }

  lemma RegistrationLiterals()
    ensures "(ES256 RS256);path=\"" == "(ES256 RS256);path=" + "\""
    ensures "\";challenge=\"" == "\"" + ";challenge=" + "\""
    ensures Free("(ES256 RS256);path=", {'"'}) && Free(";challenge=", {'"'}) && Free(REGISTRATION_PATH, {'"'})
  {
  }

  lemma SignInStamp(site: Site, session: string, now: I64)
    ensures StampsIn(site, SignInResponse(site, session, now)) == [Challenge(site.crypto, site.key, session, now)]
  {
    var challenge := Challenge(site.crypto, site.key, session, now);
    StampText(site.crypto, site.key, CHALLENGE_PURPOSE, session, now);
    RegistrationLiterals();
    RegistrationPieces("(ES256 RS256);path=\"", "(ES256 RS256);path=", REGISTRATION_PATH, "\";challenge=\"", ";challenge=", challenge);
    QuotedThird("(ES256 RS256);path=", REGISTRATION_PATH, ";challenge=", challenge);
  }

  // Every reply

  /** The stamp a reply is counted to reveal. */
  function RevealedBy(e: Event): Option<(string, string, int)> {
    match e
    case RegisterReply(s, answer, secs) =>
      if answer.Bound? then Some((BOUND_COOKIE_PURPOSE, s, secs + BOUND_COOKIE_MAX_AGE_SECS)) else None
    case RefreshReply(s, _, answer, secs) =>
      if answer.Bound? then Some((BOUND_COOKIE_PURPOSE, s, secs + BOUND_COOKIE_MAX_AGE_SECS))
      else if answer.Rejected? then Some((CHALLENGE_PURPOSE, s, secs))
      else None
    case ProbeReply(s, identifier, answer, secs) =>
      if answer == BoundTo(identifier) then Some((CHALLENGE_PURPOSE, s, secs)) else None
    case SignInReply(s, secs) => Some((CHALLENGE_PURPOSE, s, secs))
    case _ => None
  }

  lemma RevealsIs(e: Event, purpose: string, s: string, at: I64)
    ensures Reveals(e, purpose, s, at) <==> RevealedBy(e) == Some((purpose, s, at))
  {
  }

  function ExpectedStamps(env: Env, e: Event): seq<string>
    requires IsReply(e) && ClockInRange(e.secs)
  {
    match RevealedBy(e)
    case None => []
    case Some((purpose, s, at)) => [Stamp(env.site.crypto, env.site.key, purpose, s, at)]
  }

  lemma ReplyStamps(env: Env, e: Event)
    requires IsReply(e) && ClockInRange(e.secs)
    ensures StampsIn(env.site, ReplyResponse(env, e)) == ExpectedStamps(env, e)
  {
    match e {
      case RegisterReply(s, answer, secs) => RegisterStamps(env, s, answer, secs);
      case RefreshReply(s, identifier, answer, secs) => RefreshStamps(env, s, identifier, answer, secs);
      case ProbeReply(s, identifier, answer, secs) => ProbeStamps(env, s, identifier, answer, secs);
      case SignInReply(s, secs) => SignInStamp(env.site, s, secs);
    }
  }

  lemma RegisterStamps(env: Env, s: string, answer: KeyAnswer, secs: I64)
    requires ClockInRange(secs)
    ensures StampsIn(env.site, RegisterResponse(env.site, s, answer, secs)) == ExpectedStamps(env, RegisterReply(s, answer, secs))
  {
    RegisterCookies(env.site, s, answer, secs);
    CookiesOnly(env.site, RegisterResponse(env.site, s, answer, secs));
  }

  lemma CookiesOnly(site: Site, r: Response)
    requires r.challenge.None? && r.registration.None?
    ensures StampsIn(site, r) == ValuesSet(r.setCookies, BoundCookieName(site))
  {
  }

  function ShortCookieFor(site: Site, s: string, answer: KeyAnswer, secs: I64): seq<string>
    requires ClockInRange(secs)
  {
    if answer.Bound? then [BoundCookie(site.crypto, site.key, s, secs + BOUND_COOKIE_MAX_AGE_SECS)] else []
  }

  lemma RefreshCookies(site: Site, s: string, identifier: string, answer: KeyAnswer, secs: I64)
    requires ClockInRange(secs) && !answer.Rejected?
    ensures var r := RefreshResponse(site, s, identifier, answer, secs);
            r.challenge.None? && r.registration.None?
            && ValuesSet(r.setCookies, BoundCookieName(site)) == ShortCookieFor(site, s, answer, secs)
  {
    match answer {
      case Bound(_, remaining) => BoundCookiesStamp(site, s, remaining, secs);
      case KeyMismatch => ExpireCookiesStamp(site);
      case _ =>
    }
  }

  lemma RegisterCookies(site: Site, s: string, answer: KeyAnswer, secs: I64)
    requires ClockInRange(secs)
    ensures var r := RegisterResponse(site, s, answer, secs);
            r.challenge.None? && r.registration.None?
            && ValuesSet(r.setCookies, BoundCookieName(site)) == ShortCookieFor(site, s, answer, secs)
  {
    match answer {
      case Bound(_, remaining) => BoundCookiesStamp(site, s, remaining, secs);
      case KeyMismatch => ExpireCookiesStamp(site);
      case _ =>
    }
  }

  lemma RefreshStamps(env: Env, s: string, identifier: string, answer: KeyAnswer, secs: I64)
    requires ClockInRange(secs)
    ensures StampsIn(env.site, RefreshResponse(env.site, s, identifier, answer, secs))
         == ExpectedStamps(env, RefreshReply(s, identifier, answer, secs))
  {
    if answer.Rejected? {
      RejectedStamp(env.site, s, identifier, answer, secs);
    } else {
      var r := RefreshResponse(env.site, s, identifier, answer, secs);
      RefreshCookies(env.site, s, identifier, answer, secs);
      CookiesOnly(env.site, r);
    }
  }

  lemma RejectedStamp(site: Site, s: string, identifier: string, answer: KeyAnswer, secs: I64)
    requires ClockInRange(secs) && answer.Rejected?
    ensures StampsIn(site, RefreshResponse(site, s, identifier, answer, secs)) == [Challenge(site.crypto, site.key, s, secs)]
  {
    ChallengeStamp(site, s, identifier, secs);
  }

  lemma ProbeStamps(env: Env, s: string, identifier: string, answer: BindingAnswer, secs: I64)
    requires ClockInRange(secs)
    ensures StampsIn(env.site, ProbeResponse(env.site, s, identifier, answer, secs))
         == ExpectedStamps(env, ProbeReply(s, identifier, answer, secs))
  {
    if answer == BoundTo(identifier) {
      ChallengeStamp(env.site, s, identifier, secs);
    }
  }

  /** In every run, a text is a stamp in the response of a reply exactly when the reply is counted to reveal it. */
  lemma RepliesRevealExactly(env: Env, st: State, i: nat, value: string)
    requires CollisionFree(env) && Reachable(env, st) && i < |st.log| && IsReply(st.log[i])
    ensures ClockInRange(st.log[i].secs)
    ensures value in StampsIn(env.site, ReplyResponse(env, st.log[i])) <==>
              exists purpose, s, at: I64 ::
                Reveals(st.log[i], purpose, s, at) && value == Stamp(env.site.crypto, env.site.key, purpose, s, at)
  {
    ReachableInv(env, st);
    assert EventOk(env, st, i);
    ReplyStamps(env, st.log[i]);
    RevealsExpected(env, st.log[i], value);
  }

  lemma RevealsExpected(env: Env, e: Event, value: string)
    requires IsReply(e) && ClockInRange(e.secs)
    ensures value in ExpectedStamps(env, e) <==>
              exists purpose, s, at: I64 ::
                Reveals(e, purpose, s, at) && value == Stamp(env.site.crypto, env.site.key, purpose, s, at)
  {
    if value in ExpectedStamps(env, e) {
      var (purpose, s, at) := RevealedBy(e).value;
      RevealsIs(e, purpose, s, at);
      assert Reveals(e, purpose, s, at);
    }
    if exists purpose, s, at: I64 :: Reveals(e, purpose, s, at) && value == Stamp(env.site.crypto, env.site.key, purpose, s, at) {
      var purpose, s, at: I64 :|
        Reveals(e, purpose, s, at) && value == Stamp(env.site.crypto, env.site.key, purpose, s, at);
      RevealsIs(e, purpose, s, at);
    }
  }
}
