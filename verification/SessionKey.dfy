/**
 Device-bound SSO sessions on the web side (crates/web/src/session_key.rs): what one request or one
 answer from api leads to. `SessionKeyRuns` puts these together over whole runs.
 */
module SessionKey {
  import opened Wrappers
  import opened Text
  import opened Numerals
  import opened Cookies
  import opened SessionStamp

  const REGISTRATION_PATH := "/dbsc/register"
  const REFRESH_PATH := "/dbsc/refresh"

  /** What does not change while web runs. */
  datatype Site = Site(crypto: Crypto, key: seq<Byte>, policy: CookiePolicy)

  /** `proof` and `identifier` are the Secure-Session-Response and Sec-Secure-Session-Id headers. */
  datatype Request = Request(path: string, cookies: Headers, proof: Option<string>, identifier: Option<string>)

  datatype KeyAnswer = Bound(identifier: string, remainingSecs: nat) | Rejected | KeyMismatch | SessionGone | Internal | Unreachable

  datatype BindingAnswer = BoundTo(identifier: string) | Unbound | BindingFailed

  /**
   `challenge` and `registration` are the headers of those names; `continues` is the `continue` field of the JSON body,
   when there is one.
   */
  datatype Response = Response(
    status: nat, setCookies: seq<string>, challenge: Option<string>, continues: Option<bool>, registration: Option<string>)

  predicate Exempt(path: string) {
    "/dbsc/" <= path || "/assets/" <= path
  }

  function HeaderStr(value: Option<string>): Option<string> {
    if value.Some? && Visible(value.value) && Trim(value.value) != "" then Some(Trim(value.value)) else None
  }

  predicate IsSessionIdentifier(value: string) {
    |value| == 32 && forall i | 0 <= i < |value| :: HexValue(value[i]).Some?
  }

  function CacheKey(site: Site, session: string): string {
    Hex(site.crypto.sha(session))
  }

  function BoundCookieName(site: Site): string {
    site.policy.OriginBoundName(BOUND_COOKIE)
  }

  /** The request carries a short cookie that is valid for this session now. */
  predicate HasValidShortCookie(site: Site, headers: Headers, session: string, now: I64) {
    match Get(headers, BoundCookieName(site))
    case Some(value) => BoundCookieIsValid(site.crypto, site.key, session, value, now)
    case None => false
  }

  // Removing the session cookie

  function StripPair(pair: string): Option<string> {
    if NameOf(pair) == SSO_SESSION_COOKIE then None else Some(pair)
  }

  function StripSessionCookie(headers: Headers): Headers {
    Rebuild(Rewrite(RequestPairs(headers), StripPair))
  }

  lemma StripPairs(headers: Headers)
    ensures RequestPairs(StripSessionCookie(headers)) == Rewrite(RequestPairs(headers), StripPair)
  {
    var pairs := RequestPairs(headers);
    forall k | 0 <= k < |pairs| && StripPair(pairs[k]).Some?
      ensures CookiePairs([StripPair(pairs[k]).value])
    {
      assert StripPair(pairs[k]).value == pairs[k];
    }
    RewriteKeepsPairs(pairs, StripPair);
    RebuildReads(Rewrite(pairs, StripPair));
  }

  /** Stripping makes the SSO session unreadable and leaves every other cookie readable as before. */
  lemma StripReads(headers: Headers, name: string)
    ensures Get(StripSessionCookie(headers), name)
         == if name == SSO_SESSION_COOKIE then None else Get(headers, name)
  {
    var pairs := RequestPairs(headers);
    StripPairs(headers);
    GetIsLookup(headers, name);
    GetIsLookup(StripSessionCookie(headers), name);
    if name == SSO_SESSION_COOKIE {
      forall k | 0 <= k < |pairs| && StripPair(pairs[k]).Some?
        ensures ValueFor(StripPair(pairs[k]).value, name).None?
      {
        ValueForName(pairs[k], name);
      }
      LookupRewriteNone(pairs, StripPair, name);
    } else {
      forall k | 0 <= k < |pairs| ensures Carries(pairs[k], StripPair, name, name) {
        ValueForName(pairs[k], name);
      }
      LookupRewrite(pairs, StripPair, name, name);
    }
  }

  // Responses

  function BoundCookies(site: Site, session: string, remainingSecs: nat, now: I64): seq<string>
    requires 0 <= now <= I64_MAX - BOUND_COOKIE_MAX_AGE_SECS
  {
    var value := BoundCookie(site.crypto, site.key, session, now + BOUND_COOKIE_MAX_AGE_SECS);
    [site.policy.SetLocal(BoundCookieName(site), value, BOUND_COOKIE_MAX_AGE_SECS)]
    + site.policy.SetSession(SSO_SESSION_COOKIE, session, remainingSecs)
  }

  function ExpireCookies(site: Site): seq<string> {
    [site.policy.SetLocal(BoundCookieName(site), "", 0)] + site.policy.ExpireSession(SSO_SESSION_COOKIE)
  }

  const TERMINATED := Response(200, [], None, Some(false), None)

  function ChallengeResponse(site: Site, session: string, identifier: string, now: I64): Response {
    var challenge := Challenge(site.crypto, site.key, session, now);
    Response(403, [], Some("\"" + challenge + "\";id=\"" + identifier + "\""), None, None)
  }

  function RegisterResponse(site: Site, session: string, answer: KeyAnswer, now: I64): Response
    requires 0 <= now <= I64_MAX - BOUND_COOKIE_MAX_AGE_SECS
  {
    match answer
    case Bound(_, remaining) => Response(200, BoundCookies(site, session, remaining, now), None, None, None)
    case KeyMismatch => Response(400, ExpireCookies(site), None, None, None)
    case Internal => Response(500, [], None, None, None)
    case Unreachable => Response(500, [], None, None, None)
    case _ => Response(400, [], None, None, None)
  }

  function RefreshResponse(site: Site, session: string, identifier: string, answer: KeyAnswer, now: I64): Response
    requires 0 <= now <= I64_MAX - BOUND_COOKIE_MAX_AGE_SECS
  {
    match answer
    case Bound(_, remaining) => Response(200, BoundCookies(site, session, remaining, now), None, None, None)
    case Rejected => ChallengeResponse(site, session, identifier, now)
    case KeyMismatch => TERMINATED.(setCookies := ExpireCookies(site))
    case SessionGone => TERMINATED
    case Internal => Response(503, [], None, None, None)
    case Unreachable => Response(503, [], None, None, None)
  }

  function ProbeResponse(site: Site, session: string, identifier: string, answer: BindingAnswer, now: I64): Response {
    match answer
    case BoundTo(bound) => if bound == identifier then ChallengeResponse(site, session, identifier, now) else TERMINATED
    case BindingFailed => Response(503, [], None, None, None)
    case Unbound => TERMINATED
  }

  function RegistrationHeader(site: Site, session: string, now: I64): string {
    "(ES256 RS256);path=\"" + REGISTRATION_PATH + "\";challenge=\"" + Challenge(site.crypto, site.key, session, now) + "\""
  }

  /** What is added to a response that has just signed a browser in. */
  function SignInResponse(site: Site, session: string, now: I64): Response {
    Response(200, [], None, None, Some(RegistrationHeader(site, session, now)))
  }
}
