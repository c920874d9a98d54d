/**
 The display language of a request (crates/web/src/display_preferences.rs, crates/web/src/i18n.rs) and
 the composition of the three layers that rewrite its cookies.
 */
module DisplayPreferences {
  import opened Wrappers
  import opened Text
  import opened Cookies
  import opened SessionKey

  const LANG_COOKIE := "lang"

  datatype Locale = En | Ja {
    function AsTag(): string {
      if this == En then "en" else "ja"
    }
  }

  // Reading language tags

  function FromCode(code: string): Option<Locale> {
    if code == "ja" then Some(Ja) else if code == "en" then Some(En) else None
  }

  function FromTag(tag: string): Option<Locale> {
    FromCode(Lower(Trim(tag)))
  }

  /** A tag with a region: only the language counts. */
  function FromLanguageTag(tag: string): Option<Locale> {
    FromCode(Split(Lower(Trim(tag)), {'-'})[0])
  }

  function FirstLanguage(tags: seq<string>): Option<Locale> {
    if tags == [] then None
    else if FromLanguageTag(tags[0]).Some? then FromLanguageTag(tags[0])
    else FirstLanguage(tags[1..])
  }

  function FromUiLocales(value: string): Option<Locale> {
    FirstLanguage(Words(value))
  }

  function WithoutQuality(parts: seq<string>): seq<string> {
    if parts == [] then [] else [Split(parts[0], {';'})[0]] + WithoutQuality(parts[1..])
  }

  function FromAcceptLanguage(header: Option<string>): Locale {
    match header
    case None => Ja
    case Some(value) =>
      var found := FirstLanguage(WithoutQuality(Split(value, {','})));
      if found.Some? then found.value else Ja
  }

  function TagOf(tag: Option<string>): Option<Locale> {
    if tag.Some? then FromTag(tag.value) else None
  }

  /** `Locale::resolve` */
  function Resolve(query: Option<string>, user: Option<string>, cookie: Option<string>, accept: Option<string>): Locale {
    if TagOf(query).Some? then TagOf(query).value
    else if TagOf(user).Some? then TagOf(user).value
    else if TagOf(cookie).Some? then TagOf(cookie).value
    else FromAcceptLanguage(accept)
  }

  // The middleware

  function FirstWithPrefix(pairs: seq<string>, prefix: string): Option<string> {
    if pairs == [] then None
    else if prefix <= pairs[0] then Some(pairs[0][|prefix|..])
    else FirstWithPrefix(pairs[1..], prefix)
  }

  function QueryValue(query: Option<string>, name: string): Option<string> {
    if query.None? then None else FirstWithPrefix(Split(query.value, {'&'}), name + "=")
  }

  /**
   What the middleware sees. `profile` is the stored language in api's answer, should it be asked;
   `themeChosen` says whether the query carries a valid theme.
   */
  datatype View = View(
    query: Option<string>, themeChosen: bool, headers: Headers, profile: Option<string>, uiLocales: Option<string>)

  function CookieLocale(headers: Headers): Option<Locale> {
    TagOf(Get(headers, LANG_COOKIE))
  }

  function RequestedLocale(v: View): Option<Locale> {
    if CookieLocale(v.headers).Some? || v.uiLocales.None? then None else FromUiLocales(v.uiLocales.value)
  }

  function ExplicitLocale(v: View): Option<Locale> {
    TagOf(QueryValue(v.query, "lang"))
  }

  /** api is asked only with an SSO session, and only when the query does not settle both settings. */
  function StoredLocale(v: View): Option<Locale> {
    if Get(v.headers, SSO_SESSION_COOKIE).Some? && (ExplicitLocale(v).None? || !v.themeChosen)
    then TagOf(v.profile) else None
  }

  function Decided(v: View): Option<Locale> {
    if ExplicitLocale(v).Some? then ExplicitLocale(v)
    else if StoredLocale(v).Some? then StoredLocale(v)
    else RequestedLocale(v)
  }

  function DropLang(pair: string): Option<string> {
    if Trim(NameOf(pair)) == LANG_COOKIE then None else Some(pair)
  }

  function OverwriteLangCookie(headers: Headers, locale: Locale): Headers {
    var joined := Join(Rewrite(RequestPairs(headers), DropLang) + [LANG_COOKIE + "=" + locale.AsTag()], "; ");
    if ValidHeaderValue(joined) then [joined] else headers
  }

  function Forwarded(v: View): Headers {
    if Decided(v).Some? then OverwriteLangCookie(v.headers, Decided(v).value) else v.headers
  }

  /** `handlers::locale` */
  function HandlerLocale(headers: Headers, accept: Option<string>): Locale {
    Resolve(None, None, Get(headers, LANG_COOKIE), accept)
  }

  // What the overwrite does

  lemma LangPairIsClean(locale: Locale)
    ensures var pair := LANG_COOKIE + "=" + locale.AsTag();
            CookiePairs([pair]) && ValueFor(pair, LANG_COOKIE) == Some(locale.AsTag()) && NameOf(pair) == LANG_COOKIE
  {
    var pair := LANG_COOKIE + "=" + locale.AsTag();
    assert pair == LANG_COOKIE + ['='] + locale.AsTag();
    SplitOnceIs(LANG_COOKIE, '=', locale.AsTag());
  }

  lemma OverwritePairs(headers: Headers, locale: Locale)
    ensures RequestPairs(OverwriteLangCookie(headers, locale))
         == Rewrite(RequestPairs(headers), DropLang) + [LANG_COOKIE + "=" + locale.AsTag()]
  {
    var pairs := RequestPairs(headers);
    forall k | 0 <= k < |pairs| && DropLang(pairs[k]).Some?
      ensures CookiePairs([DropLang(pairs[k]).value])
    {
      assert DropLang(pairs[k]).value == pairs[k];
    }
    RewriteKeepsPairs(pairs, DropLang);
    LangPairIsClean(locale);
    AppendPairs(Rewrite(pairs, DropLang), LANG_COOKIE + "=" + locale.AsTag());
    RebuildReads(Rewrite(pairs, DropLang) + [LANG_COOKIE + "=" + locale.AsTag()]);
  }

  lemma AppendPairs(pairs: seq<string>, pair: string)
    requires CookiePairs(pairs) && CookiePairs([pair])
    ensures CookiePairs(pairs + [pair])
  {
    assert [pair][0] == pair;
  }

  lemma DropLangDrops(pair: string, name: string)
    requires Trim(name) == LANG_COOKIE && DropLang(pair).Some?
    ensures ValueFor(DropLang(pair).value, name).None?
  {
    ValueForName(pair, name);
  }

  lemma DropLangKeeps(pair: string, name: string)
    requires Trim(name) != LANG_COOKIE
    ensures Carries(pair, DropLang, name, name)
  {
    ValueForName(pair, name);
  }

  /** The language reads as decided; other spellings of its name are gone; every other cookie reads as before. */
  lemma OverwriteReads(headers: Headers, locale: Locale, name: string)
    ensures Get(OverwriteLangCookie(headers, locale), name)
         == if name == LANG_COOKIE then Some(locale.AsTag())
            else if Trim(name) == LANG_COOKIE then None
            else Get(headers, name)
  {
    var pairs := RequestPairs(headers);
    var last := LANG_COOKIE + "=" + locale.AsTag();
    OverwritePairs(headers, locale);
    GetIsLookup(headers, name);
    GetIsLookup(OverwriteLangCookie(headers, locale), name);
    LookupConcat(Rewrite(pairs, DropLang), [last], name);
    LangPairIsClean(locale);
    ValueForName(last, name);
    LookupOne(last, name);
    TrimOfTrimmed(LANG_COOKIE);
    if Trim(name) == LANG_COOKIE {
      forall k | 0 <= k < |pairs| && DropLang(pairs[k]).Some?
        ensures ValueFor(DropLang(pairs[k]).value, name).None?
      {
        DropLangDrops(pairs[k], name);
      }
      LookupRewriteNone(pairs, DropLang, name);
    } else {
      forall k | 0 <= k < |pairs| ensures Carries(pairs[k], DropLang, name, name) {
        DropLangKeeps(pairs[k], name);
      }
      LookupRewrite(pairs, DropLang, name, name);
    }
  }

  lemma LookupOne(pair: string, name: string)
    ensures Lookup([pair], name) == ValueFor(pair, name)
  {
    assert [pair][1..] == [];
  }

  // The decision order

  /** The documented order, written once: the first source that names a supported language wins. */
  function Chain(query: Option<string>, stored: Option<string>, cookie: Option<string>, ui: Option<string>, accept: Option<string>): Locale {
    var sources := [TagOf(query), TagOf(stored), TagOf(cookie), if ui.Some? then FromUiLocales(ui.value) else None];
    FirstOf(sources, FromAcceptLanguage(accept))
  }

  function FirstOf(sources: seq<Option<Locale>>, default: Locale): Locale {
    if sources == [] then default
    else if sources[0].Some? then sources[0].value
    else FirstOf(sources[1..], default)
  }

  lemma FirstOfFour(a: Option<Locale>, b: Option<Locale>, c: Option<Locale>, d: Option<Locale>, default: Locale)
    ensures FirstOf([a, b, c, d], default)
         == if a.Some? then a.value else if b.Some? then b.value else if c.Some? then c.value
            else if d.Some? then d.value else default
  {
    assert [a, b, c, d][1..] == [b, c, d] && [b, c, d][1..] == [c, d] && [c, d][1..] == [d] && [d][1..] == [];
    assert FirstOf([d], default) == if d.Some? then d.value else default;
    assert FirstOf([c, d], default) == if c.Some? then c.value else FirstOf([d], default);
  }

  lemma TagReadsBack(locale: Locale)
    ensures FromTag(locale.AsTag()) == Some(locale)
  {
    TrimOfTrimmed(locale.AsTag());
    assert Lower("en") == "en" && Lower("ja") == "ja";
  }

  /**
   What a handler shows is the documented order over all six sources: the query, the stored setting of
   a signed-in user, the cookie, the client's request, the browser, and Japanese.
   */
  lemma HandlerFollowsChain(v: View, accept: Option<string>)
    ensures HandlerLocale(Forwarded(v), accept)
         == Chain(QueryValue(v.query, "lang"),
                  if Get(v.headers, SSO_SESSION_COOKIE).Some? then v.profile else None,
                  Get(v.headers, LANG_COOKIE), v.uiLocales, accept)
  {
    var stored := if Get(v.headers, SSO_SESSION_COOKIE).Some? then v.profile else None;
    FirstOfFour(ExplicitLocale(v), TagOf(stored), CookieLocale(v.headers),
                if v.uiLocales.Some? then FromUiLocales(v.uiLocales.value) else None, FromAcceptLanguage(accept));
    if Decided(v).Some? {
      OverwriteReads(v.headers, Decided(v).value, LANG_COOKIE);
      TagReadsBack(Decided(v).value);
    }
  }

  // The three rewriters together

  /** The cookies after name binding, the device-key guard and the language decision. */
  function Layered(policy: CookiePolicy, headers: Headers, bound: bool, decided: Option<Locale>): Headers {
    var inner := BindRequest(policy, headers);
    var guarded := if bound then StripSessionCookie(inner) else inner;
    if decided.Some? then OverwriteLangCookie(guarded, decided.value) else guarded
  }

  /** Where each cookie a handler can read comes from. */
  lemma LayersRead(policy: CookiePolicy, headers: Headers, bound: bool, decided: Option<Locale>, name: string)
    ensures Get(Layered(policy, headers, bound, decided), name)
         == if decided.Some? && name == LANG_COOKIE then Some(decided.value.AsTag())
            else if decided.Some? && Trim(name) == LANG_COOKIE then None
            else if bound && name == SSO_SESSION_COOKIE then None
            else if policy.secure && name in ORIGIN_BOUND_SESSION_COOKIES then Get(headers, HOST_PREFIX + name)
            else if policy.secure && IsSessionName(name) then None
            else Get(headers, name)
  {
    var inner := BindRequest(policy, headers);
    var guarded := if bound then StripSessionCookie(inner) else inner;
    if decided.Some? {
      OverwriteReads(guarded, decided.value, name);
    }
    if bound {
      StripReads(inner, name);
    }
    BoundOthersRead(policy, headers, name);
    if policy.secure && name in ORIGIN_BOUND_SESSION_COOKIES {
      BoundSessionReads(policy, headers, name);
    }
  }
}
