/**
 A browser's cookie store, by section 5 of RFC 6265 with the `__Host-` rule of section 4.1.3.2 of
 RFC 6265bis, and what web's session cookies become in it.

 Cookies are identified by name, domain and path. The order in which a browser lists cookies of one
 request is left open: the theorems hold for every order.
 */
module BrowserJar {
  import opened Wrappers
  import opened Text
  import opened Numerals
  import opened Cookies
  import opened CookieDomain

  datatype Key = Key(name: string, domain: string, path: string)

  datatype Stored = Stored(value: string, hostOnly: bool, secure: bool, expiry: Option<int>)

  type Jar = map<Key, Stored>

  /** The origin a browser talks to; `isSuffix` is its public suffix list. */
  datatype Site = Site(host: string, https: bool, isSuffix: string -> bool)

  // Parsing Set-Cookie (section 5.2 of RFC 6265)

  datatype SetCookie = SetCookie(
    name: string, value: string, maxAge: Option<int>, domain: Option<string>, path: Option<string>, secure: bool)

  function ParseMaxAge(s: string): Option<int> {
    if s == "" || !(IsDigit(s[0]) || s[0] == '-') || !AllDigits(s[1..]) then None
    else if s[0] == '-' then Some(0 - ValueOf(s[1..]))
    else Some(ValueOf(s))
  }

  function ReadAttribute(attribute: string): (string, string) {
    match SplitOnce(attribute, '=')
    case Some((n, v)) => (Lower(Trim(n)), Trim(v))
    case None => (Lower(Trim(attribute)), "")
  }

  /** One attribute; unknown and malformed ones change nothing. */
  function ApplyNamed(c: SetCookie, name: string, value: string): SetCookie {
    if name == "max-age" then (if ParseMaxAge(value).Some? then c.(maxAge := ParseMaxAge(value)) else c)
    else if name == "domain" then
      (if value == "" then c else c.(domain := Some(Lower(if value[0] == '.' then value[1..] else value))))
    else if name == "path" then c.(path := if value != "" && value[0] == '/' then Some(value) else None)
    else if name == "secure" then c.(secure := true)
    else c
  }

  function Apply(c: SetCookie, attribute: string): SetCookie {
    ApplyNamed(c, ReadAttribute(attribute).0, ReadAttribute(attribute).1)
  }

  function ApplyAll(c: SetCookie, attributes: seq<string>): SetCookie
    decreases |attributes|
  {
    if attributes == [] then c else ApplyAll(Apply(c, attributes[0]), attributes[1..])
  }

  function ParseSetCookie(s: string): Option<SetCookie> {
    var parts := Split(s, {';'});
    match SplitOnce(parts[0], '=')
    case None => None
    case Some((n, v)) =>
      if Trim(n) == "" then None
      else Some(ApplyAll(SetCookie(Trim(n), Trim(v), None, None, None, false), Clean(parts[1..])))
  }

  // Storing (section 5.3 of RFC 6265)

  /** Section 5.1.3 of RFC 6265, for host names. */
  predicate DomainMatch(host: string, domain: string) {
    host == domain || EndsWith(host, "." + domain)
  }

  function StoreParsed(site: Site, defaultPath: string, jar: Jar, now: int, c: SetCookie): Jar {
    var path := if c.path.Some? then c.path.value else defaultPath;
    var hostOnly := c.domain.None? || (site.isSuffix(c.domain.value) && c.domain.value == site.host);
    var domain := if hostOnly then site.host else c.domain.value;
    if !hostOnly && (site.isSuffix(domain) || !DomainMatch(site.host, domain)) then jar
    else if c.secure && !site.https then jar
    else if HOST_PREFIX <= c.name && !(c.secure && hostOnly && path == "/") then jar
    else
      var key := Key(c.name, domain, path);
      if c.maxAge.Some? && c.maxAge.value <= 0 then jar - {key}
      else jar[key := Stored(c.value, hostOnly, c.secure,
                             if c.maxAge.Some? then Some(now + c.maxAge.value) else None)]
  }

  function Store(site: Site, defaultPath: string, jar: Jar, now: int, text: string): Jar {
    var c := ParseSetCookie(text);
    if c.None? then jar else StoreParsed(site, defaultPath, jar, now, c.value)
  }

  function Fold(store: (Jar, string) -> Jar, jar: Jar, texts: seq<string>): Jar
    decreases |texts|
  {
    if texts == [] then jar else Fold(store, store(jar, texts[0]), texts[1..])
  }

  /** All `Set-Cookie` headers of one response, in order. */
  function StoreAll(site: Site, defaultPath: string, jar: Jar, now: int, texts: seq<string>): Jar {
    Fold((j, text) => Store(site, defaultPath, j, now, text), jar, texts)
  }

  // Sending (section 5.4 of RFC 6265)

  /** Section 5.1.4 of RFC 6265. */
  predicate PathMatch(requestPath: string, path: string) {
    || requestPath == path
    || (path <= requestPath && path != "" && (path[|path| - 1] == '/' || requestPath[|path|] == '/'))
  }

  predicate IsSent(site: Site, requestPath: string, jar: Jar, now: int, key: Key)
    requires key in jar
  {
    var c := jar[key];
    && (if c.hostOnly then site.host == key.domain else DomainMatch(site.host, key.domain))
    && PathMatch(requestPath, key.path)
    && (c.secure ==> site.https)
    && (c.expiry.Some? ==> now < c.expiry.value)
  }

  /** `order` lists the cookies of a request, each once, in whatever order. */
  ghost predicate SendingOrder(site: Site, requestPath: string, jar: Jar, now: int, order: seq<Key>) {
    && (forall i | 0 <= i < |order| :: order[i] in jar && IsSent(site, requestPath, jar, now, order[i]))
    && (forall key | key in jar && IsSent(site, requestPath, jar, now, key) :: key in order)
    && (forall i, j | 0 <= i < j < |order| :: order[i] != order[j])
  }

  function PairTexts(jar: Jar, order: seq<Key>): (r: seq<string>)
    requires forall i | 0 <= i < |order| :: order[i] in jar
    ensures |r| == |order|
    ensures forall i | 0 <= i < |r| :: r[i] == order[i].name + "=" + jar[order[i]].value
  {
    if order == [] then []
    else [order[0].name + "=" + jar[order[0]].value] + PairTexts(jar, order[1..])
  }

  function CookieHeader(jar: Jar, order: seq<Key>): Headers
    requires forall i | 0 <= i < |order| :: order[i] in jar
  {
    if order == [] then [] else [Join(PairTexts(jar, order), "; ")]
  }

  // What parsing guarantees of any stored cookie

  predicate NameOk(name: string) {
    name != "" && Trimmed(name) && Free(name, {';', '='})
  }

  predicate ValueOk(value: string) {
    Trimmed(value) && Free(value, {';'})
  }

  predicate JarOk(jar: Jar) {
    forall key | key in jar :: NameOk(key.name) && ValueOk(jar[key].value)
  }

  /** No browser that knows the prefix holds a `__Host-` cookie any other way. */
  predicate HostPrefixOk(jar: Jar) {
    forall key | key in jar && HOST_PREFIX <= key.name :: key.path == "/" && jar[key].hostOnly && jar[key].secure
  }

  // From Set-Cookie text to the stored cookie

  function AgeAttribute(maxAge: nat): seq<string> {
    ["Max-Age=" + Dec(maxAge)]
  }

  function DomainAttribute(domain: Option<string>): seq<string> {
    if domain.Some? then ["Domain=" + domain.value] else []
  }

  function Fixed(secure: bool): seq<string> {
    ["Path=/", "HttpOnly", "SameSite=Lax"] + (if secure then ["Secure"] else [])
  }

  function Attributes(maxAge: nat, secure: bool, domain: Option<string>): seq<string> {
    AgeAttribute(maxAge) + DomainAttribute(domain) + Fixed(secure)
  }

  predicate DomainTextOk(domain: string) {
    domain != "" && Trimmed(domain) && Free(domain, {';'}) && domain[0] != '.' && Lower(domain) == domain
  }

  const FIXED := "Path=/; HttpOnly; SameSite=Lax"

  lemma BuildIsJoin(name: string, value: string, maxAge: nat, secure: bool, domain: Option<string>)
    ensures Build(name, value, maxAge, secure, domain)
         == (name + "=" + value) + [';'] + (" " + Join(Attributes(maxAge, secure, domain), "; "))
  {
    var pair, age := name + "=" + value, "Max-Age=" + Dec(maxAge);
    var fixed := Fixed(secure);
    var fixedText := FIXED + (if secure then "; Secure" else "");
    FixedJoin(secure);
    BuildText(name, value, maxAge, secure, domain);
    if domain.Some? {
      var d := "Domain=" + domain.value;
      assert Attributes(maxAge, secure, domain) == [age] + ([d] + fixed);
      JoinCons(age, [d] + fixed);
      JoinCons(d, fixed);
      Regroup(pair, age, d + "; " + fixedText);
      Regroup2(pair, age, d, fixedText);
    } else {
      assert Attributes(maxAge, secure, domain) == [age] + fixed;
      JoinCons(age, fixed);
      Regroup(pair, age, fixedText);
    }
  }

  lemma BuildText(name: string, value: string, maxAge: nat, secure: bool, domain: Option<string>)
    ensures Build(name, value, maxAge, secure, domain)
         == ((name + "=" + value) + "; " + ("Max-Age=" + Dec(maxAge))
             + (if domain.Some? then "; " + ("Domain=" + domain.value) else ""))
            + "; " + (FIXED + (if secure then "; Secure" else ""))
  {
    var domainText := if domain.Some? then "; Domain=" + domain.value else "";
    DomainText(domain);
    Literals();
    Shape(name + "=" + value, "; ", "; Max-Age=", "Max-Age=", Dec(maxAge), domainText,
          "; Path=/; HttpOnly; SameSite=Lax", FIXED, if secure then "; Secure" else "");
  }

  lemma Literals()
    ensures "; Max-Age=" == "; " + "Max-Age="
    ensures "; Domain=" == "; " + "Domain="
    ensures "; Path=/; HttpOnly; SameSite=Lax" == "; " + FIXED
  {
  }

  lemma DomainText(domain: Option<string>)
    ensures (if domain.Some? then "; Domain=" + domain.value else "")
         == (if domain.Some? then "; " + ("Domain=" + domain.value) else "")
  {
    Literals();
    if domain.Some? {
      ConcatAssoc("; ", "Domain=", domain.value);
    }
  }

  lemma ConcatAssoc(a: string, b: string, c: string)
    ensures (a + b) + c == a + (b + c)
  {
  }

  lemma Shape(h: string, g: string, m: string, m': string, a: string, d: string, f: string, f': string, s: string)
    requires m == g + m' && f == g + f'
    ensures h + m + a + d + f + s == (h + g + (m' + a) + d) + g + (f' + s)
  {
    assert h + m + a == h + g + (m' + a);
    var x := h + m + a + d;
    assert x + f + s == x + g + (f' + s);
  }

  lemma Regroup(a: string, b: string, c: string)
    ensures (a + "; " + b) + "; " + c == a + [';'] + (" " + (b + "; " + c))
    ensures (a + "; " + b + "") + "; " + c == a + [';'] + (" " + (b + "; " + c))
  {
  }

  lemma Regroup2(a: string, b: string, c: string, d: string)
    ensures (a + "; " + b + ("; " + c)) + "; " + d == (a + "; " + b) + "; " + (c + "; " + d)
  {
  }

  lemma FixedJoin(secure: bool)
    ensures Join(Fixed(secure), "; ") == FIXED + (if secure then "; Secure" else "")
  {
    FixedText();
    if secure {
      JoinFour("Path=/", "HttpOnly", "SameSite=Lax", "Secure");
      assert Fixed(true) == ["Path=/", "HttpOnly", "SameSite=Lax", "Secure"];
      ConcatAssoc(FIXED, "; ", "Secure");
    } else {
      JoinThree("Path=/", "HttpOnly", "SameSite=Lax");
    }
  }

  lemma FixedText()
    ensures FIXED == "Path=/" + "; " + "HttpOnly" + "; " + "SameSite=Lax"
    ensures "; Secure" == "; " + "Secure"
  {
  }

  lemma JoinThree(a: string, b: string, c: string)
    ensures Join([a, b, c] + [], "; ") == a + "; " + b + "; " + c
  {
    assert [a, b, c] + [] == [a] + [b, c] && [b, c] == [b] + [c];
    JoinCons(a, [b, c]);
    JoinCons(b, [c]);
  }

  lemma JoinFour(a: string, b: string, c: string, d: string)
    ensures Join([a, b, c, d], "; ") == a + "; " + b + "; " + c + "; " + d
  {
    assert [a, b, c, d] == [a] + [b, c, d] && [b, c, d] == [b, c, d] + [];
    JoinCons(a, [b, c, d]);
    JoinThree(b, c, d);
  }

  lemma JoinCons(first: string, rest: seq<string>)
    requires rest != []
    ensures Join([first] + rest, "; ") == first + "; " + Join(rest, "; ")
  {
    assert ([first] + rest)[1..] == rest;
  }

  lemma ReadNamed(n: string, v: string, lowered: string)
    requires Named(n, lowered) && ValueOk(v)
    ensures ReadAttribute(n + "=" + v) == (lowered, v)
    ensures CleanPieces([n + "=" + v], {';'})
  {
    assert n + "=" + v == n + ['='] + v;
    SplitOnceIs(n, '=', v);
    TrimOfTrimmed(n);
    TrimOfTrimmed(v);
  }

  lemma ReadFlag(n: string, lowered: string)
    requires Named(n, lowered)
    ensures ReadAttribute(n) == (lowered, "")
    ensures CleanPieces([n], {';'})
  {
    assert SplitOnce(n, '=').None?;
    TrimOfTrimmed(n);
  }

  // The attribute names web writes, as the browser lowers them

  predicate Named(n: string, lowered: string) {
    NameOk(n) && Lower(n) == lowered
  }

  lemma AgeName() ensures Named("Max-Age", "max-age") {}

  lemma DomainName() ensures Named("Domain", "domain") {}

  lemma PathName() ensures Named("Path", "path") {}

  lemma HttpOnlyName() ensures Named("HttpOnly", "httponly") {}

  lemma SameSiteName() ensures Named("SameSite", "samesite") {}

  lemma SecureName() ensures Named("Secure", "secure") {}

  lemma AgeApplies(c: SetCookie, n: nat)
    ensures Apply(c, "Max-Age=" + Dec(n)) == c.(maxAge := Some(n))
    ensures CleanPieces(["Max-Age=" + Dec(n)], {';'})
  {
    AgeIs(n);
    AgeParses(n);
  }

  lemma AgeIs(n: nat)
    ensures ReadAttribute("Max-Age=" + Dec(n)) == ("max-age", Dec(n))
    ensures CleanPieces(["Max-Age=" + Dec(n)], {';'})
  {
    AgeName();
    assert "Max-Age" + "=" == "Max-Age=";
    ConcatAssoc("Max-Age", "=", Dec(n));
    ReadNamed("Max-Age", Dec(n), "max-age");
  }

  lemma AgeParses(n: nat)
    ensures ParseMaxAge(Dec(n)) == Some(n)
  {
    assert IsDigit(Dec(n)[0]) && AllDigits(Dec(n)[1..]);
  }

  lemma DomainApplies(c: SetCookie, domain: string)
    requires DomainTextOk(domain)
    ensures Apply(c, "Domain=" + domain) == c.(domain := Some(domain))
    ensures CleanPieces(["Domain=" + domain], {';'})
  {
    DomainName();
    assert "Domain" + "=" == "Domain=";
    ConcatAssoc("Domain", "=", domain);
    ReadNamed("Domain", domain, "domain");
  }

  lemma PathApplies(c: SetCookie)
    ensures Apply(c, "Path=/") == c.(path := Some("/"))
    ensures CleanPieces(["Path=/"], {';'})
  {
    PathName();
    assert "Path" + "=" + "/" == "Path=/";
    ReadNamed("Path", "/", "path");
  }

  /** No attribute that matters has a name of eight letters. */
  lemma EightLettersIgnored(c: SetCookie, attribute: string)
    requires |ReadAttribute(attribute).0| == 8
    ensures Apply(c, attribute) == c
  {
  }

  lemma SameSiteIs()
    ensures ReadAttribute("SameSite=Lax") == ("samesite", "Lax")
    ensures CleanPieces(["SameSite=Lax"], {';'})
  {
    SameSiteName();
    assert "SameSite" + "=" + "Lax" == "SameSite=Lax";
    ReadNamed("SameSite", "Lax", "samesite");
  }

  lemma FlagsAre()
    ensures ReadAttribute("HttpOnly") == ("httponly", "") && ReadAttribute("Secure") == ("secure", "")
    ensures CleanPieces(["HttpOnly"], {';'}) && CleanPieces(["Secure"], {';'})
  {
    HttpOnlyName();
    SecureName();
    ReadFlag("HttpOnly", "httponly");
    ReadFlag("Secure", "secure");
  }

  lemma SecureApplies(c: SetCookie)
    ensures Apply(c, "Secure") == c.(secure := true)
  {
    FlagsAre();
    SecureSetsFlag(c, ReadAttribute("Secure").0);
  }

  lemma SecureSetsFlag(c: SetCookie, name: string)
    requires name == "secure"
    ensures ApplyNamed(c, name, "") == c.(secure := true)
  {
    assert |name| == 6 && name[0] == 's';
  }

  lemma IgnoredApply(c: SetCookie)
    ensures Apply(c, "HttpOnly") == c && Apply(c, "SameSite=Lax") == c
  {
    FlagsAre();
    SameSiteIs();
    EightLettersIgnored(c, "HttpOnly");
    EightLettersIgnored(c, "SameSite=Lax");
  }

  lemma {:induction false} ApplyAllConcat(c: SetCookie, a: seq<string>, b: seq<string>)
    ensures ApplyAll(c, a + b) == ApplyAll(ApplyAll(c, a), b)
    decreases |a|
  {
    if a == [] {
      assert a + b == b;
    } else {
      assert (a + b)[1..] == a[1..] + b;
      ApplyAllConcat(Apply(c, a[0]), a[1..], b);
    }
  }

  lemma ApplyOne(c: SetCookie, attribute: string)
    ensures ApplyAll(c, [attribute]) == Apply(c, attribute)
  {
    assert [attribute][1..] == [];
  }

  lemma FixedApplies(c: SetCookie, secure: bool)
    ensures ApplyAll(c, Fixed(secure)) == c.(path := Some("/"), secure := c.secure || secure)
  {
    var c1 := c.(path := Some("/"));
    PathApplies(c);
    IgnoredApply(c1);
    SecureApplies(c1);
    ApplyFour(c, "Path=/", "HttpOnly", "SameSite=Lax", if secure then ["Secure"] else [], c1);
    if secure {
      ApplyOne(c1, "Secure");
    }
  }

  lemma FixedClean(secure: bool)
    ensures CleanPieces(Fixed(secure), {';'})
  {
    PathApplies(SetCookie("", "", None, None, None, false));
    FlagsAre();
    SameSiteIs();
    ThreeClean("Path=/", "HttpOnly", "SameSite=Lax", if secure then ["Secure"] else []);
  }

  lemma ThreeClean(a: string, b: string, d: string, rest: seq<string>)
    requires CleanPieces([a], {';'}) && CleanPieces([b], {';'}) && CleanPieces([d], {';'}) && CleanPieces(rest, {';'})
    ensures CleanPieces([a, b, d] + rest, {';'})
  {
    assert [a][0] == a && [b][0] == b && [d][0] == d;
  }

  lemma CleanConcat(a: seq<string>, b: seq<string>)
    requires CleanPieces(a, {';'}) && CleanPieces(b, {';'})
    ensures CleanPieces(a + b, {';'})
  {
  }

  lemma ApplyFour(c: SetCookie, a: string, b: string, d: string, rest: seq<string>, c1: SetCookie)
    requires Apply(c, a) == c1 && Apply(c1, b) == c1 && Apply(c1, d) == c1
    ensures ApplyAll(c, [a, b, d] + rest) == ApplyAll(c1, rest)
  {
    assert [a, b, d] + rest == [a] + ([b] + ([d] + rest));
    ApplyAllConcat(c, [a], [b] + ([d] + rest));
    ApplyAllConcat(c1, [b], [d] + rest);
    ApplyAllConcat(c1, [d], rest);
    ApplyOne(c, a);
    ApplyOne(c1, b);
    ApplyOne(c1, d);
  }

  lemma AttributesApply(c: SetCookie, maxAge: nat, secure: bool, domain: Option<string>)
    requires domain.Some? ==> DomainTextOk(domain.value)
    requires c.domain.None?
    ensures ApplyAll(c, Attributes(maxAge, secure, domain))
         == c.(maxAge := Some(maxAge), domain := domain, path := Some("/"), secure := c.secure || secure)
    ensures CleanPieces(Attributes(maxAge, secure, domain), {';'})
  {
    var age, place, fixed := AgeAttribute(maxAge), DomainAttribute(domain), Fixed(secure);
    assert Attributes(maxAge, secure, domain) == age + (place + fixed);
    AgeApplies(c, maxAge);
    ApplyOne(c, age[0]);
    ApplyAllConcat(c, age, place + fixed);
    var c1 := c.(maxAge := Some(maxAge));
    var c2 := c1.(domain := domain);
    if domain.Some? {
      DomainApplies(c1, domain.value);
      ApplyOne(c1, place[0]);
    }
    ApplyAllConcat(c1, place, fixed);
    FixedApplies(c2, secure);
    FixedClean(secure);
    CleanConcat(place, fixed);
    CleanConcat(age, place + fixed);
  }

  /** A browser reads back what web wrote. */
  lemma ParseOfBuild(name: string, value: string, maxAge: nat, secure: bool, domain: Option<string>)
    requires NameOk(name) && ValueOk(value)
    requires domain.Some? ==> DomainTextOk(domain.value)
    ensures ParseSetCookie(Build(name, value, maxAge, secure, domain))
         == Some(SetCookie(name, value, Some(maxAge), domain, Some("/"), secure))
  {
    BuildIsJoin(name, value, maxAge, secure, domain);
    AttributesApply(SetCookie(name, value, None, None, None, false), maxAge, secure, domain);
    ParseParts(Build(name, value, maxAge, secure, domain), name, value, Attributes(maxAge, secure, domain));
  }

  lemma ParseParts(s: string, name: string, value: string, attributes: seq<string>)
    requires NameOk(name) && ValueOk(value) && CleanPieces(attributes, {';'})
    requires s == (name + "=" + value) + [';'] + (" " + Join(attributes, "; "))
    ensures ParseSetCookie(s) == Some(ApplyAll(SetCookie(name, value, None, None, None, false), attributes))
  {
    var pair := name + "=" + value;
    PairThenAttributes(pair, attributes);
    assert pair == name + ['='] + value;
    SplitOnceIs(name, '=', value);
    TrimOfTrimmed(name);
    TrimOfTrimmed(value);
  }

  lemma PairThenAttributes(pair: string, attributes: seq<string>)
    requires Free(pair, {';'}) && CleanPieces(attributes, {';'})
    ensures var parts := Split(pair + [';'] + (" " + Join(attributes, "; ")), {';'});
            parts[0] == pair && Clean(parts[1..]) == attributes
  {
    var rest := Join(attributes, "; ");
    SplitHead(pair, ';', " " + rest, {';'});
    CleanWhitePrefix(" ", rest, {';'});
    assert "; " == [';'] + " ";
    CleanSplitJoin(attributes, ';', " ", {';'});
    assert ([pair] + Split(" " + rest, {';'}))[1..] == Split(" " + rest, {';'});
  }

  // What storing web's cookies does to the jar

  /** The legacy domain, when configured, is one the browser accepts from this host. */
  predicate CleanupOk(site: Site, policy: CookiePolicy) {
    policy.legacyCleanupDomain.Some? ==>
      var d := policy.legacyCleanupDomain.value;
      DomainTextOk(d) && DomainMatch(site.host, d) && !site.isSuffix(d)
  }

  /** A host-only cookie is put in place, or removed when its age is zero. */
  function Put(jar: Jar, key: Key, value: string, maxAge: nat, secure: bool, now: int): Jar {
    if maxAge == 0 then jar - {key} else jar[key := Stored(value, true, secure, Some(now + maxAge))]
  }

  lemma StoreText(site: Site, defaultPath: string, jar: Jar, now: int, text: string, c: SetCookie)
    requires ParseSetCookie(text) == Some(c)
    ensures Store(site, defaultPath, jar, now, text) == StoreParsed(site, defaultPath, jar, now, c)
  {
  }

  lemma StoreParsedHostOnly(site: Site, defaultPath: string, jar: Jar, now: int, c: SetCookie)
    requires c.domain.None? && c.path == Some("/") && c.maxAge.Some? && c.maxAge.value >= 0
    requires (c.secure ==> site.https) && (HOST_PREFIX <= c.name ==> c.secure)
    ensures StoreParsed(site, defaultPath, jar, now, c)
         == Put(jar, Key(c.name, site.host, "/"), c.value, c.maxAge.value, c.secure, now)
  {
  }

  lemma StoreBuilt(site: Site, defaultPath: string, jar: Jar, now: int, name: string, value: string, maxAge: nat, secure: bool)
    requires NameOk(name) && ValueOk(value)
    ensures Store(site, defaultPath, jar, now, Build(name, value, maxAge, secure, None))
         == StoreParsed(site, defaultPath, jar, now, SetCookie(name, value, Some(maxAge), None, Some("/"), secure))
  {
    var c := SetCookie(name, value, Some(maxAge), None, Some("/"), secure);
    ParseOfBuild(name, value, maxAge, secure, None);
    StoreText(site, defaultPath, jar, now, Build(name, value, maxAge, secure, None), c);
  }

  lemma StoreHostOnly(site: Site, defaultPath: string, jar: Jar, now: int, name: string, value: string, maxAge: nat, secure: bool)
    requires NameOk(name) && ValueOk(value) && (secure ==> site.https) && (HOST_PREFIX <= name ==> secure)
    ensures Store(site, defaultPath, jar, now, Build(name, value, maxAge, secure, None))
         == Put(jar, Key(name, site.host, "/"), value, maxAge, secure, now)
  {
    StoreBuilt(site, defaultPath, jar, now, name, value, maxAge, secure);
    StoreParsedHostOnly(site, defaultPath, jar, now, SetCookie(name, value, Some(maxAge), None, Some("/"), secure));
  }

  lemma StoreDomainDeletion(site: Site, defaultPath: string, jar: Jar, now: int, name: string, secure: bool, d: string)
    requires NameOk(name) && (secure ==> site.https) && !(HOST_PREFIX <= name)
    requires DomainTextOk(d) && DomainMatch(site.host, d) && !site.isSuffix(d)
    ensures Store(site, defaultPath, jar, now, Build(name, "", 0, secure, Some(d))) == jar - {Key(name, d, "/")}
  {
    var c := SetCookie(name, "", Some(0), Some(d), Some("/"), secure);
    ParseOfBuild(name, "", 0, secure, Some(d));
    StoreText(site, defaultPath, jar, now, Build(name, "", 0, secure, Some(d)), c);
  }

  /** The jar after the cookies of one `set_session`, for a name the browser sees as `bound`. */
  function AfterSession(site: Site, policy: CookiePolicy, jar: Jar, now: int, name: string, bound: string, value: string, maxAge: nat): Jar {
    var key := Key(bound, site.host, "/");
    var issued := Put(jar, key, value, maxAge, policy.secure, now);
    var cleaned := if bound != name then Put(issued, Key(name, site.host, "/"), "", 0, policy.secure, now) else issued;
    if policy.legacyCleanupDomain.Some? then cleaned - {Key(name, policy.legacyCleanupDomain.value, "/")} else cleaned
  }

  lemma {:induction false} FoldConcat(store: (Jar, string) -> Jar, jar: Jar, a: seq<string>, b: seq<string>)
    ensures Fold(store, jar, a + b) == Fold(store, Fold(store, jar, a), b)
    decreases |a|
  {
    if a == [] {
      assert a + b == b;
    } else {
      assert (a + b)[1..] == a[1..] + b;
      FoldConcat(store, store(jar, a[0]), a[1..], b);
    }
  }

  lemma FoldOne(store: (Jar, string) -> Jar, jar: Jar, a: seq<string>)
    requires |a| <= 1
    ensures Fold(store, jar, a) == if a == [] then jar else store(jar, a[0])
  {
    if a != [] {
      assert a[1..] == [];
    }
  }

  lemma FoldThree(store: (Jar, string) -> Jar, jar: Jar, first: string, a: seq<string>, b: seq<string>)
    requires |a| <= 1 && |b| <= 1
    ensures Fold(store, jar, [first] + a + b)
         == var j1 := store(jar, first);
            var j2 := if a == [] then j1 else store(j1, a[0]);
            if b == [] then j2 else store(j2, b[0])
  {
    var j1 := store(jar, first);
    FoldConcat(store, jar, [first] + a, b);
    FoldConcat(store, jar, [first], a);
    FoldOne(store, jar, [first]);
    FoldOne(store, j1, a);
    FoldOne(store, if a == [] then j1 else store(j1, a[0]), b);
  }

  lemma SessionStored(site: Site, policy: CookiePolicy, defaultPath: string, jar: Jar, now: int, name: string, value: string, maxAge: nat)
    requires NameOk(name) && NameOk(policy.OriginBoundSessionName(name)) && !(HOST_PREFIX <= name) && ValueOk(value)
    requires CleanupOk(site, policy) && (policy.secure ==> site.https)
    ensures StoreAll(site, defaultPath, jar, now, policy.SetSession(name, value, maxAge))
         == AfterSession(site, policy, jar, now, name, policy.OriginBoundSessionName(name), value, maxAge)
  {
    var bound := policy.OriginBoundSessionName(name);
    var first := Build(bound, value, maxAge, policy.secure, None);
    var a := if bound != name then [Build(name, "", 0, policy.secure, None)] else [];
    var b := if policy.legacyCleanupDomain.Some? then [Build(name, "", 0, policy.secure, policy.legacyCleanupDomain)] else [];
    var j1 := Put(jar, Key(bound, site.host, "/"), value, maxAge, policy.secure, now);
    var j2 := if bound != name then Put(j1, Key(name, site.host, "/"), "", 0, policy.secure, now) else j1;
    StoreHostOnly(site, defaultPath, jar, now, bound, value, maxAge, policy.secure);
    StoreHostOnly(site, defaultPath, j1, now, name, "", 0, policy.secure);
    if policy.legacyCleanupDomain.Some? {
      StoreDomainDeletion(site, defaultPath, j2, now, name, policy.secure, policy.legacyCleanupDomain.value);
    }
    FoldThree((j, text) => Store(site, defaultPath, j, now, text), jar, first, a, b);
  }

  // Reading the request back

  lemma {:induction false} JoinParts(parts: seq<string>)
    requires Visible(Join(parts, "; "))
    ensures forall k | 0 <= k < |parts| :: Visible(parts[k])
  {
    if |parts| > 1 {
      var joined, rest := Join(parts, "; "), Join(parts[1..], "; ");
      assert joined == parts[0] + "; " + rest;
      assert forall i | 0 <= i < |parts[0]| :: joined[i] == parts[0][i];
      assert forall i | 0 <= i < |rest| :: joined[i + |parts[0]| + 2] == rest[i];
      JoinParts(parts[1..]);
    }
  }

  predicate AllVisible(headers: Headers) {
    forall k | 0 <= k < |headers| :: Visible(headers[k])
  }

  lemma PairTextsClean(jar: Jar, order: seq<Key>)
    requires JarOk(jar) && forall i | 0 <= i < |order| :: order[i] in jar
    ensures CleanPieces(PairTexts(jar, order), {';'})
  {
    var texts := PairTexts(jar, order);
    forall i | 0 <= i < |texts| ensures texts[i] != [] && Trimmed(texts[i]) && Free(texts[i], {';'}) {
      PairTextClean(order[i].name, jar[order[i]].value);
    }
  }

  lemma PairTextClean(name: string, value: string)
    requires NameOk(name) && ValueOk(value)
    ensures var s := name + "=" + value; s != [] && Trimmed(s) && Free(s, {';'})
  {
    var s := name + "=" + value;
    assert s[0] == name[0];
    assert value != "" ==> s[|s| - 1] == value[|value| - 1];
  }

  /** The pairs web sees are the cookies sent, unless one of them makes the header unreadable. */
  lemma HeaderPairs(jar: Jar, order: seq<Key>)
    requires JarOk(jar) && forall i | 0 <= i < |order| :: order[i] in jar
    ensures RequestPairs(CookieHeader(jar, order))
         == if AllVisible(CookieHeader(jar, order)) then PairTexts(jar, order) else []
  {
    var texts := PairTexts(jar, order);
    if order != [] {
      var joined := Join(texts, "; ");
      PairTextsClean(jar, order);
      assert Readable([joined]) == if Visible(joined) then [joined] else [];
      if Visible(joined) {
        JoinParts(texts);
        RebuildReads(texts);
      }
    }
  }

  lemma PairValue(name: string, value: string, wanted: string)
    requires NameOk(name)
    ensures ValueFor(name + "=" + value, wanted) == if name == wanted then Some(value) else None
  {
    assert name + "=" + value == name + ['='] + value;
    SplitOnceIs(name, '=', value);
  }

  lemma {:induction false} LookupAbsent(jar: Jar, order: seq<Key>, name: string)
    requires JarOk(jar) && forall i | 0 <= i < |order| :: order[i] in jar && order[i].name != name
    ensures Lookup(PairTexts(jar, order), name).None?
  {
    var texts := PairTexts(jar, order);
    forall k | 0 <= k < |texts| ensures ValueFor(texts[k], name).None? {
      PairValue(order[k].name, jar[order[k]].value, name);
    }
    LookupNone(texts, name);
  }

  /** When only one cookie of a name is sent, that is the one read. */
  lemma {:induction false} LookupOnly(jar: Jar, order: seq<Key>, key: Key)
    requires JarOk(jar) && forall i | 0 <= i < |order| :: order[i] in jar && (order[i].name == key.name ==> order[i] == key)
    requires key in order
    ensures Lookup(PairTexts(jar, order), key.name) == Some(jar[key].value)
  {
    PairValue(order[0].name, jar[order[0]].value, key.name);
    if order[0] != key {
      LookupOnly(jar, order[1..], key);
      assert PairTexts(jar, order)[1..] == PairTexts(jar, order[1..]);
    }
  }

  /** What a request reads under a name that at most one sent cookie can have. */
  lemma ReadsOnly(site: Site, requestPath: string, jar: Jar, now: int, order: seq<Key>, key: Key)
    requires JarOk(jar) && SendingOrder(site, requestPath, jar, now, order)
    requires forall k | k in jar && IsSent(site, requestPath, jar, now, k) && k.name == key.name :: k == key
    ensures Get(CookieHeader(jar, order), key.name)
         == if key in jar && IsSent(site, requestPath, jar, now, key) && AllVisible(CookieHeader(jar, order))
            then Some(jar[key].value) else None
  {
    HeaderPairs(jar, order);
    GetIsLookup(CookieHeader(jar, order), key.name);
    if key in jar && IsSent(site, requestPath, jar, now, key) {
      LookupOnly(jar, order, key);
    } else {
      LookupAbsent(jar, order, key.name);
    }
  }

  // The round trip

  lemma SessionNamesOk(name: string)
    requires name in ORIGIN_BOUND_SESSION_COOKIES
    ensures NameOk(name) && NameOk(HOST_PREFIX + name) && !(HOST_PREFIX <= name) && HOST_PREFIX + name != name
  {
  }

  /**
   Over HTTPS: whatever the browser held before, the next request reads exactly the value just set,
   until its age is over; a cleared cookie reads as nothing. The one exception is a request whose
   Cookie header carries a byte outside visible ASCII: then no cookie of it is readable.
   */
  lemma SecureSessionReads(
      site: Site, policy: CookiePolicy, defaultPath: string, jar: Jar, now: int, name: string, value: string, maxAge: nat,
      requestPath: string, later: int, after: Jar, order: seq<Key>)
    requires policy.secure && site.https && CleanupOk(site, policy)
    requires name in ORIGIN_BOUND_SESSION_COOKIES && ValueOk(value)
    requires JarOk(jar) && HostPrefixOk(jar)
    requires requestPath != "" && requestPath[0] == '/'
    requires after == StoreAll(site, defaultPath, jar, now, policy.SetSession(name, value, maxAge))
    requires SendingOrder(site, requestPath, after, later, order)
    ensures Get(BindRequest(policy, CookieHeader(after, order)), name)
         == if maxAge > 0 && later < now + maxAge && AllVisible(CookieHeader(after, order)) then Some(value) else None
  {
    SessionNamesOk(name);
    var bound := HOST_PREFIX + name;
    SessionStored(site, policy, defaultPath, jar, now, name, value, maxAge);
    BoundSessionReads(policy, CookieHeader(after, order), name);
    AfterSecure(site, policy, jar, now, name, bound, value, maxAge);
    OnlyPrefixed(site, requestPath, after, later, bound);
    ReadsOnly(site, requestPath, after, later, order, Key(bound, site.host, "/"));
  }

  lemma AfterSecure(site: Site, policy: CookiePolicy, jar: Jar, now: int, name: string, bound: string, value: string, maxAge: nat)
    requires policy.secure && JarOk(jar) && HostPrefixOk(jar) && bound != name && NameOk(bound) && ValueOk(value)
    ensures var after, key := AfterSession(site, policy, jar, now, name, bound, value, maxAge), Key(bound, site.host, "/");
            && JarOk(after) && HostPrefixOk(after)
            && (maxAge == 0 ==> key !in after)
            && (maxAge > 0 ==> key in after && after[key] == Stored(value, true, true, Some(now + maxAge)))
  {
  }

  lemma OnlyPrefixed(site: Site, requestPath: string, jar: Jar, now: int, bound: string)
    requires HostPrefixOk(jar) && HOST_PREFIX <= bound
    ensures forall k | k in jar && IsSent(site, requestPath, jar, now, k) && k.name == bound :: k == Key(bound, site.host, "/")
  {
  }

  /**
   The exception is real: one cookie of this host whose value is outside visible ASCII, which any page of the host
   can set, hides the session that was just set.
   */
  lemma UnreadableCookieHidesSession(site: Site, defaultPath: string, now: int, name: string, value: string, maxAge: nat, later: int)
    returns (jar: Jar, after: Jar, order: seq<Key>)
    requires site.https && name in ORIGIN_BOUND_SESSION_COOKIES && ValueOk(value) && maxAge > 0 && later < now + maxAge
    ensures JarOk(jar) && HostPrefixOk(jar)
    ensures after == StoreAll(site, defaultPath, jar, now, CookiePolicy(true, None).SetSession(name, value, maxAge))
    ensures SendingOrder(site, "/", after, later, order)
    ensures Get(BindRequest(CookiePolicy(true, None), CookieHeader(after, order)), name) == None
  {
    var other := Key("x", site.host, "/");
    var text := [0xE9 as char];
    jar := map[other := Stored(text, true, false, None)];
    OtherNameOk(name, text);
    OneCookieOk(other, text);
    after, order := Hidden(site, CookiePolicy(true, None), defaultPath, jar, other, now, name, value, maxAge, later);
  }

  lemma Hidden(site: Site, policy: CookiePolicy, defaultPath: string, jar: Jar, other: Key, now: int, name: string, value: string,
               maxAge: nat, later: int)
    returns (after: Jar, order: seq<Key>)
    requires policy == CookiePolicy(true, None) && site.https && name in ORIGIN_BOUND_SESSION_COOKIES && ValueOk(value)
    requires maxAge > 0 && later < now + maxAge && JarOk(jar) && HostPrefixOk(jar)
    requires other.domain == site.host && other.path == "/" && other.name != name && other.name != HOST_PREFIX + name
    requires jar.Keys == {other} && jar[other].hostOnly && !jar[other].secure && jar[other].expiry == None
    requires !Visible(jar[other].value)
    ensures after == StoreAll(site, defaultPath, jar, now, policy.SetSession(name, value, maxAge))
    ensures SendingOrder(site, "/", after, later, order)
    ensures Get(BindRequest(policy, CookieHeader(after, order)), name) == None
  {
    var bound, bare := Key(HOST_PREFIX + name, site.host, "/"), Key(name, site.host, "/");
    SessionNamesOk(name);
    SessionStored(site, policy, defaultPath, jar, now, name, value, maxAge);
    after := jar[bound := Stored(value, true, true, Some(now + maxAge))] - {bare};
    order := [other, bound];
    AfterTwo(site, policy, jar, now, name, bound, value, maxAge);
    TwoCookies(site, jar, after, now, later, other, bound, bare, value, maxAge);
    HiddenHeader(after, order);
    SecureSessionReads(site, policy, defaultPath, jar, now, name, value, maxAge, "/", later, after, order);
  }

  lemma AfterTwo(site: Site, policy: CookiePolicy, jar: Jar, now: int, name: string, bound: Key, value: string, maxAge: nat)
    requires policy == CookiePolicy(true, None) && maxAge > 0 && bound == Key(bound.name, site.host, "/") && bound.name != name
    ensures AfterSession(site, policy, jar, now, name, bound.name, value, maxAge)
         == jar[bound := Stored(value, true, true, Some(now + maxAge))] - {Key(name, site.host, "/")}
  {
  }

  lemma OneCookieOk(key: Key, text: string)
    requires NameOk(key.name) && ValueOk(text) && !(HOST_PREFIX <= key.name)
    ensures var jar := map[key := Stored(text, true, false, None)]; JarOk(jar) && HostPrefixOk(jar)
  {
  }

  lemma OtherNameOk(name: string, text: string)
    requires name in ORIGIN_BOUND_SESSION_COOKIES && text == [0xE9 as char]
    ensures NameOk("x") && ValueOk(text) && !Visible(text) && name != "x" && HOST_PREFIX + name != "x" && !(HOST_PREFIX <= "x")
  {
    assert |HOST_PREFIX + name| > 1 && |name| > 1;
  }

  lemma TwoCookies(site: Site, jar: Jar, after: Jar, now: int, later: int, other: Key, bound: Key, bare: Key, value: string, maxAge: nat)
    requires site.https && maxAge > 0 && later < now + maxAge && other != bound && bare != bound && bare != other
    requires other.domain == bound.domain == site.host && other.path == bound.path == "/"
    requires jar.Keys == {other} && jar[other].hostOnly && !jar[other].secure && jar[other].expiry == None
    requires after == jar[bound := Stored(value, true, true, Some(now + maxAge))] - {bare}
    ensures SendingOrder(site, "/", after, later, [other, bound]) && after[other] == jar[other]
  {
    assert after.Keys == {other, bound};
  }

  lemma ShownValue(jar: Jar, order: seq<Key>)
    requires order != [] && (forall i | 0 <= i < |order| :: order[i] in jar) && AllVisible(CookieHeader(jar, order))
    ensures Visible(jar[order[0]].value)
  {
    var texts, value := PairTexts(jar, order), jar[order[0]].value;
    assert Visible(CookieHeader(jar, order)[0]);
    JoinParts(texts);
    assert forall i | 0 <= i < |value| :: value[i] == texts[0][|order[0].name| + 1 + i];
  }

  lemma HiddenHeader(jar: Jar, order: seq<Key>)
    requires order != [] && (forall i | 0 <= i < |order| :: order[i] in jar) && !Visible(jar[order[0]].value)
    ensures !AllVisible(CookieHeader(jar, order))
  {
    if AllVisible(CookieHeader(jar, order)) {
      ShownValue(jar, order);
    }
  }

  // Every jar a browser can come to hold

  lemma {:induction false} ApplyKeepsPair(c: SetCookie, attributes: seq<string>)
    ensures ApplyAll(c, attributes).name == c.name && ApplyAll(c, attributes).value == c.value
    decreases |attributes|
  {
    if attributes != [] {
      ApplyKeepsPair(Apply(c, attributes[0]), attributes[1..]);
    }
  }

  lemma ParsedPairOk(text: string)
    requires ParseSetCookie(text).Some?
    ensures NameOk(ParseSetCookie(text).value.name) && ValueOk(ParseSetCookie(text).value.value)
  {
    var parts := Split(text, {';'});
    var (n, v) := SplitOnce(parts[0], '=').value;
    HalvesFree(parts[0], n, v);
    ApplyKeepsPair(SetCookie(Trim(n), Trim(v), None, None, None, false), Clean(parts[1..]));
    TrimFree(n, {';', '='});
    TrimFree(v, {';'});
    TrimIsTrimmed(n);
    TrimIsTrimmed(v);
  }

  lemma HalvesFree(pair: string, n: string, v: string)
    requires Free(pair, {';'}) && pair == n + ['='] + v && Free(n, {'='})
    ensures Free(n, {';', '='}) && Free(v, {';'})
  {
    assert forall i | 0 <= i < |n| :: n[i] == pair[i];
    assert forall i | 0 <= i < |v| :: v[i] == pair[|n| + 1 + i];
  }

  /** Storing any text from any site keeps what section 5.2 of RFC 6265 and the prefix rule guarantee. */
  lemma StoreKeepsJar(site: Site, defaultPath: string, jar: Jar, now: int, text: string)
    requires JarOk(jar) && HostPrefixOk(jar)
    ensures JarOk(Store(site, defaultPath, jar, now, text)) && HostPrefixOk(Store(site, defaultPath, jar, now, text))
  {
    var c := ParseSetCookie(text);
    if c.Some? {
      ParsedPairOk(text);
      StoreParsedKeepsJar(site, defaultPath, jar, now, c.value);
    }
  }

  lemma StoreParsedKeepsJar(site: Site, defaultPath: string, jar: Jar, now: int, c: SetCookie)
    requires JarOk(jar) && HostPrefixOk(jar) && NameOk(c.name) && ValueOk(c.value)
    ensures JarOk(StoreParsed(site, defaultPath, jar, now, c)) && HostPrefixOk(StoreParsed(site, defaultPath, jar, now, c))
  {
  }

  /** One `Set-Cookie` header from some site, at some time. */
  datatype Received = Received(site: Site, defaultPath: string, at: int, text: string)

  /** The jar of a browser that started empty and received these headers. */
  function Browsed(received: seq<Received>): Jar {
    if received == [] then map[]
    else
      var last := received[|received| - 1];
      Store(last.site, last.defaultPath, Browsed(received[..|received| - 1]), last.at, last.text)
  }

  lemma {:induction false} BrowsedIsOk(received: seq<Received>)
    ensures JarOk(Browsed(received)) && HostPrefixOk(Browsed(received))
  {
    if received != [] {
      var last := received[|received| - 1];
      BrowsedIsOk(received[..|received| - 1]);
      StoreKeepsJar(last.site, last.defaultPath, Browsed(received[..|received| - 1]), last.at, last.text);
    }
  }

  /** Over HTTPS the session reads back in every browser, whatever any sites have made it store before. */
  lemma BrowsedSessionReads(
      site: Site, policy: CookiePolicy, defaultPath: string, received: seq<Received>, now: int, name: string, value: string,
      maxAge: nat, requestPath: string, later: int, after: Jar, order: seq<Key>)
    requires policy.secure && site.https && CleanupOk(site, policy)
    requires name in ORIGIN_BOUND_SESSION_COOKIES && ValueOk(value)
    requires requestPath != "" && requestPath[0] == '/'
    requires after == StoreAll(site, defaultPath, Browsed(received), now, policy.SetSession(name, value, maxAge))
    requires SendingOrder(site, requestPath, after, later, order)
    ensures Get(BindRequest(policy, CookieHeader(after, order)), name)
         == if maxAge > 0 && later < now + maxAge && AllVisible(CookieHeader(after, order)) then Some(value) else None
  {
    BrowsedIsOk(received);
    SecureSessionReads(site, policy, defaultPath, Browsed(received), now, name, value, maxAge, requestPath, later, after, order);
  }

  /** Cookies of a session name that a browser can hold over plain HTTP: host-only, or at the old domain. */
  predicate LegacyOnly(policy: CookiePolicy, jar: Jar, name: string) {
    forall key | key in jar && key.name == name ::
      key.path == "/" && (jar[key].hostOnly || policy.legacyCleanupDomain == Some(key.domain))
  }

  /**
   Over plain HTTP: the same, provided the old domain is not the host itself. If it is, the clean-up
   deletes the cookie just set, and every request reads nothing.
   */
  lemma PlainSessionReads(
      site: Site, policy: CookiePolicy, defaultPath: string, jar: Jar, now: int, name: string, value: string, maxAge: nat,
      requestPath: string, later: int, after: Jar, order: seq<Key>)
    requires !policy.secure && CleanupOk(site, policy)
    requires name in ORIGIN_BOUND_SESSION_COOKIES && ValueOk(value)
    requires JarOk(jar) && LegacyOnly(policy, jar, name)
    requires requestPath != "" && requestPath[0] == '/'
    requires after == StoreAll(site, defaultPath, jar, now, policy.SetSession(name, value, maxAge))
    requires SendingOrder(site, requestPath, after, later, order)
    ensures Get(BindRequest(policy, CookieHeader(after, order)), name)
         == if && maxAge > 0 && later < now + maxAge && AllVisible(CookieHeader(after, order))
               && policy.legacyCleanupDomain != Some(site.host)
            then Some(value) else None
  {
    SessionNamesOk(name);
    SessionStored(site, policy, defaultPath, jar, now, name, value, maxAge);
    var key := Key(name, site.host, "/");
    assert JarOk(after);
    ReadsOnly(site, requestPath, after, later, order, key);
  }

  predicate HostOk(host: string) {
    forall i | 0 <= i < |host| :: host[i] != ';' && !IsWhite(host[i])
  }

  /** A validated `COOKIE_DOMAIN` is usable for the clean-up on every configured host, and never that host itself. */
  lemma ValidatedDomainIsUsable(
      raw: string, origins: seq<Option<Origin>>, isSuffix: string -> bool, k: nat, site: Site, policy: CookiePolicy)
    requires Accepted(raw, origins, isSuffix)
    requires k < |origins| && origins[k].Some? && site.host == Lower(origins[k].value.host) && HostOk(site.host)
    requires site.isSuffix == isSuffix && policy.legacyCleanupDomain == Some(Normalized(raw))
    ensures CleanupOk(site, policy) && policy.legacyCleanupDomain != Some(site.host)
  {
    var d := Normalized(raw);
    assert OriginOk(d, origins[k]);
    ParentTextOk(d, site.host);
    TrimDotsLeads(Trim(raw));
    LowerTwice(TrimDots(Trim(raw)));
  }

  lemma ParentTextOk(d: string, host: string)
    requires ProperParent(d, host) && HostOk(host)
    ensures Trimmed(d) && Free(d, {';'})
  {
    var tail := "." + d;
    var start := |host| - |tail|;
    assert forall i | 0 <= i < |tail| :: tail[i] == host[start + i];
    assert forall i | 0 <= i < |d| :: d[i] == tail[i + 1];
  }

  lemma LowerTwice(s: string)
    ensures Lower(Lower(s)) == Lower(s)
    ensures s != "" && s[0] != '.' ==> Lower(s) != "" && Lower(s)[0] != '.'
  {
    assert forall i | 0 <= i < |s| :: Lower(Lower(s))[i] == LowerChar(LowerChar(s[i])) == LowerChar(s[i]);
  }

  lemma {:induction false} TrimDotsLeads(s: string)
    ensures TrimDots(s) == "" || TrimDots(s)[0] != '.'
  {
    if s != [] && s[0] == '.' {
      TrimDotsLeads(s[1..]);
    }
  }
}
