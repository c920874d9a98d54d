/**
 Recognising a fresh sign-in by the cookies of a response (crates/web/src/device_observation.rs), against
 the builder every handler uses to set cookies (`SetCookies` in crates/web/src/cookies.rs).
 */
module DeviceObservation {
  import opened Wrappers
  import opened Text
  import opened Numerals
  import opened Cookies
  import opened BrowserJar

  const PREFIXED_SSO_SESSION_COOKIE := HOST_PREFIX + SSO_SESSION_COOKIE

  // The observer

  predicate MeansExpired(attribute: string) {
    attribute == "max-age=0" || "expires=thu, 01 jan 1970" <= attribute
  }

  predicate AnyExpired(parts: seq<string>) {
    parts != [] && (MeansExpired(Lower(Trim(parts[0]))) || AnyExpired(parts[1..]))
  }

  predicate IsSsoName(name: string) {
    name == SSO_SESSION_COOKIE || name == PREFIXED_SSO_SESSION_COOKIE
  }

  /** The value one `Set-Cookie` header newly sets the SSO session to. */
  function IssuedBy(raw: string): Option<string> {
    var parts := Split(raw, {';'});
    match SplitOnce(Trim(parts[0]), '=')
    case None => None
    case Some((name, value)) =>
      if IsSsoName(name) && value != "" && !AnyExpired(parts[1..]) then Some(value) else None
  }

  function IssuedSsoSession(headers: seq<string>): Option<string> {
    if headers == [] then None
    else if Visible(headers[0]) && IssuedBy(headers[0]).Some? then IssuedBy(headers[0])
    else IssuedSsoSession(headers[1..])
  }

  // The builder

  datatype Operation =
    | SetSession(name: string, value: string, maxAge: nat)
    | SetLocal(name: string, value: string, maxAge: nat)
    | SetPreference(name: string, value: string, maxAge: nat)
    | SetCrossSiteLocal(name: string, value: string, maxAge: nat)

  function HeadersOf(policy: CookiePolicy, op: Operation): seq<string> {
    match op
    case SetSession(name, value, maxAge) => policy.SetSession(name, value, maxAge)
    case SetLocal(name, value, maxAge) => [policy.SetLocal(name, value, maxAge)]
    case SetPreference(name, value, maxAge) => [policy.SetPreference(name, value, maxAge)]
    case SetCrossSiteLocal(name, value, maxAge) => [policy.SetCrossSiteLocal(name, value, maxAge)]
  }

  function AllHeaders(policy: CookiePolicy, ops: seq<Operation>): seq<string> {
    if ops == [] then [] else AllHeaders(policy, ops[..|ops| - 1]) + HeadersOf(policy, ops[|ops| - 1])
  }

  /** A chain of operations and the headers it has produced so far. */
  class SetCookies {
    const policy: CookiePolicy
    var headers: seq<string>
    ghost var ops: seq<Operation>

    ghost predicate Valid()
      reads this
    {
      headers == AllHeaders(policy, ops)
    }

    constructor (policy: CookiePolicy)
      ensures Valid() && ops == [] && this.policy == policy
    {
      this.policy := policy;
      headers := [];
      ops := [];
    }

    method SetSession(name: string, value: string, maxAge: nat)
      requires Valid()
      modifies this
      ensures Valid() && ops == old(ops) + [Operation.SetSession(name, value, maxAge)]
    {
      headers := headers + policy.SetSession(name, value, maxAge);
      Note(Operation.SetSession(name, value, maxAge));
    }

    method ExpireSession(name: string)
      requires Valid()
      modifies this
      ensures Valid() && ops == old(ops) + [Operation.SetSession(name, "", 0)]
    {
      headers := headers + policy.ExpireSession(name);
      Note(Operation.SetSession(name, "", 0));
    }

    method SetLocal(name: string, value: string, maxAge: nat)
      requires Valid()
      modifies this
      ensures Valid() && ops == old(ops) + [Operation.SetLocal(name, value, maxAge)]
    {
      headers := headers + [policy.SetLocal(name, value, maxAge)];
      Note(Operation.SetLocal(name, value, maxAge));
    }

    method SetPreference(name: string, value: string, maxAge: nat)
      requires Valid()
      modifies this
      ensures Valid() && ops == old(ops) + [Operation.SetPreference(name, value, maxAge)]
    {
      headers := headers + [policy.SetPreference(name, value, maxAge)];
      Note(Operation.SetPreference(name, value, maxAge));
    }

    method SetCrossSiteLocal(name: string, value: string, maxAge: nat)
      requires Valid()
      modifies this
      ensures Valid() && ops == old(ops) + [Operation.SetCrossSiteLocal(name, value, maxAge)]
    {
      headers := headers + [policy.SetCrossSiteLocal(name, value, maxAge)];
      Note(Operation.SetCrossSiteLocal(name, value, maxAge));
    }

    method ExpireLocal(name: string)
      requires Valid()
      modifies this
      ensures Valid() && ops == old(ops) + [Operation.SetLocal(name, "", 0)]
    {
      headers := headers + [policy.SetLocal(name, "", 0)];
      Note(Operation.SetLocal(name, "", 0));
    }

    method ExpireCrossSiteLocal(name: string)
      requires Valid()
      modifies this
      ensures Valid() && ops == old(ops) + [Operation.SetCrossSiteLocal(name, "", 0)]
    {
      headers := headers + [policy.SetCrossSiteLocal(name, "", 0)];
      Note(Operation.SetCrossSiteLocal(name, "", 0));
    }

    ghost method Note(op: Operation)
      requires headers == AllHeaders(policy, ops) + HeadersOf(policy, op)
      modifies this`ops
      ensures Valid() && ops == old(ops) + [op]
    {
      ops := ops + [op];
      assert ops[..|ops| - 1] == old(ops);
    }
  }

  // What an operation issues

  /** Names are constants of the code; no name has a separator, outer white space or an unreadable character. */
  predicate OperationOk(op: Operation) {
    NameOk(op.name) && Visible(op.name)
  }

  /** A value that arrives in a response as it was set. */
  predicate Survives(value: string) {
    Visible(value) && Free(value, {';'}) && (value == "" || !IsWhite(value[|value| - 1]))
  }

  predicate PolicyOk(policy: CookiePolicy) {
    policy.legacyCleanupDomain.Some? ==>
      DomainTextOk(policy.legacyCleanupDomain.value) && Visible(policy.legacyCleanupDomain.value)
  }

  /** An operation that keeps a cookie under the browser's name of the SSO session. */
  predicate Lives(policy: CookiePolicy, op: Operation) {
    IsSsoName(if op.SetSession? then policy.OriginBoundSessionName(op.name) else op.name) && op.maxAge > 0
  }

  /** A live value under the browser's name of the SSO session. */
  predicate Live(policy: CookiePolicy, op: Operation) {
    Lives(policy, op) && op.value != ""
  }

  function FirstLive(policy: CookiePolicy, ops: seq<Operation>): (r: Option<Operation>)
    ensures r.Some? ==> Live(policy, r.value)
  {
    if ops == [] then None
    else
      var before, last := FirstLive(policy, ops[..|ops| - 1]), ops[|ops| - 1];
      if before.Some? then before else if Live(policy, last) then Some(last) else None
  }

  /** The SSO session one operation signs in. */
  function SignsIn(policy: CookiePolicy, op: Operation): Option<string> {
    if Live(policy, op) then Some(op.value) else None
  }

  function FirstSignIn(policy: CookiePolicy, ops: seq<Operation>): Option<string> {
    var first := FirstLive(policy, ops);
    if first.Some? then Some(first.value.value) else None
  }

  // Texts of the shape web writes: a pair, Max-Age, and attributes that expire nothing

  predicate Harmless(attributes: seq<string>) {
    forall k | 0 <= k < |attributes| ::
      attributes[k] != [] && LowerChar(attributes[k][0]) != 'm' && LowerChar(attributes[k][0]) != 'e'
  }

  lemma {:induction false} HarmlessNotExpired(attributes: seq<string>)
    requires Harmless(attributes) && CleanPieces(attributes, {';'})
    ensures !AnyExpired(attributes)
  {
    if attributes != [] {
      TrimOfTrimmed(attributes[0]);
      FirstLetter(Lower(attributes[0]));
      HarmlessNotExpired(attributes[1..]);
    }
  }

  lemma FirstLetter(lowered: string)
    requires lowered != [] && lowered[0] != 'm' && lowered[0] != 'e'
    ensures !MeansExpired(lowered)
  {
    assert "max-age=0"[0] == 'm' && "expires=thu, 01 jan 1970"[0] == 'e';
  }

  lemma AgeExpires(n: nat)
    ensures MeansExpired(Lower("Max-Age=" + Dec(n))) <==> n == 0
    ensures Trim("Max-Age=" + Dec(n)) == "Max-Age=" + Dec(n)
  {
    AgeIs(n);
    var s := Dec(n);
    TrimOfTrimmed(["Max-Age=" + s][0]);
    AgeLower(s);
    assert ("max-age=" + s)[0] == 'm' && "expires=thu, 01 jan 1970"[0] == 'e';
    assert "max-age=0" == "max-age=" + "0";
    if "max-age=" + s == "max-age=" + "0" {
      assert s == ("max-age=" + s)[8..] == "0";
      assert Dec(0) == "0";
      DecInjective(n, 0);
    }
    if n == 0 {
      assert Dec(0) == "0";
    }
  }

  lemma AgeLower(s: string)
    requires AllDigits(s)
    ensures Lower("Max-Age=" + s) == "max-age=" + s
  {
    assert Lower("Max-Age=") == "max-age=";
    LowerConcat("Max-Age=", s);
    assert forall i | 0 <= i < |s| :: IsDigit(s[i]) && LowerChar(s[i]) == s[i];
    assert Lower(s) == s;
  }

  lemma LowerConcat(a: string, b: string)
    ensures Lower(a + b) == Lower(a) + Lower(b)
  {
  }

  lemma {:induction false} AnyExpiredCleaned(parts: seq<string>)
    ensures AnyExpired(parts) == AnyExpired(Clean(parts))
  {
    if parts != [] {
      AnyExpiredCleaned(parts[1..]);
      var t := Trim(parts[0]);
      TrimIsTrimmed(parts[0]);
      TrimOfTrimmed(t);
      if t == "" {
        NothingIsNotExpired(Lower(t));
        assert Clean(parts) == Clean(parts[1..]);
      } else {
        assert Clean(parts) == [t] + Clean(parts[1..]);
      }
    }
  }

  lemma NothingIsNotExpired(lowered: string)
    requires lowered == ""
    ensures !MeansExpired(lowered)
  {
  }

  /** A text of this shape is expired exactly when its age is zero. */
  lemma ShapedExpires(attributes: seq<string>, maxAge: nat, rest: seq<string>)
    requires Harmless(rest) && CleanPieces(rest, {';'})
    requires attributes == AgeAttribute(maxAge) + rest
    ensures AnyExpired(attributes) <==> maxAge == 0
  {
    assert attributes[0] == "Max-Age=" + Dec(maxAge) && attributes[1..] == rest;
    AgeExpires(maxAge);
    HarmlessNotExpired(rest);
  }

  /** What a text whose name is well formed issues, whatever its value. */
  lemma PairIssues(raw: string, name: string, rest: string)
    requires NameOk(name) && raw == name + "=" + rest
    ensures var value, expired := TrimEnd(Split(rest, {';'})[0]), AnyExpired(Split(rest, {';'})[1..]);
            IssuedBy(raw) == if IsSsoName(name) && value != "" && !expired then Some(value) else None
  {
    var value, pair := Split(rest, {';'})[0], name + "=";
    SplitPrefix(pair, rest, {';'});
    assert Split(raw, {';'})[0] == pair + value && Split(raw, {';'})[1..] == Split(rest, {';'})[1..];
    TrimEndAfter(pair, value);
    assert TrimStart(pair + value) == pair + value;
    assert pair + TrimEnd(value) == name + ['='] + TrimEnd(value);
    SplitOnceIs(name, '=', TrimEnd(value));
  }

  lemma {:induction false} AnyExpiredConcat(a: seq<string>, b: seq<string>)
    ensures AnyExpired(a + b) <==> AnyExpired(a) || AnyExpired(b)
  {
    if a == [] {
      assert a + b == b;
    } else {
      assert (a + b)[1..] == a[1..] + b;
      AnyExpiredConcat(a[1..], b);
    }
  }

  /** What an observer makes of a header set to this name, value and age. */
  /** What the observer makes of a live value: nothing if it is unreadable, and otherwise what stands before a semicolon. */
  function Seen(value: string): Option<string> {
    var pieces := Split(value, {';'});
    var shown := TrimEnd(pieces[0]);
    if !Visible(value) || shown == "" || AnyExpired(pieces[1..]) then None else Some(shown)
  }

  /** What an observer makes of a header set to this name, value and age. */
  predicate IssuesAs(raw: string, name: string, value: string, maxAge: nat) {
    && (Visible(raw) ==> Visible(value))
    && (Visible(value) ==> IssuedBy(raw) == if IsSsoName(name) && maxAge > 0 then Seen(value) else None)
  }

  lemma ShapedIssues(raw: string, name: string, value: string, maxAge: nat, rest: seq<string>)
    requires NameOk(name) && Harmless(rest) && CleanPieces(rest, {';'})
    requires raw == (name + "=" + value) + [';'] + (" " + Join(AgeAttribute(maxAge) + rest, "; "))
    ensures IssuesAs(raw, name, value, maxAge)
  {
    var tail := " " + Join(AgeAttribute(maxAge) + rest, "; ");
    ValueShows(name, value, [';'], tail);
    ShapedSeen(raw, name, value, maxAge, rest, tail);
  }

  lemma ShapedSeen(raw: string, name: string, value: string, maxAge: nat, rest: seq<string>, tail: string)
    requires NameOk(name) && Harmless(rest) && CleanPieces(rest, {';'})
    requires tail == " " + Join(AgeAttribute(maxAge) + rest, "; ") && raw == (name + "=" + value) + [';'] + tail
    ensures Visible(value) ==> IssuedBy(raw) == if IsSsoName(name) && maxAge > 0 then Seen(value) else None
  {
    RegroupPair(name, value, tail);
    PairIssues(raw, name, value + [';'] + tail);
    SplitConcat(value, ';', tail, {';'});
    ShapedTail(maxAge, rest, AgeAttribute(maxAge) + rest);
    PartsIssue(raw, name, value, maxAge, Split(tail, {';'}), Split(value + [';'] + tail, {';'}));
  }

  lemma RegroupPair(name: string, value: string, tail: string)
    ensures (name + "=" + value) + [';'] + tail == name + "=" + (value + [';'] + tail)
  {
  }

  lemma PartsIssue(raw: string, name: string, value: string, maxAge: nat, back: seq<string>, parts: seq<string>)
    requires parts == Split(value, {';'}) + back && (AnyExpired(back) <==> maxAge == 0)
    requires IssuedBy(raw)
          == if IsSsoName(name) && TrimEnd(parts[0]) != "" && !AnyExpired(parts[1..]) then Some(TrimEnd(parts[0])) else None
    ensures Visible(value) ==> IssuedBy(raw) == if IsSsoName(name) && maxAge > 0 then Seen(value) else None
  {
    TailIssues(Split(value, {';'}), back, parts);
  }

  lemma ValueShows(name: string, value: string, sep: string, tail: string)
    ensures Visible((name + "=" + value) + sep + tail) ==> Visible(value)
  {
    var raw := (name + "=" + value) + sep + tail;
    if Visible(raw) {
      assert forall i | 0 <= i < |value| :: value[i] == raw[|name| + 1 + i];
    }
  }

  /** A nonempty value is seen as it is exactly when it survives the header. */
  lemma SeenAsSet(value: string)
    ensures Seen(value) == Some(value) <==> value != "" && Survives(value)
  {
    if Survives(value) {
      SplitFree(value, {';'});
      assert Split(value, {';'})[1..] == [];
    }
    if Seen(value) == Some(value) {
      TrimEndFree(Split(value, {';'})[0]);
    }
  }

  lemma TrimEndFree(s: string)
    requires Free(s, {';'})
    ensures Free(TrimEnd(s), {';'})
  {
    var t := TrimEnd(s);
    assert forall i | 0 <= i < |t| :: t[i] == s[i];
  }

  lemma TailIssues(front: seq<string>, back: seq<string>, parts: seq<string>)
    requires front != [] && parts == front + back
    ensures parts[0] == front[0] && (AnyExpired(parts[1..]) <==> AnyExpired(front[1..]) || AnyExpired(back))
  {
    assert parts[1..] == front[1..] + back;
    AnyExpiredConcat(front[1..], back);
  }

  /** The attributes web writes expire a cookie exactly when its age is zero. */
  lemma ShapedTail(maxAge: nat, rest: seq<string>, attributes: seq<string>)
    requires Harmless(rest) && CleanPieces(rest, {';'}) && attributes == AgeAttribute(maxAge) + rest
    ensures AnyExpired(Split(" " + Join(attributes, "; "), {';'})) <==> maxAge == 0
  {
    var parts := Split(" " + Join(attributes, "; "), {';'});
    AgeIs(maxAge);
    CleanConcat(AgeAttribute(maxAge), rest);
    PairThenAttributes("", attributes);
    SplitHead("", ';', " " + Join(attributes, "; "), {';'});
    assert ([""] + parts)[1..] == parts;
    AnyExpiredCleaned(parts);
    ShapedExpires(attributes, maxAge, rest);
  }

  // The three ways a cookie is written

  lemma FixedHarmless(secure: bool)
    ensures Harmless(Fixed(secure))
  {
  }

  lemma BuildRest(secure: bool, domain: Option<string>)
    requires domain.Some? ==> DomainTextOk(domain.value)
    ensures var rest := DomainAttribute(domain) + Fixed(secure); Harmless(rest) && CleanPieces(rest, {';'})
  {
    FixedHarmless(secure);
    FixedClean(secure);
    if domain.Some? {
      DomainApplies(SetCookie("", "", None, None, None, false), domain.value);
      DomainHarmless(domain.value);
    }
    CleanConcat(DomainAttribute(domain), Fixed(secure));
  }

  lemma BuildIssues(name: string, value: string, maxAge: nat, secure: bool, domain: Option<string>)
    requires NameOk(name) && (domain.Some? ==> DomainTextOk(domain.value))
    ensures IssuesAs(Build(name, value, maxAge, secure, domain), name, value, maxAge)
  {
    var rest := DomainAttribute(domain) + Fixed(secure);
    BuildIsJoin(name, value, maxAge, secure, domain);
    BuildRest(secure, domain);
    AttributesAre(maxAge, secure, domain);
    ShapedIssues(Build(name, value, maxAge, secure, domain), name, value, maxAge, rest);
  }

  lemma AttributesAre(maxAge: nat, secure: bool, domain: Option<string>)
    ensures AgeAttribute(maxAge) + (DomainAttribute(domain) + Fixed(secure)) == Attributes(maxAge, secure, domain)
  {
  }

  lemma DomainHarmless(domain: string)
    ensures Harmless(["Domain=" + domain])
  {
    assert ("Domain=" + domain)[0] == 'D';
  }

  function PreferenceAttributes(secure: bool): seq<string> {
    ["Path=/", "SameSite=Lax"] + (if secure then ["Secure"] else [])
  }

  lemma PreferenceIssues(name: string, value: string, maxAge: nat, secure: bool)
    requires NameOk(name)
    ensures IssuesAs(BuildPreference(name, value, maxAge, secure), name, value, maxAge)
  {
    var age, rest := "Max-Age=" + Dec(maxAge), PreferenceAttributes(secure);
    PreferenceText(name, value, maxAge, secure);
    PreferenceJoin(secure);
    JoinCons(age, rest);
    Regroup(name + "=" + value, age, Join(rest, "; "));
    PreferenceShape(secure);
    ShapedIssues(BuildPreference(name, value, maxAge, secure), name, value, maxAge, rest);
  }

  lemma PreferenceText(name: string, value: string, maxAge: nat, secure: bool)
    ensures BuildPreference(name, value, maxAge, secure)
         == ((name + "=" + value) + "; " + ("Max-Age=" + Dec(maxAge)) + "")
            + "; " + ("Path=/; SameSite=Lax" + (if secure then "; Secure" else ""))
  {
    Literals();
    assert "; Path=/; SameSite=Lax" == "; " + "Path=/; SameSite=Lax";
    Shape(name + "=" + value, "; ", "; Max-Age=", "Max-Age=", Dec(maxAge), "",
          "; Path=/; SameSite=Lax", "Path=/; SameSite=Lax", if secure then "; Secure" else "");
  }

  lemma PreferenceJoin(secure: bool)
    ensures Join(PreferenceAttributes(secure), "; ") == "Path=/; SameSite=Lax" + (if secure then "; Secure" else "")
  {
    var joined := "Path=/; SameSite=Lax";
    assert joined == "Path=/" + "; " + "SameSite=Lax";
    FixedText();
    if secure {
      JoinThree("Path=/", "SameSite=Lax", "Secure");
      assert PreferenceAttributes(true) == ["Path=/", "SameSite=Lax", "Secure"] + [];
      ConcatAssoc(joined, "; ", "Secure");
    } else {
      JoinCons("Path=/", ["SameSite=Lax"]);
      assert PreferenceAttributes(false) == ["Path=/"] + ["SameSite=Lax"];
    }
  }

  /** An attribute that can stand in any position without expiring a cookie. */
  predicate PlainAttribute(s: string) {
    s != [] && Trimmed(s) && Free(s, {';'}) && LowerChar(s[0]) != 'm' && LowerChar(s[0]) != 'e'
  }

  lemma PlainPath() ensures PlainAttribute("Path=/") {}

  lemma PlainHttpOnly() ensures PlainAttribute("HttpOnly") {}

  lemma PlainLax() ensures PlainAttribute("SameSite=Lax") {}

  lemma PlainNone() ensures PlainAttribute("SameSite=None") {}

  lemma PlainSecure() ensures PlainAttribute("Secure") {}

  lemma PlainTogether(attributes: seq<string>)
    requires forall k | 0 <= k < |attributes| :: PlainAttribute(attributes[k])
    ensures Harmless(attributes) && CleanPieces(attributes, {';'})
  {
  }

  lemma PlainCons(first: string, rest: seq<string>)
    requires PlainAttribute(first)
    requires forall k | 0 <= k < |rest| :: PlainAttribute(rest[k])
    ensures forall k | 0 <= k < |[first] + rest| :: PlainAttribute(([first] + rest)[k])
  {
  }

  lemma PreferenceShape(secure: bool)
    ensures Harmless(PreferenceAttributes(secure)) && CleanPieces(PreferenceAttributes(secure), {';'})
  {
    var last := if secure then ["Secure"] else [];
    PlainPath();
    PlainLax();
    PlainSecure();
    PlainCons("SameSite=Lax", last);
    PlainCons("Path=/", ["SameSite=Lax"] + last);
    PlainTogether(["Path=/"] + (["SameSite=Lax"] + last));
    assert PreferenceAttributes(secure) == ["Path=/"] + (["SameSite=Lax"] + last);
  }

  const CROSS_SITE := ["Path=/", "HttpOnly", "SameSite=None", "Secure"]

  lemma CrossSiteIssues(policy: CookiePolicy, name: string, value: string, maxAge: nat)
    requires policy.secure && NameOk(name)
    ensures IssuesAs(policy.SetCrossSiteLocal(name, value, maxAge), name, value, maxAge)
  {
    var age := "Max-Age=" + Dec(maxAge);
    CrossSiteText(policy, name, value, maxAge);
    CrossSiteLiterals();
    JoinFour("Path=/", "HttpOnly", "SameSite=None", "Secure");
    JoinCons(age, CROSS_SITE);
    Regroup(name + "=" + value, age, Join(CROSS_SITE, "; "));
    CrossSiteShape();
    ShapedIssues(policy.SetCrossSiteLocal(name, value, maxAge), name, value, maxAge, CROSS_SITE);
  }

  const CROSS_SITE_TEXT := "Path=/; HttpOnly; SameSite=None; Secure"

  lemma CrossSiteTail()
    ensures "; Path=/; HttpOnly; SameSite=None; Secure" == "; " + CROSS_SITE_TEXT
  {
  }

  lemma CrossSiteHalves()
    ensures CROSS_SITE_TEXT == "Path=/; HttpOnly" + "; " + "SameSite=None; Secure"
  {
  }

  lemma FirstHalf()
    ensures "Path=/; HttpOnly" == "Path=/" + "; " + "HttpOnly"
  {
  }

  lemma SecondHalf()
    ensures "SameSite=None; Secure" == "SameSite=None" + "; " + "Secure"
  {
  }

  lemma Halves(a: string, b: string, c: string, d: string, ab: string, cd: string)
    requires ab == a + "; " + b && cd == c + "; " + d
    ensures ab + "; " + cd == a + "; " + b + "; " + c + "; " + d
  {
  }

  lemma CrossSiteLiterals()
    ensures CROSS_SITE_TEXT == "Path=/" + "; " + "HttpOnly" + "; " + "SameSite=None" + "; " + "Secure"
  {
    CrossSiteHalves();
    FirstHalf();
    SecondHalf();
    Halves("Path=/", "HttpOnly", "SameSite=None", "Secure", "Path=/; HttpOnly", "SameSite=None; Secure");
  }

  lemma PairWithTail(pair: string, age: string, tail: string, text: string)
    requires tail == "; " + text
    ensures pair + "; Max-Age=" + age + tail == (pair + "; " + ("Max-Age=" + age) + "") + "; " + text
  {
    Literals();
    Shape(pair, "; ", "; Max-Age=", "Max-Age=", age, "", tail, text, "");
    NothingBetween(pair + "; Max-Age=" + age, tail);
  }

  lemma NothingBetween(a: string, b: string)
    ensures a + "" + b + "" == a + b
  {
  }

  lemma CrossSiteText(policy: CookiePolicy, name: string, value: string, maxAge: nat)
    requires policy.secure
    ensures policy.SetCrossSiteLocal(name, value, maxAge)
         == ((name + "=" + value) + "; " + ("Max-Age=" + Dec(maxAge)) + "") + "; " + CROSS_SITE_TEXT
  {
    CrossSiteTail();
    PairWithTail(name + "=" + value, Dec(maxAge), "; Path=/; HttpOnly; SameSite=None; Secure", CROSS_SITE_TEXT);
  }

  lemma CrossSiteShape()
    ensures Harmless(CROSS_SITE) && CleanPieces(CROSS_SITE, {';'})
  {
    PlainPath();
    PlainHttpOnly();
    PlainNone();
    PlainSecure();
    PlainCons("Secure", []);
    PlainCons("SameSite=None", ["Secure"] + []);
    PlainCons("HttpOnly", ["SameSite=None"] + (["Secure"] + []));
    PlainCons("Path=/", ["HttpOnly"] + (["SameSite=None"] + (["Secure"] + [])));
    PlainTogether(["Path=/"] + (["HttpOnly"] + (["SameSite=None"] + (["Secure"] + []))));
    assert CROSS_SITE == ["Path=/"] + (["HttpOnly"] + (["SameSite=None"] + (["Secure"] + [])));
  }

  // Every text web writes is a readable header

  lemma VisibleConcat(a: string, b: string)
    requires Visible(a) && Visible(b)
    ensures Visible(a + b)
  {
  }

  lemma VisiblePair(name: string, value: string, maxAge: nat)
    requires Visible(name) && Visible(value)
    ensures Visible(name + "=" + value + "; Max-Age=" + Dec(maxAge))
  {
    assert Visible("=") && Visible("; Max-Age=") && Visible(Dec(maxAge)) by {
      assert AllDigits(Dec(maxAge));
    }
    VisibleConcat(name, "=");
    VisibleConcat(name + "=", value);
    VisibleConcat(name + "=" + value, "; Max-Age=");
    VisibleConcat(name + "=" + value + "; Max-Age=", Dec(maxAge));
  }

  lemma VisibleTails(secure: bool)
    ensures Visible("; Path=/; HttpOnly; SameSite=Lax") && Visible("; Path=/; SameSite=Lax")
    ensures Visible("; Path=/; HttpOnly; SameSite=None; Secure")
    ensures Visible(if secure then "; Secure" else "") && Visible("; Domain=")
  {
  }

  lemma VisibleBuild(name: string, value: string, maxAge: nat, secure: bool, domain: Option<string>)
    requires Visible(name) && Visible(value) && (domain.Some? ==> Visible(domain.value))
    ensures Visible(Build(name, value, maxAge, secure, domain))
  {
    VisiblePair(name, value, maxAge);
    VisibleTails(secure);
    var head := name + "=" + value + "; Max-Age=" + Dec(maxAge);
    var place := if domain.Some? then "; Domain=" + domain.value else "";
    if domain.Some? {
      VisibleConcat("; Domain=", domain.value);
    }
    VisibleConcat(head, place);
    VisibleConcat(head + place, "; Path=/; HttpOnly; SameSite=Lax");
    VisibleConcat(head + place + "; Path=/; HttpOnly; SameSite=Lax", if secure then "; Secure" else "");
  }

  lemma VisibleOthers(policy: CookiePolicy, name: string, value: string, maxAge: nat)
    requires Visible(name) && Visible(value)
    ensures Visible(policy.SetPreference(name, value, maxAge)) && Visible(policy.SetCrossSiteLocal(name, value, maxAge))
  {
    VisiblePair(name, value, maxAge);
    VisibleTails(policy.secure);
    var head := name + "=" + value + "; Max-Age=" + Dec(maxAge);
    VisibleConcat(head, "; Path=/; SameSite=Lax");
    VisibleConcat(head + "; Path=/; SameSite=Lax", if policy.secure then "; Secure" else "");
    if policy.secure {
      VisibleConcat(head, "; Path=/; HttpOnly; SameSite=None; Secure");
    } else {
      VisibleBuild(name, value, maxAge, false, None);
    }
  }

  // The observer sees exactly the first sign-in

  lemma {:induction false} IssuedConcat(a: seq<string>, b: seq<string>)
    ensures IssuedSsoSession(a + b)
         == if IssuedSsoSession(a).Some? then IssuedSsoSession(a) else IssuedSsoSession(b)
  {
    if a == [] {
      assert a + b == b;
    } else {
      assert (a + b)[1..] == a[1..] + b;
      IssuedConcat(a[1..], b);
    }
  }

  lemma IssuedOne(raw: string)
    ensures IssuedSsoSession([raw]) == if Visible(raw) then IssuedBy(raw) else None
  {
    assert [raw][1..] == [];
  }

  /** Whatever the observer reports has survived the header. */
  lemma {:induction false} ObservedSurvives(headers: seq<string>)
    ensures IssuedSsoSession(headers).Some? ==>
              IssuedSsoSession(headers).value != "" && Survives(IssuedSsoSession(headers).value)
  {
    if headers != [] {
      if Visible(headers[0]) && IssuedBy(headers[0]).Some? {
        IssuedSurvives(headers[0]);
      }
      ObservedSurvives(headers[1..]);
    }
  }

  lemma IssuedSurvives(raw: string)
    requires Visible(raw) && IssuedBy(raw).Some?
    ensures IssuedBy(raw).value != "" && Survives(IssuedBy(raw).value)
  {
    var first := Split(raw, {';'})[0];
    PieceVisible(raw);
    TrimFree(first, {';'});
    TrimIsTrimmed(first);
    TrimVisible(first);
    PairSurvives(Trim(first));
  }

  lemma PairSurvives(pair: string)
    requires Visible(pair) && Free(pair, {';'}) && Trimmed(pair) && SplitOnce(pair, '=').Some?
    ensures Survives(SplitOnce(pair, '=').value.1)
  {
    var (name, value) := SplitOnce(pair, '=').value;
    var text := name + ['='] + value;
    assert pair == text;
    assert forall i | 0 <= i < |value| :: value[i] == text[|name| + 1 + i];
  }

  lemma PieceVisible(raw: string)
    requires Visible(raw)
    ensures Visible(Split(raw, {';'})[0])
  {
    var i := IndexOf(raw, {';'});
    assert raw[..i] <= raw;
  }

  lemma TrimVisible(s: string)
    requires Visible(s)
    ensures Visible(Trim(s))
  {
    TrimStartVisible(s);
  }

  lemma {:induction false} TrimStartVisible(s: string)
    requires Visible(s)
    ensures Visible(TrimStart(s))
  {
    if s != [] && IsWhite(s[0]) {
      TrimStartVisible(s[1..]);
    }
  }

  /** A response that puts a live value under the SSO name is seen for what shows of the value, any other for nothing. */
  predicate SeenAs(headers: seq<string>, live: bool, value: string) {
    IssuedSsoSession(headers) == if live then Seen(value) else None
  }

  lemma OneSeen(raw: string, name: string, value: string, maxAge: nat)
    requires IssuesAs(raw, name, value, maxAge) && (Visible(value) ==> Visible(raw))
    ensures SeenAs([raw], IsSsoName(name) && maxAge > 0, value)
  {
    IssuedOne(raw);
  }

  lemma BuiltSeen(name: string, value: string, maxAge: nat, secure: bool, domain: Option<string>)
    requires NameOk(name) && Visible(name)
    requires domain.Some? ==> DomainTextOk(domain.value) && Visible(domain.value)
    ensures SeenAs([Build(name, value, maxAge, secure, domain)], IsSsoName(name) && maxAge > 0, value)
  {
    BuildIssues(name, value, maxAge, secure, domain);
    if Visible(value) {
      VisibleBuild(name, value, maxAge, secure, domain);
    }
    OneSeen(Build(name, value, maxAge, secure, domain), name, value, maxAge);
  }

  /** The clean-up cookies that come with a session cookie never look like a sign-in. */
  lemma SessionIssues(policy: CookiePolicy, name: string, value: string, maxAge: nat)
    requires PolicyOk(policy) && NameOk(name) && Visible(name)
    ensures SeenAs(policy.SetSession(name, value, maxAge), Lives(policy, Operation.SetSession(name, value, maxAge)), value)
  {
    var bound := policy.OriginBoundSessionName(name);
    var first := [Build(bound, value, maxAge, policy.secure, None)];
    var a := if bound != name then [Build(name, "", 0, policy.secure, None)] else [];
    var b := if policy.legacyCleanupDomain.Some? then [Build(name, "", 0, policy.secure, policy.legacyCleanupDomain)] else [];
    BoundNameOk(policy, name);
    BuiltSeen(bound, value, maxAge, policy.secure, None);
    BuiltSeen(name, "", 0, policy.secure, None);
    BuiltSeen(name, "", 0, policy.secure, policy.legacyCleanupDomain);
    IssuedConcat(first + a, b);
    IssuedConcat(first, a);
  }

  lemma BoundNameOk(policy: CookiePolicy, name: string)
    requires NameOk(name) && Visible(name)
    ensures NameOk(policy.OriginBoundSessionName(name)) && Visible(policy.OriginBoundSessionName(name))
  {
    if policy.OriginBoundSessionName(name) != name {
      SessionNamesOk(name);
      assert Visible(HOST_PREFIX);
      VisibleConcat(HOST_PREFIX, name);
    }
  }

  lemma OperationSeen(policy: CookiePolicy, op: Operation)
    requires PolicyOk(policy) && OperationOk(op)
    ensures SeenAs(HeadersOf(policy, op), Lives(policy, op), op.value)
  {
    match op {
      case SetSession(name, value, maxAge) => SessionIssues(policy, name, value, maxAge);
      case SetLocal(name, value, maxAge) => BuiltSeen(name, value, maxAge, policy.secure, None);
      case SetPreference(name, value, maxAge) =>
        PreferenceIssues(name, value, maxAge, policy.secure);
        if Visible(value) {
          VisibleOthers(policy, name, value, maxAge);
        }
        OneSeen(policy.SetPreference(name, value, maxAge), name, value, maxAge);
      case SetCrossSiteLocal(name, value, maxAge) =>
        if policy.secure {
          CrossSiteIssues(policy, name, value, maxAge);
        } else {
          BuildIssues(name, value, maxAge, false, None);
        }
        if Visible(value) {
          VisibleOthers(policy, name, value, maxAge);
        }
        OneSeen(policy.SetCrossSiteLocal(name, value, maxAge), name, value, maxAge);
    }
  }

  /** One operation is seen for what it signs in exactly when that value survives the header. */
  lemma OperationIssues(policy: CookiePolicy, op: Operation)
    requires PolicyOk(policy) && OperationOk(op)
    ensures IssuedSsoSession(HeadersOf(policy, op)) == SignsIn(policy, op)
       <==> (Live(policy, op) ==> Survives(op.value))
  {
    OperationSeen(policy, op);
    SeenAsSet(op.value);
    NothingSeen();
  }

  lemma NothingSeen()
    ensures Seen("") == None
  {
    SplitFree("", {';'});
  }

  /** What the observer reports for a chain: what first shows of a live value. */
  function FirstSeen(policy: CookiePolicy, ops: seq<Operation>): Option<string> {
    if ops == [] then None
    else
      var before, last := FirstSeen(policy, ops[..|ops| - 1]), ops[|ops| - 1];
      if before.Some? then before else if Live(policy, last) then Seen(last.value) else None
  }

  /** On the headers of any chain of operations, whatever their values, the observer reports exactly that. */
  lemma {:induction false} ObserverReportsFirstSeen(policy: CookiePolicy, ops: seq<Operation>)
    requires PolicyOk(policy) && forall k | 0 <= k < |ops| :: OperationOk(ops[k])
    ensures IssuedSsoSession(AllHeaders(policy, ops)) == FirstSeen(policy, ops)
  {
    if ops != [] {
      var before, last := ops[..|ops| - 1], ops[|ops| - 1];
      ObserverReportsFirstSeen(policy, before);
      OperationSeen(policy, last);
      NothingSeen();
      IssuedConcat(AllHeaders(policy, before), HeadersOf(policy, last));
    }
  }

  lemma {:induction false} FirstSeenIsFirstSignIn(policy: CookiePolicy, ops: seq<Operation>)
    ensures FirstSignIn(policy, ops).None? ==> FirstSeen(policy, ops).None?
    ensures FirstSignIn(policy, ops).Some? && Survives(FirstSignIn(policy, ops).value) ==>
              FirstSeen(policy, ops) == FirstSignIn(policy, ops)
  {
    if ops != [] {
      FirstSeenIsFirstSignIn(policy, ops[..|ops| - 1]);
      SeenAsSet(ops[|ops| - 1].value);
    }
  }

  /**
   On the headers of any chain of operations, with any values, the observer finds the chain's first sign-in, or
   nothing, exactly when the value of that sign-in survives the header.
   */
  lemma ObserverFindsFirstSignIn(policy: CookiePolicy, ops: seq<Operation>)
    requires PolicyOk(policy) && forall k | 0 <= k < |ops| :: OperationOk(ops[k])
    ensures IssuedSsoSession(AllHeaders(policy, ops)) == FirstSignIn(policy, ops)
       <==> (FirstSignIn(policy, ops).Some? ==> Survives(FirstSignIn(policy, ops).value))
  {
    ObserverReportsFirstSeen(policy, ops);
    FirstSeenIsFirstSignIn(policy, ops);
    ObservedSurvives(AllHeaders(policy, ops));
  }

  // Sign-ins and sessions

  /** A live `set_session` of the SSO cookie. */
  predicate IsSession(op: Operation) {
    op.SetSession? && op.name == SSO_SESSION_COOKIE && op.value != "" && op.maxAge > 0
  }

  /** The value of the first live `set_session` of the SSO cookie. */
  function FirstSession(ops: seq<Operation>): Option<string> {
    if ops == [] then None
    else
      var before, last := FirstSession(ops[..|ops| - 1]), ops[|ops| - 1];
      if before.Some? then before else if IsSession(last) then Some(last.value) else None
  }

  lemma SessionIsLive(policy: CookiePolicy, op: Operation)
    requires IsSession(op)
    ensures Live(policy, op)
  {
  }

  /** The first operation that signs in decides whether the first sign-in is the first session. */
  lemma {:induction false} FirstLiveDecides(policy: CookiePolicy, ops: seq<Operation>)
    ensures FirstSession(ops).Some? ==> FirstLive(policy, ops).Some?
    ensures FirstLive(policy, ops).Some? && IsSession(FirstLive(policy, ops).value) ==>
              FirstSession(ops) == Some(FirstLive(policy, ops).value.value)
  {
    if ops != [] {
      FirstLiveDecides(policy, ops[..|ops| - 1]);
      if IsSession(ops[|ops| - 1]) {
        SessionIsLive(policy, ops[|ops| - 1]);
      }
    }
  }

  /**
   The observer reports the first session set, and nothing when there is none, exactly when the first operation that
   puts a live value under the SSO cookie's name is that session, with a value that survives the header, or borrows the
   name for the same value. A borrowed name with a value that does not survive is the one case left to
   `ObserverReportsFirstSeen`.
   */
  lemma SignInsAreSessions(policy: CookiePolicy, ops: seq<Operation>)
    requires PolicyOk(policy) && forall k | 0 <= k < |ops| :: OperationOk(ops[k])
    requires var first := FirstLive(policy, ops);
             first.Some? ==> IsSession(first.value) || Survives(first.value.value)
    ensures var first := FirstLive(policy, ops);
            IssuedSsoSession(AllHeaders(policy, ops)) == FirstSession(ops) <==>
              (first.Some? ==>
                 if IsSession(first.value) then Survives(first.value.value)
                 else FirstSession(ops) == Some(first.value.value))
  {
    ObserverFindsFirstSignIn(policy, ops);
    FirstLiveDecides(policy, ops);
    ObservedSurvives(AllHeaders(policy, ops));
  }

  /** A local cookie that borrows the name is taken for a sign-in, although no session was set. */
  lemma BorrowedNameIsSeen(policy: CookiePolicy, value: string)
    requires PolicyOk(policy) && Survives(value) && value != ""
    ensures var ops := [Operation.SetLocal(SSO_SESSION_COOKIE, value, 10)];
            IssuedSsoSession(AllHeaders(policy, ops)) == Some(value) && FirstSession(ops) == None
  {
    var op := Operation.SetLocal(SSO_SESSION_COOKIE, value, 10);
    OneOperation(policy, op);
    SessionNamesOk(SSO_SESSION_COOKIE);
    SsoNameVisible();
    OperationSeen(policy, op);
  }

  lemma OneOperation(policy: CookiePolicy, op: Operation)
    ensures AllHeaders(policy, [op]) == HeadersOf(policy, op)
    ensures FirstSession([op]) == if IsSession(op) then Some(op.value) else None
  {
    assert [op][..0] == [];
    assert AllHeaders(policy, [op]) == AllHeaders(policy, []) + HeadersOf(policy, op);
  }

  lemma SsoNameVisible()
    ensures Visible(SSO_SESSION_COOKIE)
  {
  }
}
