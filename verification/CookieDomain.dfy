/**
 Start-up validation of `COOKIE_DOMAIN` (crates/contracts/src/cookie_domain.rs).

 An origin is given as its parsed host and scheme, or as nothing when it does not parse; the public
 suffix list is a predicate.
 */
module CookieDomain {
  import opened Wrappers
  import opened Text

  datatype Origin = Origin(host: string, scheme: string)

  datatype DomainError =
    | Empty
    | NotBare
    | Unparsable(index: nat)
    | EqualsHost(index: nat)
    | NotParent(index: nat)
    | MixedSchemes
    | PublicSuffix

  function TrimDots(s: string): string {
    if s != [] && s[0] == '.' then TrimDots(s[1..]) else s
  }

  /** Trimmed, without leading dots, in lower case. */
  function Normalized(raw: string): string {
    Lower(TrimDots(Trim(raw)))
  }

  predicate Bare(domain: string) {
    forall i | 0 <= i < |domain| :: domain[i] !in {'/', ':', '?', '#', '@', ' '}
  }

  predicate EndsWith(s: string, tail: string) {
    |tail| <= |s| && s[|s| - |tail|..] == tail
  }

  /** The host lies strictly below the domain. */
  predicate ProperParent(domain: string, host: string) {
    domain != host && EndsWith(host, "." + domain)
  }

  predicate OriginOk(domain: string, origin: Option<Origin>) {
    origin.Some? && ProperParent(domain, Lower(origin.value.host))
  }

  predicate OneScheme(origins: seq<Option<Origin>>) {
    forall i | 0 <= i < |origins| ::
      origins[i].Some? && origins[0].Some? && Lower(origins[i].value.scheme) == Lower(origins[0].value.scheme)
  }

  /** What makes a configured value acceptable. */
  ghost predicate Accepted(raw: string, origins: seq<Option<Origin>>, isSuffix: string -> bool) {
    var domain := Normalized(raw);
    && domain != "" && Bare(domain) && !isSuffix(domain)
    && (forall k | 0 <= k < |origins| :: OriginOk(domain, origins[k]))
    && OneScheme(origins)
  }

  /** `windows(2).any(|pair| pair[0] != pair[1])` */
  predicate Mixed(schemes: seq<string>) {
    |schemes| >= 2 && (schemes[0] != schemes[1] || Mixed(schemes[1..]))
  }

  lemma {:induction false} MixedMeans(schemes: seq<string>)
    ensures !Mixed(schemes) <==> forall i | 0 <= i < |schemes| :: schemes[i] == schemes[0]
  {
    if |schemes| >= 2 {
      MixedMeans(schemes[1..]);
      if !Mixed(schemes) {
        forall i | 0 <= i < |schemes| ensures schemes[i] == schemes[0] {
          if i > 0 {
            assert schemes[i] == schemes[1..][i - 1] == schemes[1..][0];
          }
        }
      } else if schemes[0] == schemes[1] {
        var i :| 0 <= i < |schemes[1..]| && schemes[1..][i] != schemes[1..][0];
        assert schemes[i + 1] != schemes[0];
      }
    }
  }

  ghost predicate AllOriginsOk(domain: string, origins: seq<Option<Origin>>) {
    forall k | 0 <= k < |origins| :: OriginOk(domain, origins[k])
  }

  /** What is wrong with an origin for this domain, if anything. */
  function OriginFault(domain: string, origin: Option<Origin>, k: nat): (r: Option<DomainError>)
    ensures r.None? <==> OriginOk(domain, origin)
  {
    if origin.None? then Some(Unparsable(k))
    else if Lower(origin.value.host) == domain then Some(EqualsHost(k))
    else if !EndsWith(Lower(origin.value.host), "." + domain) then Some(NotParent(k))
    else None
  }

  /** The error is about the origin it names, and that is the first one at fault. */
  ghost predicate FirstFault(domain: string, origins: seq<Option<Origin>>, error: DomainError) {
    exists k | 0 <= k < |origins| ::
      && OriginFault(domain, origins[k], k) == Some(error)
      && forall j | 0 <= j < k :: OriginOk(domain, origins[j])
  }

  /**
   A domain is accepted exactly when it is a bare name, a proper parent of every origin's host, shared by origins of one
   scheme, and no public suffix. Every error is returned exactly when its test is the first to fail.
   */
  method ValidateCookieDomain(raw: string, origins: seq<Option<Origin>>, isSuffix: string -> bool)
    returns (r: Result<string, DomainError>)
    ensures r.Ok? <==> Accepted(raw, origins, isSuffix)
    ensures r.Ok? ==> r.value == Normalized(raw)
    ensures r == Err(Empty) <==> Normalized(raw) == ""
    ensures r == Err(NotBare) <==> Normalized(raw) != "" && !Bare(Normalized(raw))
    ensures r.Err? && Normalized(raw) != "" && Bare(Normalized(raw)) && !AllOriginsOk(Normalized(raw), origins) ==>
              FirstFault(Normalized(raw), origins, r.error)
    ensures r == Err(MixedSchemes) <==>
              && Normalized(raw) != "" && Bare(Normalized(raw)) && AllOriginsOk(Normalized(raw), origins)
              && !OneScheme(origins)
    ensures r == Err(PublicSuffix) <==>
              && Normalized(raw) != "" && Bare(Normalized(raw)) && AllOriginsOk(Normalized(raw), origins)
              && OneScheme(origins) && isSuffix(Normalized(raw))
  {
    var domain := Normalized(raw);
    if domain == "" {
      return Err(Empty);
    }
    if !Bare(domain) {
      return Err(NotBare);
    }
    var schemes: seq<string> := [];
    for k := 0 to |origins|
      invariant |schemes| == k
      invariant forall j | 0 <= j < k :: OriginOk(domain, origins[j])
      invariant forall j | 0 <= j < k :: schemes[j] == Lower(origins[j].value.scheme)
    {
      if origins[k].None? {
        return Err(Unparsable(k));
      }
      var host := Lower(origins[k].value.host);
      if host == domain {
        return Err(EqualsHost(k));
      }
      if !EndsWith(host, "." + domain) {
        return Err(NotParent(k));
      }
      schemes := schemes + [Lower(origins[k].value.scheme)];
    }
    MixedMeans(schemes);
    if Mixed(schemes) {
      return Err(MixedSchemes);
    }
    if isSuffix(domain) {
      return Err(PublicSuffix);
    }
    return Ok(domain);
  }
}
