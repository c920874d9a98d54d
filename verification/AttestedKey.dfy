/**
 What a verifier may conclude from the octets of a key description: every option the key was described with,
 up to the order of purposes and of signer digests, which a set does not record.
 */
module AttestedKey {
  import opened Wrappers
  import opened Der
  import opened DerTree
  import opened Sequences
  import opened KeyDescription

  predicate SameKey(a: KeyOptions, b: KeyOptions) {
    a == b.(purposes := a.purposes, digests := a.digests)
    && multiset(a.purposes) == multiset(b.purposes) && multiset(a.digests) == multiset(b.digests)
  }

  function AllItems(o: KeyOptions): seq<Item> {
    KeyItems(o) + [ApplicationItem(o)]
  }

  lemma Members(o: KeyOptions, item: Item)
    ensures item in AllItems(o) <==>
              || item in BasicItems(o) || item == OriginItem(o) || item == RootItem(o)
              || item in OptionalItems(o.noAuthRequired, o.userAuthType, o.authTimeout) || item == ApplicationItem(o)
  {
  }

  lemma ExplicitInjective(x: Item, y: Item)
    requires Explicit(x) == Explicit(y)
    ensures x == y
  {
    assert Explicit(x).items[0] == Explicit(y).items[0];
  }

  /** Equal octets are equal trees, so equal fields. */
  lemma SameFields(a: KeyOptions, b: KeyOptions)
    requires Standard(|Encode(KeyTree(a))|) && Encode(KeyTree(a)) == Encode(KeyTree(b))
    ensures KeyFields(a) == KeyFields(b)
  {
    ExtensionReadsBack(a);
    ExtensionReadsBack(b);
    FieldsOfTree(a);
    FieldsOfTree(b);
  }

  lemma FieldsOfTree(o: KeyOptions)
    ensures KeyTree(o) == Constructed(UNIVERSAL, 16, KeyFields(o))
  {
  }

  lemma FieldsAre(o: KeyOptions)
    ensures KeyFields(o)[1] == EnumeratedNode(o.securityLevel) && KeyFields(o)[4] == OctetsNode(o.challenge)
    ensures KeyFields(o)[6] == SoftwareNode(o) && KeyFields(o)[7] == HardwareNode(o)
  {
    FieldPositions(IntegerNode(KEYMINT_VERSION), EnumeratedNode(o.securityLevel), OctetsNode(o.challenge), OctetsNode([]),
                   SoftwareNode(o), HardwareNode(o));
  }

  lemma FieldPositions<T>(version: T, level: T, challenge: T, uniqueId: T, software: T, hardware: T)
    ensures var f := Fields(version, level, challenge, uniqueId, software, hardware);
            f[1] == level && f[4] == challenge && f[6] == software && f[7] == hardware
  {
  }

  lemma ItemsOfLists(o: KeyOptions)
    ensures multiset(SoftwareNode(o).items) + multiset(HardwareNode(o).items) == multiset(Map(AllItems(o), Explicit))
  {
    SecurityLevelLosesNothing(o, o.securityLevel);
    MapConcat(KeyItems(o), [ApplicationItem(o)], Explicit);
    MapOne(ApplicationItem(o), Explicit);
  }

  lemma SameLists(a: KeyOptions, b: KeyOptions)
    requires KeyFields(a) == KeyFields(b)
    ensures multiset(Map(AllItems(a), Explicit)) == multiset(Map(AllItems(b), Explicit))
  {
    FieldsAre(a);
    FieldsAre(b);
    ItemsOfLists(a);
    ItemsOfLists(b);
  }

  lemma SameByImage(a: seq<Item>, b: seq<Item>)
    requires multiset(Map(a, Explicit)) == multiset(Map(b, Explicit))
    ensures forall item :: item in a <==> item in b
  {
    forall x, y | Explicit(x) == Explicit(y) ensures x == y {
      ExplicitInjective(x, y);
    }
    SameMultiset(a, b, Explicit);
    SameMembers(a, b);
  }

  lemma SameMembers<T>(a: seq<T>, b: seq<T>)
    requires multiset(a) == multiset(b)
    ensures forall x :: x in a <==> x in b
  {
    assert forall x :: x in a <==> x in multiset(a);
    assert forall x :: x in b <==> x in multiset(b);
  }

  ghost predicate Alike(a: KeyOptions, b: KeyOptions) {
    forall item :: item in AllItems(a) ==> item in AllItems(b)
  }

  lemma SameBasics(a: KeyOptions, b: KeyOptions)
    requires Alike(a, b)
    ensures Purposes(a) == Purposes(b) && a.algorithm == b.algorithm && a.ecCurve == b.ecCurve
  {
    Basics(a, b);
    BasicsAre(a);
    BasicsAre(b);
    IntegerInjective(a.algorithm, b.algorithm);
    IntegerInjective(a.ecCurve, b.ecCurve);
  }

  lemma BasicsAre(o: KeyOptions)
    ensures var r := BasicItems(o);
            r[0].1 == Purposes(o) && r[1].1 == IntegerNode(o.algorithm) && r[3].1 == IntegerNode(o.ecCurve)
  {
  }

  lemma InBasic(o: KeyOptions, item: Item)
    requires item in AllItems(o) && item.0 <= 10
    ensures item in BasicItems(o)
  {
    Members(o, item);
  }

  lemma InOptional(o: KeyOptions, item: Item)
    requires item in AllItems(o) && 503 <= item.0 <= 505
    ensures item in OptionalItems(o.noAuthRequired, o.userAuthType, o.authTimeout)
  {
    Members(o, item);
  }

  lemma Pick(p: seq<Item>, q: seq<Item>, k: nat)
    requires k < |p| == |q| && DistinctNumbers(q) && p[k] in q && p[k].0 == q[k].0
    ensures p[k] == q[k]
  {
  }

  lemma BasicFollows(a: KeyOptions, b: KeyOptions, item: Item)
    requires Alike(a, b) && item in BasicItems(a) && item.0 <= 10
    ensures item in BasicItems(b)
  {
    Members(a, item);
    InBasic(b, item);
  }

  lemma SameItem(p: seq<Item>, q: seq<Item>)
    requires |p| == |q| && DistinctNumbers(q) && forall k | 0 <= k < |p| :: p[k] in q && p[k].0 == q[k].0
    ensures p == q
  {
    forall k | 0 <= k < |p| ensures p[k] == q[k] {
      Pick(p, q, k);
    }
  }

  lemma Basics(a: KeyOptions, b: KeyOptions)
    requires Alike(a, b)
    ensures BasicItems(a) == BasicItems(b)
  {
    var p, q := BasicItems(a), BasicItems(b);
    forall k | 0 <= k < |p| ensures p[k] in q && p[k].0 == q[k].0 {
      BasicFollows(a, b, p[k]);
      BasicNumbers(Purposes(a), IntegerNode(a.algorithm), IntegerNode(KEY_SIZE), IntegerNode(a.ecCurve));
      BasicNumbers(Purposes(b), IntegerNode(b.algorithm), IntegerNode(KEY_SIZE), IntegerNode(b.ecCurve));
    }
    SameItem(p, q);
  }

  lemma BasicNumbers(purposes: Node, algorithm: Node, keySize: Node, ecCurve: Node)
    ensures var r := NumberBasics(purposes, algorithm, keySize, ecCurve);
            r[0].0 == 1 && r[1].0 == 2 && r[2].0 == 3 && r[3].0 == 10
  {
  }

  lemma SameRest(a: KeyOptions, b: KeyOptions)
    requires Alike(a, b)
    ensures OriginItem(a) == OriginItem(b) && RootItem(a) == RootItem(b) && ApplicationItem(a) == ApplicationItem(b)
  {
    Members(a, OriginItem(a));
    Members(b, OriginItem(a));
    Members(a, RootItem(a));
    Members(b, RootItem(a));
    Members(a, ApplicationItem(a));
    Members(b, ApplicationItem(a));
  }

  lemma OptionalMember(noAuth: bool, authType: Option<nat>, timeout: Option<nat>, item: Item)
    ensures item in OptionalItems(noAuth, authType, timeout) <==>
              || (noAuth && item == (503, NullNode()))
              || (authType.Some? && item == (504, IntegerNode(authType.value)))
              || (timeout.Some? && item == (505, IntegerNode(timeout.value)))
  {
  }

  lemma OptionalFollows(a: KeyOptions, b: KeyOptions, item: Item)
    requires Alike(a, b) && 503 <= item.0 <= 505
    requires item in OptionalItems(a.noAuthRequired, a.userAuthType, a.authTimeout)
    ensures item in OptionalItems(b.noAuthRequired, b.userAuthType, b.authTimeout)
  {
    Members(a, item);
    InOptional(b, item);
  }

  lemma OptionalsFollow(a: KeyOptions, b: KeyOptions)
    requires Alike(a, b)
    ensures a.noAuthRequired ==> b.noAuthRequired
    ensures a.userAuthType.Some? ==> b.userAuthType == a.userAuthType
    ensures a.authTimeout.Some? ==> b.authTimeout == a.authTimeout
  {
    if a.noAuthRequired {
      NoAuthFollows(a, b);
    }
    if a.userAuthType.Some? {
      AuthTypeFollows(a, b);
    }
    if a.authTimeout.Some? {
      TimeoutFollows(a, b);
    }
  }

  lemma NoAuthFollows(a: KeyOptions, b: KeyOptions)
    requires Alike(a, b) && a.noAuthRequired
    ensures b.noAuthRequired
  {
    var item := (503, NullNode());
    OptionalMember(a.noAuthRequired, a.userAuthType, a.authTimeout, item);
    OptionalFollows(a, b, item);
    OptionalMember(b.noAuthRequired, b.userAuthType, b.authTimeout, item);
  }

  lemma AuthTypeFollows(a: KeyOptions, b: KeyOptions)
    requires Alike(a, b) && a.userAuthType.Some?
    ensures b.userAuthType == a.userAuthType
  {
    var item := (504, IntegerNode(a.userAuthType.value));
    OptionalMember(a.noAuthRequired, a.userAuthType, a.authTimeout, item);
    OptionalFollows(a, b, item);
    OptionalMember(b.noAuthRequired, b.userAuthType, b.authTimeout, item);
    IntegerInjective(a.userAuthType.value, b.userAuthType.value);
  }

  lemma TimeoutFollows(a: KeyOptions, b: KeyOptions)
    requires Alike(a, b) && a.authTimeout.Some?
    ensures b.authTimeout == a.authTimeout
  {
    var item := (505, IntegerNode(a.authTimeout.value));
    OptionalMember(a.noAuthRequired, a.userAuthType, a.authTimeout, item);
    OptionalFollows(a, b, item);
    OptionalMember(b.noAuthRequired, b.userAuthType, b.authTimeout, item);
    IntegerInjective(a.authTimeout.value, b.authTimeout.value);
  }

  lemma SameSets<T(!new)>(a: seq<T>, b: seq<T>, f: T -> Node)
    requires forall x, y :: f(x) == f(y) ==> x == y
    requires SetNode(Map(a, f)) == SetNode(Map(b, f))
    ensures multiset(a) == multiset(b)
  {
    assert multiset(Sorted(Map(a, f), NodeLeq)) == multiset(Sorted(Map(b, f), NodeLeq));
    SameMultiset(a, b, f);
  }

  lemma SamePurposes(a: KeyOptions, b: KeyOptions)
    requires Purposes(a) == Purposes(b)
    ensures multiset(a.purposes) == multiset(b.purposes)
  {
    forall x, y | IntegerNode(x) == IntegerNode(y) ensures x == y {
      IntegerInjective(x, y);
    }
    SameSets(a.purposes, b.purposes, IntegerNode);
  }

  lemma SameRoots(a: KeyOptions, b: KeyOptions)
    requires RootOfTrust(a) == RootOfTrust(b)
    ensures a.deviceLocked == b.deviceLocked && a.verifiedBootState == b.verifiedBootState
  {
    assert RootOfTrust(a).items[1] == RootOfTrust(b).items[1];
    assert RootOfTrust(a).items[2] == RootOfTrust(b).items[2];
    EnumeratedInjective(a.verifiedBootState, b.verifiedBootState);
  }

  // The application

  lemma {:induction false} EachExpressible(items: seq<Node>, node: Node)
    requires AllExpressible(items) && node in items
    ensures Expressible(node)
  {
    if node != items[0] {
      EachExpressible(items[1..], node);
    }
  }

  lemma ApplicationListed(o: KeyOptions)
    ensures Explicit(ApplicationItem(o)) in SoftwareNode(o).items
  {
    var list := SoftwareList(o.securityLevel, ApplicationItem(o), KeyItems(o));
    SortedMultiset(list, Explicit, ItemLeq);
    assert Map(list, Explicit)[0] == Explicit(ApplicationItem(o));
    assert Explicit(ApplicationItem(o)) in multiset(Map(list, Explicit));
  }

  lemma ApplicationExpressible(o: KeyOptions)
    requires Standard(|Encode(KeyTree(o))|)
    ensures Expressible(ApplicationId(o))
  {
    ShortIsExpressible(KeyTree(o));
    FieldsOfTree(o);
    FieldsAre(o);
    EachExpressible(KeyFields(o), SoftwareNode(o));
    ApplicationListed(o);
    EachExpressible(SoftwareNode(o).items, Explicit(ApplicationItem(o)));
    EachExpressible([ApplicationItem(o).1], ApplicationItem(o).1);
    ShortIsExpressible(ApplicationId(o));
  }

  lemma SameApplications(a: KeyOptions, b: KeyOptions)
    requires Expressible(ApplicationId(a)) && Expressible(ApplicationId(b)) && ApplicationItem(a) == ApplicationItem(b)
    ensures a.package == b.package && multiset(a.digests) == multiset(b.digests)
  {
    PrefixFree(ApplicationId(a), ApplicationId(b));
    ApplicationParts(a);
    ApplicationParts(b);
    SameSets(a.digests, b.digests, OctetsNode);
  }

  lemma ApplicationParts(o: KeyOptions)
    ensures var id := ApplicationId(o);
            && id.Constructed? && |id.items| == 2 && id.items[1] == SetNode(Map(o.digests, OctetsNode))
            && id.items[0] == SetNode([PackageInfo(o)])
    ensures SetNode([PackageInfo(o)]).items == [PackageInfo(o)]
    ensures PackageInfo(o).Constructed? && |PackageInfo(o).items| == 2 && PackageInfo(o).items[0] == OctetsNode(o.package)
  {
    OneMember(PackageInfo(o));
  }

  lemma OneMember(node: Node)
    ensures Sorted([node], NodeLeq) == [node]
  {
    assert [node][1..] == [] && Sorted([], NodeLeq) == [];
  }

  /** Two descriptions with the same octets describe the same key. */
  lemma OctetsDetermineTheKey(a: KeyOptions, b: KeyOptions)
    requires Standard(|Encode(KeyTree(a))|)
    ensures Encode(KeyTree(a)) == Encode(KeyTree(b)) ==> SameKey(a, b)
  {
    if Encode(KeyTree(a)) == Encode(KeyTree(b)) {
      SameFields(a, b);
      FieldsAre(a);
      FieldsAre(b);
      EnumeratedInjective(a.securityLevel, b.securityLevel);
      SameLists(a, b);
      SameByImage(AllItems(a), AllItems(b));
      AlikeIsSame(a, b);
    }
  }

  lemma AlikeIsSame(a: KeyOptions, b: KeyOptions)
    requires Alike(a, b) && Alike(b, a) && a.challenge == b.challenge && a.securityLevel == b.securityLevel
    requires Standard(|Encode(KeyTree(a))|) && Standard(|Encode(KeyTree(b))|)
    ensures SameKey(a, b)
  {
    SameBasics(a, b);
    SamePurposes(a, b);
    SameRest(a, b);
    IntegerInjective(a.origin, b.origin);
    SameRoots(a, b);
    OptionalsFollow(a, b);
    OptionalsFollow(b, a);
    ApplicationExpressible(a);
    ApplicationExpressible(b);
    SameApplications(a, b);
  }
}
