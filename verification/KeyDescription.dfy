/**
 `key_description` of scripts/key-attestation-fixtures.py: the attestation extension, built octet by octet,
 against the tree a reader finds in it.
 */
module KeyDescription {
  import opened Wrappers
  import opened Numerals
  import opened Der
  import opened DerTree
  import opened Sequences
  import opened OctetOrder

  // Sets

  /** `set_of` */
  function SetOf(items: seq<Bytes>): Bytes {
    Tlv([0x31], Concat(Sorted(items, LexLeq)))
  }

  /** The encoding of a set does not depend on the order its members are given in. */
  lemma SetOfIgnoresOrder(a: seq<Bytes>, b: seq<Bytes>)
    requires multiset(a) == multiset(b)
    ensures SetOf(a) == SetOf(b)
  {
    LexIsTotalOrder();
    SortedAscends(a, LexLeq);
    SortedAscends(b, LexLeq);
    AscendingUnique(Sorted(a, LexLeq), Sorted(b, LexLeq), LexLeq);
  }

  lemma EncodingOrders(a: Node, b: Node)
    requires Expressible(a) && Expressible(b)
    ensures LexLeq(Encode(a), Encode(b)) == PaddedLeq(Encode(a), Encode(b))
  {
    if Encode(b) <= Encode(a) {
      PrefixFree(b, a);
    }
    OrdersAgree(Encode(a), Encode(b));
  }

  /** On encodings, Python's order picks the one arrangement section 11.6 of X.690 asks for. */
  lemma SetOfOrderIsCanonical(nodes: seq<Node>, arranged: seq<Bytes>)
    requires forall k | 0 <= k < |nodes| :: Expressible(nodes[k])
    requires multiset(arranged) == multiset(Map(nodes, Encode))
    ensures Ascending(arranged, PaddedLeq) <==> arranged == Sorted(Map(nodes, Encode), LexLeq)
  {
    var sorted := Sorted(Map(nodes, Encode), LexLeq);
    LexIsTotalOrder();
    SortedAscends(Map(nodes, Encode), LexLeq);
    SameAscent(nodes, arranged);
    if Ascending(arranged, PaddedLeq) {
      AscendingUnique(arranged, sorted, LexLeq);
    }
  }

  lemma SameAscent(nodes: seq<Node>, arranged: seq<Bytes>)
    requires forall k | 0 <= k < |nodes| :: Expressible(nodes[k])
    requires multiset(arranged) == multiset(Map(nodes, Encode))
    ensures Ascending(arranged, PaddedLeq) == Ascending(arranged, LexLeq)
  {
    forall i, j | 0 <= i < j < |arranged|
      ensures LexLeq(arranged[i], arranged[j]) == PaddedLeq(arranged[i], arranged[j])
    {
      assert arranged[i] in multiset(arranged) && arranged[j] in multiset(arranged);
      var a :| 0 <= a < |nodes| && Map(nodes, Encode)[a] == arranged[i];
      var b :| 0 <= b < |nodes| && Map(nodes, Encode)[b] == arranged[j];
      EncodingOrders(nodes[a], nodes[b]);
    }
  }

  // The values the writer's calls build, as trees

  function IntegerNode(n: nat): (r: Node)
    ensures Encode(r) == Integer(n)
  {
    Primitive(UNIVERSAL, 2, IntegerContent(n))
  }

  function EnumeratedNode(n: nat): (r: Node)
    ensures Encode(r) == Enumerated(n)
  {
    Primitive(UNIVERSAL, 10, EnumeratedContent(n))
  }

  function OctetsNode(b: Bytes): (r: Node)
    ensures Encode(r) == Octets(b)
  {
    Primitive(UNIVERSAL, 4, b)
  }

  function BooleanNode(v: bool): (r: Node)
    ensures Encode(r) == Boolean(v)
  {
    Primitive(UNIVERSAL, 1, if v then [0xFF] else [0x00])
  }

  function NullNode(): (r: Node)
    ensures Encode(r) == Null()
  {
    Primitive(UNIVERSAL, 5, [])
  }

  function SequenceNode(items: seq<Node>): (r: Node)
    ensures Encode(r) == Sequence(Map(items, Encode))
  {
    ConcatEncodes(items);
    Constructed(UNIVERSAL, 16, items)
  }

  predicate NodeLeq(a: Node, b: Node) {
    LexLeq(Encode(a), Encode(b))
  }

  function SetNode(items: seq<Node>): (r: Node)
    ensures Encode(r) == SetOf(Map(items, Encode))
  {
    SortedMapped(items, Encode, NodeLeq, LexLeq);
    ConcatEncodes(Sorted(items, NodeLeq));
    Constructed(UNIVERSAL, 17, Sorted(items, NodeLeq))
  }

  lemma {:induction false} ConcatEncodes(nodes: seq<Node>)
    ensures EncodeAll(nodes) == Concat(Map(nodes, Encode))
  {
    if nodes != [] {
      ConcatEncodes(nodes[1..]);
      assert Map(nodes, Encode)[1..] == Map(nodes[1..], Encode);
    }
  }

  // Authorization lists

  type Item = (nat, Node)
  type RawItem = (nat, Bytes)

  /** Python's order on tuples. */
  predicate PairLeq(a: RawItem, b: RawItem) {
    a.0 < b.0 || (a.0 == b.0 && LexLeq(a.1, b.1))
  }

  function EncodeItem(item: Item): RawItem {
    (item.0, Encode(item.1))
  }

  predicate ItemLeq(a: Item, b: Item) {
    PairLeq(EncodeItem(a), EncodeItem(b))
  }

  function Explicit(item: Item): Node {
    Constructed(CONTEXT, item.0, [item.1])
  }

  function ExplicitOctets(item: RawItem): Bytes {
    Element(ContextTag(item.0), item.1)
  }

  lemma ExplicitEncodes(item: Item)
    ensures Encode(Explicit(item)) == ExplicitOctets(EncodeItem(item))
  {
    assert [item.1][1..] == [];
    assert EncodeAll([item.1]) == Encode(item.1) + EncodeAll([]) == Encode(item.1);
  }

  function AuthorizationNode(items: seq<Item>): (r: Node)
    ensures r.Constructed?
    ensures Encode(r) == AuthorizationOctets(Map(items, EncodeItem))
  {
    AuthorizationEncodes(items);
    SequenceNode(Map(Sorted(items, ItemLeq), Explicit))
  }

  function AuthorizationOctets(items: seq<RawItem>): Bytes {
    Sequence(Map(Sorted(items, PairLeq), ExplicitOctets))
  }

  lemma AuthorizationEncodes(items: seq<Item>)
    ensures Map(Map(Sorted(items, ItemLeq), Explicit), Encode)
         == Map(Sorted(Map(items, EncodeItem), PairLeq), ExplicitOctets)
  {
    var sorted := Sorted(items, ItemLeq);
    SortedMapped(items, EncodeItem, ItemLeq, PairLeq);
    forall k | 0 <= k < |sorted| ensures Encode(Explicit(sorted[k])) == ExplicitOctets(EncodeItem(sorted[k])) {
      ExplicitEncodes(sorted[k]);
    }
  }

  method AuthorizationList(items: seq<RawItem>) returns (r: Bytes)
    ensures r == AuthorizationOctets(items)
  {
    var sorted := Sorted(items, PairLeq);
    var parts: seq<Bytes> := [];
    for k := 0 to |sorted|
      invariant parts == Map(sorted[..k], ExplicitOctets)
    {
      var part := Context(sorted[k].0, sorted[k].1);
      parts := parts + [part];
    }
    assert sorted[..|sorted|] == sorted;
    r := Sequence(parts);
  }

  // The extension

  datatype KeyOptions = KeyOptions(
    challenge: Bytes,
    securityLevel: nat,
    noAuthRequired: bool,
    userAuthType: Option<nat>,
    authTimeout: Option<nat>,
    origin: nat,
    deviceLocked: bool,
    verifiedBootState: nat,
    package: Bytes,
    digests: seq<Bytes>,
    algorithm: nat,
    ecCurve: nat,
    purposes: seq<nat>)

  const KEYMINT_VERSION := 300
  const KEY_SIZE := 256
  const PACKAGE_VERSION := 1
  const ROOT_OF_TRUST := 704

  function Repeat(b: Byte, count: nat): Bytes {
    seq(count, _ => b)
  }

  function RootOfTrust(o: KeyOptions): (r: Node)
    ensures Encode(r) == Sequence([Octets(Repeat(0x11, 32)), Boolean(o.deviceLocked),
                                   Enumerated(o.verifiedBootState), Octets(Repeat(0x22, 32))])
  {
    var a, b, c, d := OctetsNode(Repeat(0x11, 32)), BooleanNode(o.deviceLocked), EnumeratedNode(o.verifiedBootState),
                      OctetsNode(Repeat(0x22, 32));
    MapFour(a, b, c, d, Encode);
    SequenceNode([a, b, c, d])
  }

  function Purposes(o: KeyOptions): (r: Node)
    ensures Encode(r) == SetOf(Map(o.purposes, Integer))
  {
    assert Map(Map(o.purposes, IntegerNode), Encode) == Map(o.purposes, Integer);
    SetNode(Map(o.purposes, IntegerNode))
  }

  function PackageInfo(o: KeyOptions): (r: Node)
    ensures Encode(r) == Sequence([Octets(o.package), Integer(PACKAGE_VERSION)])
  {
    MapTwo(OctetsNode(o.package), IntegerNode(PACKAGE_VERSION), Encode);
    SequenceNode([OctetsNode(o.package), IntegerNode(PACKAGE_VERSION)])
  }

  function ApplicationId(o: KeyOptions): (r: Node)
    ensures Encode(r) == Sequence([SetOf([Sequence([Octets(o.package), Integer(PACKAGE_VERSION)])]),
                                   SetOf(Map(o.digests, Octets))])
  {
    MapOne(PackageInfo(o), Encode);
    assert Map(Map(o.digests, OctetsNode), Encode) == Map(o.digests, Octets);
    var packages, digests := SetNode([PackageInfo(o)]), SetNode(Map(o.digests, OctetsNode));
    MapTwo(packages, digests, Encode);
    SequenceNode([packages, digests])
  }

  predicate DistinctNumbers<T>(items: seq<(nat, T)>) {
    forall i, j | 0 <= i < j < |items| :: items[i].0 != items[j].0
  }

  function NumberBasics(purposes: Node, algorithm: Node, keySize: Node, ecCurve: Node): (r: seq<Item>)
    ensures |r| == 4 && DistinctNumbers(r) && forall k | 0 <= k < |r| :: r[k].0 <= 10
  {
    [(1, purposes), (2, algorithm), (3, keySize), (10, ecCurve)]
  }

  function BasicItems(o: KeyOptions): (r: seq<Item>)
    ensures |r| == 4 && DistinctNumbers(r) && forall k | 0 <= k < |r| :: r[k].0 <= 10
  {
    NumberBasics(Purposes(o), IntegerNode(o.algorithm), IntegerNode(KEY_SIZE), IntegerNode(o.ecCurve))
  }

  function OriginItem(o: KeyOptions): Item {
    (702, IntegerNode(o.origin))
  }

  function RootItem(o: KeyOptions): Item {
    (ROOT_OF_TRUST, RootOfTrust(o))
  }

  function FixedItems(o: KeyOptions): seq<Item> {
    BasicItems(o) + [OriginItem(o), RootItem(o)]
  }

  function OptionalItem(number: nat, value: Option<nat>): seq<Item> {
    if value.Some? then [(number, IntegerNode(value.value))] else []
  }

  function OptionalItems(noAuth: bool, authType: Option<nat>, timeout: Option<nat>): (r: seq<Item>)
    ensures DistinctNumbers(r) && forall k | 0 <= k < |r| :: 503 <= r[k].0 <= 505
  {
    (if noAuth then [(503, NullNode())] else []) + OptionalItem(504, authType) + OptionalItem(505, timeout)
  }

  /** The key's authorizations; none of them depends on the security level. */
  function KeyItems(o: KeyOptions): seq<Item> {
    FixedItems(o) + OptionalItems(o.noAuthRequired, o.userAuthType, o.authTimeout)
  }

  function ApplicationItem(o: KeyOptions): Item {
    (709, OctetsNode(Encode(ApplicationId(o))))
  }

  /** The items that are, or are not, the root of trust. */
  function Keep<T>(items: seq<(nat, T)>, rootOfTrust: bool): seq<(nat, T)> {
    if items == [] then []
    else (if (items[0].0 == ROOT_OF_TRUST) == rootOfTrust then [items[0]] else []) + Keep(items[1..], rootOfTrust)
  }

  function SoftwareList(level: nat, application: Item, key: seq<Item>): seq<Item> {
    [application] + (if level == 0 then Keep(key, false) else [])
  }

  function HardwareList(level: nat, key: seq<Item>): seq<Item> {
    if level == 0 then Keep(key, true) else key
  }

  function KeyTree(o: KeyOptions): (r: Node)
    ensures Encode(r) == Sequence(Map(KeyFields(o), Encode))
  {
    SequenceNode(KeyFields(o))
  }

  function Fields<T>(version: T, level: T, challenge: T, uniqueId: T, software: T, hardware: T): (r: seq<T>)
    ensures |r| == 8
  {
    [version, level, version, level] + [challenge, uniqueId, software, hardware]
  }

  function SoftwareNode(o: KeyOptions): (r: Node)
    ensures r.Constructed?
  {
    AuthorizationNode(SoftwareList(o.securityLevel, ApplicationItem(o), KeyItems(o)))
  }

  function HardwareNode(o: KeyOptions): (r: Node)
    ensures r.Constructed?
  {
    AuthorizationNode(HardwareList(o.securityLevel, KeyItems(o)))
  }

  function KeyFields(o: KeyOptions): (r: seq<Node>)
    ensures |r| == 8
  {
    Fields(IntegerNode(KEYMINT_VERSION), EnumeratedNode(o.securityLevel), OctetsNode(o.challenge), OctetsNode([]),
           SoftwareNode(o), HardwareNode(o))
  }

  // The builder

  lemma FixedEncode(o: KeyOptions)
    ensures Map(FixedItems(o), EncodeItem)
         == [(1, Encode(Purposes(o))), (2, Integer(o.algorithm)), (3, Integer(KEY_SIZE)), (10, Integer(o.ecCurve))]
            + [(702, Integer(o.origin)), (ROOT_OF_TRUST, Encode(RootOfTrust(o)))]
  {
    var basic := BasicItems(o);
    assert basic == [basic[0], basic[1], basic[2], basic[3]];
    MapConcat(basic, [OriginItem(o), RootItem(o)], EncodeItem);
    MapFour(basic[0], basic[1], basic[2], basic[3], EncodeItem);
    MapTwo(OriginItem(o), RootItem(o), EncodeItem);
  }

  method KeyAuthorizations(o: KeyOptions) returns (hw: seq<RawItem>)
    ensures hw == Map(KeyItems(o), EncodeItem)
  {
    hw := FixedAuthorizations(o);
    hw := OptionalAuthorizations(hw, o.noAuthRequired, o.userAuthType, o.authTimeout);
    OptionalEncode(o.noAuthRequired, o.userAuthType, o.authTimeout);
    MapConcat(FixedItems(o), OptionalItems(o.noAuthRequired, o.userAuthType, o.authTimeout), EncodeItem);
  }

  method FixedAuthorizations(o: KeyOptions) returns (hw: seq<RawItem>)
    ensures hw == Map(FixedItems(o), EncodeItem)
  {
    var rootOfTrust := Sequence([Octets(Repeat(0x11, 32)), Boolean(o.deviceLocked), Enumerated(o.verifiedBootState),
                                 Octets(Repeat(0x22, 32))]);
    FixedEncode(o);
    hw := [(1, SetOf(Map(o.purposes, Integer))), (2, Integer(o.algorithm)), (3, Integer(KEY_SIZE)), (10, Integer(o.ecCurve))]
          + [(702, Integer(o.origin)), (ROOT_OF_TRUST, rootOfTrust)];
  }

  method OptionalAuthorizations(fixed: seq<RawItem>, noAuth: bool, authType: Option<nat>, timeout: Option<nat>)
    returns (hw: seq<RawItem>)
    ensures hw == fixed + OptionalOctets(noAuth, authType, timeout)
  {
    hw := fixed;
    if noAuth {
      hw := hw + [(503, Null())];
    }
    if authType.Some? {
      hw := hw + [(504, Integer(authType.value))];
    }
    if timeout.Some? {
      hw := hw + [(505, Integer(timeout.value))];
    }
  }

  function OneOctets(number: nat, value: Option<nat>): seq<RawItem> {
    if value.Some? then [(number, Integer(value.value))] else []
  }

  function OptionalOctets(noAuth: bool, authType: Option<nat>, timeout: Option<nat>): seq<RawItem> {
    (if noAuth then [(503, Null())] else []) + OneOctets(504, authType) + OneOctets(505, timeout)
  }

  lemma OptionalEncode(noAuth: bool, authType: Option<nat>, timeout: Option<nat>)
    ensures Map(OptionalItems(noAuth, authType, timeout), EncodeItem) == OptionalOctets(noAuth, authType, timeout)
  {
    var first := if noAuth then [(503, NullNode())] else [];
    MapConcat(first + OptionalItem(504, authType), OptionalItem(505, timeout), EncodeItem);
    MapConcat(first, OptionalItem(504, authType), EncodeItem);
    MapOne((503, NullNode()), EncodeItem);
    OneEncodes(504, authType);
    OneEncodes(505, timeout);
  }

  lemma OneEncodes(number: nat, value: Option<nat>)
    ensures Map(OptionalItem(number, value), EncodeItem) == OneOctets(number, value)
  {
  }

  method KeyDescription(o: KeyOptions) returns (r: Bytes)
    ensures r == Encode(KeyTree(o))
  {
    var hw := KeyAuthorizations(o);
    var appId := Sequence([SetOf([Sequence([Octets(o.package), Integer(PACKAGE_VERSION)])]), SetOf(Map(o.digests, Octets))]);
    var sw := [(709, Octets(appId))];
    SplitEncodes(o.securityLevel, ApplicationItem(o), KeyItems(o));
    if o.securityLevel == 0 {
      sw, hw := sw + Keep(hw, false), Keep(hw, true);
    }
    var software := AuthorizationList(sw);
    var hardware := AuthorizationList(hw);
    var version, level := Integer(KEYMINT_VERSION), Enumerated(o.securityLevel);
    r := Sequence([version, level, version, level] + [Octets(o.challenge), Octets([]), software, hardware]);
    FieldsMapped(IntegerNode(KEYMINT_VERSION), EnumeratedNode(o.securityLevel), OctetsNode(o.challenge), OctetsNode([]),
                 SoftwareNode(o), HardwareNode(o), Encode);
  }

  lemma SplitEncodes(level: nat, application: Item, key: seq<Item>)
    ensures Map(SoftwareList(level, application, key), EncodeItem)
         == [EncodeItem(application)] + (if level == 0 then Keep(Map(key, EncodeItem), false) else [])
    ensures Map(HardwareList(level, key), EncodeItem)
         == if level == 0 then Keep(Map(key, EncodeItem), true) else Map(key, EncodeItem)
  {
    KeepEncodes(key, true);
    KeepEncodes(key, false);
  }

  lemma {:induction false} KeepEncodes(items: seq<Item>, root: bool)
    ensures Keep(Map(items, EncodeItem), root) == Map(Keep(items, root), EncodeItem)
  {
    if items != [] {
      KeepEncodes(items[1..], root);
      MapHead(items, EncodeItem);
      MapCons(items[0], Keep(items[1..], root), EncodeItem);
      KeepHead(items, root);
      KeepHead(Map(items, EncodeItem), root);
    }
  }

  lemma KeepHead<T>(items: seq<(nat, T)>, root: bool)
    requires items != []
    ensures Keep(items, root)
         == if (items[0].0 == ROOT_OF_TRUST) == root then [items[0]] + Keep(items[1..], root) else Keep(items[1..], root)
  {
  }

  lemma FieldsMapped<S, T>(version: S, level: S, challenge: S, uniqueId: S, software: S, hardware: S, f: S -> T)
    ensures Map(Fields(version, level, challenge, uniqueId, software, hardware), f)
         == Fields(f(version), f(level), f(challenge), f(uniqueId), f(software), f(hardware))
  {
    MapConcat([version, level, version, level], [challenge, uniqueId, software, hardware], f);
    MapFour(version, level, version, level, f);
    MapFour(challenge, uniqueId, software, hardware, f);
  }

  // What a reader finds

  /** The extension is read back as the tree it was built for, as long as its length can be expressed. */
  lemma ExtensionReadsBack(o: KeyOptions)
    requires Standard(|Encode(KeyTree(o))|)
    ensures DecodeNode(Encode(KeyTree(o))) == Some((KeyTree(o), []))
  {
    ShortIsExpressible(KeyTree(o));
    TreeReadsBack(KeyTree(o), []);
    assert Encode(KeyTree(o)) + [] == Encode(KeyTree(o));
  }

  lemma {:induction false} KeepPartitions<S, T>(items: seq<(nat, S)>, f: ((nat, S)) -> T)
    ensures multiset(Map(Keep(items, true), f)) + multiset(Map(Keep(items, false), f)) == multiset(Map(items, f))
  {
    if items != [] {
      var first, rest := items[0], items[1..];
      KeepPartitions(rest, f);
      assert items == [first] + rest;
      MapCons(first, rest, f);
      MapCons(first, Keep(rest, true), f);
      MapCons(first, Keep(rest, false), f);
      if first.0 == ROOT_OF_TRUST {
        assert Keep(items, true) == [first] + Keep(rest, true) && Keep(items, false) == Keep(rest, false);
      } else {
        assert Keep(items, false) == [first] + Keep(rest, false) && Keep(items, true) == Keep(rest, true);
      }
    }
  }

  lemma Lists(level: nat, application: Item, key: seq<Item>)
    ensures multiset(AuthorizationNode(SoftwareList(level, application, key)).items)
            + multiset(AuthorizationNode(HardwareList(level, key)).items)
         == multiset(Map(key, Explicit)) + multiset{Explicit(application)}
  {
    var kept := if level == 0 then Keep(key, false) else [];
    SortedMultiset(SoftwareList(level, application, key), Explicit, ItemLeq);
    SortedMultiset(HardwareList(level, key), Explicit, ItemLeq);
    MapCons(application, kept, Explicit);
    KeepPartitions(key, Explicit);
  }

  /** Moving a key between security levels moves its authorizations between the two lists and loses none. */
  lemma SecurityLevelLosesNothing(o: KeyOptions, level: nat)
    ensures multiset(SoftwareNode(o).items) + multiset(HardwareNode(o).items)
         == multiset(Map(KeyItems(o), Explicit)) + multiset{Explicit(ApplicationItem(o))}
         == multiset(SoftwareNode(o.(securityLevel := level)).items) + multiset(HardwareNode(o.(securityLevel := level)).items)
  {
    var other := o.(securityLevel := level);
    Lists(o.securityLevel, ApplicationItem(o), KeyItems(o));
    Lists(level, ApplicationItem(o), KeyItems(o));
    assert KeyItems(other) == KeyItems(o) && ApplicationItem(other) == ApplicationItem(o);
  }

  /** A software key's hardware list holds the root of trust alone; another key's software list, the application alone. */
  lemma ListsBySecurityLevel(o: KeyOptions)
    ensures o.securityLevel == 0 ==> HardwareNode(o).items == [Explicit(RootItem(o))]
    ensures o.securityLevel != 0 ==> SoftwareNode(o).items == [Explicit(ApplicationItem(o))]
  {
    OnlyRootOfTrust(o);
    OneSorted(RootItem(o));
    OneSorted(ApplicationItem(o));
  }

  lemma OneSorted(item: Item)
    ensures Map(Sorted([item], ItemLeq), Explicit) == [Explicit(item)]
  {
    assert [item][1..] == [] && Sorted([], ItemLeq) == [];
    assert Sorted([item], ItemLeq) == [item];
  }

  lemma {:induction false} KeepConcat<T>(a: seq<(nat, T)>, b: seq<(nat, T)>, root: bool)
    ensures Keep(a + b, root) == Keep(a, root) + Keep(b, root)
  {
    if a == [] {
      assert a + b == b;
    } else {
      assert (a + b)[1..] == a[1..] + b;
      KeepConcat(a[1..], b, root);
    }
  }

  lemma {:induction false} KeepNone<T>(items: seq<(nat, T)>)
    requires forall k | 0 <= k < |items| :: items[k].0 != ROOT_OF_TRUST
    ensures Keep(items, true) == []
  {
    if items != [] {
      KeepNone(items[1..]);
    }
  }

  lemma KeepOne<T>(item: (nat, T))
    requires item.0 == ROOT_OF_TRUST
    ensures Keep([item], true) == [item]
  {
    assert [item][1..] == [];
  }

  lemma KeepMiddle<T>(front: seq<(nat, T)>, root: (nat, T), rest: seq<(nat, T)>)
    requires root.0 == ROOT_OF_TRUST
    requires forall k | 0 <= k < |front| :: front[k].0 != ROOT_OF_TRUST
    requires forall k | 0 <= k < |rest| :: rest[k].0 != ROOT_OF_TRUST
    ensures Keep(front + [root] + rest, true) == [root]
  {
    KeepConcat(front + [root], rest, true);
    KeepConcat(front, [root], true);
    KeepNone(front);
    KeepNone(rest);
    KeepOne(root);
  }

  lemma OnlyRootOfTrust(o: KeyOptions)
    ensures Keep(KeyItems(o), true) == [RootItem(o)]
  {
    var basic, origin, root := BasicItems(o), OriginItem(o), RootItem(o);
    assert basic + [origin, root] == basic + [origin] + [root];
    KeepMiddle(basic + [origin], root, OptionalItems(o.noAuthRequired, o.userAuthType, o.authTimeout));
  }

  // Each list is in strictly ascending order of number

  function Number(item: Item): nat { item.0 }

  lemma PairPreorder()
    ensures TotalPreorder(ItemLeq)
  {
    forall a, b ensures ItemLeq(a, b) || ItemLeq(b, a) {
      LexTotal(Encode(a.1), Encode(b.1));
    }
    forall a, b, c | ItemLeq(a, b) && ItemLeq(b, c) ensures ItemLeq(a, c) {
      if a.0 == b.0 == c.0 {
        LexTransitive(Encode(a.1), Encode(b.1), Encode(c.1));
      }
    }
  }

  lemma ListAscends(items: seq<Item>)
    requires DistinctNumbers(items)
    ensures var list := AuthorizationNode(items).items;
            forall i, j | 0 <= i < j < |list| :: list[i].number < list[j].number
  {
    var sorted := Sorted(items, ItemLeq);
    PairPreorder();
    SortedAscends(items, ItemLeq);
    SortedMultiset(items, Number, ItemLeq);
    DistinctPermuted(Map(items, Number), Map(sorted, Number));
    forall i, j | 0 <= i < j < |sorted| ensures sorted[i].0 < sorted[j].0 {
      assert ItemLeq(sorted[i], sorted[j]);
      assert Map(sorted, Number)[i] != Map(sorted, Number)[j];
    }
  }

  lemma {:induction false} KeepSome<T>(items: seq<(nat, T)>, root: bool)
    ensures forall k | 0 <= k < |Keep(items, root)| :: Keep(items, root)[k] in items
  {
    if items != [] {
      KeepHead(items, root);
      KeepSome(items[1..], root);
      assert items == [items[0]] + items[1..];
    }
  }

  lemma {:induction false} KeepDistinct<T>(items: seq<(nat, T)>, root: bool)
    requires DistinctNumbers(items)
    ensures DistinctNumbers(Keep(items, root))
  {
    if items != [] {
      var rest := items[1..];
      var kept := Keep(rest, root);
      KeepHead(items, root);
      KeepDistinct(rest, root);
      KeepSome(rest, root);
      forall k | 0 <= k < |kept| ensures kept[k].0 != items[0].0 {
        assert kept[k] in rest;
        var i :| 0 <= i < |rest| && rest[i] == kept[k];
        assert items[i + 1] == rest[i];
      }
    }
  }

  lemma KeyNumbers(o: KeyOptions)
    ensures DistinctNumbers(KeyItems(o)) && forall k | 0 <= k < |KeyItems(o)| :: KeyItems(o)[k].0 < 709
  {
    NumbersDistinct(BasicItems(o), OriginItem(o), RootItem(o),
                    OptionalItems(o.noAuthRequired, o.userAuthType, o.authTimeout));
  }

  lemma NumbersDistinct<T>(basic: seq<(nat, T)>, origin: (nat, T), root: (nat, T), optional: seq<(nat, T)>)
    requires DistinctNumbers(basic) && forall k | 0 <= k < |basic| :: basic[k].0 <= 10
    requires DistinctNumbers(optional) && forall k | 0 <= k < |optional| :: 503 <= optional[k].0 <= 505
    requires origin.0 == 702 && root.0 == ROOT_OF_TRUST
    ensures var all := basic + [origin, root] + optional;
            DistinctNumbers(all) && forall k | 0 <= k < |all| :: all[k].0 < 709
  {
  }

  /** Both lists of every extension are in strictly ascending order of tag number. */
  lemma ListsAscend(o: KeyOptions)
    ensures forall i, j | 0 <= i < j < |SoftwareNode(o).items| :: SoftwareNode(o).items[i].number < SoftwareNode(o).items[j].number
    ensures forall i, j | 0 <= i < j < |HardwareNode(o).items| :: HardwareNode(o).items[i].number < HardwareNode(o).items[j].number
  {
    KeyNumbers(o);
    ListsDistinct(o.securityLevel, ApplicationItem(o), KeyItems(o));
    ListAscends(SoftwareList(o.securityLevel, ApplicationItem(o), KeyItems(o)));
    ListAscends(HardwareList(o.securityLevel, KeyItems(o)));
  }

  lemma ListsDistinct(level: nat, application: Item, key: seq<Item>)
    requires DistinctNumbers(key) && application.0 == 709 && forall k | 0 <= k < |key| :: key[k].0 < 709
    ensures DistinctNumbers(SoftwareList(level, application, key)) && DistinctNumbers(HardwareList(level, key))
  {
    KeepDistinct(key, true);
    KeepDistinct(key, false);
    KeepSome(key, false);
  }

  // The octets determine the key

  lemma IntegerInjective(m: nat, n: nat)
    requires IntegerContent(m) == IntegerContent(n)
    ensures m == n
  {
    IntegerReadsBack(m, IntegerContent(m));
    IntegerReadsBack(n, IntegerContent(m));
  }

  lemma EnumeratedLength(n: nat)
    ensures var size := |IntegerContent(n)|;
            |EnumeratedContent(n)| == (if size < 128 then 0 else |Digits(size, 256)|) + size
    ensures var size := |IntegerContent(n)|;
            EnumeratedContent(n)[|EnumeratedContent(n)| - size..] == IntegerContent(n)
  {
    if |IntegerContent(n)| < 128 {
      EnumeratedIsInteger(n);
    } else {
      LongLength(|IntegerContent(n)|);
      HeaderDropped(HighBit(|Digits(|IntegerContent(n)|, 256)|), Digits(|IntegerContent(n)|, 256), IntegerContent(n));
    }
  }

  lemma HeaderDropped(first: Byte, octets: Bytes, body: Bytes)
    ensures var content := ([0x02] + ([first] + octets) + body)[2..];
            |content| == |octets| + |body| && content[|octets|..] == body
  {
  }

  /** Even above the short length form, where the content is not the integer's, no two numbers collide. */
  lemma EnumeratedInjective(m: nat, n: nat)
    requires EnumeratedContent(m) == EnumeratedContent(n)
    ensures m == n
  {
    EnumeratedLength(m);
    EnumeratedLength(n);
    if |IntegerContent(m)| <= |IntegerContent(n)| {
      FewerDigits(|IntegerContent(m)|, |IntegerContent(n)|);
    } else {
      FewerDigits(|IntegerContent(n)|, |IntegerContent(m)|);
    }
    assert |IntegerContent(m)| == |IntegerContent(n)|;
    IntegerInjective(m, n);
  }
}
