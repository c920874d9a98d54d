/**
 The DER writer of scripts/key-attestation-fixtures.py, with a reader made from X.690 alone.

 The writer is total here; `bytes` refuses a count of length octets above 255, which no content in memory
 reaches. The reader refuses whatever the distinguished encoding rules refuse: indefinite and non-minimal
 lengths, tag numbers and integers with leading zeros, and low tag numbers in the long form.
 */
module Der {
  import opened Wrappers
  import opened Numerals

  type Bytes = seq<Byte>

  // Numbers in base 128 and base 256, most significant digit first

  predicate IsBase(base: nat) { base == 128 || base == 256 }

  function Digits(n: nat, base: nat): (r: Bytes)
    requires IsBase(base)
    ensures forall k | 0 <= k < |r| :: r[k] < base
    ensures n == 0 <==> r == []
    ensures n > 0 ==> r[0] > 0
  {
    if n == 0 then [] else Digits(n / base, base) + [n % base]
  }

  function Value(digits: Bytes, base: nat): nat
    requires IsBase(base)
  {
    if digits == [] then 0 else Value(digits[..|digits| - 1], base) * base + digits[|digits| - 1]
  }

  lemma WholeOf(n: nat, base: nat)
    requires IsBase(base)
    ensures n / base * base + n % base == n && (n > 0 ==> n / base < n)
  {
    if base == 128 {
      assert n / 128 * 128 + n % 128 == n;
    } else {
      assert n / 256 * 256 + n % 256 == n;
    }
  }

  lemma ValueAppend(digits: Bytes, d: Byte, base: nat)
    requires IsBase(base)
    ensures Value(digits + [d], base) == Value(digits, base) * base + d
  {
    assert (digits + [d])[..|digits|] == digits;
  }

  lemma {:induction false} ValueOfDigits(n: nat, base: nat)
    requires IsBase(base)
    ensures Value(Digits(n, base), base) == n
  {
    if n > 0 {
      WholeOf(n, base);
      ValueOfDigits(n / base, base);
      ValueAppend(Digits(n / base, base), n % base, base);
    }
  }

  lemma QuotientAndRest(q: nat, d: nat, base: nat)
    requires IsBase(base) && d < base
    ensures (q * base + d) / base == q && (q * base + d) % base == d
  {
    if base == 128 {
      assert (q * 128 + d) / 128 == q;
    } else {
      assert (q * 256 + d) / 256 == q;
    }
  }

  lemma {:induction false} DigitsOfValue(digits: Bytes, base: nat)
    requires IsBase(base) && forall k | 0 <= k < |digits| :: digits[k] < base
    requires digits != [] ==> digits[0] != 0
    ensures Digits(Value(digits, base), base) == digits
  {
    if digits != [] {
      var before, last := digits[..|digits| - 1], digits[|digits| - 1];
      var q := Value(before, base);
      DigitsOfValue(before, base);
      QuotientAndRest(q, last, base);
      assert digits == before + [last];
      assert q == 0 ==> before == [] && last > 0;
      assert Value(digits, base) == q * base + last > 0;
    }
  }

  lemma {:induction false} ValueBelow(digits: Bytes, k: nat)
    requires k == |digits|
    ensures Value(digits, 256) < Power256(k)
  {
    if digits != [] {
      ValueBelow(digits[..k - 1], k - 1);
    }
  }

  lemma {:induction false} LeadingZero(digits: Bytes)
    ensures Value([0] + digits, 256) == Value(digits, 256)
  {
    if digits == [] {
      assert ([0] + digits)[..0] == [];
    } else {
      LeadingZero(digits[..|digits| - 1]);
      assert ([0] + digits)[..|digits|] == [0] + digits[..|digits| - 1];
    }
  }

  function Power256(k: nat): nat {
    if k == 0 then 1 else Power256(k - 1) * 256
  }

  // Python's integers

  /** `int.bit_length` */
  function BitLength(n: nat): nat {
    if n == 0 then 0 else 1 + BitLength(n / 2)
  }

  lemma TwoBits(n: nat)
    requires n >= 4
    ensures BitLength(n) == BitLength(n / 4) + 2
  {
    assert BitLength(n / 2) == 1 + BitLength(n / 2 / 2);
  }

  lemma FourBits(n: nat)
    requires n >= 16
    ensures BitLength(n) == BitLength(n / 16) + 4
  {
    TwoBits(n);
    TwoBits(n / 4);
    assert n / 4 / 4 == n / 16;
  }

  lemma EightBits(n: nat)
    requires n >= 256
    ensures BitLength(n) == BitLength(n / 256) + 8
  {
    FourBits(n);
    FourBits(n / 16);
    assert n / 16 / 16 == n / 256;
  }

  lemma HalfOctet(n: nat)
    requires 0 < n < 16
    ensures 1 <= BitLength(n) <= 4 && (BitLength(n) == 4 <==> n >= 8)
  {
    assert BitLength(1) == 1;
    if 2 <= n < 4 {
      assert n / 2 == 1;
    } else if n >= 4 {
      TwoBits(n);
      assert n >= 8 ==> BitLength(n / 4) == 1 + BitLength(n / 4 / 2) && n / 4 / 2 == 1;
      assert n < 8 ==> n / 4 == 1;
    }
  }

  lemma OneOctet(n: nat)
    requires 0 < n < 256
    ensures 1 <= BitLength(n) <= 8 && (BitLength(n) == 8 <==> n >= 128)
  {
    if n < 16 {
      HalfOctet(n);
    } else {
      FourBits(n);
      HalfOctet(n / 16);
    }
  }

  /** The writer's octet counts: as many as there are digits, and one more for a leading one bit. */
  lemma {:induction false} OctetCounts(n: nat)
    ensures (BitLength(n) + 7) / 8 == |Digits(n, 256)|
    ensures n > 0 ==> (BitLength(n) + 8) / 8 == |Digits(n, 256)| + (if Digits(n, 256)[0] >= 128 then 1 else 0)
  {
    if 0 < n < 256 {
      OneOctet(n);
      assert Digits(n / 256, 256) == [];
    } else if n >= 256 {
      OctetCounts(n / 256);
      EightBits(n);
      assert Digits(n, 256)[0] == Digits(n / 256, 256)[0];
    }
  }

  /** `to_bytes` raises `OverflowError` for a number that does not fit. */
  predicate Fits(n: nat, count: nat) {
    if count == 0 then n == 0 else Fits(n / 256, count - 1)
  }

  /** `int.to_bytes(count, "big")` */
  function ToBytes(n: nat, count: nat): (r: Bytes)
    requires Fits(n, count)
    ensures |r| == count
  {
    if count == 0 then [] else ToBytes(n / 256, count - 1) + [n % 256]
  }

  lemma {:induction false} ToBytesIsDigits(n: nat)
    ensures Fits(n, |Digits(n, 256)|) && ToBytes(n, |Digits(n, 256)|) == Digits(n, 256)
  {
    if n > 0 {
      ToBytesIsDigits(n / 256);
    }
  }

  lemma {:induction false} ToBytesPadded(n: nat)
    ensures Fits(n, |Digits(n, 256)| + 1) && ToBytes(n, |Digits(n, 256)| + 1) == [0] + Digits(n, 256)
  {
    if n > 0 {
      ToBytesPadded(n / 256);
    } else {
      assert Fits(0, 0) && ToBytes(0, 1) == ToBytes(0, 0) + [0];
    }
  }

  // Lengths

  /** `0x80 | count`, for the counts a byte can hold. */
  function HighBit(count: nat): Byte {
    if count < 0x80 then 0x80 + count else count % 256
  }

  /** `_len` */
  function Len(n: nat): Bytes {
    if n < 0x80 then [n]
    else
      OctetCounts(n);
      ToBytesIsDigits(n);
      var body := ToBytes(n, (BitLength(n) + 7) / 8);
      [HighBit(|body|)] + body
  }

  lemma LongLength(n: nat)
    requires n >= 0x80
    ensures Len(n) == [HighBit(|Digits(n, 256)|)] + Digits(n, 256)
  {
    OctetCounts(n);
    ToBytesIsDigits(n);
  }

  /** X.690, 8.1.3.5: at most 126 length octets follow the first. */
  predicate Standard(length: nat) {
    |Digits(length, 256)| <= 126
  }

  /** X.690, 8.1.3 and 10.1 */
  function ReadLength(bs: Bytes): (r: Option<(nat, Bytes)>)
    ensures r.Some? ==> |r.value.1| < |bs|
  {
    if bs == [] then None
    else if bs[0] < 0x80 then Some((bs[0], bs[1..]))
    else
      var k := bs[0] - 0x80;
      if k == 0 || k == 0x7F || |bs| <= k then None
      else
        var octets := bs[1..k + 1];
        var n := Value(octets, 256);
        if octets[0] == 0 || n < 0x80 then None else Some((n, bs[k + 1..]))
  }

  lemma ReadLengthOfLen(n: nat, rest: Bytes)
    requires Standard(n)
    ensures ReadLength(Len(n) + rest) == Some((n, rest))
  {
    var bs := Len(n) + rest;
    if n < 0x80 {
      assert bs[1..] == rest;
    } else {
      LongLength(n);
      var octets := Digits(n, 256);
      ValueOfDigits(n, 256);
      ReadLongLength([HighBit(|octets|)] + octets + rest, octets, rest);
    }
  }

  lemma ReadLongLength(bs: Bytes, octets: Bytes, rest: Bytes)
    requires bs == [HighBit(|octets|)] + octets + rest
    requires 0 < |octets| <= 126 && octets[0] != 0 && Value(octets, 256) >= 0x80
    ensures ReadLength(bs) == Some((Value(octets, 256), rest))
  {
    assert bs[1..|octets| + 1] == octets && bs[|octets| + 1..] == rest;
  }

  lemma ReadLengthExactly(bs: Bytes, n: nat, rest: Bytes)
    requires ReadLength(bs) == Some((n, rest))
    ensures Standard(n) && bs == Len(n) + rest
  {
    if bs[0] < 0x80 {
      assert bs == [bs[0]] + bs[1..];
      assert |Digits(n / 256, 256)| == 0;
    } else {
      LongLengthExactly(bs, bs[0] - 0x80, bs[1..bs[0] - 0x80 + 1], n);
    }
  }

  lemma LongLengthExactly(bs: Bytes, k: nat, octets: Bytes, n: nat)
    requires 0 < k < 0x7F && |bs| > k && bs[0] == 0x80 + k && octets == bs[1..k + 1]
    requires octets[0] != 0 && n == Value(octets, 256) >= 0x80
    ensures Standard(n) && bs == Len(n) + bs[k + 1..]
  {
    DigitsOfValue(octets, 256);
    LongLength(n);
    LeadAndOctets(bs, k);
    assert Len(n) == [bs[0]] + octets;
  }

  lemma LeadAndOctets(bs: Bytes, k: nat)
    requires |bs| > k
    ensures bs == [bs[0]] + bs[1..k + 1] + bs[k + 1..]
  {
  }

  // Tags

  type Kind = k: nat | k < 4

  datatype Tag = Tag(kind: Kind, constructed: bool, number: nat)

  const UNIVERSAL := 0
  const CONTEXT := 2

  function Continued(digits: Bytes): (r: Bytes)
    requires forall k | 0 <= k < |digits| :: digits[k] < 128
    ensures |r| == |digits|
  {
    if |digits| <= 1 then digits else [digits[0] + 0x80] + Continued(digits[1..])
  }

  function LeadOctet(kind: Kind, constructed: bool, low: nat): (r: Byte)
    requires low < 32
    ensures r / 64 == kind && (r / 32 % 2 == 1 <==> constructed) && r % 32 == low
  {
    kind * 64 + (if constructed then 32 else 0) + low
  }

  /** X.690, 8.1.2: the identifier octets of a tag. */
  function TagOctets(tag: Tag): (r: Bytes)
    ensures r != []
  {
    if tag.number < 31 then [LeadOctet(tag.kind, tag.constructed, tag.number)]
    else [LeadOctet(tag.kind, tag.constructed, 31)] + Continued(Digits(tag.number, 128))
  }

  function ReadContinued(bs: Bytes): (r: Option<(Bytes, Bytes)>)
    ensures r.Some? ==> r.value.0 != [] && |r.value.0| + |r.value.1| == |bs|
    ensures r.Some? ==> forall k | 0 <= k < |r.value.0| :: r.value.0[k] < 128
  {
    if bs == [] then None
    else if bs[0] < 0x80 then Some(([bs[0]], bs[1..]))
    else match ReadContinued(bs[1..])
      case None => None
      case Some((digits, rest)) => Some(([bs[0] - 0x80] + digits, rest))
  }

  lemma {:induction false} ReadContinuedOf(digits: Bytes, rest: Bytes)
    requires digits != [] && forall k | 0 <= k < |digits| :: digits[k] < 128
    ensures ReadContinued(Continued(digits) + rest) == Some((digits, rest))
  {
    var bs := Continued(digits) + rest;
    if |digits| == 1 {
      assert bs[1..] == rest && digits == [digits[0]];
    } else {
      assert bs[1..] == Continued(digits[1..]) + rest;
      ReadContinuedOf(digits[1..], rest);
      assert digits == [digits[0]] + digits[1..];
    }
  }

  lemma {:induction false} ReadContinuedExactly(bs: Bytes, digits: Bytes, rest: Bytes)
    requires ReadContinued(bs) == Some((digits, rest))
    ensures bs == Continued(digits) + rest
  {
    if bs[0] < 0x80 {
      assert bs == [bs[0]] + bs[1..];
    } else {
      ReadContinuedExactly(bs[1..], digits[1..], rest);
      assert bs == [bs[0]] + bs[1..];
    }
  }

  /** X.690, 8.1.2.4 */
  function ReadTag(bs: Bytes): (r: Option<(Tag, Bytes)>)
    ensures r.Some? ==> |r.value.1| < |bs|
  {
    if bs == [] then None
    else
      var kind, constructed, low := bs[0] / 64, bs[0] / 32 % 2 == 1, bs[0] % 32;
      if low < 31 then Some((Tag(kind, constructed, low), bs[1..]))
      else match ReadContinued(bs[1..])
        case None => None
        case Some((digits, rest)) =>
          var number := Value(digits, 128);
          if digits[0] == 0 || number < 31 then None else Some((Tag(kind, constructed, number), rest))
  }

  lemma ReadTagOf(tag: Tag, rest: Bytes)
    ensures ReadTag(TagOctets(tag) + rest) == Some((tag, rest))
  {
    var bs := TagOctets(tag) + rest;
    if tag.number < 31 {
      assert bs[1..] == rest;
    } else {
      var digits := Digits(tag.number, 128);
      LongTagRest(LeadOctet(tag.kind, tag.constructed, 31), Continued(digits), rest);
      ReadContinuedOf(digits, rest);
      ValueOfDigits(tag.number, 128);
      LongTag(bs, LeadOctet(tag.kind, tag.constructed, 31), digits, rest);
    }
  }

  lemma LongTagRest(lead: Byte, octets: Bytes, rest: Bytes)
    ensures ([lead] + octets + rest)[0] == lead && ([lead] + octets + rest)[1..] == octets + rest
  {
  }

  lemma LongTag(bs: Bytes, lead: Byte, digits: Bytes, rest: Bytes)
    requires bs != [] && bs[0] == lead && lead % 32 == 31 && ReadContinued(bs[1..]) == Some((digits, rest))
    requires digits != [] && digits[0] != 0 && Value(digits, 128) >= 31
    ensures ReadTag(bs) == Some((Tag(lead / 64, lead / 32 % 2 == 1, Value(digits, 128)), rest))
  {
  }

  lemma ReadTagExactly(bs: Bytes, tag: Tag, rest: Bytes)
    requires ReadTag(bs) == Some((tag, rest))
    ensures bs == TagOctets(tag) + rest
  {
    LeadIs(bs[0]);
    assert bs == [bs[0]] + bs[1..];
    if bs[0] % 32 == 31 {
      var digits := ReadContinued(bs[1..]).value.0;
      ReadContinuedExactly(bs[1..], digits, rest);
      DigitsOfValue(digits, 128);
      assert [bs[0]] + (Continued(digits) + rest) == [bs[0]] + Continued(digits) + rest;
    }
  }

  lemma LeadIs(b: Byte)
    ensures LeadOctet(b / 64, b / 32 % 2 == 1, b % 32) == b
  {
  }

  // Elements

  /** `tlv` */
  function Tlv(tag: Bytes, body: Bytes): Bytes {
    tag + Len(|body|) + body
  }

  function Element(tag: Tag, content: Bytes): Bytes
  {
    Tlv(TagOctets(tag), content)
  }

  function ReadElement(bs: Bytes): (r: Option<(Tag, Bytes, Bytes)>)
    ensures r.Some? ==> |r.value.1| + |r.value.2| < |bs|
  {
    match ReadTag(bs)
    case None => None
    case Some((tag, after)) =>
      match ReadLength(after)
      case None => None
      case Some((n, rest)) => if |rest| < n then None else Some((tag, rest[..n], rest[n..]))
  }

  /** Every element is read back, whatever follows it, exactly when its length is one X.690 can express. */
  lemma ElementReadsBack(tag: Tag, content: Bytes, rest: Bytes)
    ensures ReadElement(Element(tag, content) + rest) == Some((tag, content, rest)) <==> Standard(|content|)
  {
    if Standard(|content|) {
      var after := Len(|content|) + (content + rest);
      assert Element(tag, content) + rest == TagOctets(tag) + after;
      ReadTagOf(tag, after);
      ReadLengthOfLen(|content|, content + rest);
      assert (content + rest)[..|content|] == content && (content + rest)[|content|..] == rest;
    }
    if ReadElement(Element(tag, content) + rest) == Some((tag, content, rest)) {
      ReadElementExactly(Element(tag, content) + rest, tag, content, rest);
    }
  }

  /** Nothing but the writer's own octets is read: the encoding is canonical. */
  lemma ReadElementExactly(bs: Bytes, tag: Tag, content: Bytes, rest: Bytes)
    requires ReadElement(bs) == Some((tag, content, rest))
    ensures Standard(|content|) && bs == Element(tag, content) + rest
  {
    var after := ReadTag(bs).value.1;
    ReadTagExactly(bs, tag, after);
    var tail := ReadLength(after).value.1;
    ReadLengthExactly(after, |content|, tail);
    assert tail == content + rest;
    ElementOfParts(TagOctets(tag), Len(|content|), content, rest, after);
  }

  lemma ElementOfParts(tag: Bytes, length: Bytes, content: Bytes, rest: Bytes, after: Bytes)
    requires after == length + (content + rest)
    ensures tag + after == (tag + length + content) + rest
  {
  }

  // Integers

  function IntegerContent(n: nat): (r: Bytes)
    ensures r != []
  {
    var count := if (BitLength(n) + 8) / 8 > 1 then (BitLength(n) + 8) / 8 else 1;
    OctetCounts(n);
    ToBytesIsDigits(n);
    ToBytesPadded(n);
    ToBytes(n, count)
  }

  lemma IntegerContentIs(n: nat)
    ensures IntegerContent(n) == if n == 0 || Digits(n, 256)[0] >= 128 then [0] + Digits(n, 256) else Digits(n, 256)
  {
    OctetCounts(n);
    ToBytesIsDigits(n);
    ToBytesPadded(n);
  }

  /** X.690, 8.3: two's complement, and not all of the first nine bits alike. */
  function ReadInteger(content: Bytes): Option<int> {
    if content == [] then None
    else if |content| > 1 && ((content[0] == 0 && content[1] < 128) || (content[0] == 255 && content[1] >= 128)) then None
    else if content[0] < 128 then Some(Value(content, 256))
    else Some(Value(content, 256) - Power256(|content|))
  }

  /** The writer's content is the one and only encoding of a number. */
  lemma IntegerReadsBack(n: nat, content: Bytes)
    ensures ReadInteger(content) == Some(n) <==> content == IntegerContent(n)
  {
    if content == IntegerContent(n) {
      IntegerReads(n);
    }
    if ReadInteger(content) == Some(n) {
      IntegerReadsExactly(n, content);
    }
  }

  lemma IntegerReads(n: nat)
    ensures ReadInteger(IntegerContent(n)) == Some(n)
  {
    IntegerContentIs(n);
    LeadingZero(Digits(n, 256));
    ValueOfDigits(n, 256);
  }

  lemma IntegerReadsExactly(n: nat, content: Bytes)
    requires ReadInteger(content) == Some(n)
    ensures content == IntegerContent(n)
  {
    IntegerContentIs(n);
    ValueBelow(content, |content|);
    if content[0] == 0 {
      assert content == [0] + content[1..];
      LeadingZero(content[1..]);
      DigitsOfValue(content[1..], 256);
    } else {
      DigitsOfValue(content, 256);
    }
  }

  function Integer(n: nat): Bytes {
    Tlv([0x02], IntegerContent(n))
  }

  /** `integer(n)[2:]` assumes a two-octet header. */
  function Enumerated(n: nat): Bytes {
    Tlv([0x0A], EnumeratedContent(n))
  }

  function EnumeratedContent(n: nat): Bytes {
    Integer(n)[2..]
  }

  /** An enumerated value carries the integer's content exactly while that fits the short length form. */
  lemma EnumeratedIsInteger(n: nat)
    ensures EnumeratedContent(n) == IntegerContent(n) <==> |IntegerContent(n)| < 128
  {
    var body := IntegerContent(n);
    if |body| < 128 {
      assert Integer(n) == [0x02, |body|] + body;
    } else {
      LongLength(|body|);
      assert |Integer(n)| == 2 + |Digits(|body|, 256)| + |body|;
    }
  }

  lemma {:induction false} PowerDigits(k: nat)
    ensures Power256(k) > 0 && |Digits(Power256(k), 256)| == k + 1
  {
    if k == 0 {
      assert Digits(1 / 256, 256) == [];
    } else {
      PowerDigits(k - 1);
      assert Power256(k) / 256 == Power256(k - 1);
    }
  }

  /** The powers of 256 from the 127th on are too large for it. */
  lemma LargeEnumeratedIsWrong(k: nat)
    requires k >= 127
    ensures EnumeratedContent(Power256(k)) != IntegerContent(Power256(k))
  {
    PowerDigits(k);
    IntegerContentIs(Power256(k));
    EnumeratedIsInteger(Power256(k));
  }

  function Octets(b: Bytes): Bytes {
    Tlv([0x04], b)
  }

  function Boolean(v: bool): Bytes {
    Tlv([0x01], if v then [0xFF] else [0x00])
  }

  function Null(): Bytes {
    [0x05, 0x00]
  }

  function Concat(items: seq<Bytes>): Bytes {
    if items == [] then [] else items[0] + Concat(items[1..])
  }

  function Sequence(items: seq<Bytes>): Bytes {
    Tlv([0x30], Concat(items))
  }

  function ContextTag(number: nat): Tag {
    Tag(CONTEXT, true, number)
  }

  function MarkAll(parts: Bytes): (r: Bytes)
    requires forall k | 0 <= k < |parts| :: parts[k] < 128
    ensures |r| == |parts|
  {
    seq(|parts|, k requires 0 <= k < |parts| => parts[k] + 0x80)
  }

  lemma {:induction false} MarkedIsContinued(parts: Bytes)
    requires parts != [] && forall k | 0 <= k < |parts| :: parts[k] < 128
    ensures MarkAll(parts[..|parts| - 1]) + [parts[|parts| - 1]] == Continued(parts)
  {
    if |parts| == 1 {
      assert parts == [parts[0]];
    } else {
      var tail := parts[1..];
      MarkedIsContinued(tail);
      assert parts[..|parts| - 1] == [parts[0]] + tail[..|tail| - 1];
      MarkCons(parts[0], tail[..|tail| - 1]);
    }
  }

  lemma MarkCons(first: Byte, rest: Bytes)
    requires first < 128 && forall k | 0 <= k < |rest| :: rest[k] < 128
    ensures MarkAll([first] + rest) == [first + 0x80] + MarkAll(rest)
  {
  }

  /** `context`: the seven-bit groups come out last first. */
  method Context(number: nat, inner: Bytes) returns (r: Bytes)
    ensures r == Element(ContextTag(number), inner)
  {
    var tag: Bytes;
    if number < 31 {
      tag := [0xA0 + number];
    } else {
      var parts: Bytes := [];
      var n := number;
      while true
        invariant n > 0
        invariant forall k | 0 <= k < |parts| :: parts[k] < 128
        invariant Digits(number, 128) == Digits(n, 128) + parts
        decreases n
      {
        parts := [n % 128] + parts;
        n := n / 128;
        if n == 0 {
          break;
        }
      }
      assert parts == Digits(number, 128);
      MarkedIsContinued(parts);
      tag := [0xBF] + (MarkAll(parts[..|parts| - 1]) + [parts[|parts| - 1]]);
    }
    r := Tlv(tag, inner);
  }
}
