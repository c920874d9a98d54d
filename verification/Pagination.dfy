/**
 Pager links (crates/web/src/pagination.rs): which pages are linked, over every `i64`, and what their query
 strings decode to. Query keys and values are the UTF-8 octets of the strings.
 */
module Pagination {
  import opened Wrappers
  import opened Text
  import opened Numerals

  // Which pages are linked

  /** `i64::saturating_add` */
  function SaturatingAdd(a: I64, b: I64): I64 {
    if a + b > I64_MAX then I64_MAX else if a + b < I64_MIN then I64_MIN else a + b
  }

  function Max(a: I64, b: I64): I64 {
    if a < b then b else a
  }

  /** The offsets of the previous and the next page, where there are links to them. */
  function LinkedOffsets(offset: I64, limit: I64, total: I64): (Option<I64>, Option<I64>) {
    var step, at := Max(limit, 1), Max(offset, 0);
    var next := SaturatingAdd(at, step);
    (if at > 0 then Some(Max(at - step, 0)) else None, if next < total then Some(next) else None)
  }

  function Prev(offset: I64, limit: I64, total: I64): Option<I64> {
    LinkedOffsets(offset, limit, total).0
  }

  function Next(offset: I64, limit: I64, total: I64): (r: Option<I64>)
    ensures r.Some? ==> Max(offset, 0) < r.value < total
  {
    LinkedOffsets(offset, limit, total).1
  }

  /** Saturation shows in no link: there is a next page exactly when the sum, without bounds, is below the total. */
  lemma NextIsExact(offset: I64, limit: I64, total: I64)
    ensures var sum: int := Max(offset, 0) as int + Max(limit, 1) as int;
            Next(offset, limit, total) == if sum < total then Some(sum) else None
  {
  }

  lemma PrevUndoesNext(offset: I64, limit: I64, total: I64)
    requires offset >= 0 && Next(offset, limit, total).Some?
    ensures Prev(Next(offset, limit, total).value, limit, total) == Some(offset)
  {
  }

  /** Going back and forth returns to the same page exactly when going back was a full step. */
  lemma NextUndoesPrev(offset: I64, limit: I64, total: I64)
    requires 0 < offset < total
    ensures Next(Prev(offset, limit, total).value, limit, total) == Some(offset) <==> offset >= Max(limit, 1)
  {
  }

  // Following `next`

  /** The offsets visited from one on. */
  function Walk(offset: I64, limit: I64, total: I64): (r: seq<I64>)
    ensures r != [] && r[0] == offset
    decreases total - offset
  {
    match Next(offset, limit, total)
    case None => [offset]
    case Some(next) => [offset] + Walk(next, limit, total)
  }

  predicate Adjacent(walk: seq<I64>, step: int) {
    forall k | 0 <= k < |walk| - 1 :: walk[k + 1] == walk[k] + step
  }

  lemma {:induction false} WalkSteps(offset: I64, limit: I64, total: I64)
    requires offset >= 0
    ensures Adjacent(Walk(offset, limit, total), Max(limit, 1))
    decreases total - offset
  {
    var next := Next(offset, limit, total);
    if next.Some? {
      WalkSteps(next.value, limit, total);
    }
  }

  lemma {:induction false} WalkEnds(offset: I64, limit: I64, total: I64)
    requires 0 <= offset
    ensures var walk := Walk(offset, limit, total);
            walk[|walk| - 1] as int + Max(limit, 1) >= total && (offset < total ==> walk[|walk| - 1] < total)
    decreases total - offset
  {
    var next := Next(offset, limit, total);
    if next.Some? {
      WalkEnds(next.value, limit, total);
      var rest := Walk(next.value, limit, total);
      assert ([offset] + rest)[|rest|] == rest[|rest| - 1];
    }
  }

  /** Every row of the list is on exactly one of the pages visited from the first. */
  lemma PagesPartition(limit: I64, total: I64, row: int)
    requires 0 <= row < total
    ensures var walk := Walk(0, limit, total);
            exists k | 0 <= k < |walk| ::
              && OnPage(walk[k], limit, row)
              && forall j | 0 <= j < |walk| && j != k :: !OnPage(walk[j], limit, row)
  {
    WalkSteps(0, limit, total);
    WalkEnds(0, limit, total);
    var walk := Walk(0, limit, total);
    var k := PageOf(walk, Max(limit, 1), row);
    forall j | 0 <= j < |walk| && j != k ensures !OnPage(walk[j], limit, row) {
      Spread(walk, Max(limit, 1), if j < k then j else k, if j < k then k else j);
    }
  }

  predicate OnPage(offset: I64, limit: I64, row: int) {
    offset <= row < offset as int + Max(limit, 1)
  }

  lemma {:induction false} PageOf(walk: seq<I64>, step: int, row: int) returns (k: nat)
    requires walk != [] && step >= 1 && Adjacent(walk, step)
    requires walk[0] <= row < walk[|walk| - 1] + step
    ensures k < |walk| && walk[k] <= row < walk[k] + step
    decreases |walk|
  {
    if row < walk[0] + step {
      k := 0;
    } else {
      var j := PageOf(walk[1..], step, row);
      k := j + 1;
    }
  }

  lemma {:induction false} Spread(walk: seq<I64>, step: int, i: nat, j: nat)
    requires step >= 1 && Adjacent(walk, step) && i < j < |walk|
    ensures walk[i] + step <= walk[j]
    decreases j
  {
    if i < j - 1 {
      Spread(walk, step, i, j - 1);
    }
    assert walk[j - 1 + 1] == walk[j - 1] + step;
  }

  /** The walk has one page for each started `limit` rows, and one page when there are none. */
  lemma {:induction false} WalkLength(offset: I64, limit: I64, total: I64)
    requires 0 <= offset
    ensures var pages, step := |Walk(offset, limit, total)|, Max(limit, 1);
            if total <= offset then pages == 1
            else (pages - 1) * step < total as int - offset as int <= pages * step
    decreases total - offset
  {
    var next := Next(offset, limit, total);
    if next.Some? {
      WalkLength(next.value, limit, total);
      var pages, step := |Walk(next.value, limit, total)|, Max(limit, 1);
      OneMore(pages, step);
      OneMore(pages - 1, step);
    }
  }

  lemma OneMore(n: int, step: int)
    ensures (n + 1) * step == n * step + step
  {
  }

  // Percent-encoding

  predicate Unreserved(b: Byte) {
    || 'A' as int <= b <= 'Z' as int || 'a' as int <= b <= 'z' as int || '0' as int <= b <= '9' as int
    || b == '-' as int || b == '.' as int || b == '_' as int || b == '~' as int
  }

  function UpperHexDigit(d: nat): char
    requires d < 16
  {
    if d < 10 then (d + '0' as int) as char else (d - 10 + 'A' as int) as char
  }

  function EncodeByte(b: Byte): string {
    if Unreserved(b) then [b as char] else ['%', UpperHexDigit(b / 16), UpperHexDigit(b % 16)]
  }

  function Encoded(bytes: seq<Byte>): string {
    if bytes == [] then "" else Encoded(bytes[..|bytes| - 1]) + EncodeByte(bytes[|bytes| - 1])
  }

  method UrlEncode(bytes: seq<Byte>) returns (out: string)
    ensures out == Encoded(bytes)
  {
    out := "";
    for k := 0 to |bytes|
      invariant out == Encoded(bytes[..k])
    {
      assert bytes[..k + 1][..k] == bytes[..k];
      var b := bytes[k];
      if Unreserved(b) {
        out := out + [b as char];
      } else {
        out := out + ['%', UpperHexDigit(b / 16), UpperHexDigit(b % 16)];
      }
    }
    assert bytes[..|bytes|] == bytes;
  }

  /** Decoding of a form-encoded text: a plus sign is a space, and a malformed escape stands for itself. */
  function Decoded(s: string): seq<Byte> {
    if s == [] then []
    else if s[0] == '%' && |s| >= 3 && HexValue(s[1]).Some? && HexValue(s[2]).Some? then
      [16 * HexValue(s[1]).value + HexValue(s[2]).value] + Decoded(s[3..])
    else [if s[0] == '+' then 0x20 else s[0] as int % 256] + Decoded(s[1..])
  }

  lemma DecodeByte(b: Byte, rest: string)
    ensures Decoded(EncodeByte(b) + rest) == [b] + Decoded(rest)
  {
    if Unreserved(b) {
      assert ([b as char] + rest)[1..] == rest;
    } else {
      UpperHexValue(b / 16);
      UpperHexValue(b % 16);
      DecodeEscape(UpperHexDigit(b / 16), UpperHexDigit(b % 16), rest);
    }
  }

  lemma DecodeEscape(high: char, low: char, rest: string)
    requires HexValue(high).Some? && HexValue(low).Some?
    ensures Decoded(['%', high, low] + rest) == [16 * HexValue(high).value + HexValue(low).value] + Decoded(rest)
  {
    assert (['%', high, low] + rest)[3..] == rest;
  }

  lemma UpperHexValue(d: nat)
    requires d < 16
    ensures HexValue(UpperHexDigit(d)) == Some(d)
  {
  }

  lemma {:induction false} DecodeConcat(bytes: seq<Byte>, rest: string)
    ensures Decoded(Encoded(bytes) + rest) == bytes + Decoded(rest)
  {
    if bytes == [] {
      assert "" + rest == rest;
    } else {
      var before, last := bytes[..|bytes| - 1], bytes[|bytes| - 1];
      assert bytes == before + [last];
      DecodeConcat(before, EncodeByte(last) + rest);
      DecodeAppend(before, last, rest);
    }
  }

  lemma DecodeAppend(before: seq<Byte>, last: Byte, rest: string)
    requires Decoded(Encoded(before) + (EncodeByte(last) + rest)) == before + Decoded(EncodeByte(last) + rest)
    ensures Decoded(Encoded(before + [last]) + rest) == before + [last] + Decoded(rest)
  {
    EncodedAppend(before, last);
    Regroup(Encoded(before), EncodeByte(last), rest);
    DecodeByte(last, rest);
    Regroup(before, [last], Decoded(rest));
  }

  lemma Regroup<T>(a: seq<T>, b: seq<T>, c: seq<T>)
    ensures a + b + c == a + (b + c)
  {
  }

  /** Every text is read back from its percent-encoding, which uses only unreserved characters and escapes. */
  lemma PercentRoundTrip(bytes: seq<Byte>)
    ensures Decoded(Encoded(bytes)) == bytes
    ensures Plain(Encoded(bytes))
  {
    DecodeConcat(bytes, "");
    assert Encoded(bytes) + "" == Encoded(bytes);
    EncodedPlain(bytes);
  }

  predicate Plain(s: string) {
    forall i | 0 <= i < |s| :: s[i] == '%' || (s[i] as int < 256 && Unreserved(s[i] as int))
  }

  lemma {:induction false} EncodedPlain(bytes: seq<Byte>)
    ensures Plain(Encoded(bytes))
  {
    if bytes != [] {
      EncodedPlain(bytes[..|bytes| - 1]);
      BytePlain(bytes[|bytes| - 1]);
    }
  }

  lemma BytePlain(b: Byte)
    ensures Plain(EncodeByte(b))
  {
  }

  // Queries

  type Pair = (seq<Byte>, seq<Byte>)

  function PairText(pair: Pair): string {
    Encoded(pair.0) + "=" + Encoded(pair.1)
  }

  function QueryTail(extra: seq<Pair>): string {
    if extra == [] then ""
    else
      var last := extra[|extra| - 1];
      QueryTail(extra[..|extra| - 1]) + (if last.1 == [] then "" else "&" + PairText(last))
  }

  function Href(base: string, extra: seq<Pair>, offset: I64): string {
    base + "?" + ("offset=" + DecInt(offset) + QueryTail(extra))
  }

  lemma TailStep(extra: seq<Pair>, k: nat)
    requires k < |extra|
    ensures QueryTail(extra[..k + 1])
         == QueryTail(extra[..k]) + (if extra[k].1 == [] then "" else "&" + PairText(extra[k]))
  {
    assert extra[..k + 1][..k] == extra[..k];
  }

  method BuildHref(base: string, extra: seq<Pair>, offset: I64) returns (r: string)
    ensures r == Href(base, extra, offset)
  {
    var query := "offset=" + DecInt(offset);
    ghost var start := query;
    for k := 0 to |extra|
      invariant query == start + QueryTail(extra[..k])
    {
      TailStep(extra, k);
      Regroup(start, QueryTail(extra[..k]), if extra[k].1 == [] then "" else "&" + PairText(extra[k]));
      if extra[k].1 == [] {
        continue;
      }
      var key := UrlEncode(extra[k].0);
      var value := UrlEncode(extra[k].1);
      query := query + ("&" + (key + "=" + value));
    }
    assert extra[..|extra|] == extra;
    r := base + "?" + query;
  }

  datatype PagerLinks = PagerLinks(prev: Option<string>, next: Option<string>)

  method BuildPagerLinks(base: string, extra: seq<Pair>, offset: I64, limit: I64, total: I64) returns (r: PagerLinks)
    ensures r.prev == match Prev(offset, limit, total) case None => None case Some(o) => Some(Href(base, extra, o))
    ensures r.next == match Next(offset, limit, total) case None => None case Some(o) => Some(Href(base, extra, o))
  {
    var step, at := Max(limit, 1), Max(offset, 0);
    var nextOffset := SaturatingAdd(at, step);
    r := PagerLinks(None, None);
    if at > 0 {
      var href := BuildHref(base, extra, Max(at - step, 0));
      r := r.(prev := Some(href));
    }
    if nextOffset < total {
      var href := BuildHref(base, extra, nextOffset);
      r := r.(next := Some(href));
    }
  }

  // Reading a link

  function NonEmptyPieces(pieces: seq<string>): seq<string> {
    if pieces == [] then []
    else (if pieces[0] == "" then [] else [pieces[0]]) + NonEmptyPieces(pieces[1..])
  }

  function ReadPair(piece: string): Pair {
    match SplitOnce(piece, '=')
    case None => (Decoded(piece), [])
    case Some((key, value)) => (Decoded(key), Decoded(value))
  }

  function ReadPairs(pieces: seq<string>): (r: seq<Pair>)
    ensures |r| == |pieces|
  {
    seq(|pieces|, k requires 0 <= k < |pieces| => ReadPair(pieces[k]))
  }

  /** What the receiver of a link finds in its query: form-encoded pairs between ampersands. */
  function ReadQuery(query: string): seq<Pair> {
    ReadPairs(NonEmptyPieces(Split(query, {'&'})))
  }

  function NonEmptyExtras(extra: seq<Pair>): seq<Pair> {
    if extra == [] then []
    else NonEmptyExtras(extra[..|extra| - 1]) + (if extra[|extra| - 1].1 == [] then [] else [extra[|extra| - 1]])
  }

  function PairTexts(extra: seq<Pair>): (r: seq<string>)
    ensures |r| == |extra|
  {
    seq(|extra|, k requires 0 <= k < |extra| => PairText(extra[k]))
  }

  /** The octets of an ASCII text. */
  function Ascii(s: string): seq<Byte> {
    seq(|s|, k requires 0 <= k < |s| => s[k] as int % 256)
  }

  lemma EncodedAppend(bytes: seq<Byte>, b: Byte)
    ensures Encoded(bytes + [b]) == Encoded(bytes) + EncodeByte(b)
  {
    assert (bytes + [b])[..|bytes|] == bytes;
  }

  predicate UnreservedText(s: string) {
    forall k | 0 <= k < |s| :: s[k] as int < 256 && Unreserved(s[k] as int)
  }

  lemma EncodedChar(s: string, c: char)
    requires c as int < 256 && Unreserved(c as int) && Encoded(Ascii(s)) == s
    ensures Encoded(Ascii(s + [c])) == s + [c]
  {
    AsciiAppend(s, c);
    EncodedAppend(Ascii(s), c as int);
  }

  lemma AsciiAppend(s: string, c: char)
    requires c as int < 256
    ensures Ascii(s + [c]) == Ascii(s) + [c as int]
  {
  }

  lemma {:induction false} EncodedAscii(s: string)
    requires UnreservedText(s)
    ensures Encoded(Ascii(s)) == s
  {
    if s != [] {
      var before, last := s[..|s| - 1], s[|s| - 1];
      assert s == before + [last] && UnreservedText(before);
      EncodedAscii(before);
      EncodedChar(before, last);
    }
  }

  lemma {:induction false} JoinAppend(parts: seq<string>, last: string, glue: string)
    requires parts != []
    ensures Join(parts + [last], glue) == Join(parts, glue) + glue + last
  {
    assert (parts + [last])[1..] == parts[1..] + [last];
    if |parts| > 1 {
      JoinAppend(parts[1..], last, glue);
      AppendText(parts[0], glue, Join(parts[1..], glue), last);
    }
  }

  lemma AppendText(first: string, glue: string, middle: string, last: string)
    ensures first + glue + (middle + glue + last) == (first + glue + middle) + glue + last
  {
  }

  lemma {:induction false} QueryIsJoin(first: string, extra: seq<Pair>)
    ensures first + QueryTail(extra) == Join([first] + PairTexts(NonEmptyExtras(extra)), "&")
  {
    if extra == [] {
      NoExtras(first);
    } else {
      var before, last := extra[..|extra| - 1], extra[|extra| - 1];
      assert extra == before + [last];
      QueryIsJoin(first, before);
      JoinOneMore(first, before, last);
    }
  }

  lemma NoExtras(first: string)
    ensures first + QueryTail([]) == Join([first] + PairTexts(NonEmptyExtras([])), "&")
  {
    assert first + "" == first && [first] + [] == [first];
  }

  lemma JoinOneMore(first: string, before: seq<Pair>, last: Pair)
    requires first + QueryTail(before) == Join([first] + PairTexts(NonEmptyExtras(before)), "&")
    ensures first + QueryTail(before + [last]) == Join([first] + PairTexts(NonEmptyExtras(before + [last])), "&")
  {
    var all, kept := before + [last], NonEmptyExtras(before);
    assert all[..|before|] == before;
    if last.1 == [] {
      assert QueryTail(all) == QueryTail(before) + "" == QueryTail(before);
      assert NonEmptyExtras(all) == kept + [] == kept;
    } else {
      var texts := [first] + PairTexts(kept);
      assert [first] + PairTexts(kept + [last]) == texts + [PairText(last)];
      JoinAppend(texts, PairText(last), "&");
      AppendPair(first, QueryTail(before), PairText(last));
    }
  }

  lemma AppendPair(first: string, tail: string, text: string)
    ensures first + (tail + ("&" + text)) == (first + tail) + "&" + text
  {
  }

  lemma PairTextReads(pair: Pair)
    ensures ReadPair(PairText(pair)) == pair
    ensures PairText(pair) != "" && Free(PairText(pair), {'&'})
  {
    var key, value := Encoded(pair.0), Encoded(pair.1);
    PercentRoundTrip(pair.0);
    PercentRoundTrip(pair.1);
    PlainFree(key);
    PlainFree(value);
    assert PairText(pair) == key + ['='] + value;
    SplitOnceIs(key, '=', value);
  }

  lemma PlainFree(s: string)
    requires Plain(s)
    ensures Free(s, {'&'}) && Free(s, {'='})
  {
  }

  lemma {:induction false} AllNonEmpty(pieces: seq<string>)
    requires forall k | 0 <= k < |pieces| :: pieces[k] != ""
    ensures NonEmptyPieces(pieces) == pieces
  {
    if pieces != [] {
      AllNonEmpty(pieces[1..]);
    }
  }

  lemma JoinReads(pairs: seq<Pair>)
    requires pairs != []
    ensures ReadQuery(Join(PairTexts(pairs), "&")) == pairs
  {
    var texts := PairTexts(pairs);
    forall k | 0 <= k < |pairs|
      ensures ReadPair(texts[k]) == pairs[k] && texts[k] != "" && Free(texts[k], {'&'})
    {
      PairTextReads(pairs[k]);
    }
    assert "&" == ['&'];
    SplitJoin(texts, '&');
    AllNonEmpty(texts);
  }

  lemma TextsCons(first: Pair, pairs: seq<Pair>)
    ensures PairTexts([first] + pairs) == [PairText(first)] + PairTexts(pairs)
  {
  }

  lemma OffsetText(offset: I64)
    ensures "offset=" + DecInt(offset) == PairText((Ascii("offset"), Ascii(DecInt(offset))))
  {
    EncodedAscii("offset");
    DecIntUnreserved(offset);
    EncodedAscii(DecInt(offset));
    assert "offset" + "=" == "offset=";
  }

  lemma DecIntUnreserved(offset: I64)
    ensures UnreservedText(DecInt(offset))
  {
    var n: nat := if offset < 0 then 0 - offset else offset;
    assert AllDigits(Dec(n));
  }

  /** A link decodes to its base, its offset, and exactly the extra pairs that are not empty. */
  lemma LinkReadsBack(base: string, extra: seq<Pair>, offset: I64)
    requires Free(base, {'?'})
    ensures var query := "offset=" + DecInt(offset) + QueryTail(extra);
            && SplitOnce(Href(base, extra, offset), '?') == Some((base, query))
            && ReadQuery(query) == [(Ascii("offset"), Ascii(DecInt(offset)))] + NonEmptyExtras(extra)
    ensures ParseI64(DecInt(offset)) == Some(offset)
  {
    var first := (Ascii("offset"), Ascii(DecInt(offset)));
    var query := "offset=" + DecInt(offset) + QueryTail(extra);
    SplitHref(base, query);
    OffsetText(offset);
    QueryIsJoin(PairText(first), extra);
    TextsCons(first, NonEmptyExtras(extra));
    JoinReads([first] + NonEmptyExtras(extra));
    ParseI64OfDecInt(offset);
  }

  lemma SplitHref(base: string, query: string)
    requires Free(base, {'?'})
    ensures SplitOnce(base + "?" + query, '?') == Some((base, query))
  {
    assert base + "?" + query == base + ['?'] + query;
    SplitOnceIs(base, '?', query);
  }
}
