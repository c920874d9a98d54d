/**
 The string operations the web and contracts crates are built from: splitting, trimming, joining.
 A header or a form field is a `string`; every function follows the Rust method it is named after.
 */
module Text {
  import opened Wrappers

  /** The characters `str::trim` removes: Unicode White_Space. */
  predicate IsWhite(c: char) {
    var p := c as int;
    || 0x09 <= p <= 0x0D || p == 0x20 || p == 0x85 || p == 0xA0 || p == 0x1680
    || 0x2000 <= p <= 0x200A || p == 0x2028 || p == 0x2029 || p == 0x202F || p == 0x205F || p == 0x3000
  }

  const WHITE: set<char> := set c: char | IsWhite(c)

  predicate Free(s: string, seps: set<char>) {
    forall i | 0 <= i < |s| :: s[i] !in seps
  }

  /** Position of the first separator, or the length when there is none. */
  function IndexOf(s: string, seps: set<char>): (i: nat)
    ensures i <= |s|
    ensures Free(s[..i], seps)
    ensures i < |s| ==> s[i] in seps
  {
    if s == [] || s[0] in seps then 0 else 1 + IndexOf(s[1..], seps)
  }

  lemma IndexOfIs(s: string, seps: set<char>, i: nat)
    requires i <= |s| && Free(s[..i], seps)
    requires i < |s| ==> s[i] in seps
    ensures IndexOf(s, seps) == i
  {
    var j := IndexOf(s, seps);
    assert forall k | 0 <= k < i :: s[k] == s[..i][k];
    assert forall k | 0 <= k < j :: s[k] == s[..j][k];
  }

  /** `str::split`: the pieces between separators, one more than there are separators. */
  function Split(s: string, seps: set<char>): (parts: seq<string>)
    ensures |parts| >= 1
    ensures forall k | 0 <= k < |parts| :: Free(parts[k], seps)
    decreases |s|
  {
    var i := IndexOf(s, seps);
    if i == |s| then [s] else [s[..i]] + Split(s[i + 1..], seps)
  }

  /** Splitting a separator-free head, a separator and a tail gives the head and the split of the tail. */
  lemma SplitHead(a: string, sep: char, b: string, seps: set<char>)
    requires Free(a, seps) && sep in seps
    ensures Split(a + [sep] + b, seps) == [a] + Split(b, seps)
  {
    var s := a + [sep] + b;
    assert s[..|a|] == a && s[|a|] == sep && s[|a| + 1..] == b;
    IndexOfIs(s, seps, |a|);
  }

  lemma SplitFree(a: string, seps: set<char>)
    requires Free(a, seps)
    ensures Split(a, seps) == [a]
  {
    assert a[..|a|] == a;
    IndexOfIs(a, seps, |a|);
  }

  /** A separator-free prefix only lengthens the first piece. */
  lemma SplitPrefix(w: string, s: string, seps: set<char>)
    requires Free(w, seps)
    ensures Split(w + s, seps) == [w + Split(s, seps)[0]] + Split(s, seps)[1..]
  {
    var i := IndexOf(s, seps);
    var head := w + s[..i];
    assert Free(head, seps);
    if i == |s| {
      assert s[..i] == s;
      SplitFree(head, seps);
    } else {
      var tail := s[i + 1..];
      assert s == s[..i] + [s[i]] + tail;
      assert w + s == head + [s[i]] + tail;
      SplitHead(head, s[i], tail, seps);
    }
  }

  /** Splitting distributes over a separator. */
  lemma {:induction false} SplitConcat(a: string, sep: char, b: string, seps: set<char>)
    requires sep in seps
    ensures Split(a + [sep] + b, seps) == Split(a, seps) + Split(b, seps)
    decreases |a|
  {
    var i := IndexOf(a, seps);
    if i == |a| {
      assert a[..i] == a;
      SplitHead(a, sep, b, seps);
    } else {
      var head, tail := a[..i], a[i + 1..];
      assert a == head + [a[i]] + tail;
      assert a + [sep] + b == head + [a[i]] + (tail + [sep] + b);
      SplitHead(head, a[i], tail + [sep] + b, seps);
      SplitHead(head, a[i], tail, seps);
      SplitConcat(tail, sep, b, seps);
    }
  }

  /** `str::split_once` on one character. */
  function SplitOnce(s: string, sep: char): (r: Option<(string, string)>)
    ensures r.Some? ==> s == r.value.0 + [sep] + r.value.1 && Free(r.value.0, {sep})
    ensures r.None? <==> Free(s, {sep})
  {
    var i := IndexOf(s, {sep});
    if i == |s| then
      assert s[..i] == s;
      None
    else Some((s[..i], s[i + 1..]))
  }

  lemma SplitOnceIs(a: string, sep: char, b: string)
    requires Free(a, {sep})
    ensures SplitOnce(a + [sep] + b, sep) == Some((a, b))
  {
    var s := a + [sep] + b;
    assert s[..|a|] == a && s[|a|] == sep && s[|a| + 1..] == b;
    IndexOfIs(s, {sep}, |a|);
  }

  function TrimStart(s: string): (r: string)
    ensures r == [] || !IsWhite(r[0])
  {
    if s == [] || !IsWhite(s[0]) then s else TrimStart(s[1..])
  }

  function TrimEnd(s: string): (r: string)
    ensures r == [] || !IsWhite(r[|r| - 1])
    ensures r <= s
  {
    if s == [] || !IsWhite(s[|s| - 1]) then s else TrimEnd(s[..|s| - 1])
  }

  /** `str::trim` */
  function Trim(s: string): string {
    TrimEnd(TrimStart(s))
  }

  predicate Trimmed(s: string) {
    s != [] ==> !IsWhite(s[0]) && !IsWhite(s[|s| - 1])
  }

  lemma TrimEndKeepsStart(s: string)
    requires s == [] || !IsWhite(s[0])
    ensures TrimEnd(s) == [] || TrimEnd(s)[0] == s[0]
  {
  }

  lemma TrimIsTrimmed(s: string)
    ensures Trimmed(Trim(s))
  {
    TrimEndKeepsStart(TrimStart(s));
  }

  lemma TrimOfTrimmed(s: string)
    requires Trimmed(s)
    ensures Trim(s) == s
  {
  }

  /** Trimming the end stops at a character that is not white. */
  lemma {:induction false} TrimEndAfter(a: string, v: string)
    requires a != [] && !IsWhite(a[|a| - 1])
    ensures TrimEnd(a + v) == a + TrimEnd(v)
  {
    if v == [] {
      assert a + v == a;
    } else if IsWhite(v[|v| - 1]) {
      assert (a + v)[..|a + v| - 1] == a + v[..|v| - 1];
      TrimEndAfter(a, v[..|v| - 1]);
    }
  }

  predicate AllWhite(s: string) {
    forall i | 0 <= i < |s| :: IsWhite(s[i])
  }

  lemma {:induction false} TrimWhitePrefix(w: string, s: string)
    requires AllWhite(w)
    ensures Trim(w + s) == Trim(s)
  {
    if w == [] {
      assert w + s == s;
    } else {
      assert (w + s)[1..] == w[1..] + s;
      TrimWhitePrefix(w[1..], s);
    }
  }

  lemma {:induction false} TrimWhiteSuffix(s: string, c: char)
    requires IsWhite(c)
    ensures Trim(s + [c]) == Trim(s)
  {
    if s == [] {
      assert (s + [c])[1..] == [];
    } else if IsWhite(s[0]) {
      assert (s + [c])[1..] == s[1..] + [c];
      TrimWhiteSuffix(s[1..], c);
    } else {
      assert (s + [c])[..|s|] == s;
    }
  }

  /** Trimming removes characters, so it introduces no separator. */
  lemma TrimFree(s: string, seps: set<char>)
    requires Free(s, seps)
    ensures Free(Trim(s), seps)
  {
    TrimStartFree(s, seps);
  }

  lemma {:induction false} TrimStartFree(s: string, seps: set<char>)
    requires Free(s, seps)
    ensures Free(TrimStart(s), seps)
  {
    if s != [] && IsWhite(s[0]) {
      TrimStartFree(s[1..], seps);
    }
  }

  /** `.map(str::trim).filter(|s| !s.is_empty())` */
  function Clean(parts: seq<string>): (r: seq<string>)
    ensures forall k | 0 <= k < |r| :: r[k] != [] && Trimmed(r[k])
  {
    if parts == [] then []
    else
      var t := Trim(parts[0]);
      TrimIsTrimmed(parts[0]);
      (if t == [] then [] else [t]) + Clean(parts[1..])
  }

  lemma {:induction false} CleanFree(parts: seq<string>, seps: set<char>)
    requires forall k | 0 <= k < |parts| :: Free(parts[k], seps)
    ensures forall k | 0 <= k < |Clean(parts)| :: Free(Clean(parts)[k], seps)
  {
    if parts != [] {
      TrimFree(parts[0], seps);
      CleanFree(parts[1..], seps);
    }
  }

  /** `[String]::join` */
  function Join(parts: seq<string>, glue: string): string {
    if parts == [] then ""
    else if |parts| == 1 then parts[0]
    else parts[0] + glue + Join(parts[1..], glue)
  }

  /** Joining separator-free pieces with the separator, then splitting, is the identity. */
  lemma {:induction false} SplitJoin(parts: seq<string>, sep: char)
    requires parts != [] && forall k | 0 <= k < |parts| :: Free(parts[k], {sep})
    ensures Split(Join(parts, [sep]), {sep}) == parts
  {
    if |parts| == 1 {
      SplitFree(parts[0], {sep});
    } else {
      SplitHead(parts[0], sep, Join(parts[1..], [sep]), {sep});
      SplitJoin(parts[1..], sep);
    }
  }

  /** What a cleaned split produces: nonempty, trimmed pieces without separators. */
  predicate CleanPieces(parts: seq<string>, seps: set<char>) {
    forall k | 0 <= k < |parts| :: parts[k] != [] && Trimmed(parts[k]) && Free(parts[k], seps)
  }

  lemma CleanSplitPieces(s: string, seps: set<char>)
    ensures CleanPieces(Clean(Split(s, seps)), seps)
  {
    CleanFree(Split(s, seps), seps);
  }

  /** Joining clean pieces with a separator and white space, then splitting and cleaning, is the identity. */
  lemma {:induction false} CleanSplitJoin(parts: seq<string>, sep: char, w: string, seps: set<char>)
    requires CleanPieces(parts, seps)
    requires sep in seps && AllWhite(w) && Free(w, seps)
    ensures Clean(Split(Join(parts, [sep] + w), seps)) == parts
  {
    if parts == [] {
      SplitFree("", seps);
      assert Split("", seps)[1..] == [];
    } else if |parts| == 1 {
      TrimOfTrimmed(parts[0]);
      SplitFree(parts[0], seps);
      assert [parts[0]][1..] == [];
    } else {
      var rest := Join(parts[1..], [sep] + w);
      assert Join(parts, [sep] + w) == parts[0] + [sep] + (w + rest);
      SplitHead(parts[0], sep, w + rest, seps);
      CleanSplitJoin(parts[1..], sep, w, seps);
      CleanWhitePrefix(w, rest, seps);
      CleanCons(parts[0], Split(w + rest, seps));
    }
  }

  lemma CleanCons(part: string, parts: seq<string>)
    requires part != [] && Trimmed(part)
    ensures Clean([part] + parts) == [part] + Clean(parts)
  {
    TrimOfTrimmed(part);
    assert ([part] + parts)[1..] == parts;
  }

  lemma CleanWhitePrefix(w: string, s: string, seps: set<char>)
    requires AllWhite(w) && Free(w, seps)
    ensures Clean(Split(w + s, seps)) == Clean(Split(s, seps))
  {
    SplitPrefix(w, s, seps);
    var parts := Split(s, seps);
    TrimWhitePrefix(w, parts[0]);
    assert Split(w + s, seps)[1..] == parts[1..];
  }

  /** `str::split_whitespace` */
  function Words(s: string): seq<string> {
    Clean(Split(s, WHITE))
  }

  /** `str::to_ascii_lowercase` */
  function LowerChar(c: char): char {
    if 'A' <= c <= 'Z' then (c as int + 32) as char else c
  }

  function Lower(s: string): (r: string)
    ensures |r| == |s|
    ensures forall i | 0 <= i < |s| :: r[i] == LowerChar(s[i])
  {
    if s == [] then [] else [LowerChar(s[0])] + Lower(s[1..])
  }
}
