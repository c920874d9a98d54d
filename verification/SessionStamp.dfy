/**
 Stamps: a time and the MAC that ties it to a purpose and an SSO session
 (crates/contracts/src/session_key.rs).

 HMAC and SHA-256 stay unspecified functions. Nothing is assumed of them beyond the length of their
 output: where the outcome depends on their strength, a lemma names the collision instead.
 */
module SessionStamp {
  import opened Wrappers
  import opened Text
  import opened Numerals

  const BOUND_COOKIE := "sso_bound"
  const BOUND_COOKIE_MAX_AGE_SECS := 600
  const CHALLENGE_MAX_AGE_SECS := 300
  const CHALLENGE_PURPOSE := "dbsc-challenge"
  const BOUND_COOKIE_PURPOSE := "dbsc-bound-cookie"

  type Digest = d: seq<Byte> | |d| == 32 witness seq(32, i => 0)

  /** `mac(key, purpose, message)` and SHA-256. */
  datatype Crypto = Crypto(mac: (seq<Byte>, string, string) -> Digest, sha: string -> Digest)

  // The constant-time comparison

  /** Bitwise exclusive or. */
  function Xor(x: nat, y: nat): nat {
    if x == 0 && y == 0 then 0
    else 2 * Xor(x / 2, y / 2) + (if x % 2 == y % 2 then 0 else 1)
  }

  /** Bitwise or. */
  function Or(x: nat, y: nat): nat {
    if x == 0 && y == 0 then 0
    else 2 * Or(x / 2, y / 2) + (if x % 2 == 0 && y % 2 == 0 then 0 else 1)
  }

  lemma {:induction false} XorZero(x: nat, y: nat)
    ensures Xor(x, y) == 0 <==> x == y
  {
    if x != 0 || y != 0 {
      XorZero(x / 2, y / 2);
    }
  }

  lemma {:induction false} OrZero(x: nat, y: nat)
    ensures Or(x, y) == 0 <==> x == 0 && y == 0
  {
    if x != 0 || y != 0 {
      OrZero(x / 2, y / 2);
    }
  }

  /** `fold(0, |acc, (x, y)| acc | (x ^ y))` */
  function FoldDifference(a: seq<Byte>, b: seq<Byte>, acc: nat): nat
    requires |a| == |b|
  {
    if a == [] then acc
    else FoldDifference(a[1..], b[1..], Or(acc, Xor(a[0], b[0])))
  }

  lemma {:induction false} FoldDifferenceZero(a: seq<Byte>, b: seq<Byte>, acc: nat)
    requires |a| == |b|
    ensures FoldDifference(a, b, acc) == 0 <==> acc == 0 && a == b
  {
    if a != [] {
      FoldDifferenceZero(a[1..], b[1..], Or(acc, Xor(a[0], b[0])));
      XorZero(a[0], b[0]);
      OrZero(acc, Xor(a[0], b[0]));
      ConsEqual(a, b);
    }
  }

  lemma ConsEqual(a: seq<Byte>, b: seq<Byte>)
    requires a != [] && |a| == |b|
    ensures a == b <==> a[0] == b[0] && a[1..] == b[1..]
  {
    assert a == [a[0]] + a[1..] && b == [b[0]] + b[1..];
  }

  predicate ConstantTimeEq(a: seq<Byte>, b: seq<Byte>) {
    |a| == |b| && FoldDifference(a, b, 0) == 0
  }

  // Stamps

  function SessionRef(c: Crypto, session: string): string {
    Hex(c.sha(session))
  }

  function Message(c: Crypto, session: string, at: I64): string {
    SessionRef(c, session) + ":" + DecInt(at)
  }

  function Tag(c: Crypto, key: seq<Byte>, purpose: string, session: string, at: I64): Digest {
    c.mac(key, purpose, Message(c, session, at))
  }

  function Stamp(c: Crypto, key: seq<Byte>, purpose: string, session: string, at: I64): string {
    DecInt(at) + "." + Hex(Tag(c, key, purpose, session, at))
  }

  function ReadStamp(c: Crypto, key: seq<Byte>, purpose: string, session: string, value: string): Option<I64> {
    match SplitOnce(value, '.')
    case None => None
    case Some((at, tag)) =>
      if |at| > 20 || |tag| != 64 then None
      else match (ParseI64(at), Unhex(tag))
        case (Some(n), Some(provided)) =>
          if ConstantTimeEq(Tag(c, key, purpose, session, n), provided) then Some(n) else None
        case _ => None
  }

  /** The texts accepted as a stamp of `at`: any numeral of `at` within 20 characters, and its tag in either case. */
  ghost predicate IsStampOf(c: Crypto, key: seq<Byte>, purpose: string, session: string, at: I64, value: string) {
    exists numeral, tag ::
      && value == numeral + "." + tag
      && |numeral| <= 20
      && ParseI64(numeral) == Some(at)
      && Lower(tag) == Hex(Tag(c, key, purpose, session, at))
  }

  lemma ParseI64HasNoDot(s: string)
    requires ParseI64(s).Some?
    ensures Free(s, {'.', ':'})
  {
    var d := if s[0] == '+' || s[0] == '-' then s[1..] else s;
    assert AllDigits(d);
    assert forall i | 0 < i < |s| :: s[i] == s[1..][i - 1];
  }

  lemma ReadStampExactly(c: Crypto, key: seq<Byte>, purpose: string, session: string, value: string, at: I64)
    ensures ReadStamp(c, key, purpose, session, value) == Some(at)
       <==> IsStampOf(c, key, purpose, session, at, value)
  {
    var expected := Tag(c, key, purpose, session, at);
    if ReadStamp(c, key, purpose, session, value) == Some(at) {
      var (numeral, tag) := SplitOnce(value, '.').value;
      FoldDifferenceZero(expected, Unhex(tag).value, 0);
      UnhexExactly(tag, expected);
      assert value == numeral + "." + tag;
    }
    if IsStampOf(c, key, purpose, session, at, value) {
      var numeral, tag :| && value == numeral + "." + tag && |numeral| <= 20
                          && ParseI64(numeral) == Some(at) && Lower(tag) == Hex(expected);
      ParseI64HasNoDot(numeral);
      SplitOnceIs(numeral, '.', tag);
      UnhexExactly(tag, expected);
      FoldDifferenceZero(expected, expected, 0);
      assert |tag| == |Lower(tag)| == 64;
    }
  }

  /** Reading inverts stamping for every `i64`, the smallest included. */
  lemma ReadStampOfStamp(c: Crypto, key: seq<Byte>, purpose: string, session: string, at: I64)
    ensures ReadStamp(c, key, purpose, session, Stamp(c, key, purpose, session, at)) == Some(at)
  {
    ParseI64OfDecInt(at);
    LowerOfHex(Tag(c, key, purpose, session, at));
    ReadStampExactly(c, key, purpose, session, Stamp(c, key, purpose, session, at), at);
  }

  lemma MessageDetermines(c: Crypto, s1: string, at1: I64, s2: string, at2: I64)
    requires Message(c, s1, at1) == Message(c, s2, at2)
    ensures at1 == at2 && c.sha(s1) == c.sha(s2)
  {
    var r1, r2 := SessionRef(c, s1), SessionRef(c, s2);
    SplitOnceIs(r1, ':', DecInt(at1));
    SplitOnceIs(r2, ':', DecInt(at2));
    assert Message(c, s1, at1) == r1 + [':'] + DecInt(at1);
    assert Message(c, s2, at2) == r2 + [':'] + DecInt(at2);
    DecIntInjective(at1, at2);
    HexInjective(c.sha(s1), c.sha(s2));
  }

  /** Two different sessions with one SHA-256, or two different messages with one tag. */
  ghost predicate Collision(c: Crypto, key: seq<Byte>, p1: string, s1: string, p2: string, s2: string, at: I64) {
    || (s1 != s2 && c.sha(s1) == c.sha(s2))
    || ((p1, Message(c, s1, at)) != (p2, Message(c, s2, at))
        && c.mac(key, p1, Message(c, s1, at)) == c.mac(key, p2, Message(c, s2, at)))
  }

  /**
   A stamp read under any purpose and session gives its own time or nothing, and it gives something for
   another purpose or session only where the MAC or the hash collides.
   */
  lemma StampsDoNotCross(c: Crypto, key: seq<Byte>, p1: string, s1: string, at: I64, p2: string, s2: string)
    ensures ReadStamp(c, key, p2, s2, Stamp(c, key, p1, s1, at))
         == if Tag(c, key, p1, s1, at) == Tag(c, key, p2, s2, at) then Some(at) else None
    ensures Tag(c, key, p1, s1, at) == Tag(c, key, p2, s2, at)
       ==> (p1 == p2 && s1 == s2) || Collision(c, key, p1, s1, p2, s2, at)
  {
    var value := Stamp(c, key, p1, s1, at);
    ParseI64OfDecInt(at);
    SplitOnceIs(DecInt(at), '.', Hex(Tag(c, key, p1, s1, at)));
    LowerOfHex(Tag(c, key, p1, s1, at));
    if Tag(c, key, p1, s1, at) == Tag(c, key, p2, s2, at) {
      assert IsStampOf(c, key, p2, s2, at, value);
      ReadStampExactly(c, key, p2, s2, value, at);
      if Message(c, s1, at) == Message(c, s2, at) {
        MessageDetermines(c, s1, at, s2, at);
      }
    } else if ReadStamp(c, key, p2, s2, value).Some? {
      var n := ReadStamp(c, key, p2, s2, value).value;
      ReadStampExactly(c, key, p2, s2, value, n);
      var numeral, tag :| && value == numeral + "." + tag && |numeral| <= 20
                          && ParseI64(numeral) == Some(n) && Lower(tag) == Hex(Tag(c, key, p2, s2, n));
      ParseI64HasNoDot(numeral);
      SplitOnceIs(numeral, '.', tag);
      HexInjective(Tag(c, key, p1, s1, at), Tag(c, key, p2, s2, n));
    }
  }

  // Challenges

  function Challenge(c: Crypto, key: seq<Byte>, session: string, now: I64): string {
    Stamp(c, key, CHALLENGE_PURPOSE, session, now)
  }

  predicate ChallengeIsFresh(c: Crypto, key: seq<Byte>, session: string, value: string, now: I64) {
    match ReadStamp(c, key, CHALLENGE_PURPOSE, session, value)
    case Some(at) => at <= Wrap64(now + 5) && Wrap64(now - at) <= CHALLENGE_MAX_AGE_SECS
    case None => false
  }

  /**
   Over every pair of times, a challenge is fresh from 5 seconds before its time to 300 seconds after it, except
   where one of the two bounds does not fit an `i64`: a clock within 5 seconds of the largest `i64` wraps to the
   smallest, and an age too large wraps to a negative number and passes.
   */
  lemma ChallengeWindow(c: Crypto, key: seq<Byte>, session: string, at: I64, now: I64)
    ensures ChallengeIsFresh(c, key, session, Challenge(c, key, session, at), now)
       <==> && at <= (if now + 5 <= I64_MAX then now + 5 else now + 5 - 0x1_0000_0000_0000_0000)
            && (now - at <= CHALLENGE_MAX_AGE_SECS || now - at > I64_MAX)
    ensures at >= 0 && now + 5 <= I64_MAX ==>
              (ChallengeIsFresh(c, key, session, Challenge(c, key, session, at), now)
               <==> now - CHALLENGE_MAX_AGE_SECS <= at <= now + 5)
  {
    ReadStampOfStamp(c, key, CHALLENGE_PURPOSE, session, at);
  }

  /** The exception is real: at the epoch, a challenge stamped with the smallest `i64` is fresh. */
  lemma AncientChallengeIsFresh(c: Crypto, key: seq<Byte>, session: string)
    ensures ChallengeIsFresh(c, key, session, Challenge(c, key, session, I64_MIN), 0)
  {
    ReadStampOfStamp(c, key, CHALLENGE_PURPOSE, session, I64_MIN);
  }

  // The short cookie

  function BoundCookie(c: Crypto, key: seq<Byte>, session: string, expiresAt: I64): string {
    Stamp(c, key, BOUND_COOKIE_PURPOSE, session, expiresAt)
  }

  predicate BoundCookieIsValid(c: Crypto, key: seq<Byte>, session: string, value: string, now: I64) {
    match ReadStamp(c, key, BOUND_COOKIE_PURPOSE, session, value)
    case Some(expiresAt) => now < expiresAt && Wrap64(expiresAt - now) <= BOUND_COOKIE_MAX_AGE_SECS
    case None => false
  }

  function BoundCookieExpiresAt(c: Crypto, key: seq<Byte>, session: string, value: string, now: I64): Option<I64> {
    if BoundCookieIsValid(c, key, session, value, now)
    then ReadStamp(c, key, BOUND_COOKIE_PURPOSE, session, value)
    else None
  }

  /**
   Over every pair of times, a short cookie is valid exactly during the 600 seconds before its expiry, or where the
   time left does not fit an `i64` and wraps. Since 1970 it never does. The expiry is what the status page shows.
   */
  lemma BoundCookieWindow(c: Crypto, key: seq<Byte>, session: string, expiresAt: I64, now: I64)
    ensures var value := BoundCookie(c, key, session, expiresAt);
            var valid := now < expiresAt
                         && (expiresAt - now <= BOUND_COOKIE_MAX_AGE_SECS || expiresAt - now > I64_MAX);
            && (BoundCookieIsValid(c, key, session, value, now) <==> valid)
            && BoundCookieExpiresAt(c, key, session, value, now) == (if valid then Some(expiresAt) else None)
    ensures now >= 0 ==>
              (BoundCookieIsValid(c, key, session, BoundCookie(c, key, session, expiresAt), now)
               <==> now < expiresAt <= now + BOUND_COOKIE_MAX_AGE_SECS)
  {
    ReadStampOfStamp(c, key, BOUND_COOKIE_PURPOSE, session, expiresAt);
  }

  /** The exception is real: one second before the epoch, the last expiry an `i64` can hold is valid. */
  lemma DistantCookieIsValid(c: Crypto, key: seq<Byte>, session: string)
    ensures BoundCookieIsValid(c, key, session, BoundCookie(c, key, session, I64_MAX), -1)
  {
    ReadStampOfStamp(c, key, BOUND_COOKIE_PURPOSE, session, I64_MAX);
  }
}
