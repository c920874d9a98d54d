/** The two orders on octet strings: Python's, which the writer sorts by, and the one X.690 asks for. */
module OctetOrder {
  import opened Der
  import opened Sequences

  // Octet strings

  /** Python's order on `bytes`. */
  predicate LexLeq(a: Bytes, b: Bytes) {
    a == [] || (b != [] && (a[0] < b[0] || (a[0] == b[0] && LexLeq(a[1..], b[1..]))))
  }

  /** X.690, 11.6: the shorter string is padded with zero octets. */
  predicate PaddedLeq(a: Bytes, b: Bytes) {
    if a == [] then true
    else if b == [] then a[0] == 0 && PaddedLeq(a[1..], [])
    else a[0] < b[0] || (a[0] == b[0] && PaddedLeq(a[1..], b[1..]))
  }

  lemma {:induction false} OrdersAgree(a: Bytes, b: Bytes)
    requires a <= b || !(b <= a)
    ensures LexLeq(a, b) == PaddedLeq(a, b)
  {
    if a != [] && b != [] && a[0] == b[0] {
      assert a == [a[0]] + a[1..] && b == [b[0]] + b[1..];
      OrdersAgree(a[1..], b[1..]);
    }
  }

  lemma {:induction false} LexTotal(a: Bytes, b: Bytes)
    ensures LexLeq(a, b) || LexLeq(b, a)
    ensures LexLeq(a, b) && LexLeq(b, a) ==> a == b
  {
    if a != [] && b != [] && a[0] == b[0] {
      LexTotal(a[1..], b[1..]);
      assert a == [a[0]] + a[1..] && b == [b[0]] + b[1..];
    }
  }

  lemma {:induction false} LexTransitive(a: Bytes, b: Bytes, c: Bytes)
    requires LexLeq(a, b) && LexLeq(b, c)
    ensures LexLeq(a, c)
  {
    if a != [] && a[0] == b[0] == c[0] {
      LexTransitive(a[1..], b[1..], c[1..]);
    }
  }

  lemma LexIsTotalOrder()
    ensures TotalOrder(LexLeq)
  {
    forall a, b ensures (LexLeq(a, b) || LexLeq(b, a)) && (LexLeq(a, b) && LexLeq(b, a) ==> a == b) {
      LexTotal(a, b);
    }
    forall a, b, c | LexLeq(a, b) && LexLeq(b, c) ensures LexLeq(a, c) {
      LexTransitive(a, b, c);
    }
  }
}
