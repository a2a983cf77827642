/** Bytes, and `std::string` as a sequence of them with the order of its `operator<`. */
module ByteStrings {

  type Byte = x: int | 0 <= x < 256
  type Bytes = seq<Byte>

  /** `std::string::operator<`. */
  predicate StringLess(a: Bytes, b: Bytes) {
    if |b| == 0 then false
    else if |a| == 0 then true
    else a[0] < b[0] || (a[0] == b[0] && StringLess(a[1..], b[1..]))
  }

  /** Lexicographic: at the first place where they differ the lesser byte decides, and a proper
      prefix comes first. */
  lemma {:induction false} StringLessExactly(a: Bytes, b: Bytes)
    ensures StringLess(a, b) <==> exists k: nat :: Decides(a, b, k)
  {
    if |a| > 0 && |b| > 0 {
      StringLessExactly(a[1..], b[1..]);
      forall k: nat ensures Decides(a, b, k) <==> DecidesByHead(a, b, k) {
        HeadDecides(a, b, k);
      }
      if a[0] < b[0] {
        assert DecidesByHead(a, b, 0);
      } else if k: nat :| a[0] == b[0] && Decides(a[1..], b[1..], k) {
        assert DecidesByHead(a, b, k + 1);
      }
    } else if StringLess(a, b) {
      assert Decides(a, b, 0);
    }
  }

  predicate Decides(a: Bytes, b: Bytes, k: nat) {
    k <= |a| && k < |b| && a[..k] == b[..k] && (k == |a| || a[k] < b[k])
  }

  predicate DecidesByHead(a: Bytes, b: Bytes, k: nat)
    requires |a| > 0 && |b| > 0
  {
    if k == 0 then a[0] < b[0] else a[0] == b[0] && Decides(a[1..], b[1..], k - 1)
  }

  lemma HeadDecides(a: Bytes, b: Bytes, k: nat)
    requires |a| > 0 && |b| > 0
    ensures Decides(a, b, k) <==> DecidesByHead(a, b, k)
  {
    if 0 < k <= |a| && k < |b| {
      assert a[..k] == [a[0]] + a[1..][..k - 1] && b[..k] == [b[0]] + b[1..][..k - 1];
    }
  }

  lemma {:induction false} StringLessIrreflexive(a: Bytes)
    ensures !StringLess(a, a)
  {
    if |a| > 0 { StringLessIrreflexive(a[1..]); }
  }

  lemma {:induction false} StringLessTransitive(a: Bytes, b: Bytes, c: Bytes)
    requires StringLess(a, b) && StringLess(b, c)
    ensures StringLess(a, c)
  {
    if |a| > 0 && a[0] == b[0] == c[0] {
      StringLessTransitive(a[1..], b[1..], c[1..]);
    }
  }

  lemma {:induction false} StringLessTotal(a: Bytes, b: Bytes)
    ensures StringLess(a, b) || StringLess(b, a) || a == b
  {
    if |a| > 0 && |b| > 0 && a[0] == b[0] {
      StringLessTotal(a[1..], b[1..]);
      assert a == [a[0]] + a[1..] && b == [b[0]] + b[1..];
    }
  }
}
