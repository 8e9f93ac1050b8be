/** The lexicographic order of strings. */
module StringOrder {

  predicate StringLess(a: string, b: string) {
    b != [] && (a == [] || (if a[0] != b[0] then a[0] < b[0] else StringLess(a[1..], b[1..])))
  }

  /** The first place at which two strings differ decides, and an end counts as smallest. */
  lemma {:induction false} StringLessIff(a: string, b: string)
    ensures StringLess(a, b) <==> exists k :: DecidesAt(a, b, k)
  {
    if b != [] {
      if a == [] || a[0] < b[0] {
        assert DecidesAt(a, b, 0);
      } else if a[0] == b[0] {
        StringLessIff(a[1..], b[1..]);
        if StringLess(a, b) {
          var k :| DecidesAt(a[1..], b[1..], k);
          assert a[..k + 1] == [a[0]] + a[1..][..k] && b[..k + 1] == [b[0]] + b[1..][..k];
          assert DecidesAt(a, b, k + 1);
        }
        if k :| DecidesAt(a, b, k) {
          assert k > 0 && a[1..][..k - 1] == a[..k][1..] && b[1..][..k - 1] == b[..k][1..];
          assert DecidesAt(a[1..], b[1..], k - 1);
        }
      }
    }
  }

  predicate DecidesAt(a: string, b: string, k: int) {
    0 <= k <= |a| && k < |b| && a[..k] == b[..k] && (k < |a| ==> a[k] < b[k])
  }

  lemma {:induction false} StringLessNegativelyTransitive(a: string, b: string, c: string)
    requires StringLess(a, c)
    ensures StringLess(a, b) || StringLess(b, c)
  {
    if a != [] && b != [] && a[0] == b[0] == c[0] { StringLessNegativelyTransitive(a[1..], b[1..], c[1..]); }
  }

  lemma {:induction false} StringLessAsymmetric(a: string, b: string)
    requires StringLess(a, b)
    ensures !StringLess(b, a)
  {
    if a != [] && a[0] == b[0] { StringLessAsymmetric(a[1..], b[1..]); }
  }
}
