/**
  The order lodash `sortBy(..., 'name')` puts names in: JavaScript's `<` on
  strings, which compares character by character and puts a proper prefix
  before every longer string that extends it.
 */
module Names {

  /** `a < b` on JavaScript strings. */
  predicate Before(a: string, b: string)
    decreases |a|
  {
    if |a| == 0 then |b| > 0
    else |b| > 0 && (if a[0] == b[0] then Before(a[1..], b[1..]) else a[0] < b[0])
  }

  /** `a` may stand before `b` in an ascending listing: `b` is not strictly before `a`. */
  predicate NotAfter(a: string, b: string)
  {
    !Before(b, a)
  }

  lemma {:induction false} BeforeIrreflexive(a: string)
    ensures !Before(a, a)
  {
    if |a| > 0 {
      BeforeIrreflexive(a[1..]);
    }
  }

  lemma {:induction false} BeforeTransitive(a: string, b: string, c: string)
    requires Before(a, b) && Before(b, c)
    ensures Before(a, c)
  {
    if |a| > 0 && a[0] == b[0] && b[0] == c[0] {
      BeforeTransitive(a[1..], b[1..], c[1..]);
    }
  }

  /** Two different strings are ordered one way or the other. */
  lemma {:induction false} BeforeTotal(a: string, b: string)
    requires a != b
    ensures Before(a, b) || Before(b, a)
  {
    if |a| > 0 && |b| > 0 && a[0] == b[0] {
      assert a == [a[0]] + a[1..] && b == [b[0]] + b[1..];
      BeforeTotal(a[1..], b[1..]);
    }
  }

  lemma BeforeAsymmetric(a: string, b: string)
    requires Before(a, b)
    ensures !Before(b, a)
  {
    if Before(b, a) {
      BeforeTransitive(a, b, a);
      BeforeIrreflexive(a);
    }
  }

  /** `NotAfter` is a total preorder: any two names can be listed in some order... */
  lemma NotAfterTotal(a: string, b: string)
    ensures NotAfter(a, b) || NotAfter(b, a)
  {
    if Before(a, b) {
      BeforeAsymmetric(a, b);
    }
  }

  /** ...and listing is transitive. */
  lemma NotAfterTransitive(a: string, b: string, c: string)
    requires NotAfter(a, b) && NotAfter(b, c)
    ensures NotAfter(a, c)
  {
    if Before(c, a) {
      if a == b {
      } else {
        BeforeTotal(a, b);
        BeforeTransitive(c, a, b);
      }
    }
  }

  /** Between distinct names, "not after" is "strictly before". */
  lemma NotAfterDistinct(a: string, b: string)
    requires NotAfter(a, b) && a != b
    ensures Before(a, b)
  {
    BeforeTotal(a, b);
  }
}
