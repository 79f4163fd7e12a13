/** The byte-wise string order of Go's `<` and of SQLite's default collation. */
module Strings {

  /** The strings agree up to `k`, where `a` ends or has the smaller character. */
  predicate SmallerAt(a: string, b: string, k: nat) {
    k <= |a| && k < |b| && a[..k] == b[..k] && (k == |a| || a[k] < b[k])
  }

  predicate Less(a: string, b: string) {
    exists k: nat | k <= |a| :: SmallerAt(a, b, k)
  }

  lemma LessIrreflexive(a: string)
    ensures !Less(a, a)
  {
  }

  lemma LessTransitive(a: string, b: string, c: string)
    requires Less(a, b) && Less(b, c)
    ensures Less(a, c)
  {
    var i: nat :| i <= |a| && SmallerAt(a, b, i);
    var j: nat :| j <= |b| && SmallerAt(b, c, j);
    var k := if i < j then i else j;
    assert a[..k] == b[..i][..k] && b[..k] == c[..j][..k];
    assert k < i ==> a[k] == b[..i][k];
    assert k < j ==> c[k] == b[..j][k];
    assert SmallerAt(a, c, k);
  }

  lemma {:induction false} LessTotal(a: string, b: string)
    ensures a == b || Less(a, b) || Less(b, a)
  {
    var k := 0;
    while k < |a| && k < |b| && a[k] == b[k]
      invariant k <= |a| && k <= |b| && a[..k] == b[..k]
    {
      k := k + 1;
    }
    assert a == b || SmallerAt(a, b, k) || SmallerAt(b, a, k) by {
      assert a == a[..k] + a[k..] && b == b[..k] + b[k..];
    }
  }

  lemma LessAsymmetric(a: string, b: string)
    requires Less(a, b)
    ensures !Less(b, a)
  {
    if Less(b, a) {
      LessTransitive(a, b, a);
      LessIrreflexive(a);
    }
  }

  /** A common prefix does not influence the order. */
  lemma LessAfterPrefix(p: string, a: string, b: string)
    ensures Less(p + a, p + b) <==> Less(a, b)
  {
    if k: nat :| k <= |p + a| && SmallerAt(p + a, p + b, k) {
      assert forall i | 0 <= i < |p| :: (p + a)[i] == (p + b)[i];
      var j := k - |p|;
      assert a[..j] == (p + a)[..k][|p|..] && b[..j] == (p + b)[..k][|p|..];
      assert SmallerAt(a, b, j);
    }
    if j: nat :| j <= |a| && SmallerAt(a, b, j) {
      var k := |p| + j;
      assert (p + a)[..k] == p + a[..j] && (p + b)[..k] == p + b[..j];
      assert SmallerAt(p + a, p + b, k);
    }
  }

  /** Between strings of one length, what follows does not influence a decided order. */
  lemma LessDecided(a: string, b: string, x: string, y: string)
    requires |a| == |b| && Less(a, b)
    ensures Less(a + x, b + y)
  {
    var k: nat :| k <= |a| && SmallerAt(a, b, k);
    assert (a + x)[..k] == a[..k] && (b + y)[..k] == b[..k];
    assert SmallerAt(a + x, b + y, k);
  }

  /** The order as a comparison of first characters. */
  lemma LessStep(a: string, b: string)
    ensures Less(a, b) <==>
            b != "" && (a == "" || a[0] < b[0] || (a[0] == b[0] && Less(a[1..], b[1..])))
  {
    if a == "" && b != "" {
      assert SmallerAt(a, b, 0);
    } else if a != "" && b != "" {
      if a[0] == b[0] {
        LessAfterPrefix([a[0]], a[1..], b[1..]);
        assert a == [a[0]] + a[1..] && b == [b[0]] + b[1..];
      } else if a[0] < b[0] {
        assert SmallerAt(a, b, 0);
      } else {
        assert SmallerAt(b, a, 0);
        assert Less(b, a);
        LessAsymmetric(b, a);
      }
    }
  }
}
