/**
 * The order in which the durable storage lists its keys: lexicographic by code point, which is
 * the order of the keys' UTF-8 bytes.
 */
module KeyOrder {

  /** `a` sorts strictly before `b`. */
  predicate Below(a: string, b: string)
    decreases |a|
  {
    if |a| == 0 then |b| > 0
    else |b| > 0 && (a[0] < b[0] || (a[0] == b[0] && Below(a[1..], b[1..])))
  }

  lemma {:induction false} BelowIrreflexive(a: string)
    ensures !Below(a, a)
    decreases |a|
  {
    if |a| > 0 {
      BelowIrreflexive(a[1..]);
    }
  }

  lemma {:induction false} BelowTransitive(a: string, b: string, c: string)
    requires Below(a, b) && Below(b, c)
    ensures Below(a, c)
    decreases |a|
  {
    if |a| > 0 && a[0] == b[0] && b[0] == c[0] {
      BelowTransitive(a[1..], b[1..], c[1..]);
    }
  }

  lemma {:induction false} BelowTotal(a: string, b: string)
    ensures a == b || Below(a, b) || Below(b, a)
    decreases |a|
  {
    if |a| > 0 && |b| > 0 && a[0] == b[0] {
      BelowTotal(a[1..], b[1..]);
      if a[1..] == b[1..] {
        assert a == [a[0]] + a[1..] && b == [b[0]] + b[1..];
      }
    }
  }

  lemma BelowAsymmetric(a: string, b: string)
    requires Below(a, b)
    ensures !Below(b, a)
  {
    if Below(b, a) {
      BelowTransitive(a, b, a);
      BelowIrreflexive(a);
    }
  }

  /** `k` is the greatest key of `ks`. */
  predicate IsMax(k: string, ks: set<string>) {
    k in ks && forall j :: j in ks && j != k ==> Below(j, k)
  }

  lemma {:induction false} MaxExists(ks: set<string>)
    requires ks != {}
    ensures exists k :: IsMax(k, ks)
    decreases |ks|
  {
    var x :| x in ks;
    if ks == {x} {
      assert IsMax(x, ks);
    } else {
      var rest := ks - {x};
      MaxExists(rest);
      var m :| IsMax(m, rest);
      BelowTotal(x, m);
      if Below(x, m) {
        assert IsMax(m, ks);
      } else {
        forall j | j in ks && j != x
          ensures Below(j, x)
        {
          if j != m {
            BelowTransitive(j, m, x);
          }
        }
        assert IsMax(x, ks);
      }
    }
  }

  lemma MaxUnique(ks: set<string>)
    ensures forall k, k' :: IsMax(k, ks) && IsMax(k', ks) ==> k == k'
  {
    forall k, k' | IsMax(k, ks) && IsMax(k', ks)
      ensures k == k'
    {
      if k != k' {
        BelowAsymmetric(k, k');
      }
    }
  }

  /** The greatest key of a non-empty key set. */
  function MaxKey(ks: set<string>): (k: string)
    requires ks != {}
    ensures IsMax(k, ks)
  {
    MaxExists(ks);
    MaxUnique(ks);
    var k :| IsMax(k, ks);
    k
  }

  /** Strictly descending: every later key sorts before every earlier one. */
  predicate Descending(s: seq<string>) {
    forall i, j :: 0 <= i < j < |s| ==> Below(s[j], s[i])
  }

  /** All keys of `ks`, greatest first. */
  function SortedDesc(ks: set<string>): (s: seq<string>)
    ensures |s| == |ks|
    ensures forall i :: 0 <= i < |s| ==> s[i] in ks
    ensures forall k :: k in ks ==> k in s
    ensures Descending(s)
    decreases |ks|
  {
    if ks == {} then []
    else
      var m := MaxKey(ks);
      [m] + SortedDesc(ks - {m})
  }
}
