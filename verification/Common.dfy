/**
 Values shared by every module: optional values, identifiers, instants, and a few facts
 about the size of finite sets.
 */
module Common {

  datatype Option<+T> = None | Some(value: T)

  /** Identifiers are strings in the source. Only equality, order and emptiness are ever used,
      so they are natural numbers here; 0 is the empty string, the least of them. */
  type Id = nat

  const EMPTY_ID: Id := 0

  /** Instants of a totally ordered clock. */
  type Time = real

  function Take<T>(s: seq<T>, n: nat): (r: seq<T>)
    ensures r <= s && |r| <= n
    ensures |s| <= n ==> r == s
    ensures |s| > n ==> |r| == n
  {
    if |s| <= n then s else s[..n]
  }

  lemma {:induction false} SubsetSize<T>(a: set<T>, b: set<T>)
    requires a <= b
    ensures |a| <= |b|
    ensures |a| == |b| ==> a == b
    decreases a
  {
    if a == {} {
    } else {
      var x :| x in a;
      SubsetSize(a - {x}, b - {x});
      assert a == (a - {x}) + {x};
      assert b == (b - {x}) + {x};
    }
  }

  /** An injective map from `a` into `b` makes `a` no larger than `b`. */
  lemma {:induction false} InjectionSize<T, U>(a: set<T>, b: set<U>, f: map<T, U>)
    requires a <= f.Keys
    requires forall x | x in a :: f[x] in b
    requires forall x, y | x in a && y in a && x != y :: f[x] != f[y]
    ensures |a| <= |b|
    decreases a
  {
    if a == {} {
    } else {
      var x :| x in a;
      InjectionSize(a - {x}, b - {f[x]}, f);
    }
  }

  function One(b: bool): int {
    if b then 1 else 0
  }

  /** Two sets that differ at most in `c`. */
  lemma UpdatedSize<T>(before: set<T>, after: set<T>, c: T)
    requires forall x | x != c :: x in before <==> x in after
    ensures |after| == |before| + One(c in after) - One(c in before)
  {
    assert after - {c} == before - {c};
    assert c in after ==> after == (after - {c}) + {c};
    assert c in before ==> before == (before - {c}) + {c};
  }
}
