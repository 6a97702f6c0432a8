/** Sizes of finite sets. */
module Counting {

  /** A set of integers inside [lo, hi) has at most hi - lo members; the whole range has exactly that many. */
  lemma {:induction false} IntervalSize(s: set<int>, lo: int, hi: int)
    requires lo <= hi
    requires forall x :: x in s ==> lo <= x < hi
    ensures |s| <= hi - lo
    ensures (forall x :: lo <= x < hi ==> x in s) ==> |s| == hi - lo
    decreases hi - lo
  {
    if lo == hi {
      assert forall x :: x !in s;
      assert s == {};
    } else {
      IntervalSize(s - {hi - 1}, lo, hi - 1);
      if hi - 1 in s {
        assert s == (s - {hi - 1}) + {hi - 1};
      }
    }
  }

  lemma {:induction false} SubsetSize<T>(a: set<T>, b: set<T>)
    requires a <= b
    ensures |a| <= |b|
    ensures |a| == |b| ==> a == b
  {
    assert b == a + (b - a);
  }

  ghost function Members<T>(s: seq<T>): set<T> { set x | x in s }

  /** A list has as many different members as entries exactly when no entry repeats. */
  lemma {:induction false} DistinctSize<T>(s: seq<T>)
    ensures |Members(s)| <= |s|
    ensures |Members(s)| == |s| <==> forall i, j :: 0 <= i < j < |s| ==> s[i] != s[j]
  {
    if |s| > 0 {
      var n := |s| - 1;
      var front := s[..n];
      DistinctSize(front);
      assert Members(s) == Members(front) + {s[n]};
      if s[n] in front {
        var i :| 0 <= i < n && front[i] == s[n];
        assert s[i] == s[n];
      } else {
        assert forall i :: 0 <= i < n ==> s[i] == front[i];
      }
    }
  }

  /** A map has as many values as keys exactly when no two keys share a value. */
  lemma {:induction false} InjectiveSize<K, V>(m: map<K, V>)
    ensures |m.Values| <= |m.Keys|
    ensures |m.Values| == |m.Keys| <==> forall a, b :: a in m && b in m && a != b ==> m[a] != m[b]
    decreases |m|
  {
    if m.Keys == {} {
      assert m.Values == {};
    } else {
      var k :| k in m;
      var less := m - {k};
      assert less.Keys == m.Keys - {k};
      InjectiveSize(less);
      forall v ensures v in m.Values <==> v in less.Values + {m[k]} {
        if v in m.Values {
          var j :| j in m && m[j] == v;
          assert j != k ==> j in less && less[j] == v;
        }
        if v in less.Values {
          var j :| j in less && less[j] == v;
          assert j in m && m[j] == v;
        }
      }
      assert m.Values == less.Values + {m[k]};
      if m[k] in less.Values {
        var j :| j in less && less[j] == m[k];
        assert m[j] == m[k] && j != k;
      } else {
        assert forall a :: a in less ==> m[a] == less[a] && less[a] in less.Values;
      }
    }
  }
}
