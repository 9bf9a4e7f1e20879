/**
 * Sums, least and greatest keys of a kill-bucket map (minute start -> kills).
 * These are the stream reductions the ledger performs over its buckets.
 */
module Buckets {

  /** Some element of a non-empty set (the witness the such-that choices need). */
  ghost function AnyElement<T>(ks: set<T>): (r: T)
    requires ks != {}
    ensures r in ks
  {
    var k :| k in ks; k
  }

  /**
   * The sum of the counts that m holds for the keys ks. With no negative
   * count the sum is non-negative.
   */
  ghost function SumOver(m: map<int, int>, ks: set<int>): (r: int)
    requires ks <= m.Keys
    ensures (forall k | k in ks :: m[k] >= 0) ==> r >= 0
    decreases ks
  {
    if ks == {} then 0 else var k := AnyElement(ks); m[k] + SumOver(m, ks - {k})
  }

  /** The sum of all counts of m: never negative when no count is. */
  ghost function Total(m: map<int, int>): (r: int)
    ensures (forall k | k in m :: m[k] >= 0) ==> r >= 0
  {
    SumOver(m, m.Keys)
  }

  /** Any key may be taken out of a sum first. */
  lemma {:induction false} SumOverSplit(m: map<int, int>, ks: set<int>, k: int)
    requires ks <= m.Keys && k in ks
    ensures SumOver(m, ks) == m[k] + SumOver(m, ks - {k})
    decreases ks
  {
    var j :| j in ks && SumOver(m, ks) == m[j] + SumOver(m, ks - {j});
    if j != k {
      SumOverSplit(m, ks - {j}, k);
      SumOverSplit(m, ks - {k}, j);
      assert ks - {j} - {k} == ks - {k} - {j};
    }
  }

  /** A sum depends only on the counts of the keys summed. */
  lemma {:induction false} SumOverAgree(m1: map<int, int>, m2: map<int, int>, ks: set<int>)
    requires ks <= m1.Keys && ks <= m2.Keys
    requires forall k | k in ks :: m1[k] == m2[k]
    ensures SumOver(m1, ks) == SumOver(m2, ks)
    decreases ks
  {
    if ks != {} {
      var k := AnyElement(ks);
      SumOverSplit(m1, ks, k);
      SumOverSplit(m2, ks, k);
      SumOverAgree(m1, m2, ks - {k});
    }
  }

  /** Positive counts give a sum that is zero exactly when nothing is summed. */
  lemma {:induction false} SumOverPositive(m: map<int, int>, ks: set<int>)
    requires ks <= m.Keys
    requires forall k | k in ks :: m[k] > 0
    ensures SumOver(m, ks) >= 0
    ensures SumOver(m, ks) == 0 <==> ks == {}
    decreases ks
  {
    if ks != {} {
      var k := AnyElement(ks);
      SumOverSplit(m, ks, k);
      SumOverPositive(m, ks - {k});
    }
  }

  /** Adding one to the count of a key (zero when absent) adds one to the total. */
  lemma TotalIncrement(m: map<int, int>, key: int)
    ensures Total(m[key := (if key in m then m[key] else 0) + 1]) == Total(m) + 1
  {
    var m' := m[key := (if key in m then m[key] else 0) + 1];
    var rest := m.Keys - {key};
    assert m'.Keys == rest + {key};
    SumOverSplit(m', m'.Keys, key);
    assert m'.Keys - {key} == rest;
    SumOverAgree(m', m, rest);
    if key in m {
      SumOverSplit(m, m.Keys, key);
    } else {
      assert m.Keys == rest;
    }
  }

  /** m is the least element of s. */
  ghost predicate IsLeast(m: int, s: set<int>)
  {
    m in s && forall x | x in s :: m <= x
  }

  /** m is the greatest element of s. */
  ghost predicate IsGreatest(m: int, s: set<int>)
  {
    m in s && forall x | x in s :: x <= m
  }

  /** A non-empty set has a least element. */
  lemma {:induction false} MinExists(s: set<int>)
    requires s != {}
    ensures exists m :: IsLeast(m, s)
    decreases s
  {
    var k := AnyElement(s);
    if s - {k} == {} {
      assert s == {k};
      assert IsLeast(k, s);
    } else {
      MinExists(s - {k});
      var m :| IsLeast(m, s - {k});
      var least := if k <= m then k else m;
      forall x | x in s ensures least <= x {
        assert x == k || x in s - {k};
      }
      assert IsLeast(least, s);
    }
  }

  /** A non-empty set has a greatest element. */
  lemma {:induction false} MaxExists(s: set<int>)
    requires s != {}
    ensures exists m :: IsGreatest(m, s)
    decreases s
  {
    var k := AnyElement(s);
    if s - {k} == {} {
      assert s == {k};
      assert IsGreatest(k, s);
    } else {
      MaxExists(s - {k});
      var m :| IsGreatest(m, s - {k});
      var greatest := if k >= m then k else m;
      forall x | x in s ensures x <= greatest {
        assert x == k || x in s - {k};
      }
      assert IsGreatest(greatest, s);
    }
  }

  /** The least key of a non-empty set. */
  ghost function SetMin(s: set<int>): (r: int)
    requires s != {}
    ensures r in s && forall x | x in s :: r <= x
  {
    MinExists(s);
    var m :| IsLeast(m, s); m
  }

  /** The greatest key of a non-empty set. */
  ghost function SetMax(s: set<int>): (r: int)
    requires s != {}
    ensures r in s && forall x | x in s :: x <= r
  {
    MaxExists(s);
    var m :| IsGreatest(m, s); m
  }
}
