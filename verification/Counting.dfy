/** Counting with sets and conditions. */
module Counting {

  function One(b: bool): nat {
    if b then 1 else 0
  }

  lemma SubsetSize<T>(a: set<T>, b: set<T>)
    requires a <= b
    ensures |a| <= |b|
  {
    assert b == a + (b - a);
  }

  /** Putting t into a set or taking it out changes the size by one. */
  lemma SizeWith<T>(s: set<T>, t: T, b: bool)
    ensures |(s - {t}) + if b then {t} else {}| + One(t in s) == |s| + One(b)
  {
    if t in s {
      assert |s| == |s - {t}| + 1;
    } else {
      assert s - {t} == s;
    }
    if b {
      assert |(s - {t}) + {t}| == |s - {t}| + 1;
    } else {
      assert (s - {t}) + {} == s - {t};
    }
  }

  lemma SizeWithout<T>(s: set<T>, a: T, b: T)
    requires a in s && b in s && a != b
    ensures |s - {a, b}| == |s| - 2
  {
    assert s - {a} - {b} == s - {a, b};
  }
}
