/** The Go string helpers the components use, on sequences of characters (or of bytes). */
module Text {

  type byte = b: int | 0 <= b < 256

  /** unicode.IsSpace. */
  predicate IsSpace(c: char) {
    var u := c as int;
    || 9 <= u <= 13 || u == 32 || u == 0x85 || u == 0xA0 || u == 0x1680
    || 0x2000 <= u <= 0x200A || u == 0x2028 || u == 0x2029 || u == 0x202F || u == 0x205F || u == 0x3000
  }

  function TrimLeft(s: string): (r: string)
    ensures r == [] || !IsSpace(r[0])
    ensures |r| <= |s| && r == s[|s| - |r|..]
  {
    if s != [] && IsSpace(s[0]) then TrimLeft(s[1..]) else s
  }

  function TrimRight(s: string): (r: string)
    ensures r == [] || !IsSpace(r[|r| - 1])
    ensures |r| <= |s| && r == s[..|r|]
  {
    if s != [] && IsSpace(s[|s| - 1]) then TrimRight(s[..|s| - 1]) else s
  }

  predicate Trimmed(s: string) {
    s == [] || (!IsSpace(s[0]) && !IsSpace(s[|s| - 1]))
  }

  /** strings.TrimSpace. */
  function TrimSpace(s: string): (r: string)
    ensures Trimmed(r)
    ensures Trimmed(s) ==> r == s
    ensures |r| <= |s|
  {
    TrimRight(TrimLeft(s))
  }

  predicate AllSpace(s: string) {
    forall i :: 0 <= i < |s| ==> IsSpace(s[i])
  }

  /** Trimming takes away the white space at both ends and nothing else. */
  lemma TrimSpaceMeans(a: string, m: string, b: string)
    requires AllSpace(a) && AllSpace(b) && Trimmed(m)
    ensures TrimSpace(a + m + b) == m
  {
    hide IsSpace;
    assert a + m + b == a + (m + b);
    if m == "" {
      assert AllSpace(a + m + b);
      TrimAllSpace(a + m + b);
    } else {
      TrimLeftOf(a, m + b);
      TrimRightOf(m, b);
    }
  }

  /** Trimming leaves nothing exactly of white space. */
  lemma {:induction false} BlankIsAllSpace(s: string)
    ensures TrimSpace(s) == "" <==> AllSpace(s)
  {
    hide IsSpace;
    if s != "" && IsSpace(s[0]) {
      BlankIsAllSpace(s[1..]);
    } else if s != "" {
      FirstStays(s);
    }
  }

  lemma {:induction false} FirstStays(s: string)
    requires s != "" && !IsSpace(s[0])
    ensures TrimRight(s) != ""
  {
    hide IsSpace;
    if IsSpace(s[|s| - 1]) {
      FirstStays(s[..|s| - 1]);
    }
  }

  lemma {:induction false} TrimAllSpace(s: string)
    requires AllSpace(s)
    ensures TrimLeft(s) == ""
  {
    hide IsSpace;
    if s != "" {
      TrimAllSpace(s[1..]);
    }
  }

  lemma {:induction false} TrimLeftOf(a: string, m: string)
    requires AllSpace(a) && m != "" && !IsSpace(m[0])
    ensures TrimLeft(a + m) == m
  {
    hide IsSpace;
    if a == "" {
      assert a + m == m;
    } else {
      assert (a + m)[1..] == a[1..] + m;
      TrimLeftOf(a[1..], m);
    }
  }

  lemma {:induction false} TrimRightOf(m: string, b: string)
    requires AllSpace(b) && m != "" && !IsSpace(m[|m| - 1])
    ensures TrimRight(m + b) == m
    decreases |b|
  {
    hide IsSpace;
    if b == "" {
      assert m + b == m;
    } else {
      assert (m + b)[..|m + b| - 1] == m + b[..|b| - 1];
      TrimRightOf(m, b[..|b| - 1]);
    }
  }

  predicate HasPrefix<T(==)>(s: seq<T>, p: seq<T>) {
    p <= s
  }

  predicate OccursAt<T(==)>(s: seq<T>, pat: seq<T>, k: int) {
    0 <= k <= |s| - |pat| && s[k..k + |pat|] == pat
  }

  lemma OccursShift<T>(s: seq<T>, pat: seq<T>)
    requires s != [] && |pat| <= |s| && s[..|pat|] != pat
    ensures forall k :: OccursAt(s, pat, k) ==> OccursAt(s[1..], pat, k - 1)
    ensures forall k :: OccursAt(s[1..], pat, k) ==> OccursAt(s, pat, k + 1)
  {
    forall k | OccursAt(s, pat, k)
      ensures OccursAt(s[1..], pat, k - 1)
    {
      assert s[..|pat|] == s[0..|pat|];
      assert s[1..][k - 1..k - 1 + |pat|] == s[k..k + |pat|];
    }
    forall k | OccursAt(s[1..], pat, k)
      ensures OccursAt(s, pat, k + 1)
    {
      assert s[1..][k..k + |pat|] == s[k + 1..k + 1 + |pat|];
    }
  }

  /** strings.Index: the first place where pat occurs in s, or -1. */
  function Index<T(==)>(s: seq<T>, pat: seq<T>): (i: int)
    ensures -1 <= i
    ensures i >= 0 ==> OccursAt(s, pat, i)
    ensures forall k :: OccursAt(s, pat, k) ==> 0 <= i <= k
  {
    if |s| < |pat| then -1
    else if s[..|pat|] == pat then 0
    else
      OccursShift(s, pat);
      var rest := Index(s[1..], pat);
      if rest < 0 then -1 else rest + 1
  }

  /** The first place where the pattern occurs. */
  ghost predicate FirstAt<T>(s: seq<T>, pat: seq<T>, k: int) {
    OccursAt(s, pat, k) && forall j :: OccursAt(s, pat, j) ==> k <= j
  }

  ghost predicate Absent<T>(s: seq<T>, pat: seq<T>) {
    forall j :: !OccursAt(s, pat, j)
  }

  lemma IndexIsFirst<T>(s: seq<T>, pat: seq<T>, k: int)
    ensures FirstAt(s, pat, k) ==> Index(s, pat) == k
    ensures Absent(s, pat) <==> Index(s, pat) == -1
  {
  }

  lemma IndexOfChar(a: string, c: char, b: string)
    ensures Index(a, [c]) < 0 <==> c !in a
    ensures c !in a ==> Index(a + [c] + b, [c]) == |a|
  {
    CharPlaces(a, c);
    CharPlaces(a + [c] + b, c);
    hide OccursAt;
    if c in a {
      var k :| 0 <= k < |a| && a[k] == c;
      assert OccursAt(a, [c], k);
    }
    if c !in a {
      assert (a + [c] + b)[|a|] == c;
      assert OccursAt(a + [c] + b, [c], |a|);
    }
  }

  lemma CharPlaces(s: string, c: char)
    ensures forall j :: OccursAt(s, [c], j) <==> 0 <= j < |s| && s[j] == c
  {
    forall j | 0 <= j < |s|
      ensures OccursAt(s, [c], j) <==> s[j] == c
    {
      assert s[j..j + 1] == [s[j]];
    }
  }

  lemma OccursBehind<T>(a: seq<T>, z: seq<T>, pat: seq<T>, k: int)
    requires pat != [] && pat[0] !in a
    ensures OccursAt(a + z, pat, k) <==> OccursAt(z, pat, k - |a|)
  {
    if OccursAt(a + z, pat, k) {
      assert (a + z)[k..k + |pat|][0] == (a + z)[k];
      assert k >= |a|;
      assert (a + z)[k..k + |pat|] == z[k - |a|..k - |a| + |pat|];
    }
  }

  /** A pattern that cannot begin in the front part is found in the rest. */
  lemma IndexBehind<T>(a: seq<T>, z: seq<T>, pat: seq<T>)
    requires pat != [] && pat[0] !in a
    ensures Index(a + z, pat) == if Index(z, pat) < 0 then -1 else |a| + Index(z, pat)
  {
    hide Index, OccursAt;
    var i, j := Index(z, pat), Index(a + z, pat);
    OccursBehind(a, z, pat, |a| + i);
    OccursBehind(a, z, pat, j);
  }

  /** The last place where this element occurs in s, or -1. */
  function LastIndexOf<T(==)>(s: seq<T>, x: T): (i: int)
    ensures -1 <= i < |s|
    ensures i >= 0 ==> s[i] == x
    ensures forall k :: i < k < |s| ==> s[k] != x
  {
    if s == [] then -1
    else if s[|s| - 1] == x then |s| - 1
    else LastIndexOf(s[..|s| - 1], x)
  }

  predicate Contains<T(==)>(s: seq<T>, pat: seq<T>) {
    Index(s, pat) >= 0
  }

  /** The parts one after the other. */
  function Join<T>(parts: seq<seq<T>>): seq<T> {
    if parts == [] then [] else parts[0] + Join(parts[1..])
  }

  lemma {:induction false} JoinAdd<T>(a: seq<seq<T>>, b: seq<seq<T>>)
    ensures Join(a + b) == Join(a) + Join(b)
  {
    if a == [] {
      assert a + b == b && [] + Join(b) == Join(b);
    } else {
      JoinAdd(a[1..], b);
      assert (a + b)[1..] == a[1..] + b;
      assert a[0] + (Join(a[1..]) + Join(b)) == (a[0] + Join(a[1..])) + Join(b);
    }
  }

  lemma JoinFew<T>(x: seq<T>)
    ensures Join<T>([]) == [] && Join([x]) == x
  {
    assert [x][1..] == [] && x + [] == x;
  }

  lemma JoinAppend<T>(parts: seq<seq<T>>, x: seq<T>)
    ensures Join(parts + [x]) == Join(parts) + x
  {
    hide Join;
    JoinAdd(parts, [x]);
    JoinFew(x);
  }

  lemma JoinOneMore<T>(parts: seq<seq<T>>, i: nat)
    requires i < |parts|
    ensures Join(parts[..i + 1]) == Join(parts[..i]) + parts[i]
  {
    hide Join;
    JoinAppend(parts[..i], parts[i]);
    assert parts[..i + 1] == parts[..i] + [parts[i]];
  }

  lemma JoinPrefix<T>(parts: seq<seq<T>>, i: nat)
    requires i <= |parts|
    ensures Join(parts[..i]) <= Join(parts)
  {
    hide Join;
    JoinAdd(parts[..i], parts[i..]);
    assert parts[..i] + parts[i..] == parts;
  }
}
