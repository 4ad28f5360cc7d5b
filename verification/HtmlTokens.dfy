/** The tokens of the HTML subset Telegram accepts: what clean text is, what it reads as, and how the markers
    of the inline passes may be traded. */
module HtmlTokens {
  import opened Text

  // ----- the tokens of the output -----

  predicate IsTag(t: string) {
    || t == "<b>" || t == "</b>" || t == "<i>" || t == "</i>"
    || t == "<pre>" || t == "</pre>" || t == "<code>" || t == "</code>"
    || t == "<blockquote expandable>" || t == "</blockquote>"
  }

  predicate IsEntity(t: string) {
    t == "&amp;" || t == "&lt;" || t == "&gt;"
  }

  /** Just behind the first c, or 0. */
  function First(s: string, c: char): (n: nat)
    ensures n <= |s|
    ensures n > 0 ==> s[n - 1] == c && forall j :: 0 <= j < n - 1 ==> s[j] != c
    ensures n == 0 ==> forall j :: 0 <= j < |s| ==> s[j] != c
  {
    if s == [] then 0
    else if s[0] == c then 1
    else if First(s[1..], c) == 0 then 0 else 1 + First(s[1..], c)
  }

  /** Length of the tag, entity or plain character s begins with; 0 when it begins with none. */
  function Width(s: string): (w: nat)
    ensures w <= |s|
  {
    if s == [] then 0
    else if s[0] == '<' then if IsTag(s[..First(s, '>')]) then First(s, '>') else 0
    else if s[0] == '&' then if IsEntity(s[..First(s, ';')]) then First(s, ';') else 0
    else if s[0] == '>' then 0 else 1
  }

  /** Every < starts a tag of the converter, every & one of its entities, and no > stands alone. */
  predicate Clean(s: string) {
    s == [] || (Width(s) > 0 && Clean(s[Width(s)..]))
  }

  function Tokens(s: string): seq<string>
    decreases |s|
  {
    if s == [] || Width(s) == 0 then [] else [s[..Width(s)]] + Tokens(s[Width(s)..])
  }

  predicate Inner(c: char) {
    c != '*' && c != '<' && c != '&'
  }

  lemma TagShape(t: string)
    requires IsTag(t) || IsEntity(t)
    ensures |t| > 1 && !Inner(t[0]) && forall j :: 1 <= j < |t| ==> Inner(t[j])
    ensures var end := if IsTag(t) then '>' else ';';
            t[0] == (if IsTag(t) then '<' else '&') && t[|t| - 1] == end && forall j :: 0 <= j < |t| - 1 ==> t[j] != end
  {
  }

  /** Behind its first character a token holds no star and starts no token. */
  lemma InsideToken(s: string, j: nat)
    requires 0 < j < Width(s)
    ensures Inner(s[j])
  {
    hide IsTag, IsEntity;
    TagShape(s[..Width(s)]);
    assert s[..Width(s)][j] == s[j];
  }

  lemma WidthOfLonger(a: string, b: string)
    requires Width(a) > 0
    ensures Width(a + b) == Width(a) && (a + b)[..Width(a)] == a[..Width(a)]
  {
    hide IsTag, IsEntity;
    var c := if a[0] == '<' then '>' else ';';
    if First(a, c) > 0 {
      FirstOfLonger(a, b, c);
    }
    assert (a + b)[..Width(a)] == a[..Width(a)];
  }

  lemma FirstOfLonger(a: string, b: string, c: char)
    requires First(a, c) > 0
    ensures First(a + b, c) == First(a, c)
  {
    var n, m := First(a, c), First(a + b, c);
    assert (a + b)[n - 1] == a[n - 1];
    assert m > 0;
    assert forall j :: 0 <= j < n ==> (a + b)[j] == a[j];
  }

  lemma TokensUnfold(s: string)
    ensures s == [] ==> Clean(s) && Tokens(s) == []
    ensures s != [] ==> (Clean(s) <==> Width(s) > 0 && Clean(s[Width(s)..]))
    ensures Width(s) > 0 ==> Tokens(s) == [s[..Width(s)]] + Tokens(s[Width(s)..])
  {
    hide Width;
  }

  lemma {:induction false} TokensConcat(a: string, b: string)
    requires Clean(a)
    ensures Tokens(a + b) == Tokens(a) + Tokens(b)
    ensures Clean(a + b) <==> Clean(b)
    decreases |a|
  {
    hide Width, Clean, Tokens;
    TokensUnfold(a);
    if a == [] {
      assert a + b == b && [] + Tokens(b) == Tokens(b);
    } else {
      var w := Width(a);
      WidthOfLonger(a, b);
      TokensConcat(a[w..], b);
      TokensUnfold(a + b);
      assert (a + b)[w..] == a[w..] + b;
      assert [a[..w]] + (Tokens(a[w..]) + Tokens(b)) == ([a[..w]] + Tokens(a[w..])) + Tokens(b);
    }
  }

  lemma OneToken(t: string)
    requires IsTag(t) || IsEntity(t) || (|t| == 1 && t[0] != '<' && t[0] != '>' && t[0] != '&')
    ensures Width(t) == |t| && Clean(t) && Tokens(t) == [t]
  {
    hide Width, IsTag, IsEntity;
    OneTokenWidth(t);
    assert t[..|t|] == t && t[|t|..] == [];
  }

  lemma OneTokenWidth(t: string)
    requires IsTag(t) || IsEntity(t) || (|t| == 1 && t[0] != '<' && t[0] != '>' && t[0] != '&')
    ensures Width(t) == |t| > 0
  {
    hide IsTag, IsEntity;
    assert t[..|t|] == t;
    if IsTag(t) || IsEntity(t) {
      TagShape(t);
    }
  }

  /** A star is a token by itself, so clean text can be cut around it. */
  lemma {:induction false} CutAroundStar(s: string, k: nat)
    requires Clean(s) && k < |s| && s[k] == '*'
    ensures Clean(s[..k]) && Clean(s[k + 1..])
    ensures Tokens(s) == Tokens(s[..k]) + ["*"] + Tokens(s[k + 1..])
    decreases |s|
  {
    hide Width, Inner, Clean, Tokens;
    var w := Width(s);
    TokensUnfold(s);
    if k == 0 {
      StarAlone(s);
      TokensUnfold([]);
      assert s[..1] == "*" && s[..0] == [];
      assert [] + ["*"] + Tokens(s[1..]) == ["*"] + Tokens(s[1..]);
    } else {
      if k < w {
        InsideToken(s, k);
        StarNotInner();
        assert false;
      }
      CutAroundStar(s[w..], k - w);
      assert s[w..][..k - w] == s[w..k] && s[w..][k - w + 1..] == s[k + 1..];
      FirstTokenClean(s);
      TokensConcat(s[..w], s[w..k]);
      assert s[..w] + s[w..k] == s[..k];
      OneInFront([s[..w]], Tokens(s[w..k]), Tokens(s[k + 1..]));
    }
  }

  lemma OneInFront(t: seq<string>, a: seq<string>, b: seq<string>)
    ensures t + (a + ["*"] + b) == (t + a) + ["*"] + b
  {
  }

  lemma StarNotInner()
    ensures !Inner('*')
  {
  }

  lemma StarAlone(s: string)
    requires s != [] && s[0] == '*'
    ensures Width(s) == 1
  {
  }

  lemma FirstTokenClean(s: string)
    requires Width(s) > 0
    ensures Clean(s[..Width(s)]) && Tokens(s[..Width(s)]) == [s[..Width(s)]]
  {
    hide IsTag, IsEntity;
    OneToken(s[..Width(s)]);
  }

  // ----- what the tokens stand for -----

  predicate Marker(t: string) {
    t == "*" || t == "<b>" || t == "</b>" || t == "<i>" || t == "</i>"
  }

  function Kept(t: string): seq<string> {
    if Marker(t) then [] else [t]
  }

  /** The tokens without stars and b and i tags. */
  function Unmarked(ts: seq<string>): seq<string> {
    if ts == [] then [] else Kept(ts[0]) + Unmarked(ts[1..])
  }

  function Shown(t: string): string {
    if t == "&amp;" then "&" else if t == "&lt;" then "<" else if t == "&gt;" then ">" else t
  }

  /** The text the tokens were escaped from. */
  function Read(ts: seq<string>): string {
    if ts == [] then [] else Shown(ts[0]) + Read(ts[1..])
  }

  function Times(ts: seq<string>, t: string): nat {
    if ts == [] then 0 else (if ts[0] == t then 1 else 0) + Times(ts[1..], t)
  }

  lemma {:induction false} UnmarkedAdd(a: seq<string>, b: seq<string>)
    ensures Unmarked(a + b) == Unmarked(a) + Unmarked(b)
  {
    hide Kept, Unmarked;
    UnmarkedHead(a);
    if a == [] {
      assert a + b == b && [] + Unmarked(b) == Unmarked(b);
    } else {
      UnmarkedHead(a + b);
      UnmarkedAdd(a[1..], b);
      assert (a + b)[1..] == a[1..] + b;
      assert Kept(a[0]) + (Unmarked(a[1..]) + Unmarked(b)) == (Kept(a[0]) + Unmarked(a[1..])) + Unmarked(b);
    }
  }

  lemma UnmarkedHead(a: seq<string>)
    ensures Unmarked(a) == if a == [] then [] else Kept(a[0]) + Unmarked(a[1..])
  {
    hide Kept;
  }

  lemma {:induction false} ReadAdd(a: seq<string>, b: seq<string>)
    ensures Read(a + b) == Read(a) + Read(b)
  {
    hide Shown;
    if a == [] {
      assert a + b == b && [] + Read(b) == Read(b);
    } else {
      ReadAdd(a[1..], b);
      assert (a + b)[1..] == a[1..] + b;
      assert Shown(a[0]) + (Read(a[1..]) + Read(b)) == (Shown(a[0]) + Read(a[1..])) + Read(b);
    }
  }

  lemma {:induction false} TimesAdd(a: seq<string>, b: seq<string>, t: string)
    ensures Times(a + b, t) == Times(a, t) + Times(b, t)
  {
    if a == [] {
      assert a + b == b;
    } else {
      TimesAdd(a[1..], b, t);
      assert (a + b)[1..] == a[1..] + b;
    }
  }

  /** How often a piece occurs in a text, overlaps included. */
  function Occurrences(s: string, pat: string): nat {
    if s == [] then 0 else (if HasPrefix(s, pat) then 1 else 0) + Occurrences(s[1..], pat)
  }

  /** In clean text a tag occurs exactly as often as it is a token. */
  lemma {:induction false} TagsAreTokens(s: string, tag: string)
    requires Clean(s) && IsTag(tag)
    ensures Occurrences(s, tag) == Times(Tokens(s), tag)
    decreases |s|
  {
    hide Width, IsTag;
    if s != [] {
      var w := Width(s);
      TagsAreTokens(s[w..], tag);
      TagShape(tag);
      if HasPrefix(s, tag) {
        OneTokenWidth(tag);
        WidthOfLonger(tag, s[|tag|..]);
        assert tag + s[|tag|..] == s && s[..w] == tag;
      }
      forall j | 0 < j < w
        ensures !HasPrefix(s[j..], tag)
      {
        InsideToken(s, j);
        assert s[j..][0] == s[j];
      }
      SkipToken(s, tag, w);
    }
  }

  lemma {:induction false} SkipToken(s: string, tag: string, w: nat)
    requires 0 < w <= |s| && forall j :: 0 < j < w ==> !HasPrefix(s[j..], tag)
    ensures Occurrences(s, tag) == (if HasPrefix(s, tag) then 1 else 0) + Occurrences(s[w..], tag)
  {
    if w > 1 {
      assert s[1..][0..] == s[1..];
      forall j | 0 < j < w - 1
        ensures !HasPrefix(s[1..][j..], tag)
      {
        assert s[1..][j..] == s[j + 1..];
      }
      SkipToken(s[1..], tag, w - 1);
      assert s[1..][w - 1..] == s[w..];
    }
  }

  predicate Balanced(ts: seq<string>) {
    && Times(ts, "<b>") == Times(ts, "</b>") && Times(ts, "<i>") == Times(ts, "</i>")
    && Times(ts, "<pre>") == Times(ts, "</pre>") && Times(ts, "<code>") == Times(ts, "</code>")
  }

  function Weight(ts: seq<string>): int {
    Times(ts, "*") + 2 * Times(ts, "<i>") + 4 * Times(ts, "<b>")
  }

  /** What the inline passes may do: trade two stars for a pair of i tags and four for a pair of b tags. */
  predicate Trades(ts: seq<string>, ts': seq<string>) {
    && Unmarked(ts') == Unmarked(ts)
    && Weight(ts') == Weight(ts)
    && Times(ts', "<i>") - Times(ts, "<i>") == Times(ts', "</i>") - Times(ts, "</i>")
    && Times(ts', "<b>") - Times(ts, "<b>") == Times(ts', "</b>") - Times(ts, "</b>")
  }

  lemma TradesAdd(a: seq<string>, a': seq<string>, b: seq<string>, b': seq<string>)
    requires Trades(a, a') && Trades(b, b')
    ensures Trades(a + b, a' + b')
  {
    hide Unmarked, Times;
    UnmarkedAdd(a, b);
    UnmarkedAdd(a', b');
    MarkersAdd(a, b);
    MarkersAdd(a', b');
  }

  lemma MarkersAdd(a: seq<string>, b: seq<string>)
    ensures forall t :: Marker(t) ==> Times(a + b, t) == Times(a, t) + Times(b, t)
  {
    hide Times;
    forall t | Marker(t)
      ensures Times(a + b, t) == Times(a, t) + Times(b, t)
    {
      TimesAdd(a, b, t);
    }
  }

  lemma TradesThrough(a: seq<string>, b: seq<string>, c: seq<string>)
    requires Trades(a, b) && Trades(b, c)
    ensures Trades(a, c)
  {
    hide Unmarked, Times;
  }

  lemma OneTimes(x: string, t: string)
    ensures Times([x], t) == if x == t then 1 else 0
  {
    assert [x][1..] == [];
  }

  lemma MarkerUnmarked(x: string)
    requires Marker(x)
    ensures Unmarked([x]) == []
  {
    assert [x][1..] == [];
  }

  /** One pair of i tags for the stars around a piece. */
  lemma ItalicTrade(m: seq<string>, m': seq<string>)
    requires Trades(m, m')
    ensures Trades(["*"] + m + ["*"], ["<i>"] + m' + ["</i>"])
  {
    hide Unmarked, Times;
    Wrapped("*", m, "*");
    Wrapped("<i>", m', "</i>");
    DistinctMarkers();
  }

  /** One pair of b tags for the double stars around a piece. */
  lemma BoldTrade(m: seq<string>, m': seq<string>)
    requires Trades(m, m')
    ensures Trades(["*"] + (["*"] + m + ["*"]) + ["*"], ["<b>"] + m' + ["</b>"])
  {
    hide Unmarked, Times;
    Wrapped("*", m, "*");
    Wrapped("*", ["*"] + m + ["*"], "*");
    Wrapped("<b>", m', "</b>");
    DistinctMarkers();
  }

  lemma DistinctMarkers()
    ensures "*" != "<b>" && "*" != "</b>" && "*" != "<i>" && "*" != "</i>"
    ensures "<b>" != "</b>" && "<b>" != "<i>" && "<b>" != "</i>" && "</b>" != "<i>" && "</b>" != "</i>"
            && "<i>" != "</i>"
  {
    assert "<b>"[1] != "<i>"[1] && "</b>"[2] != "</i>"[2];
  }

  lemma Wrapped(x: string, m: seq<string>, y: string)
    requires Marker(x) && Marker(y)
    ensures Unmarked([x] + m + [y]) == Unmarked(m)
    ensures forall t :: Marker(t) ==>
              Times([x] + m + [y], t) == (if x == t then 1 else 0) + Times(m, t) + (if y == t then 1 else 0)
  {
    hide Unmarked, Times;
    UnmarkedAdd([x], m);
    UnmarkedAdd([x] + m, [y]);
    MarkerUnmarked(x);
    MarkerUnmarked(y);
    assert [] + Unmarked(m) + [] == Unmarked(m);
    forall t | Marker(t)
      ensures Times([x] + m + [y], t) == (if x == t then 1 else 0) + Times(m, t) + (if y == t then 1 else 0)
    {
      TimesAdd([x], m, t);
      TimesAdd([x] + m, [y], t);
      OneTimes(x, t);
      OneTimes(y, t);
    }
  }
}
