/** The inline passes, bold and italics on escaped text: they keep it clean, delete only stars and insert only
    paired b and i tags. */
module InlineMarkdown {
  import opened HtmlEscaping
  import opened HtmlTokens
  import opened Text

  // ----- italics and bold -----

  function Stars(s: string): nat {
    if s == [] then 0 else (if s[0] == '*' then 1 else 0) + Stars(s[1..])
  }

  lemma {:induction false} StarsAdd(a: string, b: string)
    ensures Stars(a + b) == Stars(a) + Stars(b)
  {
    if a == [] {
      assert a + b == b;
    } else {
      StarsAdd(a[1..], b);
      assert (a + b)[1..] == a[1..] + b;
    }
  }

  /** The parts of a text around two occurrences of a marker, the second behind the first. */
  datatype Parts = Parts(before: string, inner: string, behind: string)

  /** The next italic pair; none when a candidate star is followed by another. */
  predicate HasItalic(s: string) {
    var start := Index(s, "*");
    start >= 0 && !(start + 1 < |s| && s[start + 1] == '*') &&
    var end := Index(s[start + 1..], "*");
    end >= 0 && !(end + start + 2 < |s| && s[end + start + 2] == '*')
  }

  function ItalicParts(s: string): Parts
    requires HasItalic(s)
  {
    var start := Index(s, "*");
    var end := Index(s[start + 1..], "*") + start + 1;
    Parts(s[..start], s[start + 1..end], s[end + 1..])
  }

  lemma ItalicPartsOf(s: string)
    requires HasItalic(s)
    ensures var p := ItalicParts(s);
            && s == p.before + "*" + p.inner + "*" + p.behind
            && (Clean(s) ==>
                && Clean(p.before) && Clean(p.inner) && Clean(p.behind)
                && Tokens(s) == Tokens(p.before) + (["*"] + Tokens(p.inner) + ["*"]) + Tokens(p.behind))
  {
    hide Clean, Tokens, Index, HasItalic, ItalicParts;
    var start, end := ItalicSpan(s);
    AroundTwo(s, start, end, "*");
    if Clean(s) {
      CutAroundPair(s, start, end);
    }
  }

  lemma ItalicSpan(s: string) returns (start: nat, end: nat)
    requires HasItalic(s)
    ensures start < end < |s| && s[start..start + 1] == "*" && s[end..end + 1] == "*"
    ensures ItalicParts(s) == Parts(s[..start], s[start + 1..end], s[end + 1..])
  {
    hide Index;
    start := Index(s, "*");
    var rest := s[start + 1..];
    var found := Index(rest, "*");
    end := found + start + 1;
    StarAt(s, start);
    StarAt(rest, found);
  }

  lemma CutAroundPair(s: string, start: nat, end: nat)
    requires Clean(s) && start < end < |s| && s[start..start + 1] == "*" && s[end..end + 1] == "*"
    ensures Clean(s[..start]) && Clean(s[start + 1..end]) && Clean(s[end + 1..])
    ensures Tokens(s) == Tokens(s[..start]) + (["*"] + Tokens(s[start + 1..end]) + ["*"]) + Tokens(s[end + 1..])
  {
    hide Clean, Tokens;
    assert s[start] == s[start..start + 1][0] && s[end] == s[end..end + 1][0];
    CutAroundStar(s, start);
    CutAroundStar(s[start + 1..], end - start - 1);
    RestSlices(s, start + 1, end - start - 1, 1);
  }

  lemma AroundTwo(s: string, start: nat, end: nat, mark: string)
    requires start + |mark| <= end && end + |mark| <= |s|
    requires s[start..start + |mark|] == mark && s[end..end + |mark|] == mark
    ensures s == s[..start] + mark + s[start + |mark|..end] + mark + s[end + |mark|..]
  {
  }

  lemma RestSlices(s: string, from: nat, end: nat, width: nat)
    requires from + end + width <= |s|
    ensures s[from..][..end] == s[from..end + from] && s[from..][end + width..] == s[end + from + width..]
  {
  }

  lemma StarAt(s: string, k: int)
    requires OccursAt(s, "*", k)
    ensures 0 <= k < |s| && s[k] == '*' && s[k..k + 1] == "*"
  {
    assert s[k..k + 1][0] == s[k];
  }

  function Italic(s: string): (r: string)
    decreases Stars(s)
  {
    if !HasItalic(s) then s
    else
      var p := ItalicParts(s);
      ItalicPartsOf(s);
      ItalicLosesStars(p);
      Italic(p.before + "<i>" + p.inner + "</i>" + p.behind)
  }

  lemma ItalicLosesStars(p: Parts)
    ensures Stars(p.before + "<i>" + p.inner + "</i>" + p.behind) + 2 ==
            Stars(p.before + "*" + p.inner + "*" + p.behind)
  {
    StarsAround(p, "<i>", "</i>");
    StarsAround(p, "*", "*");
    TagStars();
  }

  lemma StarsAround(p: Parts, x: string, y: string)
    ensures Stars(p.before + x + p.inner + y + p.behind) ==
            Stars(p.before) + Stars(x) + Stars(p.inner) + Stars(y) + Stars(p.behind)
  {
    hide Stars;
    StarsAdd(p.before, x);
    StarsAdd(p.before + x, p.inner);
    StarsAdd(p.before + x + p.inner, y);
    StarsAdd(p.before + x + p.inner + y, p.behind);
  }

  lemma TagStars()
    ensures Stars("*") == 1 && Stars("**") == 2
    ensures Stars("<i>") == 0 && Stars("</i>") == 0 && Stars("<b>") == 0 && Stars("</b>") == 0
  {
    assert "**"[1..] == "*" && "*"[1..] == "";
    NoStars("<i>");
    NoStars("</i>");
    NoStars("<b>");
    NoStars("</b>");
  }

  lemma {:induction false} NoStars(s: string)
    requires forall k :: 0 <= k < |s| ==> s[k] != '*'
    ensures Stars(s) == 0
  {
    if s != [] {
      NoStars(s[1..]);
    }
  }

  method ConvertItalic(text: string) returns (s: string)
    ensures s == Italic(text)
  {
    hide Italic, Stars;
    s := text;
    while true
      invariant Italic(s) == Italic(text)
      decreases Stars(s)
    {
      ItalicUnfold(s);
      var start := Index(s, "*");
      if start == -1 {
        break;
      }
      if start + 1 < |s| && s[start + 1] == '*' {
        break;
      }
      var end := Index(s[start + 1..], "*");
      if end == -1 {
        break;
      }
      end := end + start + 1;
      if end + 1 < |s| && s[end + 1] == '*' {
        break;
      }
      s := s[..start] + "<i>" + s[start + 1..end] + "</i>" + s[end + 1..];
    }
  }

  lemma ItalicUnfold(s: string)
    ensures !HasItalic(s) ==> Italic(s) == s
    ensures HasItalic(s) ==>
              var start := Index(s, "*");
              var end := Index(s[start + 1..], "*") + start + 1;
              && start < end < |s|
              && var s' := s[..start] + "<i>" + s[start + 1..end] + "</i>" + s[end + 1..];
                 Italic(s') == Italic(s) && Stars(s') < Stars(s)
  {
    hide Stars, Index, Clean, Tokens;
    if HasItalic(s) {
      ItalicPartsOf(s);
      ItalicLosesStars(ItalicParts(s));
    }
  }

  /** The italic pass keeps clean text clean and only trades stars for tags. */
  lemma {:induction false} ItalicTrades(s: string)
    requires Clean(s)
    ensures Clean(Italic(s)) && Trades(Tokens(s), Tokens(Italic(s)))
    decreases Stars(s)
  {
    hide Tokens, Clean, Trades, HasItalic;
    if HasItalic(s) {
      var p := ItalicParts(s);
      var s' := p.before + "<i>" + p.inner + "</i>" + p.behind;
      ItalicPartsOf(s);
      ItalicLosesStars(p);
      TagsAround(p, "<i>", "</i>");
      TradesSame(Tokens(p.before));
      TradesSame(Tokens(p.inner));
      TradesSame(Tokens(p.behind));
      ItalicTrade(Tokens(p.inner), Tokens(p.inner));
      TradesAdd(Tokens(p.before), Tokens(p.before), ["*"] + Tokens(p.inner) + ["*"],
          ["<i>"] + Tokens(p.inner) + ["</i>"]);
      TradesAdd(Tokens(p.before) + (["*"] + Tokens(p.inner) + ["*"]),
                Tokens(p.before) + (["<i>"] + Tokens(p.inner) + ["</i>"]), Tokens(p.behind), Tokens(p.behind));
      ItalicTrades(s');
      TradesThrough(Tokens(s), Tokens(s'), Tokens(Italic(s')));
    } else {
      TradesSame(Tokens(s));
    }
  }

  lemma TradesSame(ts: seq<string>)
    ensures Trades(ts, ts)
  {
  }

  lemma TagsAround(p: Parts, x: string, y: string)
    requires Clean(p.before) && Clean(p.inner) && Clean(p.behind) && IsTag(x) && IsTag(y)
    ensures Clean(p.before + x + p.inner + y + p.behind)
    ensures Tokens(p.before + x + p.inner + y + p.behind) ==
            Tokens(p.before) + ([x] + Tokens(p.inner) + [y]) + Tokens(p.behind)
  {
    hide Width, Clean, Tokens, IsTag;
    OneToken(x);
    OneToken(y);
    TokensConcat(p.before, x);
    TokensConcat(p.before + x, p.inner);
    TokensConcat(p.before + x + p.inner, y);
    TokensConcat(p.before + x + p.inner + y, p.behind);
    assert Tokens(p.before) + [x] + Tokens(p.inner) + [y] + Tokens(p.behind)
        == Tokens(p.before) + ([x] + Tokens(p.inner) + [y]) + Tokens(p.behind);
  }

  predicate HasBold(s: string) {
    var start := Index(s, "**");
    start >= 0 && Index(s[start + 2..], "**") >= 0
  }

  function BoldParts(s: string): Parts
    requires HasBold(s)
  {
    var start := Index(s, "**");
    var end := Index(s[start + 2..], "**") + start + 2;
    Parts(s[..start], s[start + 2..end], s[end + 2..])
  }

  lemma BoldPartsOf(s: string)
    requires HasBold(s)
    ensures var p := BoldParts(s);
            && s == p.before + "**" + p.inner + "**" + p.behind
            && (Clean(s) ==>
                && Clean(p.before) && Clean(p.inner) && Clean(p.behind)
                && Tokens(s) ==
                  Tokens(p.before) + (["*"] + (["*"] + Tokens(p.inner) + ["*"]) + ["*"]) + Tokens(p.behind))
  {
    hide Width, Clean, Tokens, Index;
    var start := Index(s, "**");
    var rest := s[start + 2..];
    var end := Index(rest, "**");
    DoubleStarAt(s, start);
    DoubleStarAt(rest, end);
    hide OccursAt;
    AroundTwo(s, start, end + start + 2, "**");
    RestSlices(s, start + 2, end, 2);
    if Clean(s) {
      CutAroundDouble(s, start);
      CutAroundDouble(rest, end);
      RegroupBold(Tokens(s[..start]), Tokens(rest[..end]), Tokens(rest[end + 2..]));
    }
  }

  lemma CutAroundDouble(s: string, k: nat)
    requires Clean(s) && k < |s| - 1 && s[k] == '*' && s[k + 1] == '*'
    ensures Clean(s[..k]) && Clean(s[k + 2..])
    ensures Tokens(s) == Tokens(s[..k]) + ["*", "*"] + Tokens(s[k + 2..])
  {
    hide Width, Clean, Tokens;
    CutAroundStar(s, k);
    var s1 := s[k + 1..];
    CutAroundStar(s1, 0);
    assert s1[..0] == [] && s1[1..] == s[k + 2..];
    NoTokens();
    assert Tokens(s[..k]) + ["*"] + ([] + ["*"] + Tokens(s[k + 2..])) ==
      Tokens(s[..k]) + ["*", "*"] + Tokens(s[k + 2..]);
  }

  lemma NoTokens()
    ensures Tokens([]) == []
  {
  }

  lemma RegroupBold(a: seq<string>, m: seq<string>, b: seq<string>)
    ensures a + ["*", "*"] + (m + ["*", "*"] + b) == a + (["*"] + (["*"] + m + ["*"]) + ["*"]) + b
  {
  }

  lemma DoubleStarAt(s: string, k: int)
    requires OccursAt(s, "**", k)
    ensures 0 <= k < |s| - 1 && s[k] == '*' && s[k + 1] == '*' && s[k..k + 2] == "**"
  {
    assert s[k..k + 2][0] == s[k] && s[k..k + 2][1] == s[k + 1];
  }

  lemma {:induction false} ItalicStars(s: string)
    ensures Stars(Italic(s)) <= Stars(s)
    decreases Stars(s)
  {
    if HasItalic(s) {
      var p := ItalicParts(s);
      ItalicPartsOf(s);
      ItalicLosesStars(p);
      ItalicStars(p.before + "<i>" + p.inner + "</i>" + p.behind);
    }
  }

  lemma BoldLosesStars(p: Parts)
    ensures Stars(p.before + "<b>" + Italic(p.inner) + "</b>" + p.behind) + 4
         <= Stars(p.before + "**" + p.inner + "**" + p.behind)
  {
    hide Stars, Italic;
    StarsAround(p, "**", "**");
    StarsAround(p.(inner := Italic(p.inner)), "<b>", "</b>");
    ItalicStars(p.inner);
    TagStars();
  }

  function BoldItalic(s: string): string
    decreases Stars(s)
  {
    if !HasBold(s) then Italic(s)
    else
      var p := BoldParts(s);
      BoldPartsOf(s);
      BoldLosesStars(p);
      BoldItalic(p.before + "<b>" + Italic(p.inner) + "</b>" + p.behind)
  }

  method ConvertBoldItalic(text: string) returns (s: string)
    ensures s == BoldItalic(text)
  {
    hide BoldItalic, Italic, Stars, Index;
    s := text;
    while true
      invariant BoldItalic(s) == BoldItalic(text)
      decreases Stars(s)
    {
      BoldUnfold(s);
      var start := Index(s, "**");
      if start == -1 {
        break;
      }
      var end := Index(s[start + 2..], "**");
      if end == -1 {
        break;
      }
      end := end + start + 2;
      var inner := ConvertItalic(s[start + 2..end]);
      s := s[..start] + "<b>" + inner + "</b>" + s[end + 2..];
    }
    BoldUnfold(s);
    s := ConvertItalic(s);
  }

  lemma BoldUnfold(s: string)
    ensures !HasBold(s) ==> BoldItalic(s) == Italic(s)
    ensures HasBold(s) ==>
              var start := Index(s, "**");
              var end := Index(s[start + 2..], "**") + start + 2;
              && start + 2 <= end <= |s| - 2
              && var s' := s[..start] + "<b>" + Italic(s[start + 2..end]) + "</b>" + s[end + 2..];
                 BoldItalic(s') == BoldItalic(s) && Stars(s') < Stars(s)
  {
    hide Stars, Italic, Index, Clean, Tokens;
    if HasBold(s) {
      BoldPartsOf(s);
      BoldLosesStars(BoldParts(s));
    }
  }

  /** Both passes together: clean text stays clean, only stars are deleted, only b and i tags inserted, in pairs. */
  lemma {:induction false} BoldItalicTrades(s: string)
    requires Clean(s)
    ensures Clean(BoldItalic(s)) && Trades(Tokens(s), Tokens(BoldItalic(s)))
    decreases Stars(s)
  {
    hide Tokens, Clean, Trades, HasBold, Italic;
    if HasBold(s) {
      var p := BoldParts(s);
      var q := p.(inner := Italic(p.inner));
      BoldPartsOf(s);
      var s' := p.before + "<b>" + Italic(p.inner) + "</b>" + p.behind;
      BoldLosesStars(p);
      ItalicTrades(p.inner);
      TagsAround(q, "<b>", "</b>");
      TradesSame(Tokens(p.before));
      TradesSame(Tokens(p.behind));
      BoldTrade(Tokens(p.inner), Tokens(q.inner));
      var stars, tags := ["*"] + (["*"] + Tokens(p.inner) + ["*"]) + ["*"], ["<b>"] + Tokens(q.inner) + ["</b>"];
      TradesAdd(Tokens(p.before), Tokens(p.before), stars, tags);
      TradesAdd(Tokens(p.before) + stars, Tokens(p.before) + tags, Tokens(p.behind), Tokens(p.behind));
      BoldItalicTrades(s');
      TradesThrough(Tokens(s), Tokens(s'), Tokens(BoldItalic(s')));
    } else {
      ItalicTrades(s);
    }
  }

  // ----- which stars are markers -----

  lemma ItalicOnce(s: string)
    requires HasItalic(s)
    ensures var p := ItalicParts(s);
            var s' := p.before + "<i>" + p.inner + "</i>" + p.behind;
            Italic(s) == Italic(s') && Stars(s') < Stars(s)
  {
    hide Stars, HasItalic, ItalicParts, Clean, Tokens;
    ItalicPartsOf(s);
    ItalicLosesStars(ItalicParts(s));
  }

  /** Text without stars stays in front of what the rest becomes. */
  lemma {:induction false} ItalicBehind(a: string, z: string)
    requires '*' !in a
    ensures Italic(a + z) == a + Italic(z)
    decreases Stars(z)
  {
    hide Stars, HasItalic, ItalicParts;
    SameItalic(a, z);
    if HasItalic(z) {
      hide Italic;
      var p := ItalicParts(z);
      ItalicOnce(z);
      ItalicOnce(a + z);
      var z' := p.before + "<i>" + p.inner + "</i>" + p.behind;
      ItalicBehind(a, z');
      assert a + z' == (a + p.before) + "<i>" + p.inner + "</i>" + p.behind;
    }
  }

  lemma SameItalic(a: string, z: string)
    requires '*' !in a
    ensures HasItalic(a + z) <==> HasItalic(z)
    ensures HasItalic(z) ==> ItalicParts(a + z) == ItalicParts(z).(before := a + ItalicParts(z).before)
  {
    hide Index, OccursAt;
    IndexBehind(a, z, "*");
    var start := Index(z, "*");
    if start >= 0 {
      StarFound(z);
      assert (a + z)[|a| + start + 1..] == z[start + 1..];
      assert (a + z)[..|a| + start] == a + z[..start];
      if Index(z[start + 1..], "*") >= 0 {
        StarFound(z[start + 1..]);
      }
    }
  }

  lemma StarFound(z: string)
    requires Index(z, "*") >= 0
    ensures Index(z, "*") < |z| && z[Index(z, "*")] == '*'
  {
    StarAt(z, Index(z, "*"));
  }

  /** Two single stars around text without stars become i tags; the rest is converted by itself. */
  lemma ItalicReads(x: string, y: string, z: string)
    requires '*' !in x && '*' !in y && y != "" && (z == "" || z[0] != '*')
    ensures Italic(x + "*" + y + "*" + z) == x + "<i>" + y + "</i>" + Italic(z)
  {
    hide Italic, HasItalic, ItalicParts;
    ItalicFound(x, y, z);
    ItalicOnce(x + "*" + y + "*" + z);
    StarlessTags();
    ItalicBehind(x + "<i>" + y + "</i>", z);
  }

  lemma ItalicFound(x: string, y: string, z: string)
    requires '*' !in x && '*' !in y && y != "" && (z == "" || z[0] != '*')
    ensures HasItalic(x + "*" + y + "*" + z) && ItalicParts(x + "*" + y + "*" + z) == Parts(x, y, z)
  {
    hide Index, HasItalic, ItalicParts, OccursAt;
    var s := x + "*" + y + "*" + z;
    ItalicShape(x, y, z);
    assert y[0] != '*';
    ItalicIndices(s, x, y, z);
    StarsAt(s, |x|, |y|);
  }

  lemma ItalicIndices(s: string, x: string, y: string, z: string)
    requires '*' !in x && '*' !in y && s == x + "*" + (y + "*" + z) && s[|x| + 1..] == y + "*" + z
    ensures Index(s, "*") == |x| && Index(s[|x| + 1..], "*") == |y|
  {
    hide Index, OccursAt;
    IndexOfChar(x, '*', y + "*" + z);
    IndexOfChar(y, '*', z);
  }

  lemma ItalicShape(x: string, y: string, z: string)
    ensures var s := x + "*" + y + "*" + z;
            && s == x + "*" + (y + "*" + z) && s[|x| + 1..] == y + "*" + z
            && s[..|x|] == x && s[|x| + 1..|x| + 1 + |y|] == y && s[|x| + |y| + 2..] == z
            && (y != "" ==> s[|x| + 1] == y[0]) && (z != "" ==> s[|x| + |y| + 2] == z[0])
  {
    var s := x + "*" + y + "*" + z;
    assert s[|x| + 1..] == y + "*" + z;
  }

  lemma StarsAt(s: string, start: nat, n: nat)
    requires start == Index(s, "*") && start + n + 2 <= |s| && n == Index(s[start + 1..], "*")
    requires s[start + 1] != '*' && (start + n + 2 < |s| ==> s[start + n + 2] != '*')
    ensures HasItalic(s) && ItalicParts(s) == Parts(s[..start], s[start + 1..start + 1 + n], s[start + n + 2..])
  {
    hide Index, OccursAt;
  }

  lemma StarlessTags()
    ensures '*' !in "<i>" && '*' !in "</i>" && '*' !in "<b>" && '*' !in "</b>"
  {
  }

  /** A pass ends at a star without a partner and at a double star. */
  lemma ItalicStops(x: string, y: string, z: string)
    requires '*' !in x && '*' !in y
    ensures Italic(x) == x && Italic(x + "*" + y) == x + "*" + y
    ensures Italic(x + "**" + z) == x + "**" + z
    ensures Italic(x + "*" + y + "**" + z) == x + "*" + y + "**" + z
  {
    hide Index, Italic;
    ItalicNone(x);
    ItalicOne(x, y);
    ItalicDouble(x, z);
    ItalicThenDouble(x, y, z);
  }

  lemma ItalicNone(x: string)
    requires '*' !in x
    ensures Italic(x) == x
  {
    hide Index;
    IndexOfChar(x, '*', "");
  }

  lemma ItalicOne(x: string, y: string)
    requires '*' !in x && '*' !in y
    ensures Italic(x + "*" + y) == x + "*" + y
  {
    hide Index;
    IndexOfChar(x, '*', y);
    IndexOfChar(y, '*', "");
    assert (x + "*" + y)[|x| + 1..] == y;
  }

  lemma ItalicDouble(x: string, z: string)
    requires '*' !in x
    ensures Italic(x + "**" + z) == x + "**" + z
  {
    hide Index;
    assert x + "**" + z == x + "*" + ("*" + z);
    IndexOfChar(x, '*', "*" + z);
  }

  lemma ItalicThenDouble(x: string, y: string, z: string)
    requires '*' !in x && '*' !in y
    ensures Italic(x + "*" + y + "**" + z) == x + "*" + y + "**" + z
  {
    hide Index;
    var s, rest := x + "*" + y + "**" + z, y + "**" + z;
    assert s == x + "*" + rest && rest == y + "*" + ("*" + z);
    IndexOfChar(x, '*', rest);
    IndexOfChar(y, '*', "*" + z);
    assert s[|x| + 1..] == rest;
  }

  lemma BoldOnce(s: string)
    requires HasBold(s)
    ensures var p := BoldParts(s);
            var s' := p.before + "<b>" + Italic(p.inner) + "</b>" + p.behind;
            BoldItalic(s) == BoldItalic(s') && Stars(s') < Stars(s)
  {
    hide Stars, HasBold, BoldParts, Clean, Tokens, Italic;
    BoldPartsOf(s);
    BoldLosesStars(BoldParts(s));
  }

  /** The same for both passes together. */
  lemma {:induction false} BoldBehind(a: string, z: string)
    requires '*' !in a
    ensures BoldItalic(a + z) == a + BoldItalic(z)
    decreases Stars(z)
  {
    hide Stars, Index, Italic, HasBold, BoldParts;
    SameBold(a, z);
    if HasBold(z) {
      hide BoldItalic;
      var p := BoldParts(z);
      BoldOnce(z);
      BoldOnce(a + z);
      var z' := p.before + "<b>" + Italic(p.inner) + "</b>" + p.behind;
      BoldBehind(a, z');
      assert a + z' == (a + p.before) + "<b>" + Italic(p.inner) + "</b>" + p.behind;
    } else {
      ItalicBehind(a, z);
    }
  }

  lemma DoubleFound(z: string)
    requires Index(z, "**") >= 0
    ensures Index(z, "**") + 2 <= |z|
  {
    DoubleStarAt(z, Index(z, "**"));
  }

  lemma SameBold(a: string, z: string)
    requires '*' !in a
    ensures HasBold(a + z) <==> HasBold(z)
    ensures HasBold(z) ==> BoldParts(a + z) == BoldParts(z).(before := a + BoldParts(z).before)
  {
    hide Index, OccursAt;
    IndexBehind(a, z, "**");
    var start := Index(z, "**");
    if start >= 0 {
      DoubleFound(z);
      assert (a + z)[|a| + start + 2..] == z[start + 2..];
      if Index(z[start + 2..], "**") >= 0 {
        DoubleFound(z[start + 2..]);
      }
    }
  }

  /** Two double stars, the second the first behind the other, become b tags around the italics between them. */
  lemma BoldReads(x: string, y: string, z: string)
    requires '*' !in x && FirstAt(y + "**" + z, "**", |y|)
    ensures BoldItalic(x + "**" + y + "**" + z) == x + BoldItalic("<b>" + Italic(y) + "</b>" + z)
  {
    hide Index, Italic, BoldItalic, FirstAt;
    var s, rest := "**" + y + "**" + z, y + "**" + z;
    assert s == "**" + rest && x + "**" + y + "**" + z == x + s;
    BoldBehind(x, s);
    IndexIsFirst(rest, "**", |y|);
    DoubleFirst(rest);
    assert s[2..] == rest;
    BoldUnfold(s);
    assert s[..0] == "" && "" + "<b>" == "<b>";
    assert s[2..|y| + 2] == y && s[|y| + 4..] == z;
  }

  lemma DoubleFirst(rest: string)
    ensures Index("**" + rest, "**") == 0
  {
    assert ("**" + rest)[..2] == "**";
  }

  /** Without two double stars only the italic pass is left. */
  lemma BoldStops(s: string)
    requires Absent(s, "**") || exists k: nat :: k + 2 <= |s| && FirstAt(s, "**", k) && Absent(s[k + 2..], "**")
    ensures BoldItalic(s) == Italic(s)
  {
    hide Index, Italic, BoldItalic, Absent, FirstAt, HasBold;
    if Absent(s, "**") {
      NoDouble(s);
    } else {
      var k: nat :| k + 2 <= |s| && FirstAt(s, "**", k) && Absent(s[k + 2..], "**");
      OneDouble(s, k);
    }
    BoldUnfold(s);
  }

  lemma NoDouble(s: string)
    requires Absent(s, "**")
    ensures !HasBold(s)
  {
    hide Index, Absent;
    IndexIsFirst(s, "**", 0);
  }

  lemma OneDouble(s: string, k: nat)
    requires k + 2 <= |s| && FirstAt(s, "**", k) && Absent(s[k + 2..], "**")
    ensures !HasBold(s)
  {
    hide Index, Absent, FirstAt;
    IndexIsFirst(s, "**", k);
    IndexIsFirst(s[k + 2..], "**", 0);
  }

  // ----- the inline conversion -----

  function MarkdownInline(s: string): string {
    BoldItalic(EscapeHTMLPreservingTags(s))
  }

  function UnlessStar(c: char): string {
    if c == '*' then [] else [c]
  }

  /** The text without its stars. */
  function Unstarred(s: string): string {
    if s == [] then [] else UnlessStar(s[0]) + Unstarred(s[1..])
  }

  /** Among ordinary tokens only the stars are markers, so unmarking drops the stars of the text. */
  lemma {:induction false} UnmarkedIsUnstarred(ts: seq<string>)
    requires forall i :: 0 <= i < |ts| ==> Ordinary(ts[i]) && (ts[i] == "*" || '*' !in Shown(ts[i]))
    ensures Read(Unmarked(ts)) == Unstarred(Read(ts))
    ensures Times(ts, "<b>") == 0 && Times(ts, "</b>") == 0 && Times(ts, "<i>") == 0 && Times(ts, "</i>") == 0
    ensures Times(ts, "<pre>") == 0 && Times(ts, "</pre>") == 0 && Times(ts, "<code>") == 0 && Times(ts, "</code>") == 0
    ensures Times(ts, "*") == Stars(Read(ts))
  {
    hide Shown;
    if ts != [] {
      var later := Unmarked(ts[1..]);
      UnmarkedIsUnstarred(ts[1..]);
      assert ([ts[0]] + later)[1..] == later && [] + later == later;
      OrdinaryIsNoMarker(ts[0]);
      UnstarredAdd(Shown(ts[0]), Read(ts[1..]));
      StarsAdd(Shown(ts[0]), Read(ts[1..]));
      if ts[0] == "*" {
        StarShown();
        TagStars();
      } else {
        UnstarredAbsent(Shown(ts[0]));
        NoStars(Shown(ts[0]));
      }
    }
  }

  lemma StarShown()
    ensures Shown("*") == "*" && Unstarred("*") == ""
  {
    assert "*"[1..] == "";
  }

  lemma OrdinaryIsNoMarker(t: string)
    requires Ordinary(t)
    ensures t != "<b>" && t != "</b>" && t != "<i>" && t != "</i>"
    ensures t != "<pre>" && t != "</pre>" && t != "<code>" && t != "</code>"
    ensures Marker(t) <==> t == "*"
  {
    if |t| > 3 {
      assert BLOCKQUOTE[3] == 'o' && BLOCKQUOTE_END[3] == 'l';
    }
  }

  lemma {:induction false} UnstarredAdd(a: string, b: string)
    ensures Unstarred(a + b) == Unstarred(a) + Unstarred(b)
  {
    hide UnlessStar, Unstarred;
    UnstarredHead(a);
    if a == [] {
      assert a + b == b && [] + Unstarred(b) == Unstarred(b);
    } else {
      UnstarredHead(a + b);
      UnstarredAdd(a[1..], b);
      assert (a + b)[1..] == a[1..] + b;
      assert UnlessStar(a[0]) + (Unstarred(a[1..]) + Unstarred(b)) ==
        (UnlessStar(a[0]) + Unstarred(a[1..])) + Unstarred(b);
    }
  }

  lemma UnstarredHead(s: string)
    ensures Unstarred(s) == if s == "" then "" else UnlessStar(s[0]) + Unstarred(s[1..])
  {
    hide UnlessStar;
  }

  lemma {:induction false} UnstarredAbsent(s: string)
    requires '*' !in s
    ensures Unstarred(s) == s
  {
    if s != [] {
      UnstarredAbsent(s[1..]);
    }
  }

  predicate Proper(t: string) {
    IsTag(t) || IsEntity(t) || (|t| == 1 && t[0] != '<' && t[0] != '>' && t[0] != '&')
  }

  lemma {:induction false} TokensAreProper(s: string)
    ensures forall i :: 0 <= i < |Tokens(s)| ==> Proper(Tokens(s)[i])
    decreases |s|
  {
    hide Proper, Width;
    if s != [] && Width(s) > 0 {
      var w := Width(s);
      TokensAreProper(s[w..]);
      FirstIsProper(s);
      forall i | 0 <= i < |Tokens(s)|
        ensures Proper(Tokens(s)[i])
      {
        if i > 0 {
          assert Tokens(s)[i] == Tokens(s[w..])[i - 1];
        }
      }
    }
  }

  lemma FirstIsProper(s: string)
    requires Width(s) > 0
    ensures Proper(s[..Width(s)])
  {
    hide IsTag, IsEntity;
  }

  lemma ProperStar(t: string)
    requires Proper(t)
    ensures t == "*" || '*' !in Shown(t)
  {
    if IsTag(t) || IsEntity(t) {
      hide IsTag;
      TagShape(t);
      StarNotInner();
    } else {
      assert Shown(t) == t;
    }
  }

  lemma {:induction false} UnmarkedTimes(ts: seq<string>, t: string)
    requires !Marker(t)
    ensures Times(Unmarked(ts), t) == Times(ts, t)
  {
    hide Marker;
    if ts != [] {
      UnmarkedTimes(ts[1..], t);
      TimesAdd(Kept(ts[0]), Unmarked(ts[1..]), t);
      OneTimes(ts[0], t);
      NoTimes(t);
    }
  }

  lemma NoTimes(t: string)
    ensures Times([], t) == 0
  {
  }

  lemma CodeTagsNoMarkers()
    ensures !Marker("<pre>") && !Marker("</pre>") && !Marker("<code>") && !Marker("</code>")
  {
  }

  /** The inline conversion of any text: clean output, tags in pairs, every star kept or traded for its share
      of a pair, and everything but the stars still there, in order. */
  lemma InlineKeepsText(s: string)
    ensures var ts := Tokens(MarkdownInline(s));
            && Clean(MarkdownInline(s))
            && Read(Unmarked(ts)) == Unstarred(s)
            && Weight(ts) == Stars(s)
            && Balanced(ts)
  {
    hide Clean, Tokens, BoldItalic, EscapeHTMLPreservingTags, Unmarked, Read, Unstarred, Stars, Times, Marker,
      Ordinary, Proper;
    var e := EscapeHTMLPreservingTags(s);
    EscapePreservingReadsBack(s);
    TokensAreProper(e);
    forall i | 0 <= i < |Tokens(e)|
      ensures Tokens(e)[i] == "*" || '*' !in Shown(Tokens(e)[i])
    {
      ProperStar(Tokens(e)[i]);
    }
    UnmarkedIsUnstarred(Tokens(e));
    BoldItalicTrades(e);
    CodeTagsNoMarkers();
    CodeTagsSurvive(Tokens(e), Tokens(BoldItalic(e)), "<pre>");
    CodeTagsSurvive(Tokens(e), Tokens(BoldItalic(e)), "</pre>");
    CodeTagsSurvive(Tokens(e), Tokens(BoldItalic(e)), "<code>");
    CodeTagsSurvive(Tokens(e), Tokens(BoldItalic(e)), "</code>");
  }

  lemma CodeTagsSurvive(ts: seq<string>, ts': seq<string>, t: string)
    requires Unmarked(ts') == Unmarked(ts) && !Marker(t)
    ensures Times(ts', t) == Times(ts, t)
  {
    UnmarkedTimes(ts, t);
    UnmarkedTimes(ts', t);
  }
}
