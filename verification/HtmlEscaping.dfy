/** Escaping text for the HTML subset Telegram accepts, with and without its blockquote tags: the result is
    clean and reads back as the text. */
module HtmlEscaping {
  import opened HtmlTokens
  import opened Text

  /** strings.ReplaceAll for a non-empty pattern. */
  function ReplaceAll(s: string, pat: string, rep: string): string
    requires pat != ""
    decreases |s|
  {
    if s == [] then []
    else if HasPrefix(s, pat) then rep + ReplaceAll(s[|pat|..], pat, rep)
    else [s[0]] + ReplaceAll(s[1..], pat, rep)
  }

  const BLOCKQUOTE := "<blockquote expandable>"
  const BLOCKQUOTE_END := "</blockquote>"

  function EscapeHTML(s: string): string {
    ReplaceAll(ReplaceAll(ReplaceAll(s, "&", "&amp;"), "<", "&lt;"), ">", "&gt;")
  }

  function EscapeHTMLPreservingTags(s: string): string {
    ReplaceAll(ReplaceAll(EscapeHTML(s),
                          OPEN_ESCAPED, BLOCKQUOTE),
               CLOSE_ESCAPED, BLOCKQUOTE_END)
  }

  function EscapeChar(c: char): string {
    if c == '&' then "&amp;" else if c == '<' then "&lt;" else if c == '>' then "&gt;" else [c]
  }

  function Escaped(s: string): string {
    if s == [] then [] else EscapeChar(s[0]) + Escaped(s[1..])
  }

  function Replaced(x: char, c: char, rep: string): string {
    if x == c then rep else [x]
  }

  lemma ReplaceCharUnfold(s: string, c: char, rep: string)
    ensures s == [] ==> ReplaceAll(s, [c], rep) == []
    ensures s != [] ==> ReplaceAll(s, [c], rep) == Replaced(s[0], c, rep) + ReplaceAll(s[1..], [c], rep)
  {
  }

  lemma {:induction false} ReplaceCharAdd(a: string, b: string, c: char, rep: string)
    ensures ReplaceAll(a + b, [c], rep) == ReplaceAll(a, [c], rep) + ReplaceAll(b, [c], rep)
  {
    hide ReplaceAll, Replaced;
    ReplaceCharUnfold(a, c, rep);
    if a == [] {
      assert a + b == b && [] + ReplaceAll(b, [c], rep) == ReplaceAll(b, [c], rep);
    } else {
      ReplaceCharAdd(a[1..], b, c, rep);
      ReplaceCharUnfold(a + b, c, rep);
      assert (a + b)[1..] == a[1..] + b;
      assert Replaced(a[0], c, rep) + (ReplaceAll(a[1..], [c], rep) + ReplaceAll(b, [c], rep))
          == (Replaced(a[0], c, rep) + ReplaceAll(a[1..], [c], rep)) + ReplaceAll(b, [c], rep);
    }
  }

  lemma {:induction false} ReplaceAbsent(s: string, c: char, rep: string)
    requires c !in s
    ensures ReplaceAll(s, [c], rep) == s
  {
    if s != [] {
      ReplaceAbsent(s[1..], c, rep);
    }
  }

  lemma ReplaceOne(c: char, d: char, rep: string)
    ensures ReplaceAll([c], [d], rep) == if c == d then rep else [c]
  {
    assert [c][1..] == [];
    assert rep + [] == rep;
  }

  lemma EscapeOne(c: char)
    ensures EscapeHTML([c]) == EscapeChar(c)
  {
    hide ReplaceAll;
    ReplaceOne(c, '&', "&amp;");
    ReplaceOne(c, '<', "&lt;");
    ReplaceOne(c, '>', "&gt;");
    ReplaceAbsent("&amp;", '<', "&lt;");
    ReplaceAbsent("&amp;", '>', "&gt;");
    ReplaceAbsent("&lt;", '>', "&gt;");
  }

  /** The three replacements in a row escape character by character. */
  lemma {:induction false} EscapeIsPerChar(s: string)
    ensures EscapeHTML(s) == Escaped(s)
  {
    hide ReplaceAll, EscapeChar;
    if s == [] {
      EscapeNothing();
    } else {
      EscapeIsPerChar(s[1..]);
      EscapeOne(s[0]);
      assert s == [s[0]] + s[1..];
      ReplaceCharAdd([s[0]], s[1..], '&', "&amp;");
      var a, b := ReplaceAll([s[0]], "&", "&amp;"), ReplaceAll(s[1..], "&", "&amp;");
      ReplaceCharAdd(a, b, '<', "&lt;");
      ReplaceCharAdd(ReplaceAll(a, "<", "&lt;"), ReplaceAll(b, "<", "&lt;"), '>', "&gt;");
    }
  }

  lemma EscapeNothing()
    ensures EscapeHTML([]) == []
  {
  }

  /** No tag of the converter is among the tokens. */
  predicate TagFree(ts: seq<string>) {
    forall i :: 0 <= i < |ts| ==> !IsTag(ts[i])
  }

  lemma EscapeCharToken(c: char)
    ensures Clean(EscapeChar(c)) && Tokens(EscapeChar(c)) == [EscapeChar(c)]
    ensures Shown(EscapeChar(c)) == [c] && !IsTag(EscapeChar(c))
  {
    hide Clean, Tokens;
    OneToken(EscapeChar(c));
  }

  /** Escaped text is clean, has no tags, and reads back as the text. */
  lemma {:induction false} EscapedIsClean(s: string)
    ensures Clean(Escaped(s)) && TagFree(Tokens(Escaped(s))) && Read(Tokens(Escaped(s))) == s
  {
    hide EscapeChar, Width, IsTag, Shown;
    if s != [] {
      EscapedIsClean(s[1..]);
      EscapeCharToken(s[0]);
      TokensConcat(EscapeChar(s[0]), Escaped(s[1..]));
      assert [s[0]] + s[1..] == s;
      assert Tokens(Escaped(s)) == [EscapeChar(s[0])] + Tokens(Escaped(s[1..]));
    }
  }

  /** Undoing the escaping of code gives back the code. */
  lemma EscapeHTMLReadsBack(s: string)
    ensures Clean(EscapeHTML(s)) && TagFree(Tokens(EscapeHTML(s))) && Read(Tokens(EscapeHTML(s))) == s
  {
    EscapeIsPerChar(s);
    EscapedIsClean(s);
  }

  // ----- putting the blockquote tags back -----

  /** A pattern that starts a token and is clean can only be found where a token starts. */
  lemma {:induction false} ReplaceSkips(s: string, pat: string, rep: string, w: nat)
    requires pat != "" && 0 < w <= |s| && !HasPrefix(s, pat)
    requires forall j :: 0 < j < w ==> s[j] != pat[0]
    ensures ReplaceAll(s, pat, rep) == s[..w] + ReplaceAll(s[w..], pat, rep)
    decreases w
  {
    if w > 1 {
      assert s[1..][0] == s[1] && !HasPrefix(s[1..], pat);
      ReplaceSkips(s[1..], pat, rep, w - 1);
      assert s[1..][..w - 1] == s[1..w] && s[1..][w - 1..] == s[w..];
    }
    assert [s[0]] + s[1..w] == s[..w];
  }

  /** Putting a tag back for its escaped form keeps clean text clean and reads the same. */
  lemma {:induction false} ReplaceKeepsClean(s: string, pat: string, tag: string)
    requires Clean(s) && Clean(pat) && pat != "" && pat[0] == '&' && IsTag(tag)
    requires Read(Tokens(pat)) == tag
    ensures var r := ReplaceAll(s, pat, tag);
            Clean(r) && Read(Tokens(r)) == Read(Tokens(s))
    ensures forall i :: 0 <= i < |Tokens(ReplaceAll(s, pat, tag))| ==>
              Tokens(ReplaceAll(s, pat, tag))[i] == tag || Tokens(ReplaceAll(s, pat, tag))[i] in Tokens(s)
    decreases |s|
  {
    hide Width, IsTag, Read, Shown, Inner;
    if s == [] {
    } else if HasPrefix(s, pat) {
      var rest := s[|pat|..];
      assert s == pat + rest;
      TokensConcat(pat, rest);
      ReplaceKeepsClean(rest, pat, tag);
      var r := ReplaceAll(rest, pat, tag);
      OneToken(tag);
      TokensConcat(tag, r);
      ReadAdd(Tokens(pat), Tokens(rest));
      ReadAdd([tag], Tokens(r));
      ReadTag(tag);
      forall i | 0 <= i < |[tag] + Tokens(r)|
        ensures ([tag] + Tokens(r))[i] == tag || ([tag] + Tokens(r))[i] in Tokens(s)
      {
        if i > 0 {
          assert ([tag] + Tokens(r))[i] == Tokens(r)[i - 1];
        }
      }
    } else {
      var w := Width(s);
      forall j | 0 < j < w
        ensures s[j] != pat[0]
      {
        InsideToken(s, j);
        AmpNotInner();
      }
      ReplaceSkips(s, pat, tag, w);
      ReplaceKeepsClean(s[w..], pat, tag);
      var r := ReplaceAll(s[w..], pat, tag);
      FirstTokenClean(s);
      TokensConcat(s[..w], r);
      ReadAdd([s[..w]], Tokens(r));
      ReadAdd([s[..w]], Tokens(s[w..]));
      forall i | 0 <= i < |[s[..w]] + Tokens(r)|
        ensures ([s[..w]] + Tokens(r))[i] == tag || ([s[..w]] + Tokens(r))[i] in Tokens(s)
      {
        if i > 0 {
          assert ([s[..w]] + Tokens(r))[i] == Tokens(r)[i - 1];
        }
      }
    }
  }

  lemma AmpNotInner()
    ensures !Inner('&')
  {
  }

  lemma ReadTag(tag: string)
    requires IsTag(tag)
    ensures Read([tag]) == tag
  {
    assert [tag][1..] == [];
    assert tag[0] == '<';
    assert Shown(tag) == tag && tag + [] == tag;
  }

  lemma {:induction false} PlainText(s: string)
    requires forall i :: 0 <= i < |s| ==> s[i] != '<' && s[i] != '>' && s[i] != '&'
    ensures Clean(s) && Read(Tokens(s)) == s
  {
    hide Width, Shown;
    if s != [] {
      PlainText(s[1..]);
      OneToken([s[0]]);
      TokensConcat([s[0]], s[1..]);
      ReadAdd([[s[0]]], Tokens(s[1..]));
      ReadChar(s[0]);
      assert [s[0]] + s[1..] == s;
    }
  }

  lemma ReadChar(c: char)
    ensures Read([[c]]) == [c]
  {
    assert [[c]][1..] == [];
    assert [c] + [] == [c];
  }

  /** The escaped form of a tag reads as the tag. */
  lemma EscapedTag(name: string)
    requires forall i :: 0 <= i < |name| ==> name[i] != '<' && name[i] != '>' && name[i] != '&'
    ensures Clean("&lt;" + name + "&gt;") && Read(Tokens("&lt;" + name + "&gt;")) == "<" + name + ">"
  {
    hide Clean, Tokens, Width;
    PlainText(name);
    OneToken("&lt;");
    OneToken("&gt;");
    TokensConcat("&lt;", name);
    TokensConcat("&lt;" + name, "&gt;");
    ReadAdd(["&lt;"], Tokens(name));
    ReadAdd(["&lt;"] + Tokens(name), ["&gt;"]);
    assert ["&lt;"][1..] == [] && ["&gt;"][1..] == [];
    assert Read(["&lt;"]) == "<" && Read(["&gt;"]) == ">";
  }

  predicate Ordinary(t: string) {
    IsTag(t) ==> t == BLOCKQUOTE || t == BLOCKQUOTE_END
  }

  const OPENING := "blockquote expandable"
  const CLOSING := "/blockquote"
  const OPEN_ESCAPED := "&lt;" + OPENING + "&gt;"
  const CLOSE_ESCAPED := "&lt;" + CLOSING + "&gt;"

  lemma EscapedOpen()
    ensures Clean(OPEN_ESCAPED) && Read(Tokens(OPEN_ESCAPED)) == BLOCKQUOTE
  {
    hide Clean, Tokens, Read;
    EscapedTag(OPENING);
    assert BLOCKQUOTE == "<" + OPENING + ">";
  }

  lemma EscapedClose()
    ensures Clean(CLOSE_ESCAPED) && Read(Tokens(CLOSE_ESCAPED)) == BLOCKQUOTE_END
  {
    hide Clean, Tokens, Read;
    EscapedTag(CLOSING);
    assert BLOCKQUOTE_END == "<" + CLOSING + ">";
  }

  /** Text escaped with its blockquote tags kept is clean, has no other tags, and reads back as the text. */
  lemma EscapePreservingReadsBack(s: string)
    ensures var r := EscapeHTMLPreservingTags(s);
            && Clean(r) && Read(Tokens(r)) == s
            && forall i :: 0 <= i < |Tokens(r)| ==> Ordinary(Tokens(r)[i])
  {
    hide Clean, Tokens, ReplaceAll, EscapeHTML, Read, IsTag;
    EscapeHTMLReadsBack(s);
    EscapedOpen();
    EscapedClose();
    BlockquotesAreTags();
    var e := EscapeHTML(s);
    ReplaceKeepsClean(e, OPEN_ESCAPED, BLOCKQUOTE);
    var f := ReplaceAll(e, OPEN_ESCAPED, BLOCKQUOTE);
    forall t | t in Tokens(f)
      ensures Ordinary(t)
    {
    }
    ReplaceKeepsClean(f, CLOSE_ESCAPED, BLOCKQUOTE_END);
  }

  lemma BlockquotesAreTags()
    ensures IsTag(BLOCKQUOTE) && IsTag(BLOCKQUOTE_END)
  {
  }

  // ----- the blockquote tags of the text stay tags -----

  predicate Straddles(x: string, y: string, pat: string, k: int) {
    0 <= k < |x| < k + |pat| <= |x| + |y| && (x + y)[k..k + |pat|] == pat
  }

  /** Replacing works piece by piece when no occurrence lies across the border. */
  lemma {:induction false} ReplaceSplit(x: string, y: string, pat: string, rep: string)
    requires pat != "" && forall k :: !Straddles(x, y, pat, k)
    ensures ReplaceAll(x + y, pat, rep) == ReplaceAll(x, pat, rep) + ReplaceAll(y, pat, rep)
    decreases |x|
  {
    hide Straddles;
    if x == "" {
      assert x + y == y;
    } else if HasPrefix(x + y, pat) {
      FrontHoldsPattern(x, y, pat);
      NoStraddleBehind(x, y, pat, |pat|);
      ReplaceSplit(x[|pat|..], y, pat, rep);
      assert rep + (ReplaceAll(x[|pat|..], pat, rep) + ReplaceAll(y, pat, rep))
          == (rep + ReplaceAll(x[|pat|..], pat, rep)) + ReplaceAll(y, pat, rep);
    } else {
      assert !HasPrefix(x, pat) && (x + y)[1..] == x[1..] + y;
      NoStraddleBehind(x, y, pat, 1);
      ReplaceSplit(x[1..], y, pat, rep);
      assert [x[0]] + (ReplaceAll(x[1..], pat, rep) + ReplaceAll(y, pat, rep))
          == ([x[0]] + ReplaceAll(x[1..], pat, rep)) + ReplaceAll(y, pat, rep);
    }
  }

  lemma FrontHoldsPattern(x: string, y: string, pat: string)
    requires x != "" && HasPrefix(x + y, pat) && !Straddles(x, y, pat, 0)
    ensures HasPrefix(x, pat) && (x + y)[|pat|..] == x[|pat|..] + y
  {
    assert (x + y)[0..|pat|] == pat;
    assert x[..|pat|] == (x + y)[..|pat|];
  }

  lemma NoStraddleBehind(x: string, y: string, pat: string, n: nat)
    requires n <= |x| && forall k :: !Straddles(x, y, pat, k)
    ensures forall k :: !Straddles(x[n..], y, pat, k)
  {
    forall k
      ensures !Straddles(x[n..], y, pat, k)
    {
      StraddleBehind(x, y, pat, n, k);
    }
  }

  lemma StraddleBehind(x: string, y: string, pat: string, n: nat, k: int)
    requires n <= |x|
    ensures Straddles(x[n..], y, pat, k) ==> Straddles(x, y, pat, k + n)
  {
    assert x[n..] + y == (x + y)[n..];
    if Straddles(x[n..], y, pat, k) {
      assert (x + y)[n..][k..k + |pat|] == (x + y)[k + n..k + n + |pat|];
    }
  }

  /** An occurrence across the border: where it meets it, and how it begins. */
  lemma AcrossBorder(x: string, y: string, pat: string, k: int)
    requires |pat| >= 2 && Straddles(x, y, pat, k)
    ensures 0 <= k < |x| < k + |pat|
    ensures y != "" && pat[|x| - k] == y[0] && (|x| - k + 1 < |pat| ==> |y| > 1 && pat[|x| - k + 1] == y[1])
    ensures x[k] == pat[0] && (k + 1 < |x| ==> x[k + 1] == pat[1])
    ensures k == 0 ==> |x| < |pat| && HasPrefix(pat, x)
  {
    var hit := (x + y)[k..k + |pat|];
    assert hit[0] == x[k] && hit[|x| - k] == y[0];
    assert k + 1 < |x| ==> hit[1] == x[k + 1];
    assert |x| - k + 1 < |pat| ==> hit[|x| - k + 1] == y[1];
    if k == 0 {
      assert pat[..|x|] == x;
    }
  }

  /** Patterns like the escaped tags: the only other ampersand begins the closing bracket. */
  predicate TagPattern(pat: string) {
    && |pat| >= 2 && pat[0] == '&' && pat[1] == 'l' && '<' !in pat
    && forall k :: 0 < k < |pat| && pat[k] == '&' ==> k + 1 < |pat| && pat[k + 1] == 'g'
  }

  /** Such a pattern runs across no border in front of a tag or its escaped form. */
  lemma Apart(x: string, y: string, pat: string)
    requires TagPattern(pat) && |y| >= 2 && ((y[0] == '&' && y[1] == 'l') || y[0] == '<')
    ensures forall k :: !Straddles(x, y, pat, k)
  {
    hide Straddles;
    forall k
      ensures !Straddles(x, y, pat, k)
    {
      if Straddles(x, y, pat, k) {
        AcrossBorder(x, y, pat, k);
      }
    }
  }

  /** Nor behind a tag, or behind an escaped form that is no front part of it. */
  lemma ApartBehind(x: string, y: string, pat: string)
    requires TagPattern(pat) && ('&' !in x || (TagPattern(x) && (|pat| <= |x| || !HasPrefix(pat, x))))
    ensures forall k :: !Straddles(x, y, pat, k)
  {
    hide Straddles;
    forall k
      ensures !Straddles(x, y, pat, k)
    {
      if Straddles(x, y, pat, k) {
        AcrossBorder(x, y, pat, k);
      }
    }
  }

  lemma EscapedShape()
    ensures TagPattern(OPEN_ESCAPED) && TagPattern(CLOSE_ESCAPED)
    ensures '&' !in BLOCKQUOTE && '&' !in BLOCKQUOTE_END
    ensures !HasPrefix(OPEN_ESCAPED, CLOSE_ESCAPED) && !HasPrefix(CLOSE_ESCAPED, OPEN_ESCAPED)
  {
    assert '&' !in OPENING && '&' !in CLOSING && '<' !in OPENING && '<' !in CLOSING;
    assert OPEN_ESCAPED[4] == 'b' && CLOSE_ESCAPED[4] == '/';
  }

  /** One pass around a piece it cannot run into from either side. */
  lemma ReplaceAround(a: string, piece: string, b: string, pat: string, rep: string)
    requires pat != "" && forall k :: !Straddles(a, piece + b, pat, k)
    requires forall k :: !Straddles(piece, b, pat, k)
    ensures ReplaceAll(a + piece + b, pat, rep)
         == ReplaceAll(a, pat, rep) + ReplaceAll(piece, pat, rep) + ReplaceAll(b, pat, rep)
  {
    hide ReplaceAll, Straddles;
    assert a + piece + b == a + (piece + b);
    ReplaceSplit(a, piece + b, pat, rep);
    ReplaceSplit(piece, b, pat, rep);
  }

  lemma {:induction false} EscapedAdd(a: string, b: string)
    ensures Escaped(a + b) == Escaped(a) + Escaped(b)
  {
    hide EscapeChar, Escaped;
    EscapedHead(a);
    if a == "" {
      assert a + b == b;
    } else {
      EscapedHead(a + b);
      EscapedAdd(a[1..], b);
      assert (a + b)[1..] == a[1..] + b;
      assert EscapeChar(a[0]) + (Escaped(a[1..]) + Escaped(b)) == (EscapeChar(a[0]) + Escaped(a[1..])) + Escaped(b);
    }
  }

  lemma EscapedHead(s: string)
    ensures Escaped(s) == if s == "" then "" else EscapeChar(s[0]) + Escaped(s[1..])
  {
    hide EscapeChar;
  }

  lemma EscapeHTMLAround(a: string, tag: string, b: string)
    requires tag == BLOCKQUOTE || tag == BLOCKQUOTE_END
    ensures EscapeHTML(a + tag + b) ==
            EscapeHTML(a) + (if tag == BLOCKQUOTE then OPEN_ESCAPED else CLOSE_ESCAPED) + EscapeHTML(b)
  {
    hide EscapeHTML, Escaped;
    EscapeIsPerChar(a + tag + b);
    EscapeIsPerChar(a);
    EscapeIsPerChar(b);
    EscapedAdd(a + tag, b);
    EscapedAdd(a, tag);
    assert BLOCKQUOTE == "<" + OPENING + ">" && BLOCKQUOTE_END == "<" + CLOSING + ">";
    EscapedTagText(if tag == BLOCKQUOTE then OPENING else CLOSING);
  }

  lemma EscapedTagText(name: string)
    requires forall i :: 0 <= i < |name| ==> name[i] != '<' && name[i] != '>' && name[i] != '&'
    ensures Escaped("<" + name + ">") == "&lt;" + name + "&gt;"
  {
    hide Escaped;
    EscapedAdd("<" + name, ">");
    EscapedAdd("<", name);
    EscapedPlain(name);
    EscapedOne('<');
    EscapedOne('>');
  }

  lemma EscapedOne(c: char)
    ensures Escaped([c]) == EscapeChar(c)
  {
    assert [c][1..] == [];
  }

  lemma {:induction false} EscapedPlain(name: string)
    requires forall i :: 0 <= i < |name| ==> name[i] != '<' && name[i] != '>' && name[i] != '&'
    ensures Escaped(name) == name
  {
    if name != "" {
      EscapedPlain(name[1..]);
    }
  }

  lemma ReplaceWhole(pat: string, rep: string)
    requires pat != ""
    ensures ReplaceAll(pat, pat, rep) == rep
  {
    assert pat[|pat|..] == "" && rep + [] == rep;
  }

  lemma {:induction false} ReplaceNothing(s: string, pat: string, rep: string)
    requires pat != "" && forall k :: 0 <= k < |s| ==> !HasPrefix(s[k..], pat)
    ensures ReplaceAll(s, pat, rep) == s
  {
    if s != "" {
      assert s[0..] == s;
      forall k | 0 <= k < |s[1..]|
        ensures !HasPrefix(s[1..][k..], pat)
      {
        assert s[1..][k..] == s[k + 1..];
      }
      ReplaceNothing(s[1..], pat, rep);
    }
  }

  /** The first pass restores the opening tag alone, the second the closing one. */
  lemma TwoPasses()
    ensures ReplaceAll(OPEN_ESCAPED, OPEN_ESCAPED, BLOCKQUOTE) == BLOCKQUOTE
    ensures ReplaceAll(BLOCKQUOTE, CLOSE_ESCAPED, BLOCKQUOTE_END) == BLOCKQUOTE
    ensures ReplaceAll(CLOSE_ESCAPED, OPEN_ESCAPED, BLOCKQUOTE) == CLOSE_ESCAPED
    ensures ReplaceAll(CLOSE_ESCAPED, CLOSE_ESCAPED, BLOCKQUOTE_END) == BLOCKQUOTE_END
  {
    hide ReplaceAll;
    EscapedShape();
    ReplaceWhole(OPEN_ESCAPED, BLOCKQUOTE);
    ReplaceWhole(CLOSE_ESCAPED, BLOCKQUOTE_END);
    forall k | 0 <= k < |BLOCKQUOTE|
      ensures !HasPrefix(BLOCKQUOTE[k..], CLOSE_ESCAPED)
    {
      assert BLOCKQUOTE[k..][0] == BLOCKQUOTE[k];
    }
    ReplaceNothing(BLOCKQUOTE, CLOSE_ESCAPED, BLOCKQUOTE_END);
    assert |CLOSE_ESCAPED| < |OPEN_ESCAPED|;
    ReplaceNothing(CLOSE_ESCAPED, OPEN_ESCAPED, BLOCKQUOTE);
  }

  /** One pass over a text with a piece in it that it cannot run into. */
  lemma OnePass(x: string, piece: string, y: string, pat: string, rep: string)
    requires TagPattern(pat) && |piece| >= 2 && ((piece[0] == '&' && piece[1] == 'l') || piece[0] == '<')
    requires '&' !in piece || (TagPattern(piece) && (|pat| <= |piece| || !HasPrefix(pat, piece)))
    ensures ReplaceAll(x + piece + y, pat, rep)
         == ReplaceAll(x, pat, rep) + ReplaceAll(piece, pat, rep) + ReplaceAll(y, pat, rep)
  {
    hide ReplaceAll, Straddles;
    Apart(x, piece + y, pat);
    ApartBehind(piece, y, pat);
    ReplaceAround(x, piece, y, pat, rep);
  }

  /** A blockquote tag of the text stays one, and the text on either side is escaped by itself. */
  lemma BlockquotesStay(a: string, tag: string, b: string)
    requires tag == BLOCKQUOTE || tag == BLOCKQUOTE_END
    ensures EscapeHTMLPreservingTags(a + tag + b) == EscapeHTMLPreservingTags(a) + tag + EscapeHTMLPreservingTags(b)
  {
    hide EscapeHTML, ReplaceAll;
    var x, y := EscapeHTML(a), EscapeHTML(b);
    var escaped := if tag == BLOCKQUOTE then OPEN_ESCAPED else CLOSE_ESCAPED;
    EscapeHTMLAround(a, tag, b);
    EscapedShape();
    TwoPasses();
    OnePass(x, escaped, y, OPEN_ESCAPED, BLOCKQUOTE);
    var restored := if tag == BLOCKQUOTE then BLOCKQUOTE else CLOSE_ESCAPED;
    OnePass(ReplaceAll(x, OPEN_ESCAPED, BLOCKQUOTE), restored, ReplaceAll(y, OPEN_ESCAPED, BLOCKQUOTE),
            CLOSE_ESCAPED, BLOCKQUOTE_END);
  }
}
