/** From Markdown to the HTML subset Telegram accepts: splitting out code blocks, rewriting the thoughts, and
    what the whole conversion promises for any text. */
module TelegramHtml {
  import opened HtmlEscaping
  import opened HtmlTokens
  import opened InlineMarkdown
  import opened Text

  // ----- code blocks -----

  datatype Segment = Segment(text: string, isCode: bool)

  /** Code without the language line of its fence. */
  function FenceBody(code: string): string {
    var nl := Index(code, "\n");
    if nl < 0 then code
    else
      var firstLine := TrimSpace(code[..nl]);
      if |firstLine| > 0 && !Contains(firstLine, " ") then code[nl + 1..] else code
  }

  function Plain(text: string): seq<Segment> {
    if text == "" then [] else [Segment(text, false)]
  }

  function FenceHTML(code: string): string {
    "<pre>" + EscapeHTML(FenceBody(code)) + "</pre>"
  }

  function CodeHTML(code: string): string {
    "<code>" + EscapeHTML(code) + "</code>"
  }

  function BlockHTML(code: string, fence: bool): string {
    if fence then FenceHTML(code) else CodeHTML(code)
  }

  // The next block of code: none, one that is never closed, or one up to next.
  datatype Found = Nothing | Open(at: nat) | Block(at: nat, next: nat, html: string)

  /** The block of code between a mark at this place and the next such mark. */
  function BlockFrom(s: string, mark: string, at: nat, fence: bool): (f: Found)
    requires mark != "" && at + |mark| <= |s|
    ensures f.Open? ==> f.at == at < |s|
    ensures f.Block? ==> f.at == at < f.next <= |s|
  {
    var start := at + |mark|;
    var end := Index(s[start..], mark);
    if end < 0 then Open(at)
    else
      var code := s[start..start + end];
      Block(at, start + end + |mark|, BlockHTML(code, fence))
  }

  /** The first fence, or the first backtick in a text without any fence. */
  function Find(s: string): (f: Found)
    ensures f.Open? ==> f.at < |s|
    ensures f.Block? ==> f.at < f.next <= |s|
  {
    var fence, tick := Index(s, "```"), Index(s, "`");
    if fence >= 0 then BlockFrom(s, "```", fence, true)
    else if tick >= 0 then BlockFrom(s, "`", tick, false)
    else Nothing
  }

  function Segments(s: string): seq<Segment>
    decreases |s|
  {
    match Find(s)
    case Nothing => Plain(s)
    case Open(k) => Plain(s[..k]) + [Segment(s[k..], false)]
    case Block(k, next, html) => Plain(s[..k]) + [Segment(html, true)] + Segments(s[next..])
  }

  method FindBlock(s: string) returns (f: Found)
    ensures f == Find(s)
  {
    hide Index, BlockFrom;
    var idx := Index(s, "```");
    if idx >= 0 {
      FoundAt(s, "```", idx);
      f := CutBlock(s, "```", idx, true);
      return;
    }
    idx := Index(s, "`");
    if idx >= 0 {
      FoundAt(s, "`", idx);
      f := CutBlock(s, "`", idx, false);
      return;
    }
    return Nothing;
  }

  method CutBlock(s: string, mark: string, at: nat, fence: bool) returns (f: Found)
    requires mark != "" && at + |mark| <= |s|
    ensures f == BlockFrom(s, mark, at, fence)
  {
    hide Index, FenceHTML, CodeHTML;
    var start := at + |mark|;
    var end := Index(s[start..], mark);
    if end == -1 {
      return Open(at);
    }
    FoundAt(s[start..], mark, end);
    var code := s[start..start + end];
    var html;
    if fence {
      html := RenderFence(code);
    } else {
      html := CodeHTML(code);
    }
    return Block(at, start + end + |mark|, html);
  }

  method StripCodeBlocks(text: string) returns (segments: seq<Segment>)
    ensures segments == Segments(text)
  {
    hide Find, Segments;
    segments := [];
    var s := text;
    assert [] + Segments(s) == Segments(s);
    while |s| > 0
      invariant segments + Segments(s) == Segments(text)
      decreases |s|
    {
      SegmentsUnfold(segments, s);
      var found := FindBlock(s);
      if found.Nothing? {
        segments := segments + [Segment(s, false)];
        return;
      }
      if found.at > 0 {
        segments := segments + [Segment(s[..found.at], false)];
      } else {
        assert segments + [] == segments;
      }
      if found.Open? {
        segments := segments + [Segment(s[found.at..], false)];
        return;
      }
      segments := segments + [Segment(found.html, true)];
      s := s[found.next..];
    }
    NoSegments();
    assert segments + [] == segments;
  }

  lemma SegmentsUnfold(base: seq<Segment>, s: string)
    ensures Find(s).Nothing? ==> base + Segments(s) == base + Plain(s)
    ensures Find(s).Open? ==>
              base + Segments(s) == base + Plain(s[..Find(s).at]) + [Segment(s[Find(s).at..], false)]
    ensures Find(s).Block? ==>
              base + Segments(s)
              == base + Plain(s[..Find(s).at]) + [Segment(Find(s).html, true)] + Segments(s[Find(s).next..])
  {
    hide Find, Plain;
  }

  lemma NoSegments()
    ensures Segments([]) == []
  {
  }

  method RenderFence(block: string) returns (html: string)
    ensures html == FenceHTML(block)
  {
    hide TrimSpace, Contains, EscapeHTML, Index;
    var code := block;
    var nl := Index(code, "\n");
    if nl >= 0 {
      var firstLine := TrimSpace(code[..nl]);
      if |firstLine| > 0 && !Contains(firstLine, " ") {
        code := code[nl + 1..];
      }
    }
    return "<pre>" + EscapeHTML(code) + "</pre>";
  }

  /** The piece of the source each segment was made from. */
  function Sources(s: string): seq<string>
    decreases |s|
  {
    match Find(s)
    case Nothing => Source(s)
    case Open(k) => Source(s[..k]) + [s[k..]]
    case Block(k, next, _) => Source(s[..k]) + [s[k..next]] + Sources(s[next..])
  }

  function Source(text: string): seq<string> {
    if text == "" then [] else [text]
  }

  /** A pre block between two fences, or a code span between two backticks. */
  ghost predicate PreFrom(seg: Segment, source: string) {
    exists code :: source == "```" + code + "```" && Absent(code, "```") && seg.text == FenceHTML(code)
  }

  ghost predicate SpanFrom(seg: Segment, source: string) {
    exists code :: source == "`" + code + "`" && Absent(code, "`") && seg.text == CodeHTML(code)
  }

  /** A plain segment is its source; a code segment shows the escaped inside of its fence or backticks, which
      holds no further fence or backtick. */
  ghost predicate MadeFrom(seg: Segment, source: string) {
    if !seg.isCode then seg.text == source else PreFrom(seg, source) || SpanFrom(seg, source)
  }

  lemma OneSource(text: string)
    ensures Join(Source(text)) == text && |Source(text)| == |Plain(text)|
    ensures forall i :: 0 <= i < |Source(text)| ==> MadeFrom(Plain(text)[i], Source(text)[i])
    ensures Join([text]) == text
  {
    JoinFew(text);
  }

  lemma Glue(s: string, a: nat, b: nat, c: nat, d: nat)
    requires a <= b <= c <= d <= |s|
    ensures s[a..b] + s[b..c] + s[c..d] == s[a..d]
  {
  }

  lemma OccursInLonger(s: string, mark: string, end: nat, k: int)
    requires end <= |s| && OccursAt(s[..end], mark, k)
    ensures OccursAt(s, mark, k) && k + |mark| <= end
  {
    assert s[..end][k..k + |mark|] == s[k..k + |mark|];
  }

  lemma NotInside(s: string, mark: string, end: nat)
    requires mark != "" && end == Index(s, mark)
    ensures end <= |s| && !Contains(s[..end], mark)
  {
    hide Index;
    assert OccursAt(s, mark, end);
    hide OccursAt;
    if Contains(s[..end], mark) {
      OccursInLonger(s, mark, end, Index(s[..end], mark));
    }
  }

  lemma FoundAt(s: string, mark: string, k: nat)
    requires k == Index(s, mark)
    ensures k + |mark| <= |s| && s[k..k + |mark|] == mark
  {
    hide Index;
    assert OccursAt(s, mark, k);
  }

  lemma TailSlices(s: string, a: nat, b: nat, c: nat)
    requires a <= b <= c <= |s|
    ensures s[a..][b - a..c - a] == s[b..c] && s[a..][..b - a] == s[a..b]
  {
  }

  /** The mark found behind a, and what lies before it. */
  lemma FoundBehind(s: string, mark: string, a: nat, b: nat)
    requires mark != "" && a <= b && a <= |s| && b - a == Index(s[a..], mark)
    ensures b + |mark| <= |s| && s[b..b + |mark|] == mark && !Contains(s[a..b], mark)
  {
    hide Index, Contains, OccursAt;
    FoundAt(s[a..], mark, b - a);
    NotInside(s[a..], mark, b - a);
    TailSlices(s, a, b, b + |mark|);
    assert b + |mark| - a == b - a + |mark|;
  }

  /** A marker, some code without the marker, and the marker again, found by two searches in a row. */
  lemma Delimited(s: string, mark: string, start: nat, a: nat, b: nat, next: nat)
    requires mark != "" && start == Index(s, mark) && a == start + |mark| <= |s|
    requires b >= a && b - a == Index(s[a..], mark) && next == b + |mark|
    ensures next <= |s| && s[start..next] == mark + s[a..b] + mark && !Contains(s[a..b], mark)
  {
    hide Index, Contains, OccursAt;
    FoundAt(s, mark, start);
    FoundBehind(s, mark, a, b);
    Glue(s, start, a, b, next);
  }

  /** Splitting loses nothing: the sources of the segments, one after the other, are the text. */
  lemma {:induction false} SegmentsCoverText(s: string)
    ensures Join(Sources(s)) == s && |Segments(s)| == |Sources(s)|
    ensures forall i :: 0 <= i < |Sources(s)| ==> MadeFrom(Segments(s)[i], Sources(s)[i])
    decreases |s|
  {
    hide Find, Join, Source, Plain, MadeFrom;
    match Find(s) {
      case Nothing => OneSource(s);
      case Open(k) => Unclosed(s, k);
      case Block(k, next, html) =>
        SegmentsCoverText(s[next..]);
        BlockMade(s);
        OneMore(s, k, next, Segment(html, true), Segments(s[next..]), Sources(s[next..]));
    }
  }

  lemma BlockMade(s: string)
    requires Find(s).Block?
    ensures MadeFrom(Segment(Find(s).html, true), s[Find(s).at..Find(s).next])
  {
    hide Find, Absent, PreFrom, SpanFrom;
    FirstKind(s);
  }

  lemma Unclosed(s: string, k: nat)
    requires k <= |s|
    ensures var segs, sources := Plain(s[..k]) + [Segment(s[k..], false)], Source(s[..k]) + [s[k..]];
            && Join(sources) == s && |segs| == |sources|
            && forall i :: 0 <= i < |sources| ==> MadeFrom(segs[i], sources[i])
  {
    hide Source, Plain, Join;
    OneSource(s[..k]);
    OneSource(s[k..]);
    JoinAdd(Source(s[..k]), [s[k..]]);
  }

  lemma OneMore(s: string, k: nat, next: nat, seg: Segment, segs: seq<Segment>, sources: seq<string>)
    requires k <= next <= |s| && MadeFrom(seg, s[k..next])
    requires Join(sources) == s[next..] && |segs| == |sources|
    requires forall i :: 0 <= i < |sources| ==> MadeFrom(segs[i], sources[i])
    ensures var allSegs, allSources := Plain(s[..k]) + [seg] + segs, Source(s[..k]) + [s[k..next]] + sources;
            && Join(allSources) == s && |allSegs| == |allSources|
            && forall i :: 0 <= i < |allSources| ==> MadeFrom(allSegs[i], allSources[i])
  {
    hide Source, Plain, Join, MadeFrom;
    OneSource(s[..k]);
    OneSource(s[k..next]);
    JoinAdd(Source(s[..k]), [s[k..next]]);
    JoinAdd(Source(s[..k]) + [s[k..next]], sources);
    assert s[..k] + s[k..next] + s[next..] == s;
  }

  /** The first line of a fence is its language, and not shown, when it is one word. */
  lemma FenceBodyMeans(first: string, rest: string)
    requires '\n' !in first
    ensures FenceBody(first) == first
    ensures var word := TrimSpace(first);
            FenceBody(first + "\n" + rest) == if word != "" && ' ' !in word then rest else first + "\n" + rest
  {
    hide TrimSpace, Index;
    var code := first + "\n" + rest;
    IndexOfChar(first, '\n', rest);
    IndexOfChar(TrimSpace(first), ' ', "");
    assert code[..|first|] == first && code[|first| + 1..] == rest;
  }

  // ----- which kind a block is -----

  lemma BlockCut(s: string, mark: string, k: nat, n: nat, fence: bool)
    requires mark != "" && k + |mark| <= n && k + |mark| <= |s| && FirstAt(s[k + |mark|..], mark, n - k - |mark|)
    ensures n + |mark| <= |s|
    ensures BlockFrom(s, mark, k, fence) == Block(k, n + |mark|, BlockHTML(s[k + |mark|..n], fence))
  {
    hide Index, BlockHTML;
    IndexIsFirst(s[k + |mark|..], mark, n - k - |mark|);
    assert s[k + |mark|..][..n - k - |mark|] == s[k + |mark|..n];
  }

  lemma BlockOpen(s: string, mark: string, k: nat, fence: bool)
    requires mark != "" && k + |mark| <= |s| && Absent(s[k + |mark|..], mark)
    ensures BlockFrom(s, mark, k, fence) == Open(k)
  {
    hide Index, BlockHTML, OccursAt;
    IndexIsFirst(s[k + |mark|..], mark, 0);
  }

  lemma FenceFound(s: string, k: nat)
    requires FirstAt(s, "```", k)
    ensures k + 3 <= |s| && Find(s) == BlockFrom(s, "```", k, true)
  {
    hide Index, BlockFrom;
    IndexIsFirst(s, "```", k);
  }

  lemma TickFound(s: string, k: nat)
    requires Absent(s, "```") && FirstAt(s, "`", k)
    ensures k + 1 <= |s| && Find(s) == BlockFrom(s, "`", k, false)
  {
    hide Index, BlockFrom, Absent;
    IndexIsFirst(s, "```", 0);
    IndexIsFirst(s, "`", k);
  }

  /** A text with two fences begins with what is before the first, and a pre block from the first through the next. */
  lemma FenceComesFirst(s: string, k: nat, n: nat)
    requires FirstAt(s, "```", k) && k + 3 <= n && k + 3 <= |s| && FirstAt(s[k + 3..], "```", n - k - 3)
    ensures n + 3 <= |s|
    ensures Segments(s) ==
            Plain(s[..k]) + [Segment("<pre>" + EscapeHTML(FenceBody(s[k + 3..n])) + "</pre>", true)]
            + Segments(s[n + 3..])
  {
    hide Find, EscapeHTML, FenceBody, Plain, FirstAt, BlockFrom;
    FenceFound(s, k);
    BlockCut(s, "```", k, n, true);
  }

  /** A fence that is never closed and everything behind it is plain text, backticks included. */
  lemma FenceLeftOpen(s: string, k: nat)
    requires FirstAt(s, "```", k) && k + 3 <= |s| && Absent(s[k + 3..], "```")
    ensures Segments(s) == Plain(s[..k]) + [Segment(s[k..], false)]
  {
    hide Find, Plain, FirstAt, Absent, BlockFrom;
    FenceFound(s, k);
    BlockOpen(s, "```", k, true);
  }

  /** Without any fence a text with two backticks begins with what is before the first, and a code span. */
  lemma TicksWithoutFence(s: string, k: nat, n: nat)
    requires Absent(s, "```") && FirstAt(s, "`", k) && k + 1 <= n && k < |s| && FirstAt(s[k + 1..], "`", n - k - 1)
    ensures n + 1 <= |s|
    ensures Segments(s) ==
            Plain(s[..k]) + [Segment("<code>" + EscapeHTML(s[k + 1..n]) + "</code>", true)] + Segments(s[n + 1..])
  {
    hide Find, EscapeHTML, Plain, FirstAt, Absent, BlockFrom;
    TickFound(s, k);
    BlockCut(s, "`", k, n, false);
  }

  lemma TickLeftOpen(s: string, k: nat)
    requires Absent(s, "```") && FirstAt(s, "`", k) && k < |s| && Absent(s[k + 1..], "`")
    ensures Segments(s) == Plain(s[..k]) + [Segment(s[k..], false)]
  {
    hide Find, Plain, FirstAt, Absent, BlockFrom;
    TickFound(s, k);
    BlockOpen(s, "`", k, false);
  }

  lemma NoMarksAllPlain(s: string)
    requires Absent(s, "```") && Absent(s, "`")
    ensures Segments(s) == if s == "" then [] else [Segment(s, false)]
  {
    hide Index, Absent;
    IndexIsFirst(s, "```", 0);
    IndexIsFirst(s, "`", 0);
    assert Find(s).Nothing?;
  }

  /** Which of the two the first block of a text is. */
  lemma FirstKind(s: string)
    requires Find(s).Block?
    ensures var f := Find(s);
            var seg, source := Segment(f.html, true), s[f.at..f.next];
            if Absent(s[f.at..], "```") then SpanFrom(seg, source) else PreFrom(seg, source)
  {
    hide Index, Absent, FenceHTML, CodeHTML, OccursAt;
    var fence, tick := Index(s, "```"), Index(s, "`");
    IndexIsFirst(s, "```", fence);
    if fence >= 0 {
      FenceStays(s, fence);
      BlockIs(s, "```", fence, true);
    } else {
      FenceNowhere(s, tick);
      BlockIs(s, "`", tick, false);
    }
  }

  lemma FenceStays(s: string, k: nat)
    requires k == Index(s, "```")
    ensures k <= |s| && !Absent(s[k..], "```")
  {
    hide Index;
    FoundAt(s, "```", k);
    assert s[k..][0..3] == s[k..k + 3];
    assert OccursAt(s[k..], "```", 0);
  }

  lemma OccursBehind(s: string, mark: string, k: nat, j: int)
    requires k <= |s| && OccursAt(s[k..], mark, j)
    ensures OccursAt(s, mark, k + j)
  {
    assert s[k..][j..j + |mark|] == s[k + j..k + j + |mark|];
  }

  lemma FenceNowhere(s: string, k: nat)
    requires Absent(s, "```") && k <= |s|
    ensures Absent(s[k..], "```")
  {
    forall j
      ensures !OccursAt(s[k..], "```", j)
    {
      if OccursAt(s[k..], "```", j) {
        OccursBehind(s, "```", k, j);
      }
    }
  }

  predicate MarkOf(mark: string, fence: bool) {
    mark == if fence then "```" else "`"
  }

  lemma BlockIs(s: string, mark: string, at: nat, fence: bool)
    requires MarkOf(mark, fence) && mark != ""
    requires at == Index(s, mark) && at + |mark| <= |s| && BlockFrom(s, mark, at, fence).Block?
    ensures var f := BlockFrom(s, mark, at, fence);
            var seg, source := Segment(f.html, true), s[f.at..f.next];
            if fence then PreFrom(seg, source) else SpanFrom(seg, source)
  {
    hide Index, Contains, BlockHTML, OccursAt, Absent, MarkOf, PreFrom, SpanFrom;
    var start := at + |mark|;
    var end := Index(s[start..], mark);
    Delimited(s, mark, at, start, start + end, start + end + |mark|);
    var code := s[start..start + end];
    NotContained(code, mark);
    IsFrom(code, s[at..start + end + |mark|], mark, fence);
  }

  lemma NotContained(code: string, mark: string)
    requires !Contains(code, mark)
    ensures Absent(code, mark)
  {
    IndexIsFirst(code, mark, 0);
  }

  lemma IsFrom(code: string, source: string, mark: string, fence: bool)
    requires MarkOf(mark, fence) && source == mark + code + mark && Absent(code, mark)
    ensures var seg := Segment(BlockHTML(code, fence), true);
            if fence then PreFrom(seg, source) else SpanFrom(seg, source)
  {
    hide Absent, FenceHTML, CodeHTML;
  }

  /** Behind the first block the segments and their sources are those of the rest. */
  lemma BehindBlock(s: string, i: nat)
    requires Find(s).Block? && i < |Segments(s)| == |Sources(s)| && i > |Plain(s[..Find(s).at])|
    requires |Segments(s[Find(s).next..])| == |Sources(s[Find(s).next..])|
    ensures var rest, j := s[Find(s).next..], i - |Plain(s[..Find(s).at])| - 1;
            && j < |Segments(rest)| && Segments(s)[i] == Segments(rest)[j]
            && Sources(s)[i] == Sources(rest)[j] && Sources(s)[i..] == Sources(rest)[j..]
  {
    hide Find;
    var front := Source(s[..Find(s).at]) + [s[Find(s).at..Find(s).next]];
    assert Sources(s) == front + Sources(s[Find(s).next..]);
    assert |front| == |Plain(s[..Find(s).at])| + 1;
  }

  lemma AtBlock(s: string)
    requires Find(s).Block?
    ensures var f, i := Find(s), |Plain(s[..Find(s).at])|;
            && |Segments(s)| > i && |Sources(s)| > i && Segments(s)[i] == Segment(f.html, true)
            && Sources(s)[i] == s[f.at..f.next] && Join(Sources(s)[i..]) == s[f.at..]
    ensures forall i :: 0 <= i < |Plain(s[..Find(s).at])| ==> !Segments(s)[i].isCode
  {
    hide Find, Join, MadeFrom;
    var f, i := Find(s), |Plain(s[..Find(s).at])|;
    var source, rest := s[f.at..f.next], s[f.next..];
    SegmentsCoverText(rest);
    assert Sources(s) == Source(s[..f.at]) + ([source] + Sources(rest));
    assert |Source(s[..f.at])| == i;
    assert Sources(s)[i..] == [source] + Sources(rest);
    JoinAdd([source], Sources(rest));
    JoinFew(source);
    assert source + rest == s[f.at..];
  }

  lemma OnlyBlocksAreCode(s: string)
    requires !Find(s).Block?
    ensures forall i :: 0 <= i < |Segments(s)| ==> !Segments(s)[i].isCode
  {
    hide Find;
  }

  /** Anywhere in a text: a code segment is a pre block when the rest of the text from it on holds a fence, and a
      code span only when it holds none. */
  lemma {:induction false} KindIsByFence(s: string, i: nat)
    requires i < |Segments(s)| && i < |Sources(s)| && Segments(s)[i].isCode
    ensures if Absent(Join(Sources(s)[i..]), "```") then SpanFrom(Segments(s)[i], Sources(s)[i])
            else PreFrom(Segments(s)[i], Sources(s)[i])
    decreases |s|
  {
    hide Join, PreFrom, SpanFrom, Absent, Segments, Sources, Find, MadeFrom, Plain;
    if !Find(s).Block? {
      OnlyBlocksAreCode(s);
      assert false;
    } else {
      AtBlock(s);
      if i <= |Plain(s[..Find(s).at])| {
        FirstKind(s);
      } else {
        var rest := s[Find(s).next..];
        SegmentsCoverText(s);
        SegmentsCoverText(rest);
        BehindBlock(s, i);
        KindIsByFence(rest, i - |Plain(s[..Find(s).at])| - 1);
      }
    }
  }

  // ----- thinking -----

  const THINK := "<think>"
  const THINK_END := "</think>"
  const THINKING := BLOCKQUOTE + "\U{1F9E0} Thinking\n"

  function Thinks(s: string): string
    decreases |s|
  {
    var start := Index(s, THINK);
    if start < 0 then s
    else
      var rest := s[start + |THINK|..];
      var end := Index(rest, THINK_END);
      if end < 0 then s
      else s[..start] + THINKING + rest[..end] + "\n" + BLOCKQUOTE_END + Thinks(rest[end + |THINK_END|..])
  }

  method ConvertThinkTags(text: string) returns (result: string)
    ensures result == Thinks(text)
  {
    hide Index;
    result := "";
    var s := text;
    assert "" + Thinks(s) == Thinks(s);
    while true
      invariant result + Thinks(s) == Thinks(text)
      decreases |s|
    {
      var start := Index(s, THINK);
      if start == -1 {
        result := result + s;
        break;
      }
      var rest := s[start + |THINK|..];
      var end := Index(rest, THINK_END);
      if end == -1 {
        result := result + s;
        break;
      }
      var thinkContent := rest[..end];
      ghost var base := result;
      result := result + s[..start];
      result := result + THINKING;
      result := result + thinkContent;
      result := result + ("\n" + BLOCKQUOTE_END);
      ThinkMore(base, s[..start], thinkContent, Thinks(rest[end + |THINK_END|..]));
      s := rest[end + |THINK_END|..];
    }
  }

  lemma ThinkMore(base: string, before: string, content: string, later: string)
    ensures base + before + THINKING + content + ("\n" + BLOCKQUOTE_END) + later
         == base + (before + THINKING + content + "\n" + BLOCKQUOTE_END + later)
  {
    var a, b := base + before + THINKING, THINKING + content;
    assert base + before + THINKING + content + ("\n" + BLOCKQUOTE_END) + later
        == base + (before + THINKING + content + ("\n" + BLOCKQUOTE_END) + later);
  }

  // A thought and the text before it.
  datatype Thought = Thought(before: string, content: string)

  /** Thoughts between an opening and a closing mark, and the text behind the last one. */
  function Rewrapped(thoughts: seq<Thought>, tail: string, open: string, close: string): string {
    if thoughts == [] then tail
    else thoughts[0].before + open + thoughts[0].content + close + Rewrapped(thoughts[1..], tail, open, close)
  }

  predicate NoThought(s: string) {
    var start := Index(s, THINK);
    start < 0 || Index(s[start + |THINK|..], THINK_END) < 0
  }

  /** The text is a row of think blocks, each closed by the first closing tag behind it, and a tail without a
      complete one; the conversion changes the marks around the thoughts and nothing else. */
  lemma ThinksRewraps(s: string) returns (thoughts: seq<Thought>, tail: string)
    ensures s == Rewrapped(thoughts, tail, "<think>", "</think>")
    ensures Thinks(s) ==
            Rewrapped(thoughts, tail, "<blockquote expandable>\U{1F9E0} Thinking\n", "\n</blockquote>")
    ensures NoThought(tail)
    ensures forall t :: t in thoughts ==> !Contains(t.before, "<think>") && !Contains(t.content, "</think>")
  {
    hide Index, Contains, OccursAt, Rewrapped, NoThought, Thinks;
    thoughts, tail := ThinksSplit(s);
    ThinkMarks();
  }

  lemma ThinkMarks()
    ensures THINK == "<think>" && THINK_END == "</think>"
    ensures THINKING == "<blockquote expandable>\U{1F9E0} Thinking\n" && "\n" + BLOCKQUOTE_END == "\n</blockquote>"
  {
  }

  lemma {:induction false} ThinksSplit(s: string) returns (thoughts: seq<Thought>, tail: string)
    ensures s == Rewrapped(thoughts, tail, THINK, THINK_END)
    ensures Thinks(s) == Rewrapped(thoughts, tail, THINKING, "\n" + BLOCKQUOTE_END)
    ensures NoThought(tail)
    ensures forall t :: t in thoughts ==> !Contains(t.before, THINK) && !Contains(t.content, THINK_END)
    decreases |s|
  {
    hide Index, Contains, OccursAt;
    if NoThought(s) {
      thoughts, tail := [], s;
    } else {
      var start := Index(s, THINK);
      FoundAt(s, THINK, start);
      NotInside(s, THINK, start);
      var rest := s[start + |THINK|..];
      var end := Index(rest, THINK_END);
      FoundAt(rest, THINK_END, end);
      NotInside(rest, THINK_END, end);
      var later := rest[end + |THINK_END|..];
      var more;
      more, tail := ThinksSplit(later);
      var t := Thought(s[..start], rest[..end]);
      thoughts := [t] + more;
      assert thoughts[1..] == more;
      SplitTwice(s, rest, start, end);
      MarksRegroup(t, Rewrapped(more, tail, THINKING, "\n" + BLOCKQUOTE_END));
    }
  }

  lemma SplitTwice(s: string, rest: string, start: nat, end: nat)
    requires start + |THINK| <= |s| && s[start..start + |THINK|] == THINK && rest == s[start + |THINK|..]
    requires end + |THINK_END| <= |rest| && rest[end..end + |THINK_END|] == THINK_END
    ensures s == s[..start] + THINK + rest[..end] + THINK_END + rest[end + |THINK_END|..]
  {
    assert s == s[..start] + THINK + rest;
    assert rest == rest[..end] + THINK_END + rest[end + |THINK_END|..];
  }

  lemma MarksRegroup(t: Thought, later: string)
    ensures t.before + THINKING + t.content + ("\n" + BLOCKQUOTE_END) + later
         == t.before + THINKING + t.content + "\n" + BLOCKQUOTE_END + later
  {
    var a := t.before + THINKING + t.content;
    assert a + ("\n" + BLOCKQUOTE_END) == a + "\n" + BLOCKQUOTE_END;
  }

  // ----- the whole conversion -----

  function Html(seg: Segment): string {
    if seg.isCode then seg.text else MarkdownInline(seg.text)
  }

  function HtmlOf(segments: seq<Segment>): string {
    if segments == [] then [] else Html(segments[0]) + HtmlOf(segments[1..])
  }

  method ToTelegramHTML(text: string) returns (out: string)
    ensures out == HtmlOf(Segments(Thinks(text)))
  {
    hide Segments, Thinks, BoldItalic, EscapeHTMLPreservingTags, MarkdownInline;
    var s := ConvertThinkTags(text);
    var segments := StripCodeBlocks(s);
    out := "";
    var i := 0;
    assert "" + HtmlOf(segments) == HtmlOf(segments) && segments[0..] == segments;
    while i < |segments|
      invariant 0 <= i <= |segments|
      invariant out + HtmlOf(segments[i..]) == HtmlOf(segments)
    {
      var seg := segments[i];
      assert segments[i..][0] == seg && segments[i..][1..] == segments[i + 1..];
      assert out + (Html(seg) + HtmlOf(segments[i + 1..])) == (out + Html(seg)) + HtmlOf(segments[i + 1..]);
      i := i + 1;
      if seg.isCode {
        out := out + seg.text;
        continue;
      }
      var inline := ConvertMarkdownInline(seg.text);
      out := out + inline;
    }
    assert segments[i..] == [] && out + [] == out;
  }

  method ConvertMarkdownInline(s: string) returns (r: string)
    ensures r == MarkdownInline(s)
  {
    hide BoldItalic, EscapeHTMLPreservingTags;
    r := ConvertBoldItalic(EscapeHTMLPreservingTags(s));
  }

  lemma BalancedAdd(a: seq<string>, b: seq<string>)
    requires Balanced(a) && Balanced(b)
    ensures Balanced(a + b)
  {
    hide Times;
    TimesAdd(a, b, "<b>");
    TimesAdd(a, b, "</b>");
    TimesAdd(a, b, "<i>");
    TimesAdd(a, b, "</i>");
    TimesAdd(a, b, "<pre>");
    TimesAdd(a, b, "</pre>");
    TimesAdd(a, b, "<code>");
    TimesAdd(a, b, "</code>");
  }

  lemma {:induction false} TagFreeTimes(ts: seq<string>, tag: string)
    requires TagFree(ts) && IsTag(tag)
    ensures Times(ts, tag) == 0
  {
    hide IsTag;
    if ts != [] {
      TagFreeTimes(ts[1..], tag);
    }
  }

  lemma TagFreeBalanced(ts: seq<string>)
    requires TagFree(ts)
    ensures Balanced(ts)
  {
    hide Times, TagFree;
    TagFreeTimes(ts, "<b>");
    TagFreeTimes(ts, "</b>");
    TagFreeTimes(ts, "<i>");
    TagFreeTimes(ts, "</i>");
    TagFreeTimes(ts, "<pre>");
    TagFreeTimes(ts, "</pre>");
    TagFreeTimes(ts, "<code>");
    TagFreeTimes(ts, "</code>");
  }

  lemma WrapBalanced(x: string, ts: seq<string>, y: string)
    requires Balanced(ts) && ((x == "<pre>" && y == "</pre>") || (x == "<code>" && y == "</code>"))
    ensures Balanced([x] + ts + [y])
  {
    hide Times;
    forall t: string
      ensures Times([x] + ts + [y], t) == (if x == t then 1 else 0) + Times(ts, t) + (if y == t then 1 else 0)
    {
      TimesAdd([x], ts, t);
      TimesAdd([x] + ts, [y], t);
      OneTimes(x, t);
      OneTimes(y, t);
    }
    assert "<pre>"[1] != "<code>"[1] && "<pre>"[1] != "</pre>"[1] && "<code>"[1] != "</code>"[1];
    assert |"<b>"| == |"<i>"| == 3 && |"</b>"| == |"</i>"| == 4;
  }

  /** Code in its tags: clean, balanced, and the escaped code reads back as the code. */
  lemma CodeIsFine(x: string, code: string, y: string)
    requires (x == "<pre>" && y == "</pre>") || (x == "<code>" && y == "</code>")
    ensures var r := x + EscapeHTML(code) + y;
            && Clean(r) && Balanced(Tokens(r))
            && Tokens(r) == [x] + Tokens(EscapeHTML(code)) + [y] && Read(Tokens(EscapeHTML(code))) == code
  {
    hide Clean, Tokens, EscapeHTML, Balanced, Read, TagFree;
    EscapeHTMLReadsBack(code);
    OneToken(x);
    OneToken(y);
    TokensConcat(x, EscapeHTML(code));
    TokensConcat(x + EscapeHTML(code), y);
    TagFreeBalanced(Tokens(EscapeHTML(code)));
    WrapBalanced(x, Tokens(EscapeHTML(code)), y);
  }

  ghost predicate Fine(s: string) {
    Clean(s) && Balanced(Tokens(s))
  }

  ghost predicate EveryFine(segments: seq<Segment>) {
    segments == [] || (Fine(Html(segments[0])) && EveryFine(segments[1..]))
  }

  lemma {:induction false} EveryFineAdd(a: seq<Segment>, b: seq<Segment>)
    requires EveryFine(a) && EveryFine(b)
    ensures EveryFine(a + b)
  {
    hide Fine, Html;
    if a == [] {
      assert a + b == b;
    } else {
      EveryFineAdd(a[1..], b);
      assert (a + b)[1..] == a[1..] + b;
    }
  }

  lemma OneFine(seg: Segment)
    requires Fine(Html(seg))
    ensures EveryFine([seg])
  {
    hide Fine, Html;
    assert [seg][1..] == [];
  }

  lemma {:induction false} SegmentsAreFine(s: string)
    ensures EveryFine(Segments(s))
    decreases |s|
  {
    hide Find, EveryFine, Fine;
    match Find(s) {
      case Nothing => PlainIsFine(s);
      case Open(k) =>
        PlainIsFine(s[..k]);
        PlainIsFine(s[k..]);
        EveryFineAdd(Plain(s[..k]), [Segment(s[k..], false)]);
      case Block(k, next, html) =>
        PlainIsFine(s[..k]);
        BlockIsFine(s);
        OneFine(Segment(html, true));
        SegmentsAreFine(s[next..]);
        EveryFineAdd(Plain(s[..k]), [Segment(html, true)]);
        EveryFineAdd(Plain(s[..k]) + [Segment(html, true)], Segments(s[next..]));
    }
  }

  lemma PlainIsFine(text: string)
    ensures EveryFine(Plain(text)) && EveryFine([Segment(text, false)])
  {
    hide Clean, Tokens, Balanced, MarkdownInline, Unmarked, Weight;
    InlineKeepsText(text);
    OneFine(Segment(text, false));
  }

  lemma BlockIsFine(s: string)
    requires Find(s).Block?
    ensures Fine(Html(Segment(Find(s).html, true)))
  {
    hide Find, Clean, Tokens, Balanced, EscapeHTML, FenceBody, Absent;
    FirstKind(s);
    var html, source := Find(s).html, s[Find(s).at..Find(s).next];
    if code :| source == "```" + code + "```" && Absent(code, "```") && html == FenceHTML(code) {
      CodeIsFine("<pre>", FenceBody(code), "</pre>");
    } else {
      var code :| source == "`" + code + "`" && Absent(code, "`") && html == CodeHTML(code);
      CodeIsFine("<code>", code, "</code>");
    }
  }

  lemma {:induction false} JoinedIsFine(segments: seq<Segment>)
    requires EveryFine(segments)
    ensures Fine(HtmlOf(segments))
  {
    hide Clean, Tokens, Balanced, Html;
    if segments == [] {
      NothingIsFine();
    } else {
      JoinedIsFine(segments[1..]);
      TokensConcat(Html(segments[0]), HtmlOf(segments[1..]));
      BalancedAdd(Tokens(Html(segments[0])), Tokens(HtmlOf(segments[1..])));
    }
  }

  lemma NothingIsFine()
    ensures Fine([])
  {
  }

  // ----- what the output shows -----

  /** What a segment shows, up to stars: plain text itself, code between its tags. */
  ghost predicate Displays(seg: Segment, source: string, text: string) {
    if !seg.isCode then text == Unstarred(source)
    else
      || (exists code :: source == "```" + code + "```" && Absent(code, "```")
                         && text == "<pre>" + Unstarred(FenceBody(code)) + "</pre>")
      || (exists code :: source == "`" + code + "`" && Absent(code, "`")
                         && text == "<code>" + Unstarred(code) + "</code>")
  }

  /** Escaped code reads back as the code, up to stars. */
  lemma CodeReads(x: string, code: string, y: string)
    requires (x == "<pre>" && y == "</pre>") || (x == "<code>" && y == "</code>")
    ensures Clean(x + EscapeHTML(code) + y)
    ensures Read(Unmarked(Tokens(x + EscapeHTML(code) + y))) == x + Unstarred(code) + y
  {
    hide Clean, Tokens, EscapeHTML, Read, Unmarked, Unstarred, Proper, Balanced;
    CodeIsFine(x, code, y);
    EscapeHTMLReadsBack(code);
    var ts := Tokens(EscapeHTML(code));
    TokensAreProper(EscapeHTML(code));
    forall i | 0 <= i < |ts|
      ensures Ordinary(ts[i]) && (ts[i] == "*" || '*' !in Shown(ts[i]))
    {
      ProperStar(ts[i]);
    }
    UnmarkedIsUnstarred(ts);
    UnmarkedAdd([x], ts);
    UnmarkedAdd([x] + ts, [y]);
    ReadAdd(Unmarked([x]), Unmarked(ts));
    ReadAdd(Unmarked([x]) + Unmarked(ts), Unmarked([y]));
    CodeTagRead(x);
    CodeTagRead(y);
  }

  lemma CodeTagRead(x: string)
    requires x == "<pre>" || x == "</pre>" || x == "<code>" || x == "</code>"
    ensures Read(Unmarked([x])) == x
  {
    CodeTagsNoMarkers();
    assert [x][1..] == [] && [x] + [] == [x];
    assert x[0] == '<';
    assert Shown(x) == x && x + [] == x;
  }

  lemma OneDisplays(seg: Segment, source: string) returns (text: string)
    requires MadeFrom(seg, source)
    ensures Clean(Html(seg)) && Displays(seg, source, text) && Read(Unmarked(Tokens(Html(seg)))) == text
  {
    hide Clean, Tokens, EscapeHTML, Read, Unmarked, Unstarred, MarkdownInline, FenceBody, Absent, Balanced, Weight,
      Stars;
    if !seg.isCode {
      InlineKeepsText(source);
      text := Unstarred(source);
    } else if PreFrom(seg, source) {
      var code :| source == "```" + code + "```" && Absent(code, "```") && seg.text == FenceHTML(code);
      CodeReads("<pre>", FenceBody(code), "</pre>");
      text := "<pre>" + Unstarred(FenceBody(code)) + "</pre>";
    } else {
      var code :| source == "`" + code + "`" && Absent(code, "`") && seg.text == CodeHTML(code);
      CodeReads("<code>", code, "</code>");
      text := "<code>" + Unstarred(code) + "</code>";
    }
  }

  lemma {:induction false} AllDisplay(segs: seq<Segment>, sources: seq<string>) returns (texts: seq<string>)
    requires |segs| == |sources| && forall i :: 0 <= i < |segs| ==> MadeFrom(segs[i], sources[i])
    ensures |texts| == |segs| && forall i :: 0 <= i < |segs| ==> Displays(segs[i], sources[i], texts[i])
    ensures Clean(HtmlOf(segs)) && Read(Unmarked(Tokens(HtmlOf(segs)))) == Join(texts)
    decreases |segs|
  {
    hide Clean, Tokens, Html, Read, Unmarked, MadeFrom, Displays;
    if segs == [] {
      NothingIsFine();
      NothingReads();
      texts := [];
    } else {
      var text := OneDisplays(segs[0], sources[0]);
      var more := AllDisplay(segs[1..], sources[1..]);
      texts := [text] + more;
      TokensConcat(Html(segs[0]), HtmlOf(segs[1..]));
      UnmarkedAdd(Tokens(Html(segs[0])), Tokens(HtmlOf(segs[1..])));
      ReadAdd(Unmarked(Tokens(Html(segs[0]))), Unmarked(Tokens(HtmlOf(segs[1..]))));
      assert texts[1..] == more;
    }
  }

  lemma NothingReads()
    ensures Read(Unmarked(Tokens([]))) == []
  {
  }

  /** The whole conversion loses nothing: read back, the output is what the segments show, in order, each plain
      segment its source and each block its code between the tags of its kind, up to stars. */
  lemma OutputShowsAll(s: string) returns (texts: seq<string>)
    ensures |texts| == |Segments(s)| == |Sources(s)| && Join(Sources(s)) == s
    ensures forall i :: 0 <= i < |texts| ==> Displays(Segments(s)[i], Sources(s)[i], texts[i])
    ensures Read(Unmarked(Tokens(HtmlOf(Segments(s))))) == Join(texts)
  {
    hide Clean, Tokens, Html, Read, Unmarked, MadeFrom, Displays, Segments, Sources, HtmlOf, Join;
    SegmentsCoverText(s);
    texts := AllDisplay(Segments(s), Sources(s));
  }

  predicate StartsTag(s: string, k: nat)
    requires k < |s|
  {
    exists e :: k <= e <= |s| && IsTag(s[k..e])
  }

  predicate StartsEntity(s: string, k: nat)
    requires k < |s|
  {
    exists e :: k <= e <= |s| && IsEntity(s[k..e])
  }

  /** In clean text a < is the first character of one of the converter's tags, a & of one of its entities. */
  lemma {:induction false} CleanMeans(s: string, k: nat)
    requires Clean(s) && k < |s|
    ensures s[k] == '<' ==> StartsTag(s, k)
    ensures s[k] == '&' ==> StartsEntity(s, k)
    decreases |s|
  {
    hide IsTag, IsEntity, Width, StartsTag, StartsEntity;
    if s[k] == '<' || s[k] == '&' {
      var w := Width(s);
      if k == 0 {
        FirstMeans(s);
      } else {
        BoundaryNotInside(s, k);
        CleanMeans(s[w..], k - w);
        StartsLater(s, w, k);
      }
    }
  }

  lemma StartsLater(s: string, w: nat, k: nat)
    requires w <= k < |s|
    ensures StartsTag(s[w..], k - w) ==> StartsTag(s, k)
    ensures StartsEntity(s[w..], k - w) ==> StartsEntity(s, k)
  {
    hide IsTag, IsEntity;
    var t, j := s[w..], k - w;
    if e :| j <= e <= |t| && IsTag(t[j..e]) {
      assert t[j..e] == s[k..e + w];
    }
    if e :| j <= e <= |t| && IsEntity(t[j..e]) {
      assert t[j..e] == s[k..e + w];
    }
  }

  lemma FirstMeans(s: string)
    requires Width(s) > 0
    ensures s[0] == '<' ==> StartsTag(s, 0)
    ensures s[0] == '&' ==> StartsEntity(s, 0)
  {
    hide IsTag, IsEntity;
    assert s[0..Width(s)] == s[..Width(s)];
  }

  lemma BoundaryNotInside(s: string, k: nat)
    requires 0 < k < |s| && (s[k] == '<' || s[k] == '&')
    ensures k >= Width(s)
  {
    if k < Width(s) {
      InsideToken(s, k);
    }
  }

  /** The output for any text at all: every < starts a tag of the converter, every & one of its entities, and
      b, i, pre and code are opened exactly as often as they are closed. */
  lemma OutputIsWellFormed(text: string)
    ensures var out := HtmlOf(Segments(Thinks(text)));
            && Clean(out)
            && (forall k: nat :: k < |out| ==>
                (out[k] == '<' ==> StartsTag(out, k)) && (out[k] == '&' ==> StartsEntity(out, k)))
            && Occurrences(out, "<b>") == Occurrences(out, "</b>")
            && Occurrences(out, "<i>") == Occurrences(out, "</i>")
            && Occurrences(out, "<pre>") == Occurrences(out, "</pre>")
            && Occurrences(out, "<code>") == Occurrences(out, "</code>")
  {
    hide Segments, Thinks, HtmlOf, Clean, Tokens, Times, Occurrences, StartsTag, StartsEntity;
    var out := HtmlOf(Segments(Thinks(text)));
    SegmentsAreFine(Thinks(text));
    JoinedIsFine(Segments(Thinks(text)));
    TagsAreTokens(out, "<b>");
    TagsAreTokens(out, "</b>");
    TagsAreTokens(out, "<i>");
    TagsAreTokens(out, "</i>");
    TagsAreTokens(out, "<pre>");
    TagsAreTokens(out, "</pre>");
    TagsAreTokens(out, "<code>");
    TagsAreTokens(out, "</code>");
    forall k: nat | k < |out|
      ensures (out[k] == '<' ==> StartsTag(out, k)) && (out[k] == '&' ==> StartsEntity(out, k))
    {
      CleanMeans(out, k);
    }
  }
}
