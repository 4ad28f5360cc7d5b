/** The slash-command lexer and parser, and the round trip through quoting. */
module Slash {
  import opened Wrappers
  import opened Text

  datatype Error =
    | NoCommand | InvalidCommand | DanglingEscape | UnclosedQuote
    | InvalidName(name: string) | InvalidFlag(token: string)
    | AtLine(line: nat, cause: Error)

  // flags is None when the command has none.
  datatype Invocation = Invocation(
    name: string, args: seq<string>, flags: Option<map<string, string>>, position: nat, raw: string)

  // ----- lexing -----

  datatype LexState = LexState(tokens: seq<string>, buf: string, quote: Option<char>, escaped: bool)

  const START := LexState([], "", None, false)

  function Emitted(tokens: seq<string>, buf: string): seq<string> {
    if buf != "" then tokens + [buf] else tokens
  }

  function LexStep(st: LexState, r: char): LexState {
    if st.escaped then st.(buf := st.buf + [r], escaped := false)
    else if r == '\\' then st.(escaped := true)
    else if st.quote.Some? then
      if r == st.quote.value then st.(quote := None) else st.(buf := st.buf + [r])
    else if r == '\'' || r == '"' then st.(quote := Some(r))
    else if IsSpace(r) then st.(tokens := Emitted(st.tokens, st.buf), buf := "")
    else st.(buf := st.buf + [r])
  }

  function LexRun(st: LexState, s: string): LexState
    decreases |s|
  {
    if s == [] then st else LexRun(LexStep(st, s[0]), s[1..])
  }

  function Lexed(st: LexState): Result<seq<string>, Error> {
    if st.escaped then Err(DanglingEscape)
    else if st.quote.Some? then Err(UnclosedQuote)
    else Ok(Emitted(st.tokens, st.buf))
  }

  method Lex(line: string) returns (r: Result<seq<string>, Error>)
    ensures r == Lexed(LexRun(START, line))
  {
    var tokens: seq<string>, buf, quote: Option<char>, escaped := [], "", None, false;
    var i := 0;
    while i < |line|
      invariant 0 <= i <= |line|
      invariant LexRun(START, line) == LexRun(LexState(tokens, buf, quote, escaped), line[i..])
    {
      var r := line[i];
      assert line[i..][0] == r && line[i..][1..] == line[i + 1..];
      i := i + 1;
      if escaped {
        buf := buf + [r];
        escaped := false;
      } else if r == '\\' {
        escaped := true;
      } else if quote.Some? {
        if r == quote.value {
          quote := None;
          continue;
        }
        buf := buf + [r];
      } else if r == '\'' || r == '"' {
        quote := Some(r);
      } else if IsSpace(r) {
        if |buf| > 0 {
          tokens := tokens + [buf];
          buf := "";
        }
      } else {
        buf := buf + [r];
      }
    }
    if escaped {
      return Err(DanglingEscape);
    }
    if quote.Some? {
      return Err(UnclosedQuote);
    }
    if |buf| > 0 {
      tokens := tokens + [buf];
    }
    return Ok(tokens);
  }

  predicate NoneEmpty(tokens: seq<string>) {
    forall i :: 0 <= i < |tokens| ==> tokens[i] != ""
  }

  lemma {:induction false} RunKeepsTokensFull(st: LexState, s: string)
    requires NoneEmpty(st.tokens)
    ensures NoneEmpty(LexRun(st, s).tokens)
    decreases |s|
  {
    if s != [] {
      RunKeepsTokensFull(LexStep(st, s[0]), s[1..]);
    }
  }

  /** The lexer never yields an empty token. */
  lemma LexYieldsNoEmptyToken(line: string)
    ensures Lexed(LexRun(START, line)).Ok? ==> NoneEmpty(Lexed(LexRun(START, line)).value)
  {
    RunKeepsTokensFull(START, line);
  }

  // ----- parsing one line -----

  /** strings.ToLower, rune by rune. */
  function ToLower(lower: char -> char, s: string): (r: string)
    ensures |r| == |s| && forall i :: 0 <= i < |s| ==> r[i] == lower(s[i])
  {
    if s == [] then [] else [lower(s[0])] + ToLower(lower, s[1..])
  }

  predicate NameChar(r: char) {
    r == '-' || r == '_' || 'a' <= r <= 'z' || '0' <= r <= '9'
  }

  predicate ValidName(name: string) {
    name != "" && forall i :: 0 <= i < |name| ==> NameChar(name[i])
  }

  /** parseFlag: key, value, and whether the token carried a value. */
  function ParseFlag(token: string): (string, string, bool)
    requires HasPrefix(token, "--")
  {
    var trimmed := token[2..];
    var i := Index(trimmed, "=");
    if i >= 0 then (TrimSpace(trimmed[..i]), trimmed[i + 1..], true) else (TrimSpace(trimmed), "", false)
  }

  /** The arguments and flags of the tokens behind the name. */
  function ParsedTokens(lower: char -> char, tokens: seq<string>, args: seq<string>, flags: map<string, string>)
    : Result<(seq<string>, map<string, string>), Error>
    decreases |tokens|
  {
    if tokens == [] then Ok((args, flags))
    else if HasPrefix(tokens[0], "--") then
      var (rawKey, value, hasValue) := ParseFlag(tokens[0]);
      var key := ToLower(lower, rawKey);
      if key == "" then Err(InvalidFlag(tokens[0]))
      else if !hasValue && |tokens| > 1 && !HasPrefix(tokens[1], "-") then
        ParsedTokens(lower, tokens[2..], args, flags[key := NonEmptyValue(tokens[1])])
      else
        ParsedTokens(lower, tokens[1..], args, flags[key := NonEmptyValue(value)])
    else ParsedTokens(lower, tokens[1..], args + [tokens[0]], flags)
  }

  function NonEmptyValue(value: string): string {
    if value == "" then "true" else value
  }

  function NilIfEmpty(flags: map<string, string>): Option<map<string, string>> {
    if flags == map[] then None else Some(flags)
  }

  function ParsedLine(lower: char -> char, line: string, position: nat): Result<Invocation, Error> {
    match Lexed(LexRun(START, line))
    case Err(e) => Err(e)
    case Ok(tokens) =>
      if tokens == [] || !HasPrefix(tokens[0], "/") then Err(InvalidCommand)
      else
        var name := ToLower(lower, tokens[0][1..]);
        if name == "" || !ValidName(name) then Err(InvalidName(tokens[0]))
        else
          match ParsedTokens(lower, tokens[1..], [], map[])
          case Err(e) => Err(e)
          case Ok((args, flags)) => Ok(Invocation(name, args, NilIfEmpty(flags), position, line))
  }

  method ParseLine(lower: char -> char, line: string, position: nat) returns (r: Result<Invocation, Error>)
    ensures r == ParsedLine(lower, line, position)
  {
    hide LexRun, ValidName;
    var lexed := Lex(line);
    if lexed.Err? {
      return Err(lexed.error);
    }
    var tokens := lexed.value;
    if |tokens| == 0 {
      return Err(InvalidCommand);
    }
    var name := tokens[0];
    if !HasPrefix(name, "/") {
      return Err(InvalidCommand);
    }
    var normalized := ToLower(lower, name[1..]);
    if normalized == "" || !ValidName(normalized) {
      return Err(InvalidName(name));
    }
    var args: seq<string>, flags: map<string, string> := [], map[];
    var i := 1;
    while i < |tokens|
      invariant 1 <= i <= |tokens|
      invariant ParsedTokens(lower, tokens[1..], [], map[]) == ParsedTokens(lower, tokens[i..], args, flags)
    {
      var token := tokens[i];
      assert tokens[i..][0] == token && tokens[i..][1..] == tokens[i + 1..];
      if HasPrefix(token, "--") {
        var (rawKey, value, consumed) := ParseFlag(token);
        var key := ToLower(lower, rawKey);
        if key == "" {
          return Err(InvalidFlag(token));
        }
        if !consumed && i + 1 < |tokens| && !HasPrefix(tokens[i + 1], "-") {
          assert tokens[i..][2..] == tokens[i + 2..] && tokens[i..][1] == tokens[i + 1];
          value := tokens[i + 1];
          i := i + 1;
        }
        if value == "" {
          value := "true";
        }
        flags := flags[key := value];
        i := i + 1;
        continue;
      }
      args := args + [token];
      i := i + 1;
    }
    return Ok(Invocation(normalized, args, NilIfEmpty(flags), position, line));
  }

  // ----- parsing a whole input -----

  /** strings.Split(s, "\n"). */
  function SplitLines(s: string): (lines: seq<string>)
    ensures lines != []
  {
    if s == [] then [""]
    else
      var later := SplitLines(s[1..]);
      if s[0] == '\n' then [""] + later else [[s[0]] + later[0]] + later[1..]
  }

  predicate IsCommandLine(line: string) {
    HasPrefix(TrimSpace(line), "/")
  }

  /** The invocations of the lines, idx lines having come before them. */
  function ParsedLines(lower: char -> char, lines: seq<string>, idx: nat): Result<seq<Invocation>, Error>
    decreases |lines|
  {
    if lines == [] then Ok([])
    else if !IsCommandLine(lines[0]) then ParsedLines(lower, lines[1..], idx + 1)
    else
      match ParsedLine(lower, TrimSpace(lines[0]), idx + 1)
      case Err(e) => Err(AtLine(idx + 1, e))
      case Ok(inv) =>
        match ParsedLines(lower, lines[1..], idx + 1)
        case Err(e) => Err(e)
        case Ok(later) => Ok([inv] + later)
  }

  function Parsed(lower: char -> char, input: string): Result<seq<Invocation>, Error> {
    match ParsedLines(lower, SplitLines(input), 0)
    case Err(e) => Err(e)
    case Ok(invocations) => if invocations == [] then Err(NoCommand) else Ok(invocations)
  }

  function Prepended(invocations: seq<Invocation>, r: Result<seq<Invocation>, Error>): Result<seq<Invocation>, Error> {
    match r
    case Err(e) => Err(e)
    case Ok(later) => Ok(invocations + later)
  }

  method Parse(lower: char -> char, input: string) returns (r: Result<seq<Invocation>, Error>)
    ensures r == Parsed(lower, input)
  {
    hide ParsedLine, TrimSpace, SplitLines;
    var lines := SplitLines(input);
    var invocations: seq<Invocation> := [];
    var idx := 0;
    PrependNothing(ParsedLines(lower, lines, 0));
    assert lines[0..] == lines;
    while idx < |lines|
      invariant 0 <= idx <= |lines|
      invariant ParsedLines(lower, lines, 0) == Prepended(invocations, ParsedLines(lower, lines[idx..], idx))
    {
      assert lines[idx..][0] == lines[idx] && lines[idx..][1..] == lines[idx + 1..];
      var trimmed := TrimSpace(lines[idx]);
      if trimmed == "" || !HasPrefix(trimmed, "/") {
        idx := idx + 1;
        continue;
      }
      var parsed := ParseLine(lower, trimmed, idx + 1);
      if parsed.Err? {
        return Err(AtLine(idx + 1, parsed.error));
      }
      PrependOne(invocations, parsed.value, ParsedLines(lower, lines[idx + 1..], idx + 1));
      invocations := invocations + [parsed.value];
      idx := idx + 1;
    }
    if |invocations| == 0 {
      return Err(NoCommand);
    }
    assert invocations + [] == invocations;
    return Ok(invocations);
  }

  lemma PrependNothing(r: Result<seq<Invocation>, Error>)
    ensures Prepended([], r) == r
  {
    assert r.Ok? ==> [] + r.value == r.value;
  }

  lemma PrependOne(invocations: seq<Invocation>, inv: Invocation, r: Result<seq<Invocation>, Error>)
    ensures Prepended(invocations + [inv], r) == Prepended(invocations, Prepended([inv], r))
  {
    assert r.Ok? ==> (invocations + [inv]) + r.value == invocations + ([inv] + r.value);
  }

  // ----- what every accepted input means -----

  predicate Sensible(inv: Invocation) {
    && ValidName(inv.name)
    && (inv.flags.Some? ==> inv.flags.value != map[]
                            && forall key :: key in inv.flags.value ==> key != "" && inv.flags.value[key] != "")
    && NoneEmpty(inv.args)
  }

  lemma {:induction false} ParsedTokensSensible(lower: char -> char, tokens: seq<string>, args: seq<string>,
      flags: map<string, string>)
    requires NoneEmpty(args) && NoneEmpty(tokens)
    requires forall key :: key in flags ==> key != "" && flags[key] != ""
    ensures var r := ParsedTokens(lower, tokens, args, flags);
            r.Ok? ==> NoneEmpty(r.value.0) && forall key :: key in r.value.1 ==> key != "" && r.value.1[key] != ""
    decreases |tokens|
  {
    hide ParseFlag, ToLower;
    if tokens != [] {
      if HasPrefix(tokens[0], "--") {
        var (rawKey, value, hasValue) := ParseFlag(tokens[0]);
        var key := ToLower(lower, rawKey);
        if key != "" {
          if !hasValue && |tokens| > 1 && !HasPrefix(tokens[1], "-") {
            ParsedTokensSensible(lower, tokens[2..], args, flags[key := NonEmptyValue(tokens[1])]);
          } else {
            ParsedTokensSensible(lower, tokens[1..], args, flags[key := NonEmptyValue(value)]);
          }
        }
      } else {
        ParsedTokensSensible(lower, tokens[1..], args + [tokens[0]], flags);
      }
    }
  }

  lemma ParsedLineSensible(lower: char -> char, line: string, position: nat)
    ensures var r := ParsedLine(lower, line, position);
            r.Ok? ==> Sensible(r.value) && r.value.position == position && r.value.raw == line
  {
    hide LexRun, ParsedTokens, ToLower;
    LexYieldsNoEmptyToken(line);
    var lexed := Lexed(LexRun(START, line));
    if lexed.Ok? && lexed.value != [] {
      ParsedTokensSensible(lower, lexed.value[1..], [], map[]);
    }
  }

  /** The command lines, each with its number. */
  function CommandLines(lines: seq<string>, idx: nat): seq<(nat, string)>
    decreases |lines|
  {
    if lines == [] then []
    else (if IsCommandLine(lines[0]) then [(idx + 1, TrimSpace(lines[0]))] else []) + CommandLines(lines[1..], idx + 1)
  }

  predicate Stands(inv: Invocation, at: (nat, string)) {
    Sensible(inv) && inv.position == at.0 && inv.raw == at.1
  }

  /** An accepted input has one invocation for each command line, in order; each has a valid name, no empty
      argument, and flags with no empty key or value. */
  lemma {:induction false} ParsedLinesSensible(lower: char -> char, lines: seq<string>, idx: nat)
    requires ParsedLines(lower, lines, idx).Ok?
    ensures var invs, at := ParsedLines(lower, lines, idx).value, CommandLines(lines, idx);
            |invs| == |at| && forall i :: 0 <= i < |at| ==> Stands(invs[i], at[i])
    decreases |lines|
  {
    hide ParsedLine, TrimSpace, Sensible, HasPrefix;
    if lines != [] {
      ParsedLinesSensible(lower, lines[1..], idx + 1);
      if IsCommandLine(lines[0]) {
        ParsedLineSensible(lower, TrimSpace(lines[0]), idx + 1);
      }
    }
  }

  /** Nothing is reported as a missing command unless no line begins with a slash. */
  lemma {:induction false} NoCommandIff(lower: char -> char, input: string)
    ensures Parsed(lower, input) == Err(NoCommand) <==>
            forall line :: line in SplitLines(input) ==> !IsCommandLine(line)
  {
    hide ParsedLine, TrimSpace, SplitLines;
    NoInvocationIff(lower, SplitLines(input), 0);
  }

  lemma {:induction false} NoInvocationIff(lower: char -> char, lines: seq<string>, idx: nat)
    ensures ParsedLines(lower, lines, idx) == Ok([]) <==> forall line :: line in lines ==> !IsCommandLine(line)
    ensures ParsedLines(lower, lines, idx).Err? ==> ParsedLines(lower, lines, idx).error.AtLine?
    decreases |lines|
  {
    hide ParsedLine, IsCommandLine;
    if lines != [] {
      NoInvocationIff(lower, lines[1..], idx + 1);
      assert lines[0] in lines;
      assert forall line :: line in lines <==> line == lines[0] || line in lines[1..];
    }
  }

  // ----- writing commands down -----

  // A flag is written with its value behind an equals sign or as the next token, or bare.
  datatype Item =
    | Arg(text: string) | Flag(key: string, value: string) | Spaced(key: string, value: string) | Bare(key: string)

  datatype Command = Command(name: string, items: seq<Item>)

  predicate NoNewline(s: string) {
    '\n' !in s
  }

  predicate WritableItem(lower: char -> char, item: Item) {
    match item
    case Arg(text) => text != "" && NoNewline(text) && !HasPrefix(text, "--")
    case Flag(key, value) => WritableKey(lower, key) && value != "" && NoNewline(value)
    case Spaced(key, value) => WritableKey(lower, key) && value != "" && NoNewline(value) && !HasPrefix(value, "-")
    case Bare(key) => WritableKey(lower, key)
  }

  predicate WritableKey(lower: char -> char, key: string) {
    key != "" && NoNewline(key) && '=' !in key && Trimmed(key) && ToLower(lower, key) == key
  }

  /** A token that does not begin with a dash would be taken as the value of a bare flag before it. */
  predicate WritableItems(lower: char -> char, items: seq<Item>) {
    && (forall i :: 0 <= i < |items| ==> WritableItem(lower, items[i]))
    && (forall i :: 0 <= i < |items| - 1 && items[i].Bare? ==> HasPrefix(TokensOf(items[i + 1])[0], "-"))
  }

  predicate Writable(lower: char -> char, c: Command) {
    ValidName(c.name) && WritableItems(lower, c.items)
  }

  /** Lower-casing leaves the characters of a valid name alone. */
  ghost predicate LowersAscii(lower: char -> char) {
    forall r :: NameChar(r) ==> lower(r) == r
  }

  function TokensOf(item: Item): (tokens: seq<string>)
    ensures tokens != []
  {
    match item
    case Arg(text) => [text]
    case Flag(key, value) => ["--" + key + "=" + value]
    case Spaced(key, value) => ["--" + key, value]
    case Bare(key) => ["--" + key]
  }

  function Tokens(items: seq<Item>): seq<string> {
    if items == [] then [] else TokensOf(items[0]) + Tokens(items[1..])
  }

  /** The text with a backslash before every backslash and every mark. */
  function Escape(mark: char, s: string): string {
    if s == [] then [] else (if s[0] == '\\' || s[0] == mark then ['\\', s[0]] else [s[0]]) + Escape(mark, s[1..])
  }

  function Quoted(tokens: seq<string>): string {
    if tokens == [] then [] else " \"" + Escape('"', tokens[0]) + "\"" + Quoted(tokens[1..])
  }

  function Line(c: Command): string {
    "/" + c.name + Quoted(Tokens(c.items))
  }

  function Written(cs: seq<Command>): string {
    if cs == [] then "" else if |cs| == 1 then Line(cs[0]) else Line(cs[0]) + "\n" + Written(cs[1..])
  }

  function ArgsOf(items: seq<Item>): seq<string> {
    if items == [] then [] else (if items[0].Arg? then [items[0].text] else []) + ArgsOf(items[1..])
  }

  /** A key given twice keeps its last value. */
  function FlagsOf(items: seq<Item>, flags: map<string, string>): map<string, string> {
    if items == [] then flags
    else FlagsOf(items[1..], if items[0].Arg? then flags else flags[items[0].key := ValueOf(items[0])])
  }

  /** A bare flag is true. */
  function ValueOf(item: Item): string
    requires !item.Arg?
  {
    match item
    case Flag(_, value) => value
    case Spaced(_, value) => value
    case Bare(_) => "true"
  }

  function Meaning(c: Command, position: nat): Invocation {
    Invocation(c.name, ArgsOf(c.items), NilIfEmpty(FlagsOf(c.items, map[])), position, Line(c))
  }

  function Meanings(cs: seq<Command>, idx: nat): (invs: seq<Invocation>)
    ensures |invs| == |cs|
  {
    if cs == [] then [] else [Meaning(cs[0], idx + 1)] + Meanings(cs[1..], idx + 1)
  }

  /** With distinct keys every flag is found under its key. */
  lemma {:induction false} DistinctFlagsKept(items: seq<Item>, flags: map<string, string>, i: nat)
    requires i < |items| && !items[i].Arg?
    requires forall j :: i < j < |items| && !items[j].Arg? ==> items[j].key != items[i].key
    ensures items[i].key in FlagsOf(items, flags) && FlagsOf(items, flags)[items[i].key] == ValueOf(items[i])
    decreases |items|
  {
    var flags' := if items[0].Arg? then flags else flags[items[0].key := ValueOf(items[0])];
    if i > 0 {
      DistinctFlagsKept(items[1..], flags', i - 1);
    } else {
      OtherFlagsKept(items[1..], flags', items[0].key);
    }
  }

  lemma {:induction false} OtherFlagsKept(items: seq<Item>, flags: map<string, string>, key: string)
    requires forall j :: 0 <= j < |items| && !items[j].Arg? ==> items[j].key != key
    requires key in flags
    ensures key in FlagsOf(items, flags) && FlagsOf(items, flags)[key] == flags[key]
    decreases |items|
  {
    if items != [] {
      OtherFlagsKept(items[1..], if items[0].Arg? then flags else flags[items[0].key := ValueOf(items[0])], key);
    }
  }

  // ----- reading them back -----

  lemma {:induction false} RunConcat(st: LexState, a: string, b: string)
    ensures LexRun(st, a + b) == LexRun(LexRun(st, a), b)
    decreases |a|
  {
    hide LexStep;
    if a == [] {
      assert a + b == b;
    } else {
      RunConcat(LexStep(st, a[0]), a[1..], b);
      assert (a + b)[1..] == a[1..] + b;
    }
  }

  lemma {:induction false} RunPlain(tokens: seq<string>, buf: string, w: string)
    requires forall i :: 0 <= i < |w| ==> w[i] == '/' || NameChar(w[i])
    ensures LexRun(LexState(tokens, buf, None, false), w) == LexState(tokens, buf + w, None, false)
    decreases |w|
  {
    if w == [] {
      assert buf + w == buf;
    } else {
      RunPlain(tokens, buf + [w[0]], w[1..]);
      assert buf + [w[0]] + w[1..] == buf + w;
    }
  }

  predicate QuoteMark(mark: char) {
    mark == '"' || mark == '\''
  }

  /** Inside quotes the escaped text reads back as the text. */
  lemma {:induction false} RunEscaped(tokens: seq<string>, buf: string, mark: char, s: string)
    requires QuoteMark(mark)
    ensures LexRun(LexState(tokens, buf, Some(mark), false), Escape(mark, s)) ==
            LexState(tokens, buf + s, Some(mark), false)
    decreases |s|
  {
    var st := LexState(tokens, buf, Some(mark), false);
    if s == [] {
      assert buf + s == buf;
    } else {
      RunEscaped(tokens, buf + [s[0]], mark, s[1..]);
      assert buf + [s[0]] + s[1..] == buf + s;
      RunEscapedChar(st, mark, s[0]);
      RunConcat(st, if s[0] == '\\' || s[0] == mark then ['\\', s[0]] else [s[0]], Escape(mark, s[1..]));
    }
  }

  lemma RunEscapedChar(st: LexState, mark: char, r: char)
    requires st.quote == Some(mark) && !st.escaped && QuoteMark(mark)
    ensures LexRun(st, if r == '\\' || r == mark then ['\\', r] else [r]) == st.(buf := st.buf + [r])
  {
    if r == '\\' || r == mark {
      RunBackslash(st, r);
    } else {
      assert [r][1..] == [];
      assert LexStep(st, r) == st.(buf := st.buf + [r]);
    }
  }

  /** A backslash takes the next character as it is, anywhere. */
  lemma RunBackslash(st: LexState, r: char)
    requires !st.escaped
    ensures LexRun(st, ['\\', r]) == st.(buf := st.buf + [r])
  {
    var st1 := LexStep(st, '\\');
    assert LexStep(st1, r) == st.(buf := st.buf + [r]);
    assert ['\\', r][1..] == [r] && [r][1..] == [];
    assert LexRun(st1, [r]) == LexRun(LexStep(st1, r), []);
  }

  /** One quoted token behind a pending one: the pending one is emitted, the quoted one is pending. */
  lemma RunQuotedToken(tokens: seq<string>, buf: string, t: string)
    requires buf != ""
    ensures LexRun(LexState(tokens, buf, None, false), " \"" + Escape('"', t) + "\"") ==
            LexState(tokens + [buf], t, None, false)
  {
    hide Escape;
    var st := LexState(tokens, buf, None, false);
    var open := LexState(tokens + [buf], "", Some('"'), false);
    RunConcat(st, " \"" + Escape('"', t), "\"");
    RunConcat(st, " \"", Escape('"', t));
    RunOpen(st);
    RunEscaped(tokens + [buf], "", '"', t);
    assert "" + t == t;
    RunClose(LexState(tokens + [buf], t, Some('"'), false));
  }

  lemma RunOpen(st: LexState)
    requires st.buf != "" && st.quote == None && !st.escaped
    ensures LexRun(st, " \"") == LexState(st.tokens + [st.buf], "", Some('"'), false)
  {
    var st1 := LexStep(st, ' ');
    assert st1 == LexState(st.tokens + [st.buf], "", None, false);
    var st2 := LexStep(st1, '"');
    assert " \""[1..] == "\"" && "\""[1..] == "";
    assert LexRun(st1, "\"") == LexRun(st2, "");
  }

  lemma RunClose(st: LexState)
    requires st.quote == Some('"') && !st.escaped
    ensures LexRun(st, "\"") == st.(quote := None)
  {
    assert "\""[1..] == "";
  }

  lemma {:induction false} RunQuoted(tokens: seq<string>, buf: string, more: seq<string>)
    requires buf != "" && NoneEmpty(more)
    ensures Lexed(LexRun(LexState(tokens, buf, None, false), Quoted(more))) == Ok(tokens + [buf] + more)
    decreases |more|
  {
    hide LexRun, Escape;
    var st := LexState(tokens, buf, None, false);
    if more == [] {
      RunNothing(st);
      assert tokens + [buf] + more == tokens + [buf];
    } else {
      RunQuotedToken(tokens, buf, more[0]);
      RunConcat(st, " \"" + Escape('"', more[0]) + "\"", Quoted(more[1..]));
      RunQuoted(tokens + [buf], more[0], more[1..]);
      assert tokens + [buf] + [more[0]] + more[1..] == tokens + [buf] + more;
    }
  }

  lemma RunNothing(st: LexState)
    ensures LexRun(st, []) == st
  {
  }

  /** A written line lexes to its name and its tokens. */
  lemma LineLexes(c: Command)
    requires ValidName(c.name) && NoneEmpty(Tokens(c.items))
    ensures Lexed(LexRun(START, Line(c))) == Ok(["/" + c.name] + Tokens(c.items))
  {
    hide LexRun, Quoted, Tokens;
    var head := "/" + c.name;
    RunConcat(START, head, Quoted(Tokens(c.items)));
    RunPlain([], "", head);
    assert "" + head == head;
    RunQuoted([], head, Tokens(c.items));
    assert [] + [head] + Tokens(c.items) == [head] + Tokens(c.items);
  }

  lemma FlagTokenParses(lower: char -> char, key: string, value: string)
    requires WritableKey(lower, key)
    ensures ParseFlag("--" + key + "=" + value) == (key, value, true) && ParseFlag("--" + key) == (key, "", false)
  {
    hide TrimSpace, ToLower, Index;
    IndexOfChar(key, '=', value);
    var trimmed := key + "=" + value;
    assert ("--" + key + "=" + value)[2..] == trimmed && ("--" + key)[2..] == key;
    assert trimmed[..|key|] == key && trimmed[|key| + 1..] == value;
  }

  /** One item's tokens parse to what it means, whatever follows that may follow. */
  lemma FlagComesFirst(lower: char -> char, item: Item, rest: seq<string>, args: seq<string>,
      flags: map<string, string>)
    requires !item.Arg? && WritableItem(lower, item)
    requires item.Bare? && rest != [] ==> HasPrefix(rest[0], "-")
    ensures ParsedTokens(lower, TokensOf(item) + rest, args, flags)
         == ParsedTokens(lower, rest, args, flags[item.key := ValueOf(item)])
  {
    hide ParseFlag, Trimmed, TrimSpace;
    var tokens := TokensOf(item) + rest;
    FlagTokenParses(lower, item.key, if item.Bare? then "" else item.value);
    if item.Spaced? {
      assert tokens[2..] == rest && tokens[1] == item.value;
    } else {
      assert tokens[1..] == rest;
    }
  }

  lemma ArgComesFirst(lower: char -> char, item: Item, rest: seq<string>, args: seq<string>, flags: map<string, string>)
    requires item.Arg? && WritableItem(lower, item)
    ensures ParsedTokens(lower, TokensOf(item) + rest, args, flags)
         == ParsedTokens(lower, rest, args + [item.text], flags)
  {
    assert ([item.text] + rest)[1..] == rest;
  }

  lemma RestWritable(lower: char -> char, items: seq<Item>)
    requires WritableItems(lower, items) && items != []
    ensures WritableItems(lower, items[1..])
    ensures items[0].Bare? && Tokens(items[1..]) != [] ==> HasPrefix(Tokens(items[1..])[0], "-")
  {
    hide WritableItem;
    if |items| > 1 {
      assert items[1..][0] == items[1];
    }
  }

  /** The tokens of the items parse to their arguments and flags, in any interleaving. */
  lemma {:induction false} TokensParse(lower: char -> char, items: seq<Item>, args: seq<string>,
      flags: map<string, string>)
    requires WritableItems(lower, items)
    ensures ParsedTokens(lower, Tokens(items), args, flags) == Ok((args + ArgsOf(items), FlagsOf(items, flags)))
    ensures NoneEmpty(Tokens(items))
    decreases |items|
  {
    hide ParsedTokens, WritableItem, WritableItems, TokensOf, ValueOf, Tokens, ArgsOf, FlagsOf, NoneEmpty;
    if items == [] {
      NoItems(flags);
      NoTokensParse(lower, args, flags);
      assert args + [] == args;
    } else {
      RestWritable(lower, items);
      FirstWritable(lower, items);
      TokenNotEmpty(lower, items[0]);
      FirstItem(items, flags);
      if items[0].Arg? {
        ArgComesFirst(lower, items[0], Tokens(items[1..]), args, flags);
        TokensParse(lower, items[1..], args + [items[0].text], flags);
        assert args + [items[0].text] + ArgsOf(items[1..]) == args + ArgsOf(items);
      } else {
        FlagComesFirst(lower, items[0], Tokens(items[1..]), args, flags);
        TokensParse(lower, items[1..], args, flags[items[0].key := ValueOf(items[0])]);
      }
      NoneEmptyAdd(TokensOf(items[0]), Tokens(items[1..]));
    }
  }

  lemma NoneEmptyAdd(a: seq<string>, b: seq<string>)
    requires NoneEmpty(a) && NoneEmpty(b)
    ensures NoneEmpty(a + b)
  {
  }

  lemma NoItems(flags: map<string, string>)
    ensures Tokens([]) == [] && ArgsOf([]) == [] && FlagsOf([], flags) == flags && NoneEmpty(Tokens([]))
  {
  }

  lemma FirstItem(items: seq<Item>, flags: map<string, string>)
    requires items != []
    ensures Tokens(items) == TokensOf(items[0]) + Tokens(items[1..])
    ensures items[0].Arg? ==> ArgsOf(items) == [items[0].text] + ArgsOf(items[1..])
    ensures !items[0].Arg? ==> ArgsOf(items) == ArgsOf(items[1..])
    ensures var now := if items[0].Arg? then flags else flags[items[0].key := ValueOf(items[0])];
            FlagsOf(items, flags) == FlagsOf(items[1..], now)
  {
  }

  lemma FirstWritable(lower: char -> char, items: seq<Item>)
    requires WritableItems(lower, items) && items != []
    ensures WritableItem(lower, items[0])
  {
  }

  lemma NoTokensParse(lower: char -> char, args: seq<string>, flags: map<string, string>)
    ensures ParsedTokens(lower, [], args, flags) == Ok((args, flags))
  {
  }

  lemma TokenNotEmpty(lower: char -> char, item: Item)
    requires WritableItem(lower, item)
    ensures NoneEmpty(TokensOf(item))
  {
  }

  /** One line means its command. */
  lemma LineParses(lower: char -> char, c: Command, position: nat)
    requires LowersAscii(lower) && Writable(lower, c)
    ensures ParsedLine(lower, Line(c), position) == Ok(Meaning(c, position))
  {
    hide LexRun, Tokens, ParsedTokens, ArgsOf, FlagsOf, WritableItem, Line;
    TokensParse(lower, c.items, [], map[]);
    LineLexes(c);
    var tokens := ["/" + c.name] + Tokens(c.items);
    assert tokens[0][1..] == c.name && tokens[1..] == Tokens(c.items);
    assert ToLower(lower, c.name) == c.name;
    assert [] + ArgsOf(c.items) == ArgsOf(c.items);
  }

  lemma {:induction false} EscapeNoNewline(mark: char, s: string)
    requires NoNewline(s)
    ensures NoNewline(Escape(mark, s))
  {
    if s != [] {
      EscapeNoNewline(mark, s[1..]);
    }
  }

  lemma {:induction false} QuotedNoNewline(tokens: seq<string>)
    requires forall t :: t in tokens ==> NoNewline(t)
    ensures NoNewline(Quoted(tokens))
    ensures tokens != [] ==> Quoted(tokens) != [] && Quoted(tokens)[|Quoted(tokens)| - 1] == '"'
  {
    hide Escape;
    if tokens != [] {
      QuotedNoNewline(tokens[1..]);
      EscapeNoNewline('"', tokens[0]);
    }
  }

  lemma {:induction false} TokensNoNewline(lower: char -> char, items: seq<Item>)
    requires forall i :: 0 <= i < |items| ==> WritableItem(lower, items[i])
    ensures forall t :: t in Tokens(items) ==> NoNewline(t)
  {
    hide ToLower, Trimmed, HasPrefix;
    if items != [] {
      assert WritableItem(lower, items[0]);
      assert forall t :: t in TokensOf(items[0]) ==> NoNewline(t);
      TokensNoNewline(lower, items[1..]);
    }
  }

  /** A written line has no newline and nothing to trim, and is recognised as a command. */
  lemma LineStandsAlone(lower: char -> char, c: Command)
    requires Writable(lower, c)
    ensures NoNewline(Line(c)) && TrimSpace(Line(c)) == Line(c) && IsCommandLine(Line(c))
  {
    hide WritableItem, Quoted, Tokens, TrimSpace;
    TokensNoNewline(lower, c.items);
    QuotedNoNewline(Tokens(c.items));
    NameCharsPlain(c.name);
    var line := Line(c);
    if c.items == [] {
      NoTokensNothingQuoted();
      assert line == "/" + c.name;
    } else {
      SomeTokens(c.items);
      assert line[|line| - 1] == '"';
    }
    assert Trimmed(line);
  }

  lemma NameCharsPlain(name: string)
    requires ValidName(name)
    ensures NoNewline(name) && !IsSpace(name[|name| - 1])
  {
  }

  lemma NoTokensNothingQuoted()
    ensures Quoted(Tokens([])) == []
  {
  }

  lemma SomeTokens(items: seq<Item>)
    requires items != []
    ensures Tokens(items) != []
  {
  }

  lemma {:induction false} SplitFirstLine(line: string, s: string)
    requires NoNewline(line)
    ensures SplitLines(line + "\n" + s) == [line] + SplitLines(s)
    ensures SplitLines(line) == [line]
    decreases |line|
  {
    if line == [] {
      assert (line + "\n" + s)[1..] == s;
    } else {
      SplitFirstLine(line[1..], s);
      assert (line + "\n" + s)[1..] == line[1..] + "\n" + s;
      assert [line[0]] + line[1..] == line;
    }
  }

  function Lines(cs: seq<Command>): seq<string> {
    if cs == [] then [] else [Line(cs[0])] + Lines(cs[1..])
  }

  lemma {:induction false} WrittenSplits(cs: seq<Command>)
    requires cs != [] && forall i :: 0 <= i < |cs| ==> NoNewline(Line(cs[i]))
    ensures SplitLines(Written(cs)) == Lines(cs)
  {
    hide SplitLines, Line, NoNewline;
    assert NoNewline(Line(cs[0]));
    if |cs| == 1 {
      SplitFirstLine(Line(cs[0]), "");
      assert cs[1..] == [];
    } else {
      SplitFirstLine(Line(cs[0]), Written(cs[1..]));
      WrittenSplits(cs[1..]);
    }
  }

  lemma {:induction false} LinesParse(lower: char -> char, cs: seq<Command>, idx: nat)
    requires LowersAscii(lower) && forall i :: 0 <= i < |cs| ==> Writable(lower, cs[i])
    ensures ParsedLines(lower, Lines(cs), idx) == Ok(Meanings(cs, idx))
    decreases |cs|
  {
    hide ParsedLine, TrimSpace, Line, IsCommandLine, Meaning, Writable, LowersAscii;
    if cs != [] {
      assert Writable(lower, cs[0]);
      LineStandsAlone(lower, cs[0]);
      LineParses(lower, cs[0], idx + 1);
      LinesParse(lower, cs[1..], idx + 1);
      assert ([Line(cs[0])] + Lines(cs[1..]))[1..] == Lines(cs[1..]);
    }
  }

  /** The round trip: any non-empty list of writable commands, written down with quotes and escapes, parses
      back to the same names, arguments and flags in order, each at its line. */
  lemma WrittenParses(lower: char -> char, cs: seq<Command>)
    requires LowersAscii(lower) && forall i :: 0 <= i < |cs| ==> Writable(lower, cs[i])
    ensures Parsed(lower, Written(cs)) == if cs == [] then Err(NoCommand) else Ok(Meanings(cs, 0))
  {
    hide ParsedLine, Line, Writable, LowersAscii;
    if cs == [] {
      assert ParsedLines(lower, [""], 0) == Ok([]);
    } else {
      forall i | 0 <= i < |cs|
        ensures NoNewline(Line(cs[i]))
      {
        LineStandsAlone(lower, cs[i]);
      }
      WrittenSplits(cs);
      LinesParse(lower, cs, 0);
    }
  }

  // ----- every way to write a line -----

  // A character by itself, one behind a backslash, or text between quotes of either kind.
  datatype Piece = Plain(c: char) | Escaped(c: char) | InQuotes(mark: char, text: string)

  // White space, and the pieces of one token behind it.
  datatype Word = Word(gap: string, pieces: seq<Piece>)

  predicate PieceOk(p: Piece) {
    match p
    case Plain(c) => !IsSpace(c) && c != '\\' && !QuoteMark(c)
    case Escaped(_) => true
    case InQuotes(mark, _) => QuoteMark(mark)
  }

  function SpellPiece(p: Piece): string {
    match p
    case Plain(c) => [c]
    case Escaped(c) => ['\\', c]
    case InQuotes(mark, text) => [mark] + Escape(mark, text) + [mark]
  }

  function SayPiece(p: Piece): string {
    match p
    case Plain(c) => [c]
    case Escaped(c) => [c]
    case InQuotes(_, text) => text
  }

  function SpellPieces(pieces: seq<Piece>): string {
    if pieces == [] then "" else SpellPiece(pieces[0]) + SpellPieces(pieces[1..])
  }

  function SayPieces(pieces: seq<Piece>): string {
    if pieces == [] then "" else SayPiece(pieces[0]) + SayPieces(pieces[1..])
  }

  predicate WordsOk(ws: seq<Word>) {
    && (forall w :: w in ws ==> AllSpace(w.gap) && forall p :: p in w.pieces ==> PieceOk(p))
    && (forall i :: 0 < i < |ws| ==> ws[i].gap != "")
  }

  function Spell(ws: seq<Word>): string {
    if ws == [] then "" else ws[0].gap + SpellPieces(ws[0].pieces) + Spell(ws[1..])
  }

  /** The tokens the words stand for; a word that says nothing, like a pair of quotes, is none. */
  function Say(ws: seq<Word>): seq<string> {
    if ws == [] then []
    else (if SayPieces(ws[0].pieces) == "" then [] else [SayPieces(ws[0].pieces)]) + Say(ws[1..])
  }

  lemma {:induction false} RunGap(tokens: seq<string>, buf: string, gap: string)
    requires AllSpace(gap) && (gap != "" || buf == "")
    ensures LexRun(LexState(tokens, buf, None, false), gap) == LexState(Emitted(tokens, buf), "", None, false)
    decreases |gap|
  {
    if gap != "" {
      SpaceIsNoMark(gap[0]);
      RunGap(Emitted(tokens, buf), "", gap[1..]);
    }
  }

  lemma SpaceIsNoMark(c: char)
    requires IsSpace(c)
    ensures c != '\\' && !QuoteMark(c)
  {
  }

  lemma RunPiece(tokens: seq<string>, buf: string, p: Piece)
    requires PieceOk(p)
    ensures LexRun(LexState(tokens, buf, None, false), SpellPiece(p))
         == LexState(tokens, buf + SayPiece(p), None, false)
  {
    hide IsSpace;
    var st := LexState(tokens, buf, None, false);
    match p {
      case Plain(c) =>
        RunOne(st, c);
      case Escaped(c) =>
        RunBackslash(st, c);
      case InQuotes(mark, text) =>
        var open := LexState(tokens, buf, Some(mark), false);
        RunOne(st, mark);
        RunConcat(st, [mark] + Escape(mark, text), [mark]);
        RunConcat(st, [mark], Escape(mark, text));
        RunEscaped(tokens, buf, mark, text);
        RunOne(open.(buf := buf + text), mark);
    }
  }

  lemma RunOne(st: LexState, c: char)
    ensures LexRun(st, [c]) == LexStep(st, c)
  {
    hide LexStep;
    assert [c][1..] == [];
    RunNothing(LexStep(st, c));
  }

  lemma {:induction false} RunPieces(tokens: seq<string>, buf: string, pieces: seq<Piece>)
    requires forall p :: p in pieces ==> PieceOk(p)
    ensures LexRun(LexState(tokens, buf, None, false), SpellPieces(pieces))
         == LexState(tokens, buf + SayPieces(pieces), None, false)
    decreases |pieces|
  {
    hide LexRun, SpellPiece, SayPiece, PieceOk;
    var st := LexState(tokens, buf, None, false);
    if pieces == [] {
      RunNothing(st);
      assert buf + "" == buf;
    } else {
      RunPiece(tokens, buf, pieces[0]);
      RunConcat(st, SpellPiece(pieces[0]), SpellPieces(pieces[1..]));
      RunPieces(tokens, buf + SayPiece(pieces[0]), pieces[1..]);
      assert buf + SayPiece(pieces[0]) + SayPieces(pieces[1..]) == buf + SayPieces(pieces);
    }
  }

  /** What is emitted and pending after the words is what they say, behind what was there. */
  lemma {:induction false} RunWords(tokens: seq<string>, buf: string, ws: seq<Word>) returns (st: LexState)
    requires WordsOk(ws) && (ws != [] ==> ws[0].gap != "" || buf == "")
    ensures st == LexRun(LexState(tokens, buf, None, false), Spell(ws))
    ensures st.quote.None? && !st.escaped && Emitted(st.tokens, st.buf) == Emitted(tokens, buf) + Say(ws)
    decreases |ws|
  {
    hide LexRun, SpellPieces, SayPieces, PieceOk, IsSpace;
    var start := LexState(tokens, buf, None, false);
    if ws == [] {
      RunNothing(start);
      st := start;
      assert Emitted(tokens, buf) + [] == Emitted(tokens, buf);
    } else {
      var w := ws[0];
      assert w in ws;
      RunGap(tokens, buf, w.gap);
      RunPieces(Emitted(tokens, buf), "", w.pieces);
      assert "" + SayPieces(w.pieces) == SayPieces(w.pieces);
      RunConcat(start, w.gap, SpellPieces(w.pieces));
      RunConcat(start, w.gap + SpellPieces(w.pieces), Spell(ws[1..]));
      st := RunWords(Emitted(tokens, buf), SayPieces(w.pieces), ws[1..]);
      WordSaid(Emitted(tokens, buf), SayPieces(w.pieces), Say(ws[1..]));
    }
  }

  lemma WordSaid(tokens: seq<string>, said: string, more: seq<string>)
    ensures Emitted(tokens, said) + more == tokens + ((if said == "" then [] else [said]) + more)
  {
  }

  /** However a line is spaced, quoted and escaped, it lexes to what its words say. */
  lemma SpelledLexes(ws: seq<Word>, tail: string)
    requires WordsOk(ws) && AllSpace(tail)
    ensures Lexed(LexRun(START, Spell(ws) + tail)) == Ok(Say(ws))
  {
    hide LexRun, WordsOk, IsSpace, AllSpace;
    var st := RunWords([], "", ws);
    RunConcat(START, Spell(ws), tail);
    assert [] + Say(ws) == Say(ws);
    if tail == "" {
      RunNothing(st);
    } else {
      RunGap(st.tokens, st.buf, tail);
    }
  }

  /** A backslash with nothing behind it, and a quote that is not closed, are the two lexing errors. */
  lemma CutShortIsRefused(ws: seq<Word>, tail: string, mark: char, text: string)
    requires WordsOk(ws) && AllSpace(tail) && QuoteMark(mark)
    ensures Lexed(LexRun(START, Spell(ws) + tail + "\\")) == Err(DanglingEscape)
    ensures Lexed(LexRun(START, Spell(ws) + tail + ([mark] + Escape(mark, text)))) == Err(UnclosedQuote)
  {
    hide LexRun, WordsOk, IsSpace, AllSpace;
    var st := RunWords([], "", ws);
    RunConcat(START, Spell(ws), tail);
    if tail == "" {
      RunNothing(st);
    } else {
      RunGap(st.tokens, st.buf, tail);
    }
    var st1 := LexRun(START, Spell(ws) + tail);
    RunConcat(START, Spell(ws) + tail, "\\");
    RunOne(st1, '\\');
    RunConcat(START, Spell(ws) + tail, [mark] + Escape(mark, text));
    RunConcat(st1, [mark], Escape(mark, text));
    RunOne(st1, mark);
    RunEscaped(st1.tokens, st1.buf, mark, text);
  }

  /** So a command is understood however its line is written. */
  lemma SpelledLineParses(lower: char -> char, c: Command, ws: seq<Word>, tail: string, position: nat)
    requires LowersAscii(lower) && Writable(lower, c) && WordsOk(ws) && AllSpace(tail)
    requires Say(ws) == ["/" + c.name] + Tokens(c.items)
    ensures ParsedLine(lower, Spell(ws) + tail, position) == Ok(Meaning(c, position).(raw := Spell(ws) + tail))
  {
    hide LexRun, Tokens, ParsedTokens, ArgsOf, FlagsOf, WritableItem, WordsOk, AllSpace;
    TokensParse(lower, c.items, [], map[]);
    SpelledLexes(ws, tail);
    var tokens := Say(ws);
    assert tokens[0][1..] == c.name && tokens[1..] == Tokens(c.items);
    assert ToLower(lower, c.name) == c.name;
    assert [] + ArgsOf(c.items) == ArgsOf(c.items);
  }

  // ----- case and white space -----

  /** Command names are the same in any case: two lines that differ in nothing else stand for one command, or are both
      refused. */
  lemma NameCaseIgnored(lower: char -> char, line: string, line': string, name: string, name': string,
      more: seq<string>, position: nat)
    requires Lexed(LexRun(START, line)) == Ok(["/" + name] + more)
    requires Lexed(LexRun(START, line')) == Ok(["/" + name'] + more)
    requires ToLower(lower, name) == ToLower(lower, name')
    ensures var r, r' := ParsedLine(lower, line, position), ParsedLine(lower, line', position);
            && (r.Ok? <==> r'.Ok?)
            && (r.Ok? ==> r'.value == r.value.(raw := line') && r.value.name == ToLower(lower, name))
  {
    hide LexRun, ValidName, ParsedTokens, ToLower;
    assert ("/" + name)[1..] == name && ("/" + name')[1..] == name';
    assert (["/" + name] + more)[1..] == more && (["/" + name'] + more)[1..] == more;
  }

  /** A flag's key is trimmed and taken in lower case; its value stands behind the first equals sign, or is the next
      token unless that begins with a dash, and an empty or missing value is true. */
  lemma FlagMeans(lower: char -> char, a: string, key: string, b: string, value: string, rest: seq<string>,
      args: seq<string>, flags: map<string, string>)
    requires AllSpace(a) && AllSpace(b) && key != "" && Trimmed(key) && '=' !in key
    ensures ParsedTokens(lower, ["--" + (a + key + b) + "=" + value] + rest, args, flags) ==
            ParsedTokens(lower, rest, args, flags[ToLower(lower, key) := if value == "" then "true" else value])
    ensures ParsedTokens(lower, ["--" + (a + key + b)] + rest, args, flags) ==
            if rest != [] && !HasPrefix(rest[0], "-") then
              ParsedTokens(lower, rest[1..], args,
                           flags[ToLower(lower, key) := if rest[0] == "" then "true" else rest[0]])
            else ParsedTokens(lower, rest, args, flags[ToLower(lower, key) := "true"])
  {
    hide AllSpace, TrimSpace, Trimmed, IsSpace, ToLower, ParseFlag;
    NoEquals(a, key, b);
    TrimSpaceMeans(a, key, b);
    FlagCut(a + key + b, value);
    var bare, full := ["--" + (a + key + b)] + rest, ["--" + (a + key + b) + "=" + value] + rest;
    assert bare[1..] == rest && full[1..] == rest && (rest != [] ==> bare[1] == rest[0] && bare[2..] == rest[1..]);
    assert |ToLower(lower, key)| == |key|;
  }

  lemma FlagCut(padded: string, value: string)
    requires '=' !in padded
    ensures ParseFlag("--" + padded + "=" + value) == (TrimSpace(padded), value, true)
    ensures ParseFlag("--" + padded) == (TrimSpace(padded), "", false)
  {
    hide TrimSpace, Index;
    IndexOfChar(padded, '=', value);
    CutFlag(padded, value);
  }

  lemma NoEquals(a: string, key: string, b: string)
    requires AllSpace(a) && AllSpace(b) && '=' !in key
    ensures '=' !in a + key + b
  {
    assert !IsSpace('=');
  }

  lemma CutFlag(padded: string, value: string)
    ensures var trimmed := ("--" + padded + "=" + value)[2..];
            trimmed == padded + "=" + value && trimmed[..|padded|] == padded && trimmed[|padded| + 1..] == value
    ensures ("--" + padded)[2..] == padded
  {
  }

  // ----- what is refused -----

  /** A name is made of the ASCII letters a to z, the digits, the dash (45) and the underscore (95). */
  lemma ValidNameMeans(name: string)
    ensures ValidName(name) <==>
              name != "" && forall i :: 0 <= i < |name| ==>
                var u := name[i] as int; 97 <= u <= 122 || 48 <= u <= 57 || u == 45 || u == 95
  {
    forall i | 0 <= i < |name|
      ensures var u := name[i] as int; NameChar(name[i]) <==> 97 <= u <= 122 || 48 <= u <= 57 || u == 45 || u == 95
    {
    }
  }

  /** A flag without a key is refused, whatever came before it. */
  lemma {:induction false} BlankFlagIsRefused(lower: char -> char, items: seq<Item>, blank: string,
      value: Option<string>, more: seq<string>, args: seq<string>, flags: map<string, string>)
    requires WritableItems(lower, items) && AllSpace(blank)
    ensures var token := "--" + blank + if value.Some? then "=" + value.value else "";
            ParsedTokens(lower, Tokens(items) + ([token] + more), args, flags) == Err(InvalidFlag(token))
    decreases |items|
  {
    hide ParsedTokens, WritableItem, WritableItems, TokensOf, ValueOf, AllSpace;
    var token := "--" + blank + if value.Some? then "=" + value.value else "";
    var rest := [token] + more;
    if items == [] {
      assert Tokens(items) + rest == rest;
      BlankKey(lower, blank, value);
      RefusedAtOnce(lower, token, more, args, flags);
    } else {
      RestWritable(lower, items);
      FirstWritable(lower, items);
      var behind := Tokens(items[1..]) + rest;
      assert Tokens(items) + rest == TokensOf(items[0]) + behind;
      assert |items| == 1 ==> items[1..] == [];
      NoItems(flags);
      if items[0].Arg? {
        ArgComesFirst(lower, items[0], behind, args, flags);
        BlankFlagIsRefused(lower, items[1..], blank, value, more, args + [items[0].text], flags);
      } else {
        assert HasPrefix(token, "-");
        FlagComesFirst(lower, items[0], behind, args, flags);
        BlankFlagIsRefused(lower, items[1..], blank, value, more, args, flags[items[0].key := ValueOf(items[0])]);
      }
    }
  }

  lemma BlankKey(lower: char -> char, blank: string, value: Option<string>)
    requires AllSpace(blank)
    ensures var token := "--" + blank + if value.Some? then "=" + value.value else "";
            HasPrefix(token, "--") && ParseFlag(token).0 == ""
  {
    hide TrimLeft, TrimRight, IsSpace, Index;
    var token := "--" + blank + if value.Some? then "=" + value.value else "";
    BlankHasNoEquals(blank);
    TrimAllSpace(blank);
    RightOfNothing();
    if value.Some? {
      IndexOfChar(blank, '=', value.value);
      assert token[2..] == blank + "=" + value.value;
      assert token[2..][..|blank|] == blank;
    } else {
      IndexOfChar(blank, '=', "");
      assert token[2..] == blank;
    }
  }

  lemma RightOfNothing()
    ensures TrimRight("") == ""
  {
  }

  lemma BlankHasNoEquals(blank: string)
    requires AllSpace(blank)
    ensures '=' !in blank
  {
  }

  lemma RefusedAtOnce(lower: char -> char, token: string, more: seq<string>, args: seq<string>,
      flags: map<string, string>)
    requires HasPrefix(token, "--") && ParseFlag(token).0 == ""
    ensures ParsedTokens(lower, [token] + more, args, flags) == Err(InvalidFlag(token))
  {
    hide ParseFlag;
  }

  ghost predicate EachParses(lower: char -> char, at: seq<(nat, string)>) {
    forall i :: 0 <= i < |at| ==> ParsedLine(lower, at[i].1, at[i].0).Ok?
  }

  lemma EachParsesCons(lower: char -> char, first: (nat, string), later: seq<(nat, string)>)
    ensures EachParses(lower, [first] + later) <==> ParsedLine(lower, first.1, first.0).Ok? && EachParses(lower, later)
  {
    hide ParsedLine;
    var at := [first] + later;
    assert at[0] == first && forall i :: 0 <= i < |later| ==> later[i] == at[i + 1];
  }

  /** An input is accepted when every command line parses, and stands for what they parse to. */
  lemma {:induction false} AcceptedMeans(lower: char -> char, lines: seq<string>, idx: nat)
    ensures var r, at := ParsedLines(lower, lines, idx), CommandLines(lines, idx);
            && (r.Ok? <==> EachParses(lower, at))
            && (r.Ok? ==> |r.value| == |at| &&
                          forall i :: 0 <= i < |at| ==> ParsedLine(lower, at[i].1, at[i].0) == Ok(r.value[i]))
    decreases |lines|
  {
    hide ParsedLine, TrimSpace, HasPrefix, EachParses;
    if lines == [] {
      NothingParses(lower);
    } else {
      AcceptedMeans(lower, lines[1..], idx + 1);
      var later := CommandLines(lines[1..], idx + 1);
      if IsCommandLine(lines[0]) {
        EachParsesCons(lower, (idx + 1, TrimSpace(lines[0])), later);
      } else {
        assert CommandLines(lines, idx) == later;
      }
    }
  }

  lemma NothingParses(lower: char -> char)
    ensures EachParses(lower, [])
  {
  }

  /** An input that is refused for a line is refused for the first command line that does not parse. */
  lemma {:induction false} FirstErrorIsReported(lower: char -> char, lines: seq<string>, idx: nat) returns (i: nat)
    requires ParsedLines(lower, lines, idx).Err?
    ensures var at := CommandLines(lines, idx);
            && i < |at| && ParsedLine(lower, at[i].1, at[i].0).Err?
            && ParsedLines(lower, lines, idx).error == AtLine(at[i].0, ParsedLine(lower, at[i].1, at[i].0).error)
            && forall j :: 0 <= j < i ==> ParsedLine(lower, at[j].1, at[j].0).Ok?
    decreases |lines|
  {
    hide ParsedLine, TrimSpace, HasPrefix;
    var at, later := CommandLines(lines, idx), CommandLines(lines[1..], idx + 1);
    if IsCommandLine(lines[0]) {
      assert at[0] == (idx + 1, TrimSpace(lines[0])) && at[1..] == later;
      if ParsedLine(lower, at[0].1, at[0].0).Err? {
        i := 0;
      } else {
        var k := FirstErrorIsReported(lower, lines[1..], idx + 1);
        i := k + 1;
        assert forall j :: 0 < j < |at| ==> at[j] == later[j - 1];
      }
    } else {
      assert at == later;
      i := FirstErrorIsReported(lower, lines[1..], idx + 1);
    }
  }
}
