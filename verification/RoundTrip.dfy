// Printing a configuration tree and reading it back.
module RoundTrip {
  import opened Common
  import opened Lexer
  import opened LexerProps
  import opened Printer
  import opened Dispenser
  import opened Lost

  // ---------------------------------------------------------------- which trees

  // A word without white space or a comment sign.
  predicate Plain(s: string)
  {
    s != "" && forall i :: 0 <= i < |s| ==> !IsSpace(s[i]) && s[i] != '#'
  }

  // The string survives printing and lexing.
  ghost predicate Lexable(s: string)
  {
    if NeedsQuotes(s) then EvenRuns(s) else Plain(s)
  }

  // Strings are lexable and do not look like an opening brace; a block is the last value.
  ghost predicate GoodValues(vs: seq<Value>)
    decreases vs, 1
  {
    vs == [] ||
    match vs[0]
    case Str(s) => Lexable(s) && s != "{" && GoodValues(vs[1..])
    case Block(lines) => |vs| == 1 && GoodLines(lines)
  }

  // A line starts with a string that does not look like a closing brace.
  ghost predicate GoodLines(lines: seq<Line>)
    decreases lines, 1
  {
    lines == [] || (
      var vs := lines[0].values;
      vs != [] && vs[0].Str? && Lexable(vs[0].text) && vs[0].text != "}" && GoodValues(vs[1..]) &&
        GoodLines(lines[1..]))
  }

  // ---------------------------------------------------------------- the tokens of a tree

  // The line on which the values end, and the line after the last of the lines.
  function EndOfValues(vs: seq<Value>, n: nat): nat
    decreases vs, 1
  {
    if vs == [] then n else
    EndOfValues(vs[1..], match vs[0] case Str(s) => n + Breaks(s) case Block(lines) => EndOfLines(lines, n + 1))
  }

  function EndOfLines(lines: seq<Line>, n: nat): nat
    decreases lines, 1
  {
    if lines == [] then n else EndOfLines(lines[1..], EndOfValues(lines[0].values, n) + 1)
  }

  function TokensOfValues(vs: seq<Value>, n: nat): seq<Token>
    decreases vs, 1
  {
    if vs == [] then [] else
    match vs[0]
    case Str(s) => [Token(n, s)] + TokensOfValues(vs[1..], n + Breaks(s))
    case Block(lines) =>
      var m := EndOfLines(lines, n + 1);
      [Token(n, "{")] + TokensOfLines(lines, n + 1) + [Token(m, "}")] + TokensOfValues(vs[1..], m)
  }

  function TokensOfLines(lines: seq<Line>, n: nat): seq<Token>
    decreases lines, 1
  {
    if lines == [] then [] else
    TokensOfValues(lines[0].values, n) + TokensOfLines(lines[1..], EndOfValues(lines[0].values, n) + 1)
  }

  // ---------------------------------------------------------------- lexing words and white space

  lemma {:induction false} SkipTabs(k: nat, r: string, n: nat)
    ensures Tokens(Tabs(k) + r, n) == Tokens(r, n)
  {
    if k == 0 {
      assert Tabs(0) + r == r;
    } else {
      SkipTabs(k - 1, r, n);
      assert Tabs(k) + r == ['\t'] + (Tabs(k - 1) + r);
      SkipSpace('\t', Tabs(k - 1) + r, n);
    }
  }

  lemma {:induction false} NoReturns(s: string)
    requires forall i :: 0 <= i < |s| ==> s[i] != '\r'
    ensures WithoutReturns(s) == s
    decreases |s|
  {
    if s != "" { NoReturns(s[1..]); }
  }

  // A word is one token, and the white space after it is still to come.
  lemma WordTokens(s: string, r: string, n: nat)
    requires Plain(s) && s[0] != '\"' && Ends(r)
    ensures Tokens(s + r, n) == [Token(n, s)] + Tokens(r, n)
  {
    NoReturns(s);
    WordRule(s, r, n);
  }

  /** A lexable string is one token; the line moves by the line breaks in it. */
  lemma StringTokens(s: string, r: string, n: nat)
    requires Lexable(s) && Ends(r)
    ensures Tokens(PrintString(s) + r, n) == [Token(n, s)] + Tokens(r, n + Breaks(s))
  {
    if NeedsQuotes(s) {
      QuotingRoundTripIff(s, r, n);
    } else {
      WordTokens(s, r, n);
      NoBreaks(s);
    }
  }

  lemma {:induction false} NoBreaks(s: string)
    requires !NeedsQuotes(s)
    ensures Breaks(s) == 0
    decreases |s|
  {
    if s != "" {
      assert s[0] != '\n';
      assert forall i :: 0 <= i < |s[1..]| ==> s[1..][i] == s[i + 1];
      NoBreaks(s[1..]);
    }
  }

  // Without quotes in the input, tokens are words.
  lemma {:induction false} WordsArePlain(input: string, p: Partial)
    requires !p.quoted && '\"' !in input && (p.val == "" || Plain(p.val))
    ensures Scan(input, p).Some? ==> Plain(Scan(input, p).value.token.text)
    decreases |input|
  {
    if input != "" {
      var ch, rest := input[0], input[1..];
      WordsArePlain(rest, if IsSpace(ch) then OverSpace(p, ch) else Outside(p, ch));
    }
  }

  /** A string is printed and lexed back to itself exactly if it is lexable: printed in quotes, when
      every run of backslashes before a quote or the end is even; printed bare, when it is not empty
      and holds neither white space nor a comment sign. */
  lemma StringRoundTripIff(s: string, n: nat)
    ensures Tokens(PrintString(s), n) == [Token(n, s)] <==> Lexable(s)
  {
    assert PrintString(s) + "" == PrintString(s);
    if Lexable(s) {
      StringTokens(s, "", n);
      assert Tokens("", n + Breaks(s)) == [];
    }
    if Tokens(PrintString(s), n) == [Token(n, s)] {
      assert Tokens(PrintString(s), n)[0] == Scan(PrintString(s), Fresh(n)).value.token;
      if NeedsQuotes(s) { QuotingRoundTripIff(s, "", n); } else { WordsArePlain(s, Fresh(n)); }
    }
  }

  // ---------------------------------------------------------------- lexing lines and blocks

  // What is lexed first: these tokens, and then what comes of r from line m on.
  ghost predicate LexesTo(text: string, n: nat, tokens: seq<Token>, r: string, m: nat)
  {
    Tokens(text + r, n) == tokens + Tokens(r, m)
  }

  // One text after the other.
  lemma LexesSeq(a: string, b: string, n: nat, ta: seq<Token>, m: nat, tb: seq<Token>, r: string, k: nat)
    requires LexesTo(a, n, ta, b + r, m) && LexesTo(b, m, tb, r, k)
    ensures LexesTo(a + b, n, ta + tb, r, k)
  {
    hide Tokens;
    assert (a + b) + r == a + (b + r);
    assert ta + (tb + Tokens(r, k)) == (ta + tb) + Tokens(r, k);
  }

  lemma LexesSpace(ch: char, r: string, n: nat)
    requires ch == ' ' || ch == '\t' || ch == '\n'
    ensures LexesTo([ch], n, [], r, if ch == '\n' then n + 1 else n)
  {
    SkipSpace(ch, r, n);
  }

  lemma LexesNothing(r: string, n: nat)
    ensures LexesTo("", n, [], r, n)
  {
    assert "" + r == r;
  }

  // Lexable on its own, whatever brace it looks like.
  ghost predicate LexableValues(vs: seq<Value>)
  {
    vs == [] || (if vs[0].Str? then Lexable(vs[0].text) && GoodValues(vs[1..]) else GoodValues(vs))
  }

  lemma {:induction false} ValuesLex(vs: seq<Value>, depth: nat, r: string, n: nat)
    requires LexableValues(vs) && (r == "" || r[0] == '\n')
    ensures LexesTo(PrintValues(vs, depth), n, TokensOfValues(vs, n), r, EndOfValues(vs, n))
    decreases vs, 1
  {
    hide LexesTo, PrintString, Lexable;
    if vs == [] {
      LexesNothing(r, n);
    } else {
      match vs[0]
      case Str(s) =>
        var sep, rest := if |vs| > 1 then " " else "", PrintValues(vs[1..], depth);
        var m := n + Breaks(s);
        assert rest + r == r || |vs| > 1;
        assert LexesTo(PrintString(s), n, [Token(n, s)], sep + (rest + r), m)
          by { StringLexes(s, sep + (rest + r), n); }
        assert LexesTo(sep, m, [], rest + r, m) by {
          if |vs| > 1 { LexesSpace(' ', rest + r, m); } else { LexesNothing(rest + r, m); }
        }
        LexesSeq(PrintString(s), sep, n, [Token(n, s)], m, [], rest + r, m);
        ValuesLex(vs[1..], depth, r, m);
        LexesSeq(PrintString(s) + sep, rest, n, [Token(n, s)] + [], m, TokensOfValues(vs[1..], m), r, EndOfValues(vs,
          n));
        assert [Token(n, s)] + [] == [Token(n, s)];
      case Block(lines) =>
        BlockLex(lines, depth, r, n);
        assert vs[1..] == [];
        assert PrintValue(vs[0], depth) + "" + "" == PrintValue(vs[0], depth);
        var m := EndOfLines(lines, n + 1);
        var ts := [Token(n, "{")] + TokensOfLines(lines, n + 1) + [Token(m, "}")];
        assert ts + [] == ts;
    }
  }

  lemma StringLexes(s: string, r: string, n: nat)
    requires Lexable(s) && Ends(r)
    ensures LexesTo(PrintString(s), n, [Token(n, s)], r, n + Breaks(s))
  {
    StringTokens(s, r, n);
  }

  lemma BraceLexes(brace: string, r: string, n: nat)
    requires (brace == "{" || brace == "}") && Ends(r)
    ensures LexesTo(brace, n, [Token(n, brace)], r, n)
  {
    WordTokens(brace, r, n);
  }

  lemma {:induction false} BlockLex(lines: seq<Line>, depth: nat, r: string, n: nat)
    requires GoodLines(lines) && Ends(r)
    ensures var m := EndOfLines(lines, n + 1);
      LexesTo(PrintValue(Block(lines), depth), n, [Token(n, "{")] + TokensOfLines(lines, n + 1) + [Token(m, "}")], r, m)
    decreases lines, 2
  {
    hide LexesTo;
    var m := EndOfLines(lines, n + 1);
    var tabs := Tabs(if depth > 0 then depth - 1 else 0);
    var body, ts := PrintLines(lines, depth), TokensOfLines(lines, n + 1);
    var r3 := "}" + r;
    var r2 := tabs + r3;
    var r1 := body + r2;
    BraceLexes("{", "\n" + r1, n);
    LexesSpace('\n', r1, n);
    LexesSeq("{", "\n", n, [Token(n, "{")], n, [], r1, n + 1);
    LinesLex(lines, depth, r2, n + 1);
    assert "{" + "\n" == "{\n" && [Token(n, "{")] + [] == [Token(n, "{")];
    LexesSeq("{\n", body, n, [Token(n, "{")], n + 1, ts, r2, m);
    assert LexesTo(tabs, m, [], r3, m) by { TabsLex(if depth > 0 then depth - 1 else 0, r3, m); }
    LexesSeq("{\n" + body, tabs, n, [Token(n, "{")] + ts, m, [], r3, m);
    assert [Token(n, "{")] + ts + [] == [Token(n, "{")] + ts;
    BraceLexes("}", r, m);
    LexesSeq("{\n" + body + tabs, "}", n, [Token(n, "{")] + ts, m, [Token(m, "}")], r, m);
  }

  lemma TabsLex(k: nat, r: string, n: nat)
    ensures LexesTo(Tabs(k), n, [], r, n)
  {
    SkipTabs(k, r, n);
  }

  lemma {:induction false} LinesLex(lines: seq<Line>, depth: nat, r: string, n: nat)
    requires GoodLines(lines)
    ensures LexesTo(PrintLines(lines, depth), n, TokensOfLines(lines, n), r, EndOfLines(lines, n))
    decreases lines, 1
  {
    hide LexesTo, Lexable;
    if lines == [] {
      LexesNothing(r, n);
    } else {
      var vs := lines[0].values;
      var tabs, values, rest := Tabs(depth), PrintValues(vs, depth + 1), PrintLines(lines[1..], depth);
      var m, ts := EndOfValues(vs, n), TokensOfValues(vs, n);
      var r2 := rest + r;
      var r1 := "\n" + r2;
      TabsLex(depth, values + r1, n);
      ValuesLex(vs, depth + 1, r1, n);
      LexesSeq(tabs, values, n, [], n, ts, r1, m);
      assert [] + ts == ts;
      LexesSpace('\n', r2, m);
      LexesSeq(tabs + values, "\n", n, ts, m, [], r2, m + 1);
      assert ts + [] == ts;
      LinesLex(lines[1..], depth, r, m + 1);
      LexesSeq(tabs + values + "\n", rest, n, ts, m + 1, TokensOfLines(lines[1..], m + 1), r, EndOfLines(lines, n));
    }
  }

  // ---------------------------------------------------------------- building the tree again

  // The line on which a token ends.
  function EndOf(t: Token): nat { t.line + Breaks(t.text) }

  // The tokens left start on a later line.
  predicate Later(rest: seq<Token>, n: nat)
  {
    rest == [] || rest[0].line > n
  }

  lemma ArgsOfString(cur: Token, s: string, tokens: seq<Token>)
    requires s != "{" && cur.file == ""
    ensures var t := Token(EndOf(cur), s); BuildArgs(cur, [t] + tokens) == Then([Str(s)], BuildArgs(t, tokens))
  {
    assert ([Token(EndOf(cur), s)] + tokens)[1..] == tokens;
  }

  lemma ArgsOfBlock(cur: Token, tokens: seq<Token>)
    requires cur.file == ""
    ensures var t := Token(EndOf(cur), "{");
      var b := BuildBlock(t, tokens);
      BuildArgs(cur, [t] + tokens) == Then([Block(b.lines)], BuildArgs(b.last, b.rest))
  {
    assert ([Token(EndOf(cur), "{")] + tokens)[1..] == tokens;
  }

  lemma NoMoreArgs(cur: Token, rest: seq<Token>)
    requires Later(rest, EndOf(cur))
    ensures BuildArgs(cur, rest) == Args([], cur, rest)
  {
  }

  lemma BlockOfLine(cur: Token, t: Token, tokens: seq<Token>)
    requires t.text != "}"
    ensures var a := BuildArgs(t, tokens);
      BuildBlock(cur, [t] + tokens) == Before([Line([Str(t.text)] + a.values)], BuildBlock(a.last, a.rest))
  {
    assert ([t] + tokens)[1..] == tokens;
  }

  lemma BlockCloses(cur: Token, m: nat, rest: seq<Token>)
    ensures BuildBlock(cur, [Token(m, "}")] + rest) == Lines([], Token(m, "}"), rest)
    ensures Breaks("}") == 0 && Breaks("{") == 0
  {
    assert ([Token(m, "}")] + rest)[1..] == rest;
  }

  // With tokens left, the current one does not matter.
  lemma CurrentIrrelevant(c: Token, d: Token, rest: seq<Token>)
    requires rest != []
    ensures BuildBlock(c, rest) == BuildBlock(d, rest)
  {
  }

  // The values of a line come back as its arguments.
  lemma {:induction false} ArgsBack(vs: seq<Value>, cur: Token, rest: seq<Token>)
    requires GoodValues(vs) && Later(rest, EndOfValues(vs, EndOf(cur))) && cur.file == ""
    ensures var a := BuildArgs(cur, TokensOfValues(vs, EndOf(cur)) + rest);
      a.values == vs && a.rest == rest && EndOf(a.last) == EndOfValues(vs, EndOf(cur))
    decreases vs, 1
  {
    hide Lexable, BuildArgs, BuildBlock;
    var n := EndOf(cur);
    if vs == [] {
      assert TokensOfValues(vs, n) + rest == rest;
      NoMoreArgs(cur, rest);
    } else {
      match vs[0]
      case Str(s) =>
        var t := Token(n, s);
        var more := TokensOfValues(vs[1..], EndOf(t)) + rest;
        assert TokensOfValues(vs, n) + rest == [t] + more;
        ArgsOfString(cur, s, more);
        ArgsBack(vs[1..], t, rest);
        assert vs == [vs[0]] + vs[1..];
      case Block(lines) =>
        BlockBack(vs, lines, cur, rest);
    }
  }

  lemma {:induction false} BlockBack(vs: seq<Value>, lines: seq<Line>, cur: Token, rest: seq<Token>)
    requires vs == [Block(lines)] && GoodLines(lines) && Later(rest, EndOfValues(vs, EndOf(cur))) && cur.file == ""
    ensures var a := BuildArgs(cur, TokensOfValues(vs, EndOf(cur)) + rest);
      a.values == vs && a.rest == rest && EndOf(a.last) == EndOfValues(vs, EndOf(cur))
    decreases lines, 2
  {
    hide BuildArgs, BuildBlock, GoodLines, TokensOfLines, EndOfLines;
    var n := EndOf(cur);
    var t, m := Token(n, "{"), EndOfLines(lines, n + 1);
    var close := Token(m, "}");
    assert vs[1..] == [];
    var more := TokensOfLines(lines, n + 1) + ([close] + rest);
    assert TokensOfValues(vs, n) + rest == [t] + more;
    ArgsOfBlock(cur, more);
    LinesBack(lines, t, n + 1, [close] + rest);
    BlockCloses(t, m, rest);
    NoMoreArgs(close, rest);
    assert lines + [] == lines && [Block(lines)] + [] == vs;
  }

  // The tokens of the first line, of the lines after it and of what follows.
  lemma LineTokens(lines: seq<Line>, n: nat, rest: seq<Token>)
    requires lines != [] && lines[0].values != [] && lines[0].values[0].Str?
    ensures var vs := lines[0].values;
      var t, m := Token(n, vs[0].text), EndOfValues(vs, n);
      && TokensOfLines(lines, n) + rest ==
         [t] + (TokensOfValues(vs[1..], EndOf(t)) + (TokensOfLines(lines[1..], m + 1) + rest))
      && m == EndOfValues(vs[1..], EndOf(t)) && EndOfLines(lines, n) == EndOfLines(lines[1..], m + 1)
  {
    hide Breaks;
    var vs := lines[0].values;
    var t, m := Token(n, vs[0].text), EndOfValues(vs, n);
    var a, b := TokensOfValues(vs[1..], EndOf(t)), TokensOfLines(lines[1..], m + 1);
    assert TokensOfLines(lines, n) == ([t] + a) + b;
    hide *;
    Associate([t] + a, b, rest);
    Associate([t], a, b + rest);
  }

  // The lines of a block come back, and then what comes of the tokens after them.
  lemma {:induction false} LinesBack(lines: seq<Line>, cur: Token, n: nat, rest: seq<Token>)
    requires GoodLines(lines) && rest != [] && rest[0].line >= EndOfLines(lines, n)
    ensures BuildBlock(cur, TokensOfLines(lines, n) + rest) == Before(lines, BuildBlock(cur, rest))
    decreases lines, 1
  {
    hide Lexable, BuildArgs, BuildBlock, GoodValues, TokensOfValues, TokensOfLines, EndOfValues, EndOfLines, EndOf;
    var b := BuildBlock(cur, rest);
    if lines == [] {
      assert TokensOfLines(lines, n) == [] by { NoLines(n); }
      assert [] + rest == rest && [] + b.lines == b.lines;
    } else {
      var vs := lines[0].values;
      var t, m := Token(n, vs[0].text), EndOfValues(vs, n);
      var after := TokensOfLines(lines[1..], m + 1) + rest;
      LineTokens(lines, n, rest);
      BlockOfLine(cur, t, TokensOfValues(vs[1..], EndOf(t)) + after);
      NextLineIsLater(lines[1..], m, rest);
      ArgsBack(vs[1..], t, after);
      var last := BuildArgs(t, TokensOfValues(vs[1..], EndOf(t)) + after).last;
      LinesBack(lines[1..], last, m + 1, rest);
      CurrentIrrelevant(last, cur, rest);
      FirstLineBack(lines);
      assert [lines[0]] + (lines[1..] + b.lines) == lines + b.lines;
    }
  }

  lemma NoLines(n: nat)
    ensures TokensOfLines([], n) == []
  {
  }

  lemma FirstLineBack(lines: seq<Line>)
    requires lines != [] && lines[0].values != [] && lines[0].values[0].Str?
    ensures var vs := lines[0].values; Line([Str(vs[0].text)] + vs[1..]) == lines[0]
    ensures [lines[0]] + lines[1..] == lines
  {
    var vs := lines[0].values;
    assert vs == [vs[0]] + vs[1..];
  }

  lemma NextLineIsLater(lines: seq<Line>, m: nat, rest: seq<Token>)
    requires GoodLines(lines) && rest != [] && rest[0].line >= EndOfLines(lines, m + 1)
    ensures Later(TokensOfLines(lines, m + 1) + rest, m)
  {
    hide Lexable, GoodValues;
  }

  // ---------------------------------------------------------------- everything else is garbled

  // A closing brace with something right behind it is not a closing brace.
  lemma GluedBrace(text: string, n: nat)
    requires text != "" && !IsSpace(text[0]) && text[0] != '#'
    ensures var ts := Tokens("}" + text, n); ts != [] && ts[0].text != "}" && ts[0].line >= n
  {
    var p := Fresh(n).(val := "}");
    var q := p.(val := "}" + [text[0]]);
    assert "" + ['}'] == "}";
    assert ("}" + text)[1..] == text;
    assert Scan("}" + text, Fresh(n)) == Scan(text, p) == Scan(text[1..], q);
    BegunWord(text[1..], q);
    ScanExtends(text[1..], q);
    TokensLater("}" + text, n);
  }

  // The first line of a block that was built starts with the first token, which is no closing brace.
  lemma FirstIsToken(cur: Token, tokens: seq<Token>)
    ensures var lines := BuildBlock(cur, tokens).lines;
      lines == [] ||
      (tokens != [] && lines[0].values != [] && lines[0].values[0] == Str(tokens[0].text) && tokens[0].text != "}")
  {
  }

  // So does the first argument, if it is a string.
  lemma FirstArgIsToken(cur: Token, tokens: seq<Token>)
    ensures var vs := BuildArgs(cur, tokens).values;
      vs == [] || vs[0].Block? || (tokens != [] && vs[0] == Str(tokens[0].text))
  {
  }

  // ---------------------------------------------------------------- strings that do not come back

  lemma {:induction false} WordStaysPlain(input: string, p: Partial)
    requires !p.quoted && Plain(p.val)
    ensures Scan(input, p).Some? ==> Plain(Scan(input, p).value.token.text)
    decreases |input|
  {
    if input != "" {
      var ch, rest := input[0], input[1..];
      if !IsSpace(ch) || ch == '\r' { WordStaysPlain(rest, if IsSpace(ch) then OverSpace(p, ch) else Outside(p, ch)); }
    }
  }

  // The next token is not s.
  ghost predicate NotNext(tokens: seq<Token>, s: string)
  {
    tokens == [] || tokens[0].text != s
  }

  lemma NextToken(text: string, n: nat)
    ensures var x, ts := Scan(text, Fresh(n)), Tokens(text, n);
      if x.None? then ts == [] else ts != [] && ts[0] == x.value.token && ts[1..] == Tokens(x.value.rest, x.value.line)
  {
  }

  /** A string that is not lexable does not come back as the next token, whatever safe text follows. */
  lemma StringIsLost(s: string, r: string, n: nat)
    requires !Lexable(s) && Safe(r) && Ends(r)
    ensures NotNext(Tokens(PrintString(s) + r, n), s)
  {
    NextToken(PrintString(s) + r, n);
    if NeedsQuotes(s) {
      QuotingRoundTripIff(s, r, n);
    } else if Vanishes(s) {
      SafeBare(s, r);
      assert SafeFrom(s + r, Fresh(n));
    } else {
      var p := Fresh(n).(val := [s[0]]);
      assert (s + r)[0] == s[0] && "" + [s[0]] == [s[0]];
      assert Scan(s + r, Fresh(n)) == Scan((s + r)[1..], p);
      WordStaysPlain((s + r)[1..], p);
    }
  }

  // A closing brace before a string that vanishes still closes, but the string is lost.
  lemma {:induction false} BraceBefore(s: string, r: string, p: Partial)
    requires !NeedsQuotes(s) && Safe(r) && Ends(r) && p.val == "}" && !p.quoted
    requires s == "" || IsSpace(s[0]) || s[0] == '#' || p.comment
    ensures var x := Scan(s + r, p);
      x.Some? && x.value.token == Token(p.start, "}") && SafeFrom(x.value.rest, Fresh(x.value.line))
    decreases |s|
  {
    hide Vanishes;
    if s == "" {
      assert s + r == r;
      BraceThen(r, p);
    } else {
      var rest := s[1..] + r;
      assert (s + r)[0] == s[0] && (s + r)[1..] == rest;
      assert forall i :: 0 <= i < |s[1..]| ==> s[1..][i] == s[i + 1];
      assert s[0] != '\n' && s[0] != '\r';
      if IsSpace(s[0]) {
        SafeBare(s[1..], r);
        assert Scan(s + r, p) == Some(Scanned(Token(p.start, "}"), rest, p.line));
        assert Between(Fresh(p.line));
      } else {
        BraceBefore(s[1..], r, Outside(p, s[0]));
      }
    }
  }

  lemma BraceThen(r: string, p: Partial)
    requires Safe(r) && Ends(r) && p.val == "}" && !p.quoted
    ensures var x := Scan(r, p);
      x.Some? && x.value.token == Token(p.start, "}") && SafeFrom(x.value.rest, Fresh(x.value.line))
  {
    if r == "" {
      SafeNothing();
      assert SafeFrom("", Fresh(p.line));
    } else {
      var n := OverSpace(p, r[0]).line;
      var q := Partial("", false, false, false, n, p.line);
      assert OverSpace(q, r[0]) == Fresh(n);
      assert SafeFrom(r, q);
    }
  }

  lemma BraceTokens(s: string, r: string, n: nat)
    requires Vanishes(s) && Safe(r) && Ends(r)
    ensures var ts := Tokens("}" + (s + r), n); ts != [] && ts[0] == Token(n, "}") && NotNext(ts[1..], s)
  {
    hide Safe;
    var p, text := Fresh(n).(val := "}"), "}" + (s + r);
    assert text[0] == '}' && text[1..] == s + r && "" + ['}'] == "}";
    assert Scan(text, Fresh(n)) == Scan(s + r, p);
    BraceBefore(s, r, p);
    var x := Scan(s + r, p).value;
    NextToken(text, n);
    NextToken(x.rest, x.line);
  }

  // ---------------------------------------------------------------- trees that do not come back

  lemma StringFirst(vs: seq<Value>, depth: nat, r: string, n: nat)
    requires vs != [] && vs[0].Str? && Lexable(vs[0].text) && (r == "" || r[0] == '\n')
    ensures var s := vs[0].text;
      Tokens(PrintValues(vs, depth) + r, n) == [Token(n, s)] + Tokens(PrintValues(vs[1..], depth) + r, n + Breaks(s))
  {
    hide Tokens, Lexable, PrintString, Breaks, PrintValues;
    var s, rest := vs[0].text, PrintValues(vs[1..], depth) + r;
    StringText(vs, depth, r);
    StringTokens(s, AfterString(vs[1..], depth, r), n);
    if vs[1..] == [] {
      assert "" + rest == rest;
    } else {
      SkipSpace(' ', rest, n + Breaks(s));
    }
  }

  lemma BlockFirst(lines: seq<Line>, vs: seq<Value>, depth: nat, r: string, n: nat)
    requires vs != [] && vs[0] == Block(lines)
    ensures Tokens(PrintValues(vs, depth) + r, n) ==
      [Token(n, "{")] + Tokens(PrintLines(lines, depth) + AfterBlock(vs[1..], depth, r), n + 1)
  {
    hide Tokens, PrintLines, PrintValues, AfterBlock;
    var body := PrintLines(lines, depth) + AfterBlock(vs[1..], depth, r);
    BlockFirstText(vs, lines, depth, r);
    WordTokens("{", ['\n'] + body, n);
    SkipSpace('\n', body, n);
  }

  // A value whose text does not vanish starts with something visible.
  lemma FirstChar(vs: seq<Value>, depth: nat)
    requires vs != [] && (vs[0].Str? ==> !Vanishes(vs[0].text))
    ensures var text := PrintValues(vs, depth); text != "" && !IsSpace(text[0]) && text[0] != '#'
  {
    var first := PrintValue(vs[0], depth);
    assert first != "" && !IsSpace(first[0]) && first[0] != '#';
  }

  /** Values of another shape, or with a string that is not lexable, do not come back. */
  lemma {:induction false} ArgsGarbled(vs: seq<Value>, depth: nat, cur: Token, r: string)
    requires ValuesReadable(vs) && !GoodValues(vs) && Safe(r) && (r == "" || r[0] == '\n') && cur.file == ""
    ensures BuildArgs(cur, Tokens(PrintValues(vs, depth) + r, EndOf(cur))).values != vs
    decreases vs, 1
  {
    hide Lexable, BuildArgs, BuildBlock, Tokens, PrintValues, Safe;
    var n := EndOf(cur);
    match vs[0]
    case Str(s) =>
      if !Lexable(s) {
        ArgIsLost(vs, depth, cur, r);
      } else {
        if s != "{" { ArgsGarbled(vs[1..], depth, Token(n, s), r); }
        ArgComesBack(vs, depth, cur, r);
      }
    case Block(lines) =>
      BlockGarbled(lines, vs, depth, cur, r);
  }

  // A lexable string comes back, but perhaps not what follows it.
  lemma ArgComesBack(vs: seq<Value>, depth: nat, cur: Token, r: string)
    requires vs != [] && vs[0].Str? && Lexable(vs[0].text) && (r == "" || r[0] == '\n') && cur.file == ""
    requires vs[0].text != "{" ==>
      var t := Token(EndOf(cur), vs[0].text);
      BuildArgs(t, Tokens(PrintValues(vs[1..], depth) + r, EndOf(t))).values != vs[1..]
    ensures BuildArgs(cur, Tokens(PrintValues(vs, depth) + r, EndOf(cur))).values != vs
  {
    hide Lexable, BuildArgs, BuildBlock, Tokens, PrintValues, Breaks;
    var t := Token(EndOf(cur), vs[0].text);
    var more := Tokens(PrintValues(vs[1..], depth) + r, EndOf(t));
    StringFirst(vs, depth, r, EndOf(cur));
    if t.text == "{" {
      ArgsOfBlock(cur, more);
    } else {
      ArgsOfString(cur, t.text, more);
      DifferentTails(vs[0], BuildArgs(t, more).values, vs);
    }
  }

  // The rest of the text after a string of the values is safe.
  lemma LostToken(vs: seq<Value>, depth: nat, r: string, n: nat)
    requires vs != [] && vs[0].Str? && !Lexable(vs[0].text) && ValuesReadable(vs[1..])
    requires Safe(r) && (r == "" || r[0] == '\n')
    ensures NotNext(Tokens(PrintValues(vs, depth) + r, n), vs[0].text)
  {
    hide Lexable, Tokens, PrintValues, PrintString, Safe, AfterString, ValuesReadable;
    StringText(vs, depth, r);
    SafeValues(vs[1..], depth, r);
    SafeAfterString(vs[1..], depth, r);
    StringIsLost(vs[0].text, AfterString(vs[1..], depth, r), n);
  }

  lemma ArgIsLost(vs: seq<Value>, depth: nat, cur: Token, r: string)
    requires vs != [] && vs[0].Str? && !Lexable(vs[0].text) && ValuesReadable(vs[1..])
    requires Safe(r) && (r == "" || r[0] == '\n')
    ensures BuildArgs(cur, Tokens(PrintValues(vs, depth) + r, EndOf(cur))).values != vs
  {
    hide Lexable, Tokens, PrintValues, Safe, BuildArgs, ValuesReadable;
    LostToken(vs, depth, r, EndOf(cur));
    FirstArgIsToken(cur, Tokens(PrintValues(vs, depth) + r, EndOf(cur)));
  }

  lemma {:induction false} BlockGarbled(lines: seq<Line>, vs: seq<Value>, depth: nat, cur: Token, r: string)
    requires vs != [] && vs[0] == Block(lines) && ValuesReadable(vs) && !GoodValues(vs) && cur.file == ""
    requires Safe(r) && (r == "" || r[0] == '\n')
    ensures BuildArgs(cur, Tokens(PrintValues(vs, depth) + r, EndOf(cur))).values != vs
    decreases vs, 0
  {
    hide Lexable, BuildArgs, BuildBlock, Tokens, PrintValues, EndOf, LinesReadable, GoodLines, AfterBlock, Vanishes,
         Safe;
    var n, after := EndOf(cur), AfterBlock(vs[1..], depth, r);
    BlockFirst(lines, vs, depth, r, n);
    ArgsOfBlock(cur, Tokens(PrintLines(lines, depth) + after, n + 1));
    SafeValues(vs[1..], depth, r);
    if !GoodLines(lines) {
      SafeAfterBlock(vs[1..], depth, r);
      LinesGarbled(lines, depth, Token(n, "{"), n + 1, after);
    } else {
      assert vs[1..] != [];
      if vs[1].Str? && Vanishes(vs[1].text) {
        VanishedAfter(lines, vs, depth, cur, r);
      } else {
        GluedBlock(lines, vs[1..], depth, r, n);
      }
    }
  }

  lemma DifferentTails(v: Value, built: seq<Value>, vs: seq<Value>)
    requires vs != [] && built != vs[1..]
    ensures [v] + built != vs
  {
    assert ([v] + built)[1..] == built;
  }

  // The tokens of a good block and of what follows it.
  lemma BlockThen(lines: seq<Line>, vs: seq<Value>, depth: nat, r: string, n: nat)
    requires GoodLines(lines)
    ensures var m := EndOfLines(lines, n);
      Tokens(PrintLines(lines, depth) + AfterBlock(vs, depth, r), n) ==
      TokensOfLines(lines, n) + Tokens("}" + (PrintValues(vs, depth) + r), m)
  {
    hide Tokens, PrintLines, PrintValues, GoodLines, TokensOfLines, EndOfLines;
    var k, m := if depth > 0 then depth - 1 else 0, EndOfLines(lines, n);
    LinesLex(lines, depth, AfterBlock(vs, depth, r), n);
    SkipTabs(k, "}" + (PrintValues(vs, depth) + r), m);
  }

  // What follows a block that is not the last value is read as one more line of the block.
  lemma GluedBlock(lines: seq<Line>, vs: seq<Value>, depth: nat, r: string, n: nat)
    requires GoodLines(lines) && vs != [] && (vs[0].Str? ==> !Vanishes(vs[0].text))
    ensures BuildBlock(Token(n, "{"), Tokens(PrintLines(lines, depth) + AfterBlock(vs, depth, r), n + 1)).lines != lines
  {
    hide Tokens, BuildBlock, BuildArgs, PrintLines, PrintValues, GoodLines, AfterBlock;
    var text, open, m := PrintValues(vs, depth) + r, Token(n, "{"), EndOfLines(lines, n + 1);
    BlockThen(lines, vs, depth, r, n + 1);
    FirstChar(vs, depth);
    GluedBrace(text, m);
    var rest := Tokens("}" + text, m);
    LinesBack(lines, open, n + 1, rest);
    assert rest == [rest[0]] + rest[1..];
    BlockOfLine(open, rest[0], rest[1..]);
  }

  // A string that vanishes after a block does not come back as an argument.
  lemma VanishedAfter(lines: seq<Line>, vs: seq<Value>, depth: nat, cur: Token, r: string)
    requires |vs| > 1 && vs[0] == Block(lines) && GoodLines(lines) && vs[1].Str? && Vanishes(vs[1].text)
    requires cur.file == ""
    requires ValuesReadable(vs[1..]) && Safe(r) && (r == "" || r[0] == '\n')
    ensures BuildArgs(cur, Tokens(PrintValues(vs, depth) + r, EndOf(cur))).values != vs
  {
    hide Tokens, BuildBlock, BuildArgs, PrintLines, PrintValues, GoodLines, AfterBlock, Safe, EndOf, EndOfLines,
         TokensOfLines;
    var n, s := EndOf(cur), vs[1].text;
    var open, m := Token(n, "{"), EndOfLines(lines, n + 1);
    BlockFirst(lines, vs, depth, r, n);
    BlockThen(lines, vs[1..], depth, r, n + 1);
    var ts := VanishedTokens(vs[1..], depth, r, m);
    LinesBack(lines, open, n + 1, [Token(m, "}")] + ts);
    BlockCloses(open, m, ts);
    ArgsOfBlock(cur, TokensOfLines(lines, n + 1) + ([Token(m, "}")] + ts));
    FirstArgIsToken(Token(m, "}"), ts);
    assert lines + [] == lines;
    DifferentTails(Block(lines), BuildArgs(Token(m, "}"), ts).values, vs);
  }

  lemma VanishedTokens(vs: seq<Value>, depth: nat, r: string, n: nat) returns (ts: seq<Token>)
    requires vs != [] && vs[0].Str? && Vanishes(vs[0].text) && ValuesReadable(vs)
    requires Safe(r) && (r == "" || r[0] == '\n')
    ensures Tokens("}" + (PrintValues(vs, depth) + r), n) == [Token(n, "}")] + ts && NotNext(ts, vs[0].text)
  {
    hide Tokens, PrintValues, Safe, AfterString;
    SafeValues(vs[1..], depth, r);
    SafeAfterString(vs[1..], depth, r);
    StringText(vs, depth, r);
    BraceTokens(vs[0].text, AfterString(vs[1..], depth, r), n);
    ts := Tokens("}" + (PrintValues(vs, depth) + r), n)[1..];
  }

  /** Lines of another shape, or with a string that is not lexable, do not come back. */
  lemma {:induction false} LinesGarbled(lines: seq<Line>, depth: nat, cur: Token, n: nat, r: string)
    requires LinesReadable(lines) && !GoodLines(lines) && Safe(r)
    ensures BuildBlock(cur, Tokens(PrintLines(lines, depth) + r, n)).lines != lines
    decreases lines, 1
  {
    hide Lexable, BuildArgs, BuildBlock, Tokens, PrintLines, GoodValues, Safe;
    var vs := lines[0].values;
    FirstIsToken(cur, Tokens(PrintLines(lines, depth) + r, n));
    if vs != [] && vs[0].Str? && vs[0].text != "}" {
      var t, after := Token(n, vs[0].text), "\n" + (PrintLines(lines[1..], depth) + r);
      SafeLines(lines[1..], depth, r);
      SafeChar('\n', PrintLines(lines[1..], depth) + r);
      if !Lexable(vs[0].text) {
        HeadIsLost(lines, depth, n, r);
      } else if GoodValues(vs[1..]) {
        RestGarbled(lines, depth, cur, n, r);
      } else {
        LineFirst(lines, depth, n, r);
        var tokens := Tokens(PrintValues(vs[1..], depth + 1) + after, EndOf(t));
        BlockOfLine(cur, t, tokens);
        ArgsGarbled(vs[1..], depth + 1, t, after);
        DifferentTails(vs[0], BuildArgs(t, tokens).values, vs);
      }
    }
  }

  lemma HeadIsLost(lines: seq<Line>, depth: nat, n: nat, r: string)
    requires lines != [] && LinesReadable(lines) && Safe("\n" + (PrintLines(lines[1..], depth) + r))
    requires var vs := lines[0].values; vs != [] && vs[0].Str? && !Lexable(vs[0].text)
    ensures NotNext(Tokens(PrintLines(lines, depth) + r, n), lines[0].values[0].text)
  {
    hide Lexable, Tokens, PrintValues, PrintLines, Safe;
    var vs, after := lines[0].values, "\n" + (PrintLines(lines[1..], depth) + r);
    LineText(lines, depth, r);
    SkipTabs(depth, PrintValues(vs, depth + 1) + after, n);
    LostToken(vs, depth + 1, after, n);
  }

  lemma LineFirst(lines: seq<Line>, depth: nat, n: nat, r: string)
    requires lines != []
    requires var vs := lines[0].values; vs != [] && vs[0].Str? && Lexable(vs[0].text)
    ensures var vs := lines[0].values;
      var t, after := Token(n, vs[0].text), "\n" + (PrintLines(lines[1..], depth) + r);
      Tokens(PrintLines(lines, depth) + r, n) == [t] + Tokens(PrintValues(vs[1..], depth + 1) + after, EndOf(t))
  {
    hide Lexable, Tokens, PrintValues, PrintLines;
    var vs, after := lines[0].values, "\n" + (PrintLines(lines[1..], depth) + r);
    LineText(lines, depth, r);
    SkipTabs(depth, PrintValues(vs, depth + 1) + after, n);
    StringFirst(vs, depth + 1, after, n);
  }

  lemma {:induction false} RestGarbled(lines: seq<Line>, depth: nat, cur: Token, n: nat, r: string)
    requires lines != [] && LinesReadable(lines) && !GoodLines(lines) && Safe(r)
    requires var vs := lines[0].values;
      vs != [] && vs[0].Str? && Lexable(vs[0].text) && vs[0].text != "}" && GoodValues(vs[1..])
    ensures BuildBlock(cur, Tokens(PrintLines(lines, depth) + r, n)).lines != lines
    decreases lines, 0
  {
    hide Lexable, BuildArgs, BuildBlock, Tokens, PrintLines, PrintValues, GoodValues, Safe;
    var vs := lines[0].values;
    var t, text := Token(n, vs[0].text), PrintLines(lines[1..], depth) + r;
    var m := EndOfValues(vs[1..], EndOf(t));
    LineFirst(lines, depth, n, r);
    GoodIsLexable(vs[1..]);
    ValuesLex(vs[1..], depth + 1, "\n" + text, EndOf(t));
    SkipSpace('\n', text, m);
    TokensLater(text, m + 1);
    var rest := Tokens(text, m + 1);
    ArgsBack(vs[1..], t, rest);
    var tokens := TokensOfValues(vs[1..], EndOf(t)) + rest;
    BlockOfLine(cur, t, tokens);
    LinesGarbled(lines[1..], depth, BuildArgs(t, tokens).last, m + 1, r);
    var more := BuildBlock(BuildArgs(t, tokens).last, rest).lines;
    assert ([Line([Str(t.text)] + vs[1..])] + more)[1..] == more;
  }

  lemma GoodIsLexable(vs: seq<Value>)
    requires GoodValues(vs)
    ensures LexableValues(vs)
  {
  }

  // ---------------------------------------------------------------- what is built is readable

  ghost predicate TokensOK(tokens: seq<Token>)
  {
    forall i :: 0 <= i < |tokens| ==> Readable(tokens[i].text)
  }

  lemma {:induction false} ArgsReadable(cur: Token, rest: seq<Token>)
    requires TokensOK(rest)
    ensures ValuesReadable(BuildArgs(cur, rest).values) && TokensOK(BuildArgs(cur, rest).rest)
    decreases |rest|, 0
  {
    hide Readable;
    if SameLine(cur, rest) {
      if rest[0].text == "{" {
        var b := BuildBlock(rest[0], rest[1..]);
        BlockReadable(rest[0], rest[1..]);
        ArgsReadable(b.last, b.rest);
        ReadableCons(Block(b.lines), BuildArgs(b.last, b.rest).values);
      } else {
        ArgsReadable(rest[0], rest[1..]);
        ReadableCons(Str(rest[0].text), BuildArgs(rest[0], rest[1..]).values);
      }
    }
  }

  lemma ReadableCons(v: Value, vs: seq<Value>)
    requires ValuesReadable(vs) && (match v case Str(s) => Readable(s) case Block(lines) => LinesReadable(lines))
    ensures ValuesReadable([v] + vs)
  {
    hide Readable;
    assert ([v] + vs)[1..] == vs;
  }

  lemma {:induction false} BlockReadable(cur: Token, rest: seq<Token>)
    requires TokensOK(rest)
    ensures LinesReadable(BuildBlock(cur, rest).lines) && TokensOK(BuildBlock(cur, rest).rest)
    decreases |rest|, 1
  {
    hide Readable;
    if rest != [] && rest[0].text != "}" {
      var line := BuildArgs(rest[0], rest[1..]);
      ArgsReadable(rest[0], rest[1..]);
      BlockReadable(line.last, line.rest);
      ReadableCons(Str(rest[0].text), line.values);
      var more := BuildBlock(line.last, line.rest).lines;
      assert ([Line([Str(rest[0].text)] + line.values)] + more)[1..] == more;
    }
  }

  // ---------------------------------------------------------------- the round trip

  // Lexing the printed body and building a block from its opening brace gives the tree.
  ghost predicate RoundTrips(lines: seq<Line>)
  {
    var tokens := Tokens(WithoutMark(PrintBody(lines)), 1);
    tokens != [] && tokens[0].text == "{" && BuildBlock(tokens[0], tokens[1..]).lines == lines
  }

  lemma BodyOpens(lines: seq<Line>)
    ensures Tokens(WithoutMark(PrintBody(lines)), 1) == [Token(1, "{")] + Tokens(PrintLines(lines, 1) + "}", 2)
  {
    hide Tokens, PrintLines;
    var text := PrintBody(lines);
    var body := PrintLines(lines, 1) + "}";
    assert text[0] == ' ' && text == [' '] + ("{" + (['\n'] + body));
    SkipSpace(' ', "{" + (['\n'] + body), 1);
    WordTokens("{", ['\n'] + body, 1);
    SkipSpace('\n', body, 1);
  }

  /** A tree is printed, lexed and parsed back to itself exactly if all its strings are lexable, each
      line starts with a string other than a closing brace, no later string is an opening brace, and
      blocks come last on their lines. */
  lemma TreeRoundTripIff(lines: seq<Line>)
    ensures RoundTrips(lines) <==> GoodLines(lines)
  {
    hide Tokens, GoodLines, PrintLines, PrintBody, LinesReadable, BuildBlock, Safe;
    var open, body := Token(1, "{"), Tokens(PrintLines(lines, 1) + "}", 2);
    BodyOpens(lines);
    assert ([open] + body)[1..] == body;
    if GoodLines(lines) {
      var m := EndOfLines(lines, 2);
      LinesLex(lines, 1, "}", 2);
      WordTokens("}", "", m);
      assert "}" + "" == "}";
      LinesBack(lines, open, 2, [Token(m, "}")] + Tokens("", m));
      BlockCloses(open, m, Tokens("", m));
      assert lines + [] == lines;
    } else {
      TokensReadable(PrintLines(lines, 1) + "}", 2);
      BlockReadable(open, body);
      if LinesReadable(lines) {
        SafeNothing();
        SafeChar('}', "");
        assert ['}'] + "" == "}";
        LinesGarbled(lines, 1, open, 2, "}");
      }
    }
  }

  /** The same, carried out by the lexer and the dispenser. */
  method Reparse(lines: seq<Line>) returns (result: seq<Line>)
    ensures result == lines <==> GoodLines(lines)
  {
    hide Tokens, GoodLines, PrintLines, BuildBlock;
    TreeRoundTripIff(lines);
    BodyOpens(lines);
    var tokens := AllTokens(PrintBody(lines));
    var d := new Cursor(tokens.value);
    var _ := d.Next();
    result := d.ConstructBlock();
  }
}
