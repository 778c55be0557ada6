// What the tokens of a text are: rules for white space, comments, words and quotes.
module LexerProps {
  import opened Common
  import opened Lexer
  import opened Printer

  // ---------------------------------------------------------------- the token loop

  lemma ScanCons(ch: char, rest: string, p: Partial)
    ensures Scan([ch] + rest, p) ==
      if p.quoted then
        if !p.escaped && ch == '\"' then Some(Scanned(Token(p.start, p.val), rest, p.line))
        else Scan(rest, InQuotes(p, ch))
      else if IsSpace(ch) then
        if ch != '\r' && p.val != "" then Some(Scanned(Token(p.start, p.val), rest, OverSpace(p, ch).line))
        else Scan(rest, OverSpace(p, ch))
      else Scan(rest, Outside(p, ch))
  {
    assert ([ch] + rest)[1..] == rest;
  }

  // Before a token starts, it does not matter what line the last one started on.
  lemma {:induction false} StartIrrelevant(input: string, p: Partial, start: nat)
    requires p.val == "" && !p.quoted
    ensures Scan(input, p) == Scan(input, p.(start := start))
    decreases |input|
  {
    if input != "" {
      var ch, rest := input[0], input[1..];
      if IsSpace(ch) {
        StartIrrelevant(rest, OverSpace(p, ch), start);
      } else if Outside(p, ch).comment {
        StartIrrelevant(rest, Outside(p, ch), start);
      }
    }
  }

  lemma {:induction false} ScanLine(input: string, p: Partial, n: nat)
    requires p.start >= n && p.line >= n
    ensures Scan(input, p).Some? ==> Scan(input, p).value.token.line >= n
    decreases |input|
  {
    if input != "" {
      var ch, rest := input[0], input[1..];
      if p.quoted {
        ScanLine(rest, InQuotes(p, ch), n);
      } else if IsSpace(ch) {
        ScanLine(rest, OverSpace(p, ch), n);
      } else {
        ScanLine(rest, Outside(p, ch), n);
      }
    }
  }

  // Tokens are on the line the text starts on or on later ones.
  lemma TokensLater(text: string, n: nat)
    ensures var ts := Tokens(text, n); ts == [] || ts[0].line >= n
  {
    ScanLine(text, Fresh(n), n);
  }

  // A word that has been begun becomes a token, on the line on which it was begun.
  lemma {:induction false} BegunWord(input: string, p: Partial)
    requires p.val != "" && !p.quoted
    ensures Scan(input, p).Some? && Scan(input, p).value.token.line == p.start
    decreases |input|
  {
    if input != "" {
      var ch, rest := input[0], input[1..];
      BegunWord(rest, if IsSpace(ch) then OverSpace(p, ch) else Outside(p, ch));
    }
  }

  // So does what stands in quotes, unless the input ends right behind the opening quote.
  lemma {:induction false} BegunQuote(input: string, p: Partial)
    requires p.quoted && (p.val != "" || '\n' in input)
    ensures Scan(input, p).Some? && Scan(input, p).value.token.line == p.start
    decreases |input|
  {
    if input != "" {
      var ch, rest := input[0], input[1..];
      if p.escaped || ch != '\"' { BegunQuote(rest, InQuotes(p, ch)); }
    }
  }

  // ---------------------------------------------------------------- white space and comments

  lemma SkipSpace(ch: char, r: string, n: nat)
    requires IsSpace(ch)
    ensures Tokens([ch] + r, n) == Tokens(r, if ch == '\n' then n + 1 else n)
  {
    ScanCons(ch, r, Fresh(n));
    StartIrrelevant(r, OverSpace(Fresh(n), ch), if ch == '\n' then n + 1 else n);
  }

  /** White space between tokens only counts lines. */
  lemma {:induction false} SpaceRule(ws: string, r: string, n: nat)
    requires forall i :: 0 <= i < |ws| ==> IsSpace(ws[i])
    ensures Tokens(ws + r, n) == Tokens(r, n + Breaks(ws))
    decreases |ws|
  {
    hide Tokens;
    if ws == "" {
      assert ws + r == r;
    } else {
      assert ws + r == [ws[0]] + (ws[1..] + r);
      SkipSpace(ws[0], ws[1..] + r, n);
      SpaceRule(ws[1..], r, if ws[0] == '\n' then n + 1 else n);
    }
  }

  lemma {:induction false} InComment(c: string, r: string, p: Partial)
    requires '\n' !in c && p.comment && !p.quoted && p.val == ""
    ensures Scan(c + r, p) == Scan(r, p)
    decreases |c|
  {
    hide Scan;
    if c == "" {
      assert c + r == r;
    } else {
      assert c + r == [c[0]] + (c[1..] + r);
      ScanCons(c[0], c[1..] + r, p);
      InComment(c[1..], r, p);
    }
  }

  /** Where a token could start, a comment hides the rest of its line. */
  lemma CommentRule(c: string, r: string, n: nat)
    requires '\n' !in c && (r == "" || r[0] == '\n')
    ensures Tokens("#" + c + r, n) == Tokens(r, n)
  {
    var p := Fresh(n).(comment := true);
    assert "#" + c + r == ['#'] + (c + r);
    ScanCons('#', c + r, Fresh(n));
    InComment(c, r, p);
    if r != "" {
      assert r == ['\n'] + r[1..];
      ScanCons('\n', r[1..], p);
      ScanCons('\n', r[1..], Fresh(n));
    }
  }

  // ---------------------------------------------------------------- words

  // The text without its carriage returns.
  function WithoutReturns(s: string): string
  {
    if s == "" then "" else (if s[0] == '\r' then "" else [s[0]]) + WithoutReturns(s[1..])
  }

  // No white space other than carriage returns, and no comment sign.
  predicate IsWord(s: string)
  {
    forall i :: 0 <= i < |s| ==> s[i] != '#' && (IsSpace(s[i]) ==> s[i] == '\r')
  }

  lemma WordStep(s: string, r: string, p: Partial) returns (q: Partial)
    requires IsWord(s) && s != "" && !p.quoted && !p.comment && p.val != ""
    ensures Scan(s + r, p) == Scan(s[1..] + r, q) && q == p.(val := q.val) && q.val != ""
    ensures q.val + WithoutReturns(s[1..]) == p.val + WithoutReturns(s)
  {
    hide Scan;
    assert s + r == [s[0]] + (s[1..] + r);
    ScanCons(s[0], s[1..] + r, p);
    if s[0] == '\r' {
      q := p;
      assert "" + WithoutReturns(s[1..]) == WithoutReturns(s[1..]);
    } else {
      q := p.(val := p.val + [s[0]]);
      assert p.val + [s[0]] + WithoutReturns(s[1..]) == p.val + ([s[0]] + WithoutReturns(s[1..]));
    }
  }

  lemma {:induction false} InWord(s: string, r: string, p: Partial)
    requires IsWord(s) && !p.quoted && !p.comment && p.val != ""
    ensures Scan(s + r, p) == Scan(r, p.(val := p.val + WithoutReturns(s)))
    decreases |s|
  {
    hide Scan;
    if s == "" {
      assert s + r == r && p.val + WithoutReturns(s) == p.val;
    } else {
      hide WithoutReturns;
      var q := WordStep(s, r, p);
      InWord(s[1..], r, q);
    }
  }

  // The loop behind the word s.
  lemma BeginWord(s: string, r: string, n: nat)
    requires IsWord(s) && s != "" && s[0] != '\r' && s[0] != '\"'
    ensures WithoutReturns(s) != "" && Scan(s + r, Fresh(n)) == Scan(r, Fresh(n).(val := WithoutReturns(s)))
  {
    var p := Fresh(n).(val := [s[0]]);
    assert s + r == [s[0]] + (s[1..] + r) && "" + [s[0]] == [s[0]];
    ScanCons(s[0], s[1..] + r, Fresh(n));
    InWord(s[1..], r, p);
  }

  /** A word is a token, without its carriage returns, and ends before white space or the end. */
  lemma WordRule(s: string, r: string, n: nat)
    requires IsWord(s) && s != "" && s[0] != '\r' && s[0] != '\"'
    requires r == "" || (IsSpace(r[0]) && r[0] != '\r')
    ensures Tokens(s + r, n) == [Token(n, WithoutReturns(s))] + Tokens(r, n)
  {
    BeginWord(s, r, n);
    if r != "" {
      assert r == [r[0]] + r[1..];
      ScanCons(r[0], r[1..], Fresh(n).(val := WithoutReturns(s)));
      SkipSpace(r[0], r[1..], n);
    }
  }

  // ---------------------------------------------------------------- quotes

  // Every quote is preceded by a backslash, and no backslash is left over at the end; a backslash goes
  // with the character after it.
  predicate IsQuotable(s: string)
  {
    s == "" ||
    if s[0] == '\\' then |s| > 1 && IsQuotable(s[2..]) else s[0] != '\"' && IsQuotable(s[1..])
  }

  // Backslashes before quotes are dropped; all others stay.
  function Unescaped(s: string): string
  {
    if s == "" then ""
    else if s[0] == '\\' && |s| > 1 then (if s[1] != '\"' then ['\\'] else []) + [s[1]] + Unescaped(s[2..])
    else [s[0]] + Unescaped(s[1..])
  }

  // A backslash and the character after it.
  lemma EscapedPair(s: string, r: string, p: Partial)
    requires |s| > 1 && s[0] == '\\' && p.quoted && !p.escaped
    ensures Scan(s + r, p) == Scan(s[2..] + r, InQuotes(p.(escaped := true), s[1]))
    ensures Breaks(s) == Breaks(s[2..]) + if s[1] == '\n' then 1 else 0
  {
    hide Scan;
    assert s + r == [s[0]] + ([s[1]] + (s[2..] + r));
    ScanCons(s[0], [s[1]] + (s[2..] + r), p);
    ScanCons(s[1], s[2..] + r, p.(escaped := true));
    assert s[1..][1..] == s[2..];
  }

  lemma Regroup<T>(a: seq<T>, b: seq<T>, c: seq<T>, d: seq<T>)
    ensures a + b + c + d == a + (b + c + d)
  {
  }

  lemma EscapedText(s: string, val: string)
    requires |s| > 1 && s[0] == '\\'
    ensures val + (if s[1] != '\"' then ['\\'] else []) + [s[1]] + Unescaped(s[2..]) == val + Unescaped(s)
  {
    Regroup(val, if s[1] != '\"' then ['\\'] else [], [s[1]], Unescaped(s[2..]));
  }

  lemma PlainText(s: string, val: string)
    requires s != "" && s[0] != '\\'
    ensures val + [] + [s[0]] + Unescaped(s[1..]) == val + Unescaped(s)
  {
    Regroup(val, [], [s[0]], Unescaped(s[1..]));
    assert [] + [s[0]] == [s[0]];
  }

  // One character, or a backslash with the character after it, of what stands in quotes.
  lemma QuotedStep(s: string, r: string, p: Partial) returns (k: nat, q: Partial)
    requires IsQuotable(s) && s != "" && p.quoted && !p.escaped
    ensures 0 < k <= |s| && IsQuotable(s[k..]) && Scan(s + r, p) == Scan(s[k..] + r, q)
    ensures q == p.(val := q.val, line := q.line)
    ensures q.val + Unescaped(s[k..]) == p.val + Unescaped(s) && q.line + Breaks(s[k..]) == p.line + Breaks(s)
  {
    hide Scan, Unescaped;
    if s[0] == '\\' {
      k, q := 2, InQuotes(p.(escaped := true), s[1]);
      EscapedPair(s, r, p);
      EscapedText(s, p.val);
    } else {
      k, q := 1, InQuotes(p, s[0]);
      PlainText(s, p.val);
      assert s + r == [s[0]] + (s[1..] + r);
      ScanCons(s[0], s[1..] + r, p);
    }
  }

  lemma {:induction false} InsideQuotes(s: string, r: string, p: Partial)
    requires IsQuotable(s) && p.quoted && !p.escaped
    ensures Scan(s + r, p) == Scan(r, p.(val := p.val + Unescaped(s), line := p.line + Breaks(s)))
    decreases |s|
  {
    hide Scan;
    if s == "" {
      assert s + r == r && p.val + Unescaped(s) == p.val;
    } else {
      hide IsQuotable, Unescaped, Breaks;
      var k, q := QuotedStep(s, r, p);
      InsideQuotes(s[k..], r, q);
    }
  }

  /** What stands in quotes is one token, white space, comment signs and line breaks included; only
      quotes are unescaped. Without a closing quote the token ends with the text. */
  lemma QuoteRule(s: string, r: string, n: nat)
    requires IsQuotable(s)
    ensures Tokens("\"" + s + "\"" + r, n) == [Token(n, Unescaped(s))] + Tokens(r, n + Breaks(s))
    ensures Tokens("\"" + s, n) == if s == "" then [] else [Token(n, Unescaped(s))]
  {
    hide Scan, Unescaped, IsQuotable;
    OpenedQuote(s, ['\"'] + r, n);
    var q := Fresh(n).(quoted := true, val := Unescaped(s), line := n + Breaks(s));
    ScanCons('\"', r, q);
    assert "\"" + s + "\"" + r == "\"" + s + (['\"'] + r);
    OpenedQuote(s, "", n);
    assert "\"" + s + "" == "\"" + s;
    ScanNothing(q);
    NotEmptied(s);
    if s != "" { NoTokens(n + Breaks(s)); }
  }

  // The loop behind an opening quote and s.
  lemma OpenedQuote(s: string, r: string, n: nat)
    requires IsQuotable(s)
    ensures Scan("\"" + s + r, Fresh(n)) ==
      Scan(r, Fresh(n).(quoted := true, val := Unescaped(s), line := n + Breaks(s)))
  {
    hide Scan, Unescaped, IsQuotable;
    assert "\"" + s + r == ['\"'] + (s + r);
    ScanCons('\"', s + r, Fresh(n));
    InsideQuotes(s, r, Fresh(n).(quoted := true));
    assert "" + Unescaped(s) == Unescaped(s);
  }

  lemma ScanNothing(p: Partial)
    ensures Scan("", p) == if p.val != "" then Some(Scanned(Token(p.start, p.val), "", p.line)) else None
  {
  }

  lemma NotEmptied(s: string)
    ensures Unescaped(s) == "" <==> s == ""
  {
  }

  lemma NoTokens(n: nat)
    ensures Tokens("", n) == []
  {
  }

  // ---------------------------------------------------------------- a comment sign inside a word

  // What follows the first white space other than a carriage return.
  function Beyond(c: string): string
  {
    if c == "" then "" else if IsSpace(c[0]) && c[0] != '\r' then c[1..] else Beyond(c[1..])
  }

  // Nothing but white space and a comment.
  predicate Blank(t: string)
  {
    t == "" || t[0] == '#' || (IsSpace(t[0]) && Blank(t[1..]))
  }

  lemma {:induction false} BehindWord(c: string, r: string, p: Partial)
    requires '\n' !in c && p.comment && !p.quoted && p.val != ""
    ensures '\n' !in Beyond(c)
    ensures var x := Scan(c + "\n" + r, p);
      && x.Some? && x.value.token == Token(p.start, p.val)
      && Tokens(x.value.rest, x.value.line) == Tokens(Beyond(c) + "\n" + r, p.line)
    decreases |c|
  {
    if c == "" {
      assert c + "\n" + r == ['\n'] + r && Beyond(c) + "\n" + r == ['\n'] + r;
      ScanCons('\n', r, p);
      SkipSpace('\n', r, p.line);
    } else {
      assert c + "\n" + r == [c[0]] + (c[1..] + "\n" + r);
      ScanCons(c[0], c[1..] + "\n" + r, p);
      if !IsSpace(c[0]) || c[0] == '\r' { BehindWord(c[1..], r, p); }
    }
  }

  // Text that is not blank has a token on its own line.
  lemma {:induction false} BlankIff(t: string, r: string, n: nat)
    requires '\n' !in t
    ensures Tokens(t + "\n" + r, n) == Tokens("\n" + r, n) <==> Blank(t)
    decreases |t|
  {
    var rest := t[if t == "" then 0 else 1..] + "\n" + r;
    if t == "" {
      assert t + "\n" + r == "\n" + r;
    } else if t[0] == '#' {
      assert t + "\n" + r == "#" + t[1..] + ("\n" + r);
      CommentRule(t[1..], "\n" + r, n);
    } else if IsSpace(t[0]) {
      assert t + "\n" + r == [t[0]] + rest;
      SkipSpace(t[0], rest, n);
      BlankIff(t[1..], r, n);
    } else {
      assert t + "\n" + r == [t[0]] + rest && '\n' in rest && "" + [t[0]] == [t[0]];
      ScanCons(t[0], rest, Fresh(n));
      if t[0] == '\"' {
        BegunQuote(rest, Fresh(n).(quoted := true));
      } else {
        BegunWord(rest, Fresh(n).(val := [t[0]]));
      }
      assert Tokens(t + "\n" + r, n)[0].line == n;
      assert "\n" + r == ['\n'] + r;
      SkipSpace('\n', r, n);
      TokensLater(r, n + 1);
    }
  }

  /** A comment sign inside a word only hides what is left of the word: the sign is forgotten at the next
      white space, which ends the word. */
  lemma CommentInWord(s: string, c: string, r: string, n: nat)
    requires IsWord(s) && s != "" && s[0] != '\r' && s[0] != '\"' && '\n' !in c
    ensures '\n' !in Beyond(c)
    ensures Tokens(s + "#" + c + "\n" + r, n) == [Token(n, WithoutReturns(s))] + Tokens(Beyond(c) + "\n" + r, n)
  {
    hide Scan, Beyond;
    var p := Fresh(n).(val := WithoutReturns(s));
    assert s + "#" + c + "\n" + r == s + (['#'] + (c + "\n" + r));
    BeginWord(s, ['#'] + (c + "\n" + r), n);
    ScanCons('#', c + "\n" + r, p);
    BehindWord(c, r, p.(comment := true));
  }

  /** So it hides the rest of its line exactly if only white space and another comment follow that white
      space. */
  lemma CommentInWordIff(s: string, c: string, r: string, n: nat)
    requires IsWord(s) && s != "" && s[0] != '\r' && s[0] != '\"' && '\n' !in c
    ensures Tokens(s + "#" + c + "\n" + r, n) == Tokens(s + "\n" + r, n) <==> Blank(Beyond(c))
  {
    hide Scan, Tokens, Beyond, Blank;
    CommentInWord(s, c, r, n);
    assert s + "\n" + r == s + ("\n" + r);
    WordRule(s, "\n" + r, n);
    BlankIff(Beyond(c), r, n);
    var first := [Token(n, WithoutReturns(s))];
    var a, b := Tokens(Beyond(c) + "\n" + r, n), Tokens("\n" + r, n);
    assert (first + a)[1..] == a && (first + b)[1..] == b;
  }

  /** One such line: the comment sign does not hide the word after the space. */
  lemma CommentEndsEarly()
    ensures Tokens("a#b c\n", 1) == [Token(1, "a"), Token(1, "c")]
  {
    hide Scan, Tokens;
    assert "a#b c\n" == "a" + "#" + "b c" + "\n" + "";
    CommentInWord("a", "b c", "", 1);
    assert WithoutReturns("a") == "a" && WithoutReturns("c") == "c" && Beyond("b c") == "c";
    assert "c" + "\n" + "" == "c" + "\n" && "\n" == ['\n'] + "";
    WordRule("c", "\n", 1);
    SkipSpace('\n', "", 1);
    NoTokens(2);
  }
}
