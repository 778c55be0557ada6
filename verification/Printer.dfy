// Writing Caddyfile text, and reading quoted strings back.
module Printer {
  import opened Common
  import opened Lexer

  /** A configuration tree: a line holds strings and blocks of lines. */
  datatype Value = Str(text: string) | Block(lines: seq<Line>)
  datatype Line = Line(values: seq<Value>)

  predicate NeedsQuotes(s: string)
  {
    exists i :: 0 <= i < |s| && s[i] in {'\"', ' ', '\n', '\t', '\r'}
  }

  function Escape(s: string): string
  {
    if s == "" then "" else (if s[0] == '\"' then ['\\', '\"'] else [s[0]]) + Escape(s[1..])
  }

  function PrintString(s: string): string
  {
    if NeedsQuotes(s) then ['\"'] + Escape(s) + ['\"'] else s
  }

  lemma {:induction false} EscapeIsNotShorter(s: string)
    ensures |Escape(s)| >= |s|
  {
    if s != "" { EscapeIsNotShorter(s[1..]); }
  }

  /** A string is printed as it is exactly if it holds no quote, space, line break, tab or carriage
      return. */
  lemma PrintedBareIff(s: string)
    ensures PrintString(s) == s <==> forall i :: 0 <= i < |s| ==> s[i] !in {'\"', ' ', '\n', '\t', '\r'}
  {
    EscapeIsNotShorter(s);
  }

  function Tabs(n: nat): (r: string)
    ensures |r| == n && forall i :: 0 <= i < n ==> r[i] == '\t'
  {
    if n == 0 then "" else ['\t'] + Tabs(n - 1)
  }

  // The values of a line. Only strings are followed by a space.
  function PrintValues(vs: seq<Value>, depth: nat): string
    decreases vs, 1
  {
    if vs == [] then "" else
    PrintValue(vs[0], depth) + (if vs[0].Str? && |vs| > 1 then " " else "") + PrintValues(vs[1..], depth)
  }

  function PrintValue(v: Value, depth: nat): string
    decreases v, 0
  {
    match v
    case Str(s) => PrintString(s)
    case Block(lines) => "{\n" + PrintLines(lines, depth) + Tabs(if depth > 0 then depth - 1 else 0) + "}"
  }

  function PrintLines(lines: seq<Line>, depth: nat): string
    decreases lines, 1
  {
    if lines == [] then "" else
    Tabs(depth) + PrintValues(lines[0].values, depth + 1) + "\n" + PrintLines(lines[1..], depth)
  }

  /** The text of a server block's body. */
  function PrintBody(lines: seq<Line>): string
  {
    " {\n" + PrintLines(lines, 1) + "}"
  }

  function Breaks(s: string): nat
  {
    if s == "" then 0 else (if s[0] == '\n' then 1 else 0) + Breaks(s[1..])
  }

  // ---------------------------------------------------------------- quoting

  // Number of backslashes right before place i.
  function RunBefore(s: string, i: nat): nat
    requires i <= |s|
  {
    if i == 0 || s[i - 1] != '\\' then 0 else 1 + RunBefore(s, i - 1)
  }

  // Every run of backslashes before a quote or the end has even length.
  ghost predicate EvenRuns(s: string)
  {
    EvenFrom(s, 0)
  }

  ghost predicate EvenFrom(s: string, i: nat)
  {
    forall j :: i <= j <= |s| && (j == |s| || s[j] == '\"') ==> RunBefore(s, j) % 2 == 0
  }

  // The same, read from left to right: odd says that an odd run of backslashes has just gone by.
  predicate Balanced(s: string, odd: bool)
  {
    if s == "" then !odd
    else if s[0] == '\\' then Balanced(s[1..], !odd)
    else if s[0] == '\"' then !odd && Balanced(s[1..], false)
    else Balanced(s[1..], false)
  }

  lemma {:induction false} BalancedFrom(s: string, i: nat)
    requires i <= |s|
    ensures Balanced(s[i..], RunBefore(s, i) % 2 == 1) <==> EvenFrom(s, i)
    decreases |s| - i
  {
    if i < |s| {
      BalancedFrom(s, i + 1);
      assert s[i..][1..] == s[i + 1..] && s[i..][0] == s[i];
      assert RunBefore(s, i + 1) == if s[i] == '\\' then 1 + RunBefore(s, i) else 0;
    }
  }

  lemma EvenRunsAreBalanced(s: string)
    ensures EvenRuns(s) <==> Balanced(s, false)
  {
    hide EvenFrom;
    BalancedFrom(s, 0);
    assert s[0..] == s && RunBefore(s, 0) == 0;
  }

  // What a quoted token will hold once s has been read, given what is pending.
  function Expected(p: Partial, s: string): string
  {
    p.val + (if p.escaped then ['\\'] else []) + s
  }

  lemma ScanQuotedStep(ch: char, input: string, p: Partial)
    requires p.quoted
    ensures Scan([ch] + input, p) ==
      if !p.escaped && ch == '\"' then Some(Scanned(Token(p.start, p.val), input, p.line))
        else Scan(input, InQuotes(p, ch))
  {
    assert ([ch] + input)[1..] == input;
  }

  // The loop after a character of the original string has been read, escaped or not.
  function AfterChar(p: Partial, ch: char): Partial
  {
    if ch == '\"' then InQuotes(InQuotes(p, '\\'), ch) else InQuotes(p, ch)
  }

  // The text that is left to read: the rest of the string, the closing quote and what follows.
  function ToRead(s: string, r: string): string
  {
    Escape(s) + ['\"'] + r
  }

  // Reading one character of the string, unless a quote meets an odd run of backslashes.
  lemma ReadChar(s: string, p: Partial, r: string)
    requires p.quoted && s != "" && !(s[0] == '\"' && p.escaped)
    ensures var q := AfterChar(p, s[0]);
      && Scan(ToRead(s, r), p) == Scan(ToRead(s[1..], r), q)
      && Expected(q, s[1..]) == Expected(p, s)
      && q.quoted && q.start == p.start && q.escaped == (s[0] == '\\' && !p.escaped)
      && q.line == p.line + (if s[0] == '\n' then 1 else 0)
  {
    hide Scan, ToRead, Expected;
    ReadCharScan(s, p, r);
    ReadCharText(s, p);
  }

  lemma ReadCharScan(s: string, p: Partial, r: string)
    requires p.quoted && s != "" && !(s[0] == '\"' && p.escaped)
    ensures Scan(ToRead(s, r), p) == Scan(ToRead(s[1..], r), AfterChar(p, s[0]))
  {
    hide Scan;
    var ch, rest := s[0], ToRead(s[1..], r);
    if ch == '\"' {
      assert ToRead(s, r) == ['\\'] + (['\"'] + rest);
      ScanQuotedStep('\\', ['\"'] + rest, p);
      ScanQuotedStep('\"', rest, InQuotes(p, '\\'));
    } else {
      assert ToRead(s, r) == [ch] + rest;
      ScanQuotedStep(ch, rest, p);
    }
  }

  lemma ReadCharText(s: string, p: Partial)
    requires p.quoted && s != "" && !(s[0] == '\"' && p.escaped)
    ensures Expected(AfterChar(p, s[0]), s[1..]) == Expected(p, s)
  {
    var ch, tail, back := s[0], s[1..], ['\\'];
    assert s == [ch] + tail;
    if ch == '\\' && !p.escaped {
      assert p.val + back + tail == p.val + [] + s;
    } else if p.escaped {
      assert p.val + back + [ch] + [] + tail == p.val + back + s;
    } else {
      assert p.val + [] + [ch] + [] + tail == p.val + [] + s;
    }
  }

  /** A balanced string is read back whole. */
  lemma {:induction false} BalancedReadsBack(s: string, p: Partial, r: string)
    requires p.quoted && Balanced(s, p.escaped)
    ensures Scan(ToRead(s, r), p) == Some(Scanned(Token(p.start, Expected(p, s)), r, p.line + Breaks(s)))
    decreases |s|
  {
    hide Scan, AfterChar, Expected, ToRead;
    if s == "" {
      CloseQuote(p, r);
    } else {
      ReadChar(s, p, r);
      BalancedReadsBack(s[1..], AfterChar(p, s[0]), r);
    }
  }

  lemma CloseQuote(p: Partial, r: string)
    requires p.quoted && !p.escaped
    ensures Scan(ToRead("", r), p) == Some(Scanned(Token(p.start, Expected(p, "")), r, p.line))
  {
    assert ToRead("", r) == ['\"'] + r;
    ScanQuotedStep('\"', r, p);
    assert Expected(p, "") == p.val;
  }

  lemma {:induction false} ScanExtends(input: string, p: Partial)
    ensures Scan(input, p).Some? ==> p.val <= Scan(input, p).value.token.text
    decreases |input|
  {
    if input != "" {
      var ch, rest := input[0], input[1..];
      if p.quoted {
        ScanExtends(rest, InQuotes(p, ch));
      } else if IsSpace(ch) {
        ScanExtends(rest, OverSpace(p, ch));
      } else {
        ScanExtends(rest, Outside(p, ch));
      }
    }
  }

  /** An unbalanced string is not read back: the token ends early, or a quote takes the place of a
      backslash. */
  lemma {:induction false} UnbalancedIsGarbled(s: string, p: Partial, r: string)
    requires p.quoted && !Balanced(s, p.escaped)
    ensures var x := Scan(ToRead(s, r), p); x.Some? ==> x.value.token.text != Expected(p, s)
    decreases |s|
  {
    hide Scan, AfterChar, Expected, ToRead;
    if s == "" {
      OddRunAtEnd(p, r);
    } else if s[0] == '\"' && p.escaped {
      OddRunAtQuote(s, p, r);
    } else {
      ReadChar(s, p, r);
      UnbalancedIsGarbled(s[1..], AfterChar(p, s[0]), r);
    }
  }

  // The closing quote is taken for an escaped one.
  lemma OddRunAtEnd(p: Partial, r: string)
    requires p.quoted && p.escaped
    ensures var x := Scan(ToRead("", r), p); x.Some? ==> x.value.token.text != Expected(p, "")
  {
    hide Scan;
    assert ToRead("", r) == ['\"'] + r;
    ScanQuotedStep('\"', r, p);
    var q := InQuotes(p, '\"');
    ScanExtends(r, q);
    assert q.val[|p.val|] == '\"' && Expected(p, "")[|p.val|] == '\\';
  }

  // The quote inside the string ends the token.
  lemma OddRunAtQuote(s: string, p: Partial, r: string)
    requires p.quoted && p.escaped && s != "" && s[0] == '\"'
    ensures var x := Scan(ToRead(s, r), p); x.Some? ==> x.value.token.text != Expected(p, s)
  {
    hide Scan;
    var rest := ToRead(s[1..], r);
    var e := InQuotes(p, '\\');
    assert ToRead(s, r) == ['\\'] + (['\"'] + rest);
    ScanQuotedStep('\\', ['\"'] + rest, p);
    ScanQuotedStep('\"', rest, e);
    assert Expected(p, s)[|p.val| + 1] == '\"' && e.val[|p.val| + 1] == '\\';
  }

  lemma OpenQuote(s: string, r: string, line: nat)
    requires NeedsQuotes(s)
    ensures Scan(PrintString(s) + r, Fresh(line)) == Scan(ToRead(s, r), Fresh(line).(quoted := true))
  {
    var input := PrintString(s) + r;
    assert input[0] == '\"' && input[1..] == ToRead(s, r);
  }

  /** A quoted string, whatever follows it, is read back as the token it was exactly if every run of
      backslashes before a quote or the end is even; the lexer's line then moves by the line breaks
      in the string. */
  lemma QuotingRoundTripIff(s: string, r: string, line: nat)
    requires NeedsQuotes(s)
    ensures Scan(PrintString(s) + r, Fresh(line)) == Some(Scanned(Token(line, s), r, line + Breaks(s))) <==> EvenRuns(s)
    ensures var x := Scan(PrintString(s) + r, Fresh(line)); x.Some? && x.value.token.text == s ==> EvenRuns(s)
  {
    hide Scan, EvenRuns, PrintString, ToRead;
    EvenRunsAreBalanced(s);
    var p := Fresh(line).(quoted := true);
    OpenQuote(s, r, line);
    assert Expected(p, s) == s;
    if Balanced(s, false) {
      BalancedReadsBack(s, p, r);
    } else {
      UnbalancedIsGarbled(s, p, r);
    }
  }
}
