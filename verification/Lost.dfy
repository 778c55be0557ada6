// What can become of a string that is not read back.
module Lost {
  import opened Common
  import opened Lexer
  import opened Printer

  // A string that is printed without quotes and starts like white space or a comment.
  predicate Vanishes(s: string)
  {
    !NeedsQuotes(s) && (s == "" || IsSpace(s[0]) || s[0] == '#')
  }

  // What every token is like: one that starts like white space or a comment was read in quotes.
  ghost predicate Readable(s: string)
  {
    s == "" || !(IsSpace(s[0]) || s[0] == '#') || EvenRuns(s)
  }

  // ---------------------------------------------------------------- tokens are readable

  lemma {:induction false} BalancedConcat(a: string, b: string, odd: bool)
    requires Balanced(a, odd) && Balanced(b, false)
    ensures Balanced(a + b, odd)
    decreases |a|
  {
    if a == "" {
      assert a + b == b;
    } else {
      assert (a + b)[1..] == a[1..] + b;
      BalancedConcat(a[1..], b, a[0] == '\\' && !odd);
    }
  }

  // In quotes, backslashes are kept in pairs or before something other than a quote.
  lemma QuotedStaysBalanced(p: Partial, ch: char)
    requires p.quoted && Balanced(p.val, false) && (ch == '\"' ==> p.escaped)
    ensures Balanced(InQuotes(p, ch).val, false)
  {
    if p.escaped || ch != '\\' {
      var added := (if p.escaped && ch != '\"' then ['\\'] else []) + [ch];
      assert Balanced(added, false) by {
        if |added| == 2 { assert added[1..] == [ch] && [ch][1..] == ""; } else { assert added[1..] == ""; }
      }
      BalancedConcat(p.val, added, false);
      assert InQuotes(p, ch).val == p.val + added;
    }
  }

  lemma {:induction false} ScanReadable(input: string, p: Partial)
    requires p.quoted ==> Balanced(p.val, false)
    requires !p.quoted && p.val != "" ==> !IsSpace(p.val[0]) && p.val[0] != '#'
    ensures Scan(input, p).Some? ==> Readable(Scan(input, p).value.token.text)
    decreases |input|
  {
    hide EvenRuns;
    if p.quoted { EvenRunsAreBalanced(p.val); }
    if input != "" {
      var ch, rest := input[0], input[1..];
      if p.quoted {
        if p.escaped || ch != '\"' {
          QuotedStaysBalanced(p, ch);
          ScanReadable(rest, InQuotes(p, ch));
        }
      } else if IsSpace(ch) {
        if p.val == "" || ch == '\r' { ScanReadable(rest, OverSpace(p, ch)); }
      } else {
        ScanReadable(rest, Outside(p, ch));
      }
    }
  }

  /** Every token of every text is readable. */
  lemma {:induction false} TokensReadable(input: string, n: nat)
    ensures forall i :: 0 <= i < |Tokens(input, n)| ==> Readable(Tokens(input, n)[i].text)
    decreases |input|
  {
    hide EvenRuns, Scan;
    ScanReadable(input, Fresh(n));
    match Scan(input, Fresh(n))
    case None =>
    case Some(x) => TokensReadable(x.rest, x.line);
  }

  // ---------------------------------------------------------------- safe texts

  // The loop stands between two tokens, perhaps in a comment.
  predicate Between(p: Partial)
  {
    p.val == "" && !p.quoted && !p.escaped
  }

  // The next token is not a string that vanishes.
  ghost predicate SafeFrom(text: string, p: Partial)
  {
    var x := Scan(text, p); x.Some? ==> !Vanishes(x.value.token.text)
  }

  ghost predicate Safe(text: string)
  {
    forall p :: Between(p) ==> SafeFrom(text, p)
  }

  // What may follow a string.
  predicate Ends(r: string)
  {
    r == "" || r[0] == ' ' || r[0] == '\n'
  }

  // A token that has been begun with something else stays something else.
  lemma Begun(text: string, p: Partial)
    requires p.val != "" && !Vanishes(p.val)
    ensures SafeFrom(text, p)
  {
    ScanExtends(text, p);
    var x := Scan(text, p);
    if x.Some? {
      var t := x.value.token.text;
      assert forall i :: 0 <= i < |p.val| ==> t[i] == p.val[i];
    }
  }

  lemma SafeNothing()
    ensures Safe("")
  {
  }

  lemma SafeChar(ch: char, r: string)
    requires ch != '\"' && Safe(r)
    ensures Safe([ch] + r)
  {
    hide Vanishes;
    forall p | Between(p) ensures SafeFrom([ch] + r, p) {
      assert ([ch] + r)[1..] == r;
      if IsSpace(ch) {
        assert SafeFrom(r, OverSpace(p, ch));
      } else if p.comment || ch == '#' {
        assert SafeFrom(r, Outside(p, ch));
      } else {
        assert "" + [ch] == [ch];
        OneChar(ch);
        Begun(r, Outside(p, ch));
      }
    }
  }

  lemma OneChar(ch: char)
    ensures Vanishes([ch]) ==> IsSpace(ch) || ch == '#'
    ensures ch == '\"' || ch == ' ' || ch == '\n' ==> !Vanishes([ch])
    ensures !IsSpace(ch) && ch != '#' ==> !Vanishes([ch]) && !Vanishes([ch, ch])
  {
    assert [ch][0] == ch && [ch, ch][0] == ch;
  }

  lemma SafeEscaped(r: string)
    requires Safe(r)
    ensures Safe(['\\'] + (['\"'] + r))
  {
    hide Vanishes;
    forall p | Between(p) ensures SafeFrom(['\\'] + (['\"'] + r), p) {
      assert (['\\'] + (['\"'] + r))[1..] == ['\"'] + r && (['\"'] + r)[1..] == r;
      if p.comment {
        assert Scan(['\"'] + r, p) == Scan(r, p);
        assert SafeFrom(r, p);
      } else {
        assert "" + ['\\'] == ['\\'];
        OneChar('\\');
        Begun(['\"'] + r, Outside(p, '\\'));
      }
    }
  }

  // A quote that closes a string is harmless where one would open a token.
  lemma SafeClosing(r: string)
    requires Safe(r) && Ends(r)
    ensures Safe(['\"'] + r)
  {
    hide Vanishes;
    forall p | Between(p) ensures SafeFrom(['\"'] + r, p) {
      assert (['\"'] + r)[1..] == r;
      if p.comment {
        assert SafeFrom(r, p);
      } else if r != "" {
        var q := Outside(p, '\"');
        assert r == [r[0]] + r[1..] && InQuotes(q, r[0]).val == [r[0]];
        ScanQuotedStep(r[0], r[1..], q);
        OneChar(r[0]);
        Begun(r[1..], InQuotes(q, r[0]));
      }
    }
  }

  // The inside of a quoted string, read as if it were outside.
  lemma {:induction false} SafeInside(t: string, r: string)
    requires Safe(r) && Ends(r)
    ensures Safe(ToRead(t, r))
    decreases |t|
  {
    hide Safe;
    if t == "" {
      assert ToRead(t, r) == ['\"'] + r;
      SafeClosing(r);
    } else {
      SafeInside(t[1..], r);
      var rest := ToRead(t[1..], r);
      if t[0] == '\"' {
        assert ToRead(t, r) == ['\\'] + (['\"'] + rest);
        SafeEscaped(rest);
      } else {
        assert ToRead(t, r) == [t[0]] + rest;
        SafeChar(t[0], rest);
      }
    }
  }

  lemma {:induction false} SafeBare(t: string, r: string)
    requires !NeedsQuotes(t) && Safe(r)
    ensures Safe(t + r)
    decreases |t|
  {
    hide Safe;
    if t == "" {
      assert t + r == r;
    } else {
      assert t[0] != '\"';
      assert forall i :: 0 <= i < |t[1..]| ==> t[1..][i] == t[i + 1];
      SafeBare(t[1..], r);
      assert t + r == [t[0]] + (t[1..] + r);
      SafeChar(t[0], t[1..] + r);
    }
  }

  // Read in quotes, a string comes back or leaves a token that starts as it does.
  lemma SafeQuoted(t: string, r: string, p: Partial)
    requires NeedsQuotes(t) && Readable(t) && p.quoted && p.val == "" && !p.escaped
    ensures SafeFrom(ToRead(t, r), p)
  {
    hide Scan, ToRead, EvenRuns, Escape;
    EvenRunsAreBalanced(t);
    if EvenRuns(t) {
      BalancedReadsBack(t, p, r);
      assert Expected(p, t) == t;
    } else {
      BeginsAlike(t, r, p);
    }
  }

  lemma BeginsAlike(t: string, r: string, p: Partial)
    requires t != "" && !IsSpace(t[0]) && t[0] != '#' && p.quoted && p.val == "" && !p.escaped
    ensures SafeFrom(ToRead(t, r), p)
  {
    hide Scan, SafeFrom, Vanishes;
    var rest := ToRead(t[1..], r);
    ReadCharScan(t, p, r);
    var q := AfterChar(p, t[0]);
    if t[0] == '\\' {
      var ch := rest[0];
      assert rest == [ch] + rest[1..];
      ScanQuotedStep(ch, rest[1..], q);
      assert InQuotes(q, ch).val == if ch == '\"' then ['\"'] else ['\\', ch];
      TwoChars(ch);
      Begun(rest[1..], InQuotes(q, ch));
      SameScan(rest, q, rest[1..], InQuotes(q, ch));
    } else {
      assert q.val == [t[0]];
      OneChar(t[0]);
      Begun(rest, q);
    }
    SameScan(ToRead(t, r), p, rest, q);
  }

  lemma TwoChars(ch: char)
    ensures !Vanishes(['\"']) && !Vanishes(['\\', ch])
  {
    OneChar('\"');
    assert ['\\', ch][0] == '\\';
  }

  lemma SameScan(a: string, p: Partial, b: string, q: Partial)
    requires Scan(a, p) == Scan(b, q)
    ensures SafeFrom(a, p) <==> SafeFrom(b, q)
  {
  }

  lemma SafeString(t: string, r: string)
    requires Readable(t) && Safe(r) && Ends(r)
    ensures Safe(PrintString(t) + r)
  {
    hide Vanishes, EvenRuns, Readable;
    if !NeedsQuotes(t) {
      SafeBare(t, r);
    } else {
      SafeInside(t, r);
      var text := PrintString(t) + r;
      forall p | Between(p) ensures SafeFrom(text, p) {
        assert text[0] == '\"' && text[1..] == ToRead(t, r);
        if p.comment {
          assert SafeFrom(ToRead(t, r), p);
        } else {
          SafeQuoted(t, r, Outside(p, '\"'));
        }
      }
    }
  }

  // ---------------------------------------------------------------- safe trees

  ghost predicate ValuesReadable(vs: seq<Value>)
    decreases vs, 1
  {
    vs == [] || (
      && (match vs[0] case Str(s) => Readable(s) case Block(lines) => LinesReadable(lines))
      && ValuesReadable(vs[1..]))
  }

  ghost predicate LinesReadable(lines: seq<Line>)
    decreases lines, 1
  {
    lines == [] || (ValuesReadable(lines[0].values) && LinesReadable(lines[1..]))
  }

  lemma Associate<T>(a: seq<T>, b: seq<T>, c: seq<T>)
    ensures (a + b) + c == a + (b + c)
  {
  }

  lemma BlockText(body: string, tabs: string, rest: string, r: string)
    ensures (("{\n" + body + tabs + "}") + "" + rest) + r == "{" + (['\n'] + (body + (tabs + ("}" + (rest + r)))))
  {
    var open := "{\n" + body + tabs;
    Associate(open, "}" + rest, r);
    Associate("{\n" + body, tabs, "}" + rest + r);
    Associate("{\n", body, tabs + ("}" + rest + r));
    assert open + "}" + "" + rest == open + ("}" + rest) && "}" + rest + r == "}" + (rest + r);
  }

  lemma {:induction false} SafeTabs(k: nat, r: string)
    requires Safe(r)
    ensures Safe(Tabs(k) + r)
  {
    hide Safe;
    if k == 0 {
      assert Tabs(0) + r == r;
    } else {
      SafeTabs(k - 1, r);
      assert Tabs(k) + r == ['\t'] + (Tabs(k - 1) + r);
      SafeChar('\t', Tabs(k - 1) + r);
    }
  }

  // What is printed after a closing brace.
  function AfterBlock(vs: seq<Value>, depth: nat, r: string): string
  {
    Tabs(if depth > 0 then depth - 1 else 0) + ("}" + (PrintValues(vs, depth) + r))
  }

  lemma SafeAfterBlock(vs: seq<Value>, depth: nat, r: string)
    requires Safe(PrintValues(vs, depth) + r)
    ensures Safe(AfterBlock(vs, depth, r))
  {
    hide Safe, PrintValues;
    SafeChar('}', PrintValues(vs, depth) + r);
    SafeTabs(if depth > 0 then depth - 1 else 0, "}" + (PrintValues(vs, depth) + r));
  }

  /** Printed values of readable strings, and what follows them, never yield a string that vanishes. */
  lemma {:induction false} SafeValues(vs: seq<Value>, depth: nat, r: string)
    requires ValuesReadable(vs) && Safe(r) && (r == "" || r[0] == '\n')
    ensures Safe(PrintValues(vs, depth) + r)
    decreases vs, 1
  {
    hide Safe, Readable, PrintString;
    if vs == [] {
      assert PrintValues(vs, depth) + r == r;
    } else {
      SafeValues(vs[1..], depth, r);
      match vs[0]
      case Str(s) => SafeFirstString(vs, depth, r);
      case Block(lines) =>
        SafeAfterBlock(vs[1..], depth, r);
        SafeLines(lines, depth, AfterBlock(vs[1..], depth, r));
        SafeFirstBlock(vs, lines, depth, r);
    }
  }

  // The separator and what is printed after a string.
  function AfterString(vs: seq<Value>, depth: nat, r: string): string
  {
    (if vs != [] then " " else "") + (PrintValues(vs, depth) + r)
  }

  lemma StringText(vs: seq<Value>, depth: nat, r: string)
    requires vs != [] && vs[0].Str?
    ensures PrintValues(vs, depth) + r == PrintString(vs[0].text) + AfterString(vs[1..], depth, r)
    ensures r == "" || r[0] == '\n' ==> Ends(AfterString(vs[1..], depth, r))
  {
    hide PrintString;
    var s, sep, rest := vs[0].text, if |vs| > 1 then " " else "", PrintValues(vs[1..], depth);
    assert PrintValues(vs, depth) == PrintString(s) + sep + rest;
    Associate(PrintString(s) + sep, rest, r);
    Associate(PrintString(s), sep, rest + r);
    if vs[1..] == [] { assert sep + (rest + r) == r; }
  }

  lemma SafeAfterString(vs: seq<Value>, depth: nat, r: string)
    requires Safe(PrintValues(vs, depth) + r)
    ensures Safe(AfterString(vs, depth, r))
  {
    hide Safe, PrintValues;
    var text := PrintValues(vs, depth) + r;
    if vs == [] {
      assert "" + text == text;
    } else {
      SafeChar(' ', text);
    }
  }

  lemma SafeFirstString(vs: seq<Value>, depth: nat, r: string)
    requires vs != [] && vs[0].Str? && Readable(vs[0].text) && (r == "" || r[0] == '\n')
    requires Safe(PrintValues(vs[1..], depth) + r)
    ensures Safe(PrintValues(vs, depth) + r)
  {
    hide Safe, Readable, PrintString, PrintValues, AfterString;
    StringText(vs, depth, r);
    SafeAfterString(vs[1..], depth, r);
    SafeString(vs[0].text, AfterString(vs[1..], depth, r));
  }

  lemma BlockFirstText(vs: seq<Value>, lines: seq<Line>, depth: nat, r: string)
    requires vs != [] && vs[0] == Block(lines)
    ensures PrintValues(vs, depth) + r == "{" + (['\n'] + (PrintLines(lines, depth) + AfterBlock(vs[1..], depth, r)))
  {
    hide PrintLines, Tabs;
    var tabs, rest := Tabs(if depth > 0 then depth - 1 else 0), PrintValues(vs[1..], depth);
    assert PrintValues(vs, depth) == ("{\n" + PrintLines(lines, depth) + tabs + "}") + "" + rest;
    BlockText(PrintLines(lines, depth), tabs, rest, r);
  }

  lemma SafeFirstBlock(vs: seq<Value>, lines: seq<Line>, depth: nat, r: string)
    requires vs != [] && vs[0] == Block(lines)
    requires Safe(PrintLines(lines, depth) + AfterBlock(vs[1..], depth, r))
    ensures Safe(PrintValues(vs, depth) + r)
  {
    hide Safe, PrintValues, PrintLines, AfterBlock;
    BlockFirstText(vs, lines, depth, r);
    var body := PrintLines(lines, depth) + AfterBlock(vs[1..], depth, r);
    SafeChar('\n', body);
    SafeChar('{', ['\n'] + body);
  }

  lemma {:induction false} SafeLines(lines: seq<Line>, depth: nat, r: string)
    requires LinesReadable(lines) && Safe(r)
    ensures Safe(PrintLines(lines, depth) + r)
    decreases lines, 1
  {
    hide Safe, Readable, PrintValues;
    if lines == [] {
      assert PrintLines(lines, depth) + r == r;
    } else {
      SafeLines(lines[1..], depth, r);
      var after := "\n" + (PrintLines(lines[1..], depth) + r);
      SafeChar('\n', PrintLines(lines[1..], depth) + r);
      SafeValues(lines[0].values, depth + 1, after);
      SafeTabs(depth, PrintValues(lines[0].values, depth + 1) + after);
      LineText(lines, depth, r);
    }
  }

  lemma LineText(lines: seq<Line>, depth: nat, r: string)
    requires lines != []
    ensures PrintLines(lines, depth) + r ==
      Tabs(depth) + (PrintValues(lines[0].values, depth + 1) + ("\n" + (PrintLines(lines[1..], depth) + r)))
  {
    hide PrintValues, Tabs;
    var tabs, values, rest := Tabs(depth), PrintValues(lines[0].values, depth + 1), PrintLines(lines[1..], depth);
    assert PrintLines(lines, depth) == tabs + values + "\n" + rest;
    Associate(tabs + values + "\n", rest, r);
    Associate(tabs + values, "\n", rest + r);
    Associate(tabs, values, "\n" + (rest + r));
  }
}
