// Splitting Caddyfile text into tokens.
module Lexer {
  import opened Common

  // The file is set on tokens that an import brings in; the lexer itself leaves it empty.
  datatype Token = Token(line: nat, text: string, file: string := "")

  // White space in the sense of Unicode.
  predicate IsSpace(ch: char)
  {
    var c := ch as int;
    || 0x09 <= c <= 0x0D || c == 0x20 || c == 0x85 || c == 0xA0 || c == 0x1680 || 0x2000 <= c <= 0x200A
    || c == 0x2028 || c == 0x2029 || c == 0x202F || c == 0x205F || c == 0x3000
  }

  /** The locals of the token loop: what has been read of the token, the flags, the line the token
      started on and the current line. */
  datatype Partial = Partial(val: string, comment: bool, quoted: bool, escaped: bool, start: nat, line: nat)

  // A token, the input after it and the line reached there.
  datatype Scanned = Scanned(token: Token, rest: string, line: nat)

  function Fresh(line: nat): Partial
  {
    Partial("", false, false, false, line, line)
  }

  // The loop body for a character inside quotes that does not end the token.
  function InQuotes(p: Partial, ch: char): Partial
  {
    if !p.escaped && ch == '\\' then p.(escaped := true)
    else p.(line := if ch == '\n' then p.line + 1 else p.line,
            val := p.val + (if p.escaped && ch != '\"' then ['\\'] else []) + [ch],
            escaped := false)
  }

  // The loop body for a character outside quotes that is not white space.
  function Outside(p: Partial, ch: char): Partial
  {
    if p.comment || ch == '#' then p.(comment := true)
    else
      var p1 := if p.val == "" then p.(start := p.line) else p;
      if p.val == "" && ch == '\"' then p1.(quoted := true) else p1.(val := p.val + [ch])
  }

  // The loop body for white space that does not end a token.
  function OverSpace(p: Partial, ch: char): Partial
  {
    if ch == '\n' then p.(line := p.line + 1, comment := false) else p
  }

  /** Reads on until a token is complete or the input ends. */
  function Scan(input: string, p: Partial): (r: Option<Scanned>)
    ensures r.Some? ==> |r.value.rest| < |input| || p.val != ""
    ensures r.Some? ==> |r.value.rest| <= |input|
    decreases |input|
  {
    if input == "" then
      if p.val != "" then Some(Scanned(Token(p.start, p.val), "", p.line)) else None
    else
      var ch, rest := input[0], input[1..];
      if p.quoted then
        if !p.escaped && ch == '\"' then Some(Scanned(Token(p.start, p.val), rest, p.line))
        else Scan(rest, InQuotes(p, ch))
      else if IsSpace(ch) then
        if ch != '\r' && p.val != "" then Some(Scanned(Token(p.start, p.val), rest, OverSpace(p, ch).line))
        else Scan(rest, OverSpace(p, ch))
      else Scan(rest, Outside(p, ch))
  }

  /** All tokens of a text that starts on the given line. */
  function Tokens(input: string, line: nat): seq<Token>
    decreases |input|
  {
    match Scan(input, Fresh(line))
    case None => []
    case Some(r) => [r.token] + Tokens(r.rest, r.line)
  }

  // A byte order mark at the very beginning is skipped.
  function WithoutMark(text: string): string
  {
    if text != "" && text[0] as int == 0xFEFF then text[1..] else text
  }

  class TextLexer {
    const input: string
    var pos: nat
    var token: Token
    var line: nat

    ghost predicate Valid()
      reads this
    {
      pos <= |input|
    }

    constructor (text: string)
      ensures Valid() && input == text && line == 1
      ensures pos == if text != "" && text[0] as int == 0xFEFF then 1 else 0
    {
      input := text;
      pos := if |text| > 0 && text[0] as int == 0xFEFF then 1 else 0;
      token := Token(0, "");
      line := 1;
    }

    /** Loads the next token; false at the end of the input. */
    method Next() returns (ok: bool)
      requires Valid()
      modifies this
      ensures Valid() && old(pos) <= pos
      ensures var r := Scan(old(input[pos..]), Fresh(old(line)));
        && ok == r.Some?
        && (ok ==> r.value == Scanned(token, input[pos..], line) && old(pos) < pos)
    {
      hide Scan;
      var val := "";
      var comment, quoted, escaped := false, false, false;
      var start := line;
      ghost var r := Scan(input[pos..], Fresh(line));
      while pos < |input|
        invariant Valid() && old(pos) <= pos
        invariant val != "" ==> old(pos) < pos
        invariant r == Scan(input[pos..], Partial(val, comment, quoted, escaped, start, line))
        decreases |input| - pos
      {
        var ch := input[pos];
        ghost var p := Partial(val, comment, quoted, escaped, start, line);
        ScanOne(input, pos, p);
        pos := pos + 1;
        if quoted {
          if !escaped {
            if ch == '\\' {
              escaped := true;
              continue;
            } else if ch == '\"' {
              token := Token(start, val);
              return true;
            }
          }
          if ch == '\n' {
            line := line + 1;
          }
          if escaped && ch != '\"' {
            val := val + ['\\'];
          }
          val := val + [ch];
          escaped := false;
          assert Partial(val, comment, quoted, escaped, start, line) == InQuotes(p, ch);
          continue;
        }
        if IsSpace(ch) {
          if ch == '\r' {
            continue;
          }
          if ch == '\n' {
            line := line + 1;
            comment := false;
          }
          if |val| > 0 {
            token := Token(start, val);
            return true;
          }
          continue;
        }
        if ch == '#' {
          comment := true;
        }
        if comment {
          continue;
        }
        if |val| == 0 {
          start := line;
          if ch == '\"' {
            quoted := true;
            continue;
          }
        }
        val := val + [ch];
      }
      ScanEnd(input, Partial(val, comment, quoted, escaped, start, line));
      if |val| > 0 {
        token := Token(start, val);
        return true;
      }
      return false;
    }
  }

  // One pass of the loop.
  lemma ScanOne(input: string, pos: nat, p: Partial)
    requires pos < |input|
    ensures var ch, rest := input[pos], input[pos + 1..];
      Scan(input[pos..], p) ==
        if p.quoted then
          if !p.escaped && ch == '\"' then Some(Scanned(Token(p.start, p.val), rest, p.line))
          else Scan(rest, InQuotes(p, ch))
        else if IsSpace(ch) then
          if ch != '\r' && p.val != "" then Some(Scanned(Token(p.start, p.val), rest, OverSpace(p, ch).line))
          else Scan(rest, OverSpace(p, ch))
        else Scan(rest, Outside(p, ch))
  {
    assert input[pos..][0] == input[pos] && input[pos..][1..] == input[pos + 1..];
  }

  lemma ScanEnd(input: string, p: Partial)
    ensures Scan(input[|input|..], p) ==
      if p.val != "" then Some(Scanned(Token(p.start, p.val), input[|input|..], p.line)) else None
  {
  }

  /** All tokens of a text, as the lexer delivers them; an empty text is an error. */
  method AllTokens(text: string) returns (r: Option<seq<Token>>)
    ensures text == "" ==> r == None
    ensures text != "" ==> r == Some(Tokens(if text[0] as int == 0xFEFF then text[1..] else text, 1))
  {
    if text == "" {
      return None;
    }
    var l := new TextLexer(text);
    var tokens := [];
    var ok := true;
    while ok
      invariant l.Valid() && fresh(l)
      invariant ok ==> Tokens(WithoutMark(text), 1) == tokens + Tokens(l.input[l.pos..], l.line)
      invariant !ok ==> Tokens(WithoutMark(text), 1) == tokens
      decreases |l.input| - l.pos, ok
    {
      ok := l.Next();
      if ok {
        tokens := tokens + [l.token];
      }
    }
    return Some(tokens);
  }
}
