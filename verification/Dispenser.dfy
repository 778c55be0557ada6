// Walking over tokens, and building a configuration tree from them.
module Dispenser {
  import opened Common
  import opened Lexer
  import opened Printer

  // Where a walk stands: what was built, the current token and the tokens after it.
  datatype Args = Args(values: seq<Value>, last: Token, rest: seq<Token>)
  datatype Lines = Lines(lines: seq<Line>, last: Token, rest: seq<Token>)

  // The next token is in the same file and on the line on which the current one ends.
  predicate SameLine(cur: Token, rest: seq<Token>)
  {
    rest != [] && cur.file == rest[0].file && cur.line + Breaks(cur.text) == rest[0].line
  }

  /** The arguments after the current token up to the end of its line. */
  function BuildArgs(cur: Token, rest: seq<Token>): (r: Args)
    ensures |r.rest| <= |rest|
    decreases |rest|, 0
  {
    if !SameLine(cur, rest) then Args([], cur, rest)
    else if rest[0].text == "{" then
      var b := BuildBlock(rest[0], rest[1..]);
      var more := BuildArgs(b.last, b.rest);
      more.(values := [Block(b.lines)] + more.values)
    else
      var more := BuildArgs(rest[0], rest[1..]);
      more.(values := [Str(rest[0].text)] + more.values)
  }

  /** The lines after an opening brace up to the closing one. */
  function BuildBlock(cur: Token, rest: seq<Token>): (r: Lines)
    ensures |r.rest| <= |rest|
    decreases |rest|, 1
  {
    if rest == [] then Lines([], cur, [])
    else if rest[0].text == "}" then Lines([], rest[0], rest[1..])
    else
      var line := BuildArgs(rest[0], rest[1..]);
      var more := BuildBlock(line.last, line.rest);
      more.(lines := [Line([Str(rest[0].text)] + line.values)] + more.lines)
  }

  class Cursor {
    const tokens: seq<Token>
    var cursor: int

    // The cursor is at -1 before the first token, and at 0 even without tokens after a first NextArg.
    ghost predicate Valid()
      reads this
    {
      -1 <= cursor && (cursor < |tokens| || cursor == 0)
    }

    // A token is loaded.
    ghost predicate Loaded()
      reads this
    {
      0 <= cursor < |tokens|
    }

    constructor (tokens: seq<Token>)
      ensures this.tokens == tokens && cursor == -1 && Valid()
    {
      this.tokens := tokens;
      cursor := -1;
    }

    /** Loads the next token. */
    method Next() returns (ok: bool)
      requires Valid()
      modifies this`cursor
      ensures Valid() && ok == (old(cursor) + 1 < |tokens|)
      ensures cursor == if ok then old(cursor) + 1 else old(cursor)
    {
      if cursor < |tokens| - 1 {
        cursor := cursor + 1;
        return true;
      }
      return false;
    }

    /** Loads the next token if it is on the same line; at the very beginning there is no line yet. */
    method NextArg() returns (ok: bool)
      requires Valid()
      modifies this`cursor
      ensures Valid() && cursor == if ok then old(cursor) + 1 else old(cursor)
      ensures ok <==> old(cursor) == -1 || (old(Loaded()) && SameLine(tokens[old(cursor)], tokens[old(cursor) + 1..]))
    {
      if cursor < 0 {
        cursor := cursor + 1;
        return true;
      }
      if cursor >= |tokens| {
        return false;
      }
      if cursor < |tokens| - 1 &&
         tokens[cursor].file == tokens[cursor + 1].file &&
         tokens[cursor].line + Breaks(tokens[cursor].text) == tokens[cursor + 1].line {
        cursor := cursor + 1;
        return true;
      }
      return false;
    }

    /** The text of the loaded token. */
    method Val() returns (s: string)
      requires Valid()
      ensures s == if Loaded() then tokens[cursor].text else ""
    {
      if cursor < 0 || cursor >= |tokens| {
        return "";
      }
      return tokens[cursor].text;
    }

    /** The line that starts with the loaded token. */
    method ConstructLine() returns (line: Line)
      requires Loaded()
      modifies this`cursor
      ensures Loaded() && old(cursor) <= cursor
      ensures var a := ArgsAt(tokens, old(cursor));
        line == Line([Str(tokens[old(cursor)].text)] + a.values) && Stands(tokens, cursor, a.last, a.rest)
      decreases |tokens| - cursor, 1
    {
      hide ArgsAt;
      var s := Val();
      var args := [Str(s)];
      ghost var a := Then(args, ArgsAt(tokens, cursor));
      while true
        invariant Loaded() && old(cursor) <= cursor
        invariant Then(args, ArgsAt(tokens, cursor)) == a
        decreases |tokens| - cursor
      {
        var v := NextValue();
        if v.None? {
          break;
        }
        ThenThen(args, v.value, ArgsAt(tokens, cursor));
        args := args + [v.value];
      }
      assert args + [] == args;
      return Line(args);
    }

    // The next argument or block on the line, if there is one.
    method NextValue() returns (v: Option<Value>)
      requires Loaded()
      modifies this`cursor
      ensures Loaded()
      ensures if v.None? then
          cursor == old(cursor) && ArgsAt(tokens, cursor) == Args([], tokens[cursor], tokens[cursor + 1..])
        else old(cursor) < cursor && ArgsAt(tokens, old(cursor)) == Then([v.value], ArgsAt(tokens, cursor))
      decreases |tokens| - cursor, 0
    {
      hide ArgsAt, BlockAt;
      ghost var c := cursor;
      ArgsUnfold(tokens, c);
      var more := NextArg();
      if !more {
        return None;
      }
      var s := Val();
      if s == "{" {
        var block := ConstructBlock();
        ArgsUnfoldBlock(tokens, c, cursor);
        return Some(Block(block));
      }
      return Some(Str(s));
    }

    /** The block that the loaded token opens. */
    method ConstructBlock() returns (block: seq<Line>)
      requires Loaded()
      modifies this`cursor
      ensures Loaded() && old(cursor) <= cursor
      ensures var b := BlockAt(tokens, old(cursor)); block == b.lines && Stands(tokens, cursor, b.last, b.rest)
      decreases |tokens| - cursor, 2
    {
      hide ArgsAt, BlockAt;
      ghost var b := BlockAt(tokens, cursor);
      block := [];
      while true
        invariant Loaded() && old(cursor) <= cursor
        invariant Before(block, BlockAt(tokens, cursor)) == b
        decreases |tokens| - cursor
      {
        ghost var c := cursor;
        BlockUnfold(tokens, c);
        var more := Next();
        if !more {
          break;
        }
        var s := Val();
        if s == "}" {
          break;
        }
        var line := ConstructLine();
        BlockUnfoldLine(tokens, c, cursor);
        BeforeBefore(block, line, BlockAt(tokens, cursor));
        block := block + [line];
      }
      assert block + [] == block;
    }
  }

  // The cursor at c stands on the token cur, with rest after it.
  ghost predicate Stands(tokens: seq<Token>, c: int, cur: Token, rest: seq<Token>)
  {
    0 <= c < |tokens| && cur == tokens[c] && rest == tokens[c + 1..]
  }

  ghost function ArgsAt(tokens: seq<Token>, c: int): Args
    requires 0 <= c < |tokens|
  {
    BuildArgs(tokens[c], tokens[c + 1..])
  }

  ghost function BlockAt(tokens: seq<Token>, c: int): Lines
    requires 0 <= c < |tokens|
  {
    BuildBlock(tokens[c], tokens[c + 1..])
  }

  function Then(values: seq<Value>, a: Args): Args { a.(values := values + a.values) }

  function Before(lines: seq<Line>, b: Lines): Lines { b.(lines := lines + b.lines) }

  lemma ThenThen(values: seq<Value>, v: Value, a: Args)
    ensures Then(values, Then([v], a)) == Then(values + [v], a)
  {
    assert values + ([v] + a.values) == values + [v] + a.values;
  }

  lemma BeforeBefore(lines: seq<Line>, l: Line, b: Lines)
    ensures Before(lines, Before([l], b)) == Before(lines + [l], b)
  {
    assert lines + ([l] + b.lines) == lines + [l] + b.lines;
  }

  lemma ArgsUnfold(tokens: seq<Token>, c: int)
    requires 0 <= c < |tokens|
    ensures !SameLine(tokens[c], tokens[c + 1..]) ==> ArgsAt(tokens, c) == Args([], tokens[c], tokens[c + 1..])
    ensures SameLine(tokens[c], tokens[c + 1..]) && tokens[c + 1].text != "{" ==>
      ArgsAt(tokens, c) == Then([Str(tokens[c + 1].text)], ArgsAt(tokens, c + 1))
  {
    if c + 1 < |tokens| { assert tokens[c + 1..][0] == tokens[c + 1] && tokens[c + 1..][1..] == tokens[c + 2..]; }
  }

  lemma ArgsUnfoldBlock(tokens: seq<Token>, c: int, d: int)
    requires 0 <= c && c + 1 < |tokens| && SameLine(tokens[c], tokens[c + 1..]) && tokens[c + 1].text == "{"
    requires var b := BlockAt(tokens, c + 1); Stands(tokens, d, b.last, b.rest)
    ensures ArgsAt(tokens, c) == Then([Block(BlockAt(tokens, c + 1).lines)], ArgsAt(tokens, d))
  {
    assert tokens[c + 1..][0] == tokens[c + 1] && tokens[c + 1..][1..] == tokens[c + 2..];
  }

  lemma BlockUnfold(tokens: seq<Token>, c: int)
    requires 0 <= c < |tokens|
    ensures c + 1 == |tokens| ==> BlockAt(tokens, c) == Lines([], tokens[c], tokens[c + 1..])
    ensures c + 1 < |tokens| && tokens[c + 1].text == "}" ==>
      BlockAt(tokens, c) == Lines([], tokens[c + 1], tokens[c + 2..])
  {
    if c + 1 < |tokens| { assert tokens[c + 1..][0] == tokens[c + 1] && tokens[c + 1..][1..] == tokens[c + 2..]; }
  }

  lemma BlockUnfoldLine(tokens: seq<Token>, c: int, d: int)
    requires 0 <= c && c + 1 < |tokens| && tokens[c + 1].text != "}"
    requires var a := ArgsAt(tokens, c + 1); Stands(tokens, d, a.last, a.rest)
    ensures BlockAt(tokens, c) ==
      Before([Line([Str(tokens[c + 1].text)] + ArgsAt(tokens, c + 1).values)], BlockAt(tokens, d))
  {
    assert tokens[c + 1..][0] == tokens[c + 1] && tokens[c + 1..][1..] == tokens[c + 2..];
  }

  // ---------------------------------------------------------------- what makes up a line

  // Token i + 1 comes from the file of token i and starts on the line on which that one ends.
  ghost predicate Joined(tokens: seq<Token>, i: nat)
    requires i + 1 < |tokens|
  {
    tokens[i + 1].file == tokens[i].file && tokens[i + 1].line == tokens[i].line + Breaks(tokens[i].text)
  }

  // The tokens from c to d are of one line, and no block opens among them.
  ghost predicate OneLine(tokens: seq<Token>, c: nat, d: nat)
    requires c <= d < |tokens|
  {
    forall i :: c <= i < d ==> Joined(tokens, i) && tokens[i + 1].text != "{"
  }

  lemma {:induction false} OneFile(tokens: seq<Token>, c: nat, d: nat)
    requires c <= d < |tokens| && OneLine(tokens, c, d)
    ensures forall i :: c <= i <= d ==> tokens[i].file == tokens[c].file
    decreases d - c
  {
    if c < d {
      assert Joined(tokens, d - 1);
      OneFile(tokens, c, d - 1);
    }
  }

  lemma LineGrows(tokens: seq<Token>, c: nat, d: nat)
    requires c + 1 <= d < |tokens| && Joined(tokens, c) && tokens[c + 1].text != "{" && OneLine(tokens, c + 1, d)
    ensures OneLine(tokens, c, d)
  {
  }

  lemma TextsCons(tokens: seq<Token>, c: nat, d: nat)
    requires c + 1 <= d < |tokens|
    ensures Texts(tokens[c + 1..d + 1]) == [Str(tokens[c + 1].text)] + Texts(tokens[c + 2..d + 1])
  {
    assert tokens[c + 1..d + 1] == [tokens[c + 1]] + tokens[c + 2..d + 1];
  }

  /** The arguments of a line, up to its first block, are the texts of the longest run of tokens that
      come from one file and each start on the line on which the one before ends. */
  lemma {:induction false} PlainArgs(tokens: seq<Token>, c: nat) returns (d: nat)
    requires c < |tokens|
    ensures c <= d < |tokens| && OneLine(tokens, c, d)
    ensures ArgsAt(tokens, c) == Then(Texts(tokens[c + 1..d + 1]), ArgsAt(tokens, d))
    ensures forall i :: c <= i <= d ==> tokens[i].file == tokens[c].file
    ensures d + 1 < |tokens| && Joined(tokens, d) ==> tokens[d + 1].text == "{"
    ensures d + 1 == |tokens| || !Joined(tokens, d) ==> ArgsAt(tokens, d).values == []
    decreases |tokens| - c
  {
    hide ArgsAt, OneLine, Texts;
    ArgsUnfold(tokens, c);
    if c + 1 < |tokens| && Joined(tokens, c) && tokens[c + 1].text != "{" {
      d := PlainArgs(tokens, c + 1);
      LineGrows(tokens, c, d);
      TextsCons(tokens, c, d);
    } else {
      d := c;
      NoTexts(tokens, c);
      assert Then([], ArgsAt(tokens, c)) == ArgsAt(tokens, c);
    }
    OneFile(tokens, c, d);
  }

  lemma NoTexts(tokens: seq<Token>, c: nat)
    requires c < |tokens|
    ensures OneLine(tokens, c, c) && Texts(tokens[c + 1..c + 1]) == []
  {
  }

  function Texts(tokens: seq<Token>): seq<Value>
  {
    seq(|tokens|, i requires 0 <= i < |tokens| => Str(tokens[i].text))
  }

  /** Tokens of two files are never on one line: where the file changes the line ends. */
  lemma FilesApart(tokens: seq<Token>, c: nat)
    requires c + 1 < |tokens| && tokens[c].file != tokens[c + 1].file
    ensures !SameLine(tokens[c], tokens[c + 1..]) && ArgsAt(tokens, c).values == []
  {
    ArgsUnfold(tokens, c);
  }
}
