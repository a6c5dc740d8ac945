/** The loops of parse_cmake (scripts/sbom/logsquirl_sbom.py): one index into the text and one
    line counter. */
module CMakeReader {
  import opened Options
  import opened Texts
  import opened CMakeCommands
  import opened CMakeLexer
  import opened CMakeLayout

  /** The line number the code promises at a position. */
  ghost predicate LineAt(text: string, i: nat, line: nat) {
    i <= |text| && line == 1 + Newlines(text[..i])
  }

  lemma LineMoves(text: string, i: nat, j: nat, line: nat)
    requires LineAt(text, i, line) && i <= j <= |text|
    ensures LineAt(text, j, line + Newlines(text[i..j]))
  {
    assert text[..j] == text[..i] + text[i..j];
    NewlinesAppend(text[..i], text[i..j]);
  }

  lemma LineMovesOne(text: string, i: nat, line: nat)
    requires LineAt(text, i, line) && i < |text|
    ensures LineAt(text, i + 1, if text[i] == '\n' then line + 1 else line)
  {
    LineMoves(text, i, i + 1, line);
    assert text[i..i + 1] == [text[i]];
    OneCharacter(text[i]);
  }

  lemma OneCharacter(c: char)
    ensures Newlines([c]) == if c == '\n' then 1 else 0
  {
    assert [c][1..] == "" && Newlines("") == 0;
  }

  lemma LineMovesComment(text: string, i: nat, line: nat)
    requires LineAt(text, i, line) && i < |text| && text[i] == '#' && SkipComment(text[i..]).Skipped?
    ensures var r := SkipComment(text[i..]); LineAt(text, i + r.length, line + r.newlines)
  {
    hide SkipComment, Newlines;
    var r := SkipComment(text[i..]);
    SkippedNewlines(text[i..]);
    assert text[i..][..r.length] == text[i..i + r.length];
    LineMoves(text, i, i + r.length, line);
  }

  lemma LineMovesString(text: string, i: nat, j: nat, line: nat)
    requires LineAt(text, i, line) && i < j < |text| && text[i] == '"' && text[j] == '"'
    ensures LineAt(text, j + 1, line + Newlines(text[i + 1..j]))
  {
    hide Newlines;
    var value := text[i + 1..j];
    assert text[i..j + 1] == "\"" + (value + "\"");
    NewlinesAppend("\"", value + "\"");
    NewlinesAppend(value, "\"");
    NoNewlines("\"");
    LineMoves(text, i, j + 1, line);
  }

  lemma LineMovesWord(text: string, i: nat, line: nat)
    requires LineAt(text, i, line)
    ensures LineAt(text, i + RunLength(text[i..], IsWordChar), line)
  {
    hide Newlines;
    var n := RunLength(text[i..], IsWordChar);
    assert text[i..i + n] == text[i..][..n];
    assert forall c :: c in text[i..][..n] ==> IsWordChar(c);
    NoNewlines(text[i..i + n]);
    LineMoves(text, i, i + n, line);
  }

  /** A skipped comment's line count is that of its text. */
  lemma SkippedNewlines(s: string)
    requires s != "" && s[0] == '#' && SkipComment(s).Skipped?
    ensures var r := SkipComment(s); Newlines(s[..r.length]) == r.newlines
  {
    hide RunLength, BracketLevel, Find, Newlines, Strip;
    var r, level := SkipComment(s), BracketLevel(s[1..]);
    if level.Some? {
      var k := level.value;
      var found := Find(s[k + 3..], BracketClose(k));
      var end := k + 3 + found.value;
      FoundHere(s[k + 3..], BracketClose(k));
      assert s[..r.length] == s[..end] + BracketClose(k);
      NewlinesAppend(s[..end], BracketClose(k));
      NoNewlines(BracketClose(k));
    } else {
      NoNewlines(s[..r.length]);
    }
  }

  lemma {:induction false} FoundHere(s: string, pat: string)
    requires Find(s, pat).Some?
    ensures var k := Find(s, pat).value; s[k..k + |pat|] == pat
  {
    if !(pat <= s) {
      FoundHere(s[1..], pat);
      var k := Find(s[1..], pat).value;
      assert s[k + 1..k + 1 + |pat|] == s[1..][k..k + |pat|];
    }
  }

  function Further(r: Option<nat>, n: nat): Option<nat> {
    if r.None? then None else Some(r.value + n)
  }

  lemma StringStep(text: string, j: nat)
    requires j < |text| && text[j] != '"'
    ensures var n := if text[j] == '\\' && j + 1 < |text| then 2 else 1;
            StringLength(text[j..]) == Further(StringLength(text[j + n..]), n)
  {
    var n := if text[j] == '\\' && j + 1 < |text| then 2 else 1;
    assert text[j..][n..] == text[j + n..];
  }

  method ReadString(text: string, start: nat) returns (j: nat, value: string)
    requires start <= |text|
    ensures start <= j <= |text|
    ensures j < |text| <==> StringLength(text[start..]).Some?
    ensures j < |text| ==> text[j] == '"'
    ensures j < |text| ==> j == start + StringLength(text[start..]).value && value == text[start..j]
  {
    hide StringLength;
    j := start;
    value := "";
    while j < |text| && text[j] != '"'
      invariant start <= j <= |text| && value == text[start..j]
      invariant StringLength(text[start..]) == Further(StringLength(text[j..]), j - start)
    {
      if text[j] == '\\' && j + 1 < |text| {
        StringStep(text, j);
        value := value + text[j..j + 2];
        j := j + 2;
      } else {
        StringStep(text, j);
        value := value + [text[j]];
        j := j + 1;
      }
    }
    StringStops(text[j..]);
  }

  lemma StringStops(s: string)
    requires s == "" || s[0] == '"'
    ensures StringLength(s) == if s == "" then None else Some(0)
  {
  }

  /** The lexer's cases, at a position of the whole text. */
  lemma LexArgsAt(text: string, i: nat, line: nat, args: seq<Arg>, depth: nat, name: string, cmdLine: nat)
    requires i < |text| && depth > 0
    ensures var all, c := LexArgs(text[i..], line, args, depth, name, cmdLine), text[i];
            if c == '\n' then all == LexArgs(text[i + 1..], line + 1, args, depth, name, cmdLine)
            else if IsSpace(c) then all == LexArgs(text[i + 1..], line, args, depth, name, cmdLine)
            else if c == '(' then
              all == LexArgs(text[i + 1..], line, args + [Arg("(", line, None)], depth + 1, name, cmdLine)
            else if c == ')' then
              if depth == 1 then all == Args(args, text[i + 1..], line)
              else all == LexArgs(text[i + 1..], line, args + [Arg(")", line, None)], depth - 1, name, cmdLine)
            else c == '#' || c == '"' || LexesAsWord(text, i, line, args, depth, name, cmdLine)
  {
    hide SkipComment, StringLength, RunLength, Newlines, IsWordChar;
    assert text[i..][1..] == text[i + 1..];
    if LexesAsWordHere(text[i]) { WordAt(text, i, line, args, depth, name, cmdLine); }
  }

  lemma ArgsRunOut(s: string, line: nat, args: seq<Arg>, depth: nat, name: string, cmdLine: nat)
    requires s == "" && depth > 0
    ensures LexArgs(s, line, args, depth, name, cmdLine) == ArgsFailed(UnterminatedCommand(cmdLine, name))
  {
  }

  predicate LexesAsWordHere(c: char) { !IsSpace(c) && c != '#' && c != '(' && c != ')' && c != '"' }

  ghost predicate LexesAsWord(text: string, i: nat, line: nat, args: seq<Arg>, depth: nat, name: string, cmdLine: nat)
    requires i <= |text| && depth > 0
  {
    var n := RunLength(text[i..], IsWordChar);
    LexArgs(text[i..], line, args, depth, name, cmdLine)
      == LexArgs(text[i + n..], line, args + [Arg(text[i..i + n], line, None)], depth, name, cmdLine)
  }

  lemma WordAt(text: string, i: nat, line: nat, args: seq<Arg>, depth: nat, name: string, cmdLine: nat)
    requires i < |text| && depth > 0 && LexesAsWordHere(text[i])
    ensures LexesAsWord(text, i, line, args, depth, name, cmdLine)
    ensures RunLength(text[i..], IsWordChar) > 0
  {
    hide SkipComment, StringLength, Newlines;
    var n := RunLength(text[i..], IsWordChar);
    assert IsWordChar(text[i..][0]);
    assert text[i..][n..] == text[i + n..] && text[i..i + n] == text[i..][..n];
  }

  lemma CommentAt(text: string, i: nat, line: nat, args: seq<Arg>, depth: nat, name: string, cmdLine: nat)
    requires i < |text| && depth > 0 && text[i] == '#'
    ensures var r := SkipComment(text[i..]);
            LexArgs(text[i..], line, args, depth, name, cmdLine)
            == (if r.Unterminated? then ArgsFailed(UnterminatedComment(line)) else
                LexArgs(text[i + r.length..], line + r.newlines, Attach(args, line, r.comment), depth, name, cmdLine))
  {
    hide SkipComment, StringLength, RunLength, Newlines, Attach;
    var r := SkipComment(text[i..]);
    if r.Skipped? { assert text[i..][r.length..] == text[i + r.length..]; }
  }

  lemma StringAt(text: string, i: nat, line: nat, args: seq<Arg>, depth: nat, name: string, cmdLine: nat)
    requires i < |text| && depth > 0 && text[i] == '"'
    ensures var n := StringLength(text[i + 1..]);
            LexArgs(text[i..], line, args, depth, name, cmdLine)
            == (if n.None? then ArgsFailed(UnterminatedString(line)) else
                var value := text[i + 1..i + 1 + n.value];
                LexArgs(text[i + n.value + 2..], line + Newlines(value), args + [Arg(value, line, None)], depth, name,
                        cmdLine))
  {
    hide SkipComment, StringLength, RunLength, Newlines;
    assert text[i..][1..] == text[i + 1..];
    var n := StringLength(text[i + 1..]);
    if n.Some? {
      assert text[i..][1..n.value + 1] == text[i + 1..i + 1 + n.value];
      assert text[i..][n.value + 2..] == text[i + n.value + 2..];
    }
  }

  /** The inner loop: from the opening parenthesis to the one that closes it. */
  method ReadArgs(text: string, start: nat, startLine: nat, name: string, cmdLine: nat)
      returns (i: nat, line: nat, args: seq<Arg>, error: Option<LexError>)
    requires start <= |text| && LineAt(text, start, startLine)
    ensures error.None? ==> start < i <= |text| && LineAt(text, i, line)
    ensures LexArgs(text[start..], startLine, [], 1, name, cmdLine)
         == if error.Some? then ArgsFailed(error.value) else Args(args, text[i..], line)
  {
    hide LineAt, SkipComment, Newlines, RunLength, StringLength, LexArgs, IsSpace, IsWordChar;
    i, line, args := start, startLine, [];
    var depth := 1;
    ghost var goal := LexArgs(text[start..], startLine, [], 1, name, cmdLine);
    while true
      invariant start <= i <= |text| && LineAt(text, i, line) && depth >= 1
      invariant goal == LexArgs(text[i..], line, args, depth, name, cmdLine)
      decreases |text| - i
    {
      if i >= |text| {
        ArgsRunOut(text[i..], line, args, depth, name, cmdLine);
        return i, line, args, Some(UnterminatedCommand(cmdLine, name));
      }
      var c := text[i];
      LexArgsAt(text, i, line, args, depth, name, cmdLine);
      if c == '\n' {
        LineMovesOne(text, i, line);
        line := line + 1;
        i := i + 1;
      } else if IsSpace(c) {
        LineMovesOne(text, i, line);
        i := i + 1;
      } else if c == '#' {
        CommentAt(text, i, line, args, depth, name, cmdLine);
        var r := SkipComment(text[i..]);
        if r.Unterminated? { return i, line, args, Some(UnterminatedComment(line)); }
        LineMovesComment(text, i, line);
        if r.comment.Some? && args != [] && args[|args| - 1].line == line {
          args := args[..|args| - 1] + [args[|args| - 1].(comment := r.comment)];
        }
        i, line := i + r.length, line + r.newlines;
      } else if c == '(' {
        LineMovesOne(text, i, line);
        depth := depth + 1;
        args := args + [Arg("(", line, None)];
        i := i + 1;
      } else if c == ')' {
        LineMovesOne(text, i, line);
        depth := depth - 1;
        i := i + 1;
        if depth == 0 { return i, line, args, None; }
        args := args + [Arg(")", line, None)];
      } else if c == '"' {
        StringAt(text, i, line, args, depth, name, cmdLine);
        var j, value := ReadString(text, i + 1);
        if j >= |text| { return i, line, args, Some(UnterminatedString(line)); }
        LineMovesString(text, i, j, line);
        args := args + [Arg(value, line, None)];
        line := line + Newlines(value);
        i := j + 1;
      } else {
        var n := RunLength(text[i..], IsWordChar);
        LineMovesWord(text, i, line);
        WordAt(text, i, line, args, depth, name, cmdLine);
        args := args + [Arg(text[i..i + n], line, None)];
        i := i + n;
      }
    }
  }

  lemma LayoutAt(text: string, i: nat, line: nat, commands: seq<Command>)
    requires i < |text| && (IsSpace(text[i]) || text[i] == '#')
    ensures var all, c := Lex(text[i..], line, commands), text[i];
            if c == '\n' then all == Lex(text[i + 1..], line + 1, commands)
            else if IsSpace(c) then all == Lex(text[i + 1..], line, commands)
            else var r := SkipComment(text[i..]);
                 all == if r.Unterminated? then Failed(UnterminatedComment(line))
                        else Lex(text[i + r.length..], line + r.newlines, commands)
  {
    hide SkipComment, NameLength, RunLength, LexArgs;
    assert text[i..][1..] == text[i + 1..];
    if text[i] == '#' {
      var r := SkipComment(text[i..]);
      if r.Skipped? { assert text[i..][r.length..] == text[i + r.length..]; }
    }
  }

  lemma CallAt(text: string, i: nat, line: nat, commands: seq<Command>)
    requires i < |text| && !IsSpace(text[i]) && text[i] != '#'
    ensures var all, n := Lex(text[i..], line, commands), NameLength(text[i..]);
            if n == 0 then all == Failed(ExpectedCommand(line))
            else
              var name, k := text[i..i + n], i + n + RunLength(text[i + n..], IsBlank);
              if k >= |text| || text[k] != '(' then all == Failed(NoParenthesis(line, name))
              else
                var r := LexArgs(text[k + 1..], line, [], 1, name, line);
                all == if r.ArgsFailed? then Failed(r.error)
                       else Lex(r.rest, r.line, commands + [Command(name, r.args, line)])
  {
    hide SkipComment, NameLength, RunLength, LexArgs, IsSpace;
    var s, n := text[i..], NameLength(text[i..]);
    assert text[i] != '\n' by { NewlineIsSpace(); }
    if n > 0 {
      var k := i + n + RunLength(text[i + n..], IsBlank);
      HeadInSuffix(text, i, n, k);
    }
  }

  lemma NewlineIsSpace()
    ensures IsSpace('\n')
  {
  }

  /** `parse_cmake`. At every step of the loop the line counter is one more than the line ends
      before the position. */
  method ParseCMake(text: string) returns (r: Lexed)
    ensures r == Lex(text, 1, [])
  {
    hide LineAt, SkipComment, Newlines, RunLength, NameLength, LexArgs, Lex, IsSpace, IsBlank;
    var commands: seq<Command>, i: nat, line: nat := [], 0, 1;
    assert text[0..] == text;
    assert LineAt(text, 0, 1) by { StartsAtLineOne(text); }
    while i < |text|
      invariant i <= |text| && LineAt(text, i, line)
      invariant Lex(text, 1, []) == Lex(text[i..], line, commands)
      decreases |text| - i
    {
      var c := text[i];
      NewlineIsSpace();
      if IsSpace(c) || c == '#' { LayoutAt(text, i, line, commands); }
      if c == '\n' {
        LineMovesOne(text, i, line);
        line := line + 1;
        i := i + 1;
      } else if IsSpace(c) {
        LineMovesOne(text, i, line);
        i := i + 1;
      } else if c == '#' {
        var s := SkipComment(text[i..]);
        if s.Unterminated? { return Failed(UnterminatedComment(line)); }
        LineMovesComment(text, i, line);
        i, line := i + s.length, line + s.newlines;
      } else {
        CallAt(text, i, line, commands);
        var start, n := i, NameLength(text[i..]);
        if n == 0 { return Failed(ExpectedCommand(line)); }
        var name, cmdLine := text[i..i + n], line;
        i := i + n;
        i := SkipBlanks(text, i);
        if i >= |text| || text[i] != '(' { return Failed(NoParenthesis(line, name)); }
        HeadHasNoNewlines(text, start, n, i, line);
        var args: seq<Arg>, error: Option<LexError>;
        i, line, args, error := ReadArgs(text, i + 1, line, name, cmdLine);
        if error.Some? { return Failed(error.value); }
        commands := commands + [Command(name, args, cmdLine)];
      }
    }
    LexRunsOut(text[i..], line, commands);
    return Commands(commands);
  }

  lemma LexRunsOut(s: string, line: nat, commands: seq<Command>)
    requires s == ""
    ensures Lex(s, line, commands) == Commands(commands)
  {
  }

  lemma StartsAtLineOne(text: string)
    ensures LineAt(text, 0, 1)
  {
    assert text[..0] == "";
  }

  /** The same positions, counted in what is left of the text. */
  lemma HeadInSuffix(text: string, start: nat, n: nat, i: nat)
    requires start + n <= |text| && start + n <= i <= |text|
    ensures var s := text[start..];
            && s[..n] == text[start..start + n] && s[n..] == text[start + n..] && |s| == |text| - start
            && (i < |text| ==> s[i - start] == text[i] && s[i - start + 1..] == text[i + 1..])
  {
  }

  method SkipBlanks(text: string, start: nat) returns (i: nat)
    requires start <= |text|
    ensures i == start + RunLength(text[start..], IsBlank)
  {
    i := start;
    while i < |text| && IsBlank(text[i])
      invariant start <= i <= |text|
      invariant start + RunLength(text[start..], IsBlank) == i + RunLength(text[i..], IsBlank)
    {
      assert text[i..][1..] == text[i + 1..];
      i := i + 1;
    }
  }

  lemma HeadHasNoNewlines(text: string, start: nat, n: nat, i: nat, line: nat)
    requires LineAt(text, start, line) && n == NameLength(text[start..]) && start + n <= |text|
    requires i == start + n + RunLength(text[start + n..], IsBlank) && i < |text| && text[i] == '('
    ensures LineAt(text, i + 1, line)
  {
    forall k | start <= k <= i ensures text[k] != '\n' {
      if k < start + n { assert text[k] == text[start..][k - start]; }
      else if k < i { assert text[k] == text[start + n..][k - start - n]; }
    }
    NoNewlines(text[start..i + 1]);
    LineMoves(text, start, i + 1, line);
  }
}
