/** The hand-written CMake lexer (scripts/sbom/logsquirl_sbom.py, parse_cmake), first as
    functions of the text that is left, then as the loops of the code. */
module CMakeLexer {
  import opened Options
  import opened Texts
  import opened CMakeCommands

  datatype LexError =
    | UnterminatedComment(line: nat)
    | ExpectedCommand(line: nat)
    | NoParenthesis(line: nat, name: string)
    | UnterminatedCommand(line: nat, name: string)
    | UnterminatedString(line: nat)

  datatype Lexed = Commands(commands: seq<Command>) | Failed(error: LexError)

  // ---------- Characters ----------

  predicate IsNameStart(c: char) { 'A' <= c <= 'Z' || 'a' <= c <= 'z' || c == '_' }

  predicate IsNameChar(c: char) { IsNameStart(c) || '0' <= c <= '9' }

  predicate IsBlank(c: char) { c == ' ' || c == '\t' }

  predicate IsWordChar(c: char) { !IsSpace(c) && c != '(' && c != ')' && c != '#' && c != '"' }

  function NameLength(s: string): (n: nat)
    ensures n <= |s|
  {
    if s == "" || !IsNameStart(s[0]) then 0 else RunLength(s, IsNameChar)
  }

  function Newlines(s: string): nat {
    if s == "" then 0 else (if s[0] == '\n' then 1 else 0) + Newlines(s[1..])
  }

  function Equals(n: nat): string { seq(n, _ => '=') }

  // ---------- Comments and strings ----------

  /** After a `#`: the level of a bracket comment's opening `[==[`, if there is one. */
  function BracketLevel(s: string): (r: Option<nat>)
    ensures r.Some? ==> r.value + 2 <= |s|
  {
    if s == "" || s[0] != '[' then None
    else
      var k := RunLength(s[1..], c => c == '=');
      if k + 1 < |s| && s[k + 1] == '[' then Some(k) else None
  }

  datatype Skipped = Skipped(length: nat, newlines: nat, comment: Option<string>) | Unterminated

  /** A comment, `s` starting with its `#`; only one to the end of the line has text to keep. */
  function SkipComment(s: string): (r: Skipped)
    requires s != "" && s[0] == '#'
    ensures r.Skipped? ==> 0 < r.length <= |s|
  {
    var level := BracketLevel(s[1..]);
    if level.Some? then
      var k := level.value;
      var found := Find(s[k + 3..], "]" + Equals(k) + "]");
      if found.None? then Unterminated
      else
        var end := k + 3 + found.value;
        Skipped(end + k + 2, Newlines(s[..end]), None)
    else
      var end := RunLength(s, c => c != '\n');
      assert end > 0;
      Skipped(end, 0, Some(Strip(s[1..end])))
  }

  /** The length of a quoted string's body; a backslash keeps the character after it inside. */
  function StringLength(s: string): (r: Option<nat>)
    ensures r.Some? ==> r.value < |s| && s[r.value] == '"'
    decreases |s|
  {
    if s == "" then None
    else if s[0] == '"' then Some(0)
    else
      var n := if s[0] == '\\' && |s| > 1 then 2 else 1;
      var r := StringLength(s[n..]);
      if r.None? then None else Some(r.value + n)
  }

  // ---------- Arguments and commands ----------

  datatype ArgsLexed = Args(args: seq<Arg>, rest: string, line: nat) | ArgsFailed(error: LexError)

  function Attach(args: seq<Arg>, line: nat, comment: Option<string>): seq<Arg> {
    if comment.Some? && args != [] && args[|args| - 1].line == line
    then args[..|args| - 1] + [args[|args| - 1].(comment := comment)]
    else args
  }

  /** What follows a command's opening parenthesis, to the one that closes it. */
  function LexArgs(s: string, line: nat, args: seq<Arg>, depth: nat, name: string, cmdLine: nat): (r: ArgsLexed)
    requires depth > 0
    ensures r.Args? ==> |r.rest| < |s|
    decreases |s|
  {
    if s == "" then ArgsFailed(UnterminatedCommand(cmdLine, name))
    else if s[0] == '\n' then LexArgs(s[1..], line + 1, args, depth, name, cmdLine)
    else if IsSpace(s[0]) then LexArgs(s[1..], line, args, depth, name, cmdLine)
    else if s[0] == '#' then
      var r := SkipComment(s);
      if r.Unterminated? then ArgsFailed(UnterminatedComment(line))
      else LexArgs(s[r.length..], line + r.newlines, Attach(args, line, r.comment), depth, name, cmdLine)
    else if s[0] == '(' then LexArgs(s[1..], line, args + [Arg("(", line, None)], depth + 1, name, cmdLine)
    else if s[0] == ')' then
      if depth == 1 then Args(args, s[1..], line)
      else LexArgs(s[1..], line, args + [Arg(")", line, None)], depth - 1, name, cmdLine)
    else if s[0] == '"' then
      var n := StringLength(s[1..]);
      if n.None? then ArgsFailed(UnterminatedString(line))
      else
        var value := s[1..n.value + 1];
        LexArgs(s[n.value + 2..], line + Newlines(value), args + [Arg(value, line, None)], depth, name, cmdLine)
    else
      var n := RunLength(s, IsWordChar);
      assert n > 0;
      LexArgs(s[n..], line, args + [Arg(s[..n], line, None)], depth, name, cmdLine)
  }

  function Lex(s: string, line: nat, commands: seq<Command>): Lexed
    decreases |s|
  {
    if s == "" then Commands(commands)
    else if s[0] == '\n' then Lex(s[1..], line + 1, commands)
    else if IsSpace(s[0]) then Lex(s[1..], line, commands)
    else if s[0] == '#' then
      var r := SkipComment(s);
      if r.Unterminated? then Failed(UnterminatedComment(line))
      else Lex(s[r.length..], line + r.newlines, commands)
    else
      var n := NameLength(s);
      if n == 0 then Failed(ExpectedCommand(line))
      else
        var name := s[..n];
        var k := n + RunLength(s[n..], IsBlank);
        if k >= |s| || s[k] != '(' then Failed(NoParenthesis(line, name))
        else
          var r := LexArgs(s[k + 1..], line, [], 1, name, line);
          if r.ArgsFailed? then Failed(r.error)
          else Lex(r.rest, r.line, commands + [Command(name, r.args, line)])
  }
}
