/** Writing commands down in any layout, and reading them back. */
module CMakeLayout {
  import opened Options
  import opened Texts
  import opened CMakeCommands
  import opened CMakeLexer

  // ---------- Layouts ----------

  /** A character of a quoted argument, or a backslash with the character it protects. */
  datatype Unit = Plain(c: char) | Escaped(c: char)

  datatype Piece =
    | Space(c: char)
    | LineComment(text: string)
    | BracketComment(level: nat, body: string)
    | Open
    | Close
    | Quoted(units: seq<Unit>)
    | Word(text: string)

  datatype Item =
    | Between(piece: Piece)
    | Call(name: string, blanks: string, pieces: seq<Piece>)

  function PrintUnits(us: seq<Unit>): string {
    if us == [] then "" else (if us[0].Plain? then [us[0].c] else ['\\', us[0].c]) + PrintUnits(us[1..])
  }

  function BracketClose(level: nat): string { "]" + Equals(level) + "]" }

  function PrintPiece(p: Piece): string {
    match p
    case Space(c) => [c]
    case LineComment(text) => "#" + text + "\n"
    case BracketComment(level, body) => "#[" + Equals(level) + "[" + body + BracketClose(level)
    case Open => "("
    case Close => ")"
    case Quoted(us) => "\"" + PrintUnits(us) + "\""
    case Word(text) => text
  }

  function PrintPieces(ps: seq<Piece>): string {
    if ps == [] then "" else PrintPiece(ps[0]) + PrintPieces(ps[1..])
  }

  function PrintItem(i: Item): string {
    match i
    case Between(p) => PrintPiece(p)
    case Call(name, blanks, ps) => name + blanks + "(" + PrintPieces(ps) + ")"
  }

  function Print(items: seq<Item>): string {
    if items == [] then "" else PrintItem(items[0]) + Print(items[1..])
  }

  // ---------- Which layouts say what they mean ----------

  predicate ValidPiece(p: Piece) {
    match p
    case Space(c) => IsSpace(c)
    case LineComment(text) => '\n' !in text && BracketLevel(text).None?
    // the comment ends where it first could
    case BracketComment(level, body) => Find(body + BracketClose(level), BracketClose(level)) == Some(|body|)
    case Quoted(us) => forall u :: u in us && u.Plain? ==> u.c != '"' && u.c != '\\'
    case Word(text) => text != "" && forall c :: c in text ==> IsWordChar(c)
    case _ => true
  }

  predicate IsLayout(p: Piece) { p.Space? || p.LineComment? || p.BracketComment? }

  /** Arguments whose parentheses match inside `depth` open ones, with something between words. */
  predicate ValidPieces(ps: seq<Piece>, depth: nat) {
    if ps == [] then depth == 1
    else
      && ValidPiece(ps[0])
      && (ps[0].Word? && |ps| > 1 ==> !ps[1].Word?)
      && (ps[0].Close? ==> depth > 1)
      && ValidPieces(ps[1..], if ps[0].Open? then depth + 1 else if ps[0].Close? then depth - 1 else depth)
  }

  predicate ValidItem(i: Item) {
    match i
    case Between(p) => IsLayout(p) && ValidPiece(p)
    case Call(name, blanks, ps) =>
      && name != "" && IsNameStart(name[0]) && (forall c :: c in name ==> IsNameChar(c))
      && (forall c :: c in blanks ==> IsBlank(c))
      && ValidPieces(ps, 1)
  }

  predicate ValidItems(items: seq<Item>) { forall i :: i in items ==> ValidItem(i) }

  // ---------- What they mean ----------

  predicate IsArg(p: Piece) { p.Open? || p.Close? || p.Quoted? || p.Word? }

  function ArgValue(p: Piece): string {
    match p
    case Open => "("
    case Close => ")"
    case Quoted(us) => PrintUnits(us)
    case Word(text) => text
    case _ => ""
  }

  /** The comment that follows on the line an argument starts on, before any other argument. */
  function CommentAfter(ps: seq<Piece>, newline: bool): Option<string> {
    if newline || ps == [] || IsArg(ps[0]) then None
    else if ps[0].LineComment? then Some(Strip(ps[0].text))
    else CommentAfter(ps[1..], Newlines(PrintPiece(ps[0])) > 0)
  }

  /** The arguments of a piece list that starts on the given line, each with its own line and
      the comment next to it. */
  function ArgsOf(ps: seq<Piece>, line: nat): seq<Arg> {
    if ps == [] then []
    else
      var text := PrintPiece(ps[0]);
      (if IsArg(ps[0]) then [Arg(ArgValue(ps[0]), line, CommentAfter(ps[1..], Newlines(text) > 0))] else [])
        + ArgsOf(ps[1..], line + Newlines(text))
  }

  function CommandOf(item: Item, line: nat): seq<Command> {
    if item.Call? then [Command(item.name, ArgsOf(item.pieces, line), line)] else []
  }

  function CommandsOf(items: seq<Item>, line: nat): seq<Command> {
    if items == [] then []
    else CommandOf(items[0], line) + CommandsOf(items[1..], line + Newlines(PrintItem(items[0])))
  }

  // ---------- Text lemmas ----------

  lemma {:induction false} NewlinesAppend(a: string, b: string)
    ensures Newlines(a + b) == Newlines(a) + Newlines(b)
  {
    if a == "" { assert a + b == b; } else {
      assert (a + b)[1..] == a[1..] + b;
      NewlinesAppend(a[1..], b);
    }
  }

  lemma {:induction false} NoNewlines(s: string)
    requires '\n' !in s
    ensures Newlines(s) == 0
  {
    if s != "" { NoNewlines(s[1..]); }
  }

  /** Looking further does not change where a pattern was first found. */
  lemma {:induction false} FindEarlier(a: string, pat: string, b: string)
    requires Find(a + pat, pat) == Some(|a|)
    ensures Find(a + pat + b, pat) == Some(|a|)
  {
    var s, t := a + pat, a + pat + b;
    assert t[..|s|] == s;
    if a == "" {
      assert s == pat && pat <= t;
    } else {
      assert pat <= t <==> pat <= s by {
        assert t[..|pat|] == s[..|pat|];
      }
      assert s[1..] == a[1..] + pat && t[1..] == a[1..] + pat + b;
      FindEarlier(a[1..], pat, b);
    }
  }

  lemma {:induction false} StringEnds(us: seq<Unit>, rest: string)
    requires forall u :: u in us && u.Plain? ==> u.c != '"' && u.c != '\\'
    ensures StringLength(PrintUnits(us) + "\"" + rest) == Some(|PrintUnits(us)|)
  {
    var s := PrintUnits(us) + "\"" + rest;
    if us != [] {
      var tail := PrintUnits(us[1..]) + "\"" + rest;
      StringEnds(us[1..], rest);
      if us[0].Plain? {
        assert us[0] in us;
        assert s == [us[0].c] + tail && s[1..] == tail;
      } else {
        assert s == ['\\', us[0].c] + tail && s[2..] == tail;
      }
    }
  }

  lemma BracketOpens(level: nat, after: string)
    ensures BracketLevel("[" + Equals(level) + "[" + after) == Some(level)
  {
    var s := "[" + Equals(level) + "[" + after;
    assert s[1..] == Equals(level) + ("[" + after);
    RunEnds(Equals(level), "[" + after, c => c == '=');
  }

  lemma BracketEnds(level: nat, body: string, rest: string)
    requires ValidPiece(BracketComment(level, body))
    ensures var text := PrintPiece(BracketComment(level, body));
            SkipComment(text + rest) == Skipped(|text|, Newlines(text), None)
  {
    hide RunLength, BracketLevel, Find, Newlines, Strip;
    var close, open := BracketClose(level), "#[" + Equals(level) + "[";
    var text := PrintPiece(BracketComment(level, body));
    var s := text + rest;
    assert s[1..] == "[" + Equals(level) + "[" + (body + close + rest);
    BracketOpens(level, body + close + rest);
    assert s == open + (body + close + rest) && |open| == level + 3;
    FindEarlier(body, close, rest);
    assert text == (open + body) + close && s[..level + 3 + |body|] == open + body;
    NewlinesAppend(open + body, close);
    assert '\n' !in close;
    NoNewlines(close);
  }

  lemma LineEnds(text: string, rest: string)
    requires ValidPiece(LineComment(text))
    ensures SkipComment(PrintPiece(LineComment(text)) + rest) == Skipped(|text| + 1, 0, Some(Strip(text)))
  {
    var s := PrintPiece(LineComment(text)) + rest;
    assert s[1..] == text + ("\n" + rest);
    NoBracketEither(text, rest);
    assert s == ("#" + text) + ("\n" + rest);
    RunEnds("#" + text, "\n" + rest, c => c != '\n');
    assert s[1..|text| + 1] == text;
  }

  lemma NoBracketEither(text: string, rest: string)
    requires '\n' !in text && BracketLevel(text).None?
    ensures BracketLevel(text + ("\n" + rest)).None?
  {
    var s := text + ("\n" + rest);
    if text != "" && text[0] == '[' {
      var k := RunLength(text[1..], c => c == '=');
      var run, after := text[1..][..k], text[1..][k..];
      assert s[1..] == run + (after + ("\n" + rest));
      assert after == "" || after[0] == text[1..][k];
      assert forall c :: c in run ==> c == '=';
      RunEnds(run, after + ("\n" + rest), c => c == '=');
    }
  }

  // ---------- Reading back ----------

  /** The arguments read so far once a piece is read on the given line. */
  function After(args: seq<Arg>, p: Piece, line: nat): seq<Arg> {
    if IsArg(p) then args + [Arg(ArgValue(p), line, None)]
    else if p.LineComment? then Attach(args, line, Some(Strip(p.text)))
    else args
  }

  function DepthAfter(p: Piece, depth: nat): nat
    requires p.Close? ==> depth > 0
  {
    if p.Open? then depth + 1 else if p.Close? then depth - 1 else depth
  }

  lemma LexPiece(p: Piece, tail: string, line: nat, args: seq<Arg>, depth: nat, name: string, cmdLine: nat)
    requires ValidPiece(p) && depth > 0 && (p.Close? ==> depth > 1)
    requires p.Word? ==> tail == "" || !IsWordChar(tail[0])
    ensures LexArgs(PrintPiece(p) + tail, line, args, depth, name, cmdLine)
         == LexArgs(tail, line + Newlines(PrintPiece(p)), After(args, p, line), DepthAfter(p, depth), name, cmdLine)
  {
    hide LexArgs, IsWordChar, Newlines, Find, BracketLevel, IsSpace, PrintUnits;
    match p {
      case Space(c) => LexSpace(c, tail, line, args, depth, name, cmdLine);
      case LineComment(text) => LexLineComment(text, tail, line, args, depth, name, cmdLine);
      case BracketComment(level, body) => LexBracket(level, body, tail, line, args, depth, name, cmdLine);
      case Open => LexParenthesis(p, tail, line, args, depth, name, cmdLine);
      case Close => LexParenthesis(p, tail, line, args, depth, name, cmdLine);
      case Quoted(us) => LexQuoted(us, tail, line, args, depth, name, cmdLine);
      case Word(text) => LexWord(text, tail, line, args, depth, name, cmdLine);
    }
  }

  lemma LexSpace(c: char, tail: string, line: nat, args: seq<Arg>, depth: nat, name: string, cmdLine: nat)
    requires IsSpace(c) && depth > 0
    ensures LexArgs([c] + tail, line, args, depth, name, cmdLine)
         == LexArgs(tail, line + Newlines([c]), args, depth, name, cmdLine)
  {
    assert ([c] + tail)[1..] == tail;
    if c != '\n' { NoNewlines([c]); }
  }

  lemma LexParenthesis(p: Piece, tail: string, line: nat, args: seq<Arg>, depth: nat, name: string, cmdLine: nat)
    requires p.Open? || p.Close?
    requires depth > 0 && (p.Close? ==> depth > 1)
    ensures Newlines(PrintPiece(p)) == 0
    ensures LexArgs(PrintPiece(p) + tail, line, args, depth, name, cmdLine)
         == LexArgs(tail, line, args + [Arg(ArgValue(p), line, None)], DepthAfter(p, depth), name, cmdLine)
  {
    var s := PrintPiece(p) + tail;
    NoNewlines(PrintPiece(p));
    assert s[0] == PrintPiece(p)[0] && s[1..] == tail;
  }

  lemma LexBracket(level: nat, body: string, tail: string, line: nat, args: seq<Arg>, depth: nat,
                   name: string, cmdLine: nat)
    requires ValidPiece(BracketComment(level, body)) && depth > 0
    ensures LexArgs(PrintPiece(BracketComment(level, body)) + tail, line, args, depth, name, cmdLine)
         == LexArgs(tail, line + Newlines(PrintPiece(BracketComment(level, body))), args, depth, name, cmdLine)
  {
    hide SkipComment, Find, Newlines;
    var text := PrintPiece(BracketComment(level, body));
    var s := text + tail;
    BracketEnds(level, body, tail);
    assert s[0] == '#' && s[|text|..] == tail;
  }

  lemma LexLineComment(text: string, tail: string, line: nat, args: seq<Arg>, depth: nat, name: string, cmdLine: nat)
    requires ValidPiece(LineComment(text)) && depth > 0
    ensures Newlines(PrintPiece(LineComment(text))) == 1
    ensures LexArgs(PrintPiece(LineComment(text)) + tail, line, args, depth, name, cmdLine)
         == LexArgs(tail, line + 1, Attach(args, line, Some(Strip(text))), depth, name, cmdLine)
  {
    hide Find, BracketLevel, Strip, IsWordChar, RunLength;
    var s := PrintPiece(LineComment(text)) + tail;
    LineEnds(text, tail);
    assert s[0] == '#' && s[|text| + 1..] == "\n" + tail && ("\n" + tail)[1..] == tail;
    NoNewlines("#" + text);
    NewlinesAppend("#" + text, "\n");
  }

  lemma LexQuoted(us: seq<Unit>, tail: string, line: nat, args: seq<Arg>, depth: nat, name: string, cmdLine: nat)
    requires ValidPiece(Quoted(us)) && depth > 0
    ensures LexArgs(PrintPiece(Quoted(us)) + tail, line, args, depth, name, cmdLine)
         == LexArgs(tail, line + Newlines(PrintPiece(Quoted(us))), args + [Arg(PrintUnits(us), line, None)], depth,
                    name, cmdLine)
  {
    hide Find, BracketLevel, Strip, IsWordChar, RunLength, StringLength, Newlines, SkipComment, PrintUnits;
    var text, value := PrintPiece(Quoted(us)), PrintUnits(us);
    var s := text + tail;
    assert s[0] == '"' && s[1..] == value + "\"" + tail;
    StringEnds(us, tail);
    assert s[1..|value| + 1] == value && s[|value| + 2..] == tail;
    assert text == "\"" + (value + "\"");
    NewlinesAppend("\"", value + "\"");
    NewlinesAppend(value, "\"");
    NoNewlines("\"");
  }

  lemma LexWord(text: string, tail: string, line: nat, args: seq<Arg>, depth: nat, name: string, cmdLine: nat)
    requires ValidPiece(Word(text)) && depth > 0 && (tail == "" || !IsWordChar(tail[0]))
    ensures Newlines(text) == 0
    ensures LexArgs(text + tail, line, args, depth, name, cmdLine)
         == LexArgs(tail, line, args + [Arg(text, line, None)], depth, name, cmdLine)
  {
    hide Find, BracketLevel, Strip;
    var s := text + tail;
    assert IsWordChar(text[0]) && s[0] == text[0];
    RunEnds(text, tail, IsWordChar);
    assert s[..|text|] == text && s[|text|..] == tail;
    NoNewlines(text);
  }

  /** What can follow a word ends it. */
  lemma WordEnds(ps: seq<Piece>, depth: nat, rest: string)
    requires ValidPieces(ps, depth) && (ps != [] ==> !ps[0].Word?)
    ensures var tail := PrintPieces(ps) + ")" + rest; tail != "" && !IsWordChar(tail[0])
  {
    if ps != [] {
      var first := PrintPiece(ps[0]);
      assert ValidPiece(ps[0]) && first != "";
      assert (PrintPieces(ps) + ")" + rest)[0] == first[0];
    }
  }

  lemma ValidFirst(ps: seq<Piece>, depth: nat)
    requires ValidPieces(ps, depth) && ps != []
    ensures ValidPiece(ps[0]) && (ps[0].Close? ==> depth > 1)
    ensures ValidPieces(ps[1..], DepthAfter(ps[0], depth))
    ensures ps[0].Word? && ps[1..] != [] ==> !ps[1..][0].Word?
  {
  }

  /** The arguments of any valid layout are read back, each with its line and comment. */
  lemma {:induction false} LexPieces(ps: seq<Piece>, rest: string, line: nat, args: seq<Arg>, depth: nat,
                                     name: string, cmdLine: nat)
    requires ValidPieces(ps, depth) && depth > 0 && (args != [] ==> args[|args| - 1].line <= line)
    ensures LexArgs(PrintPieces(ps) + ")" + rest, line, args, depth, name, cmdLine)
         == Args(Attach(args, line, CommentAfter(ps, false)) + ArgsOf(ps, line), rest, line + Newlines(PrintPieces(ps)))
    decreases |ps|
  {
    hide LexArgs, Strip, IsWordChar, ValidPiece, PrintPiece, PrintPieces, ArgsOf, CommentAfter, After, Newlines, Attach;
    if ps == [] {
      LexNoPieces(rest, line, args, name, cmdLine);
    } else {
      ValidFirst(ps, depth);
      var p, more := ps[0], ps[1..];
      var text, tail := PrintPiece(p), PrintPieces(more) + ")" + rest;
      PrintFirst(ps, rest);
      var depth', line', args' := DepthAfter(p, depth), line + Newlines(text), After(args, p, line);
      if p.Word? { WordEnds(more, depth', rest); }
      LexPiece(p, tail, line, args, depth, name, cmdLine);
      AfterLine(args, p, line);
      LexPieces(more, rest, line', args', depth', name, cmdLine);
      NewlinesAppend(text, PrintPieces(more));
      CommentsGoToTheRightArgument(ps, line, args);
    }
  }

  lemma LexNoPieces(rest: string, line: nat, args: seq<Arg>, name: string, cmdLine: nat)
    ensures LexArgs(PrintPieces([]) + ")" + rest, line, args, 1, name, cmdLine)
         == Args(Attach(args, line, CommentAfter([], false)) + ArgsOf([], line), rest, line + Newlines(PrintPieces([])))
  {
    hide LexArgs;
    assert PrintPieces([]) + ")" + rest == ")" + rest;
    LexEnd(rest, line, args, name, cmdLine);
    assert args + [] == args;
  }

  lemma PrintFirst(ps: seq<Piece>, rest: string)
    requires ps != []
    ensures PrintPieces(ps) == PrintPiece(ps[0]) + PrintPieces(ps[1..])
    ensures PrintPieces(ps) + ")" + rest == PrintPiece(ps[0]) + (PrintPieces(ps[1..]) + ")" + rest)
  {
  }

  lemma LexEnd(rest: string, line: nat, args: seq<Arg>, name: string, cmdLine: nat)
    ensures LexArgs(")" + rest, line, args, 1, name, cmdLine) == Args(args, rest, line)
  {
    assert (")" + rest)[1..] == rest;
  }

  lemma AfterLine(args: seq<Arg>, p: Piece, line: nat)
    requires args != [] ==> args[|args| - 1].line <= line
    ensures var args' := After(args, p, line); args' != [] ==> args'[|args'| - 1].line <= line
  {
  }

  lemma LineCommentEndsLine(text: string)
    ensures Newlines(PrintPiece(LineComment(text))) > 0
  {
    NewlinesAppend("#" + text, "\n");
  }

  lemma CommentsGoToTheRightArgument(ps: seq<Piece>, line: nat, args: seq<Arg>)
    requires ps != [] && (args != [] ==> args[|args| - 1].line <= line)
    ensures Attach(args, line, CommentAfter(ps, false)) + ArgsOf(ps, line)
         == Attach(After(args, ps[0], line), line + Newlines(PrintPiece(ps[0])), CommentAfter(ps[1..], false))
            + ArgsOf(ps[1..], line + Newlines(PrintPiece(ps[0])))
  {
    hide Strip, Newlines, ArgValue, PrintPiece;
    if IsArg(ps[0]) {
      CommentOfNewArgument(ps, line, args);
    } else if ps[0].LineComment? {
      CommentOfTheLine(ps, line, args);
    } else {
      CommentFurtherOn(ps, line, args);
    }
  }

  lemma CommentOfTheLine(ps: seq<Piece>, line: nat, args: seq<Arg>)
    requires ps != [] && ps[0].LineComment? && (args != [] ==> args[|args| - 1].line <= line)
    ensures Attach(args, line, CommentAfter(ps, false)) + ArgsOf(ps, line)
         == Attach(After(args, ps[0], line), line + Newlines(PrintPiece(ps[0])), CommentAfter(ps[1..], false))
            + ArgsOf(ps[1..], line + Newlines(PrintPiece(ps[0])))
  {
    hide Strip, Newlines, PrintPiece, CommentAfter, ArgsOf;
    LineCommentEndsLine(ps[0].text);
    LayoutFirst(ps, line);
    var line' := line + Newlines(PrintPiece(ps[0]));
    var args' := Attach(args, line, Some(Strip(ps[0].text)));
    assert Attach(args', line', CommentAfter(ps[1..], false)) == args';
  }

  /** What a piece that is no argument contributes. */
  lemma LayoutFirst(ps: seq<Piece>, line: nat)
    requires ps != [] && IsLayout(ps[0])
    ensures ArgsOf(ps, line) == ArgsOf(ps[1..], line + Newlines(PrintPiece(ps[0])))
    ensures ps[0].LineComment? ==> CommentAfter(ps, false) == Some(Strip(ps[0].text))
    ensures !ps[0].LineComment? ==> CommentAfter(ps, false) == CommentAfter(ps[1..], Newlines(PrintPiece(ps[0])) > 0)
    ensures CommentAfter(ps[1..], true) == None
  {
    hide Strip, Newlines, PrintPiece, ArgValue;
    var line' := line + Newlines(PrintPiece(ps[0]));
    assert ArgsOf(ps, line) == [] + ArgsOf(ps[1..], line');
  }

  lemma CommentFurtherOn(ps: seq<Piece>, line: nat, args: seq<Arg>)
    requires ps != [] && (ps[0].Space? || ps[0].BracketComment?) && (args != [] ==> args[|args| - 1].line <= line)
    ensures Attach(args, line, CommentAfter(ps, false)) + ArgsOf(ps, line)
         == Attach(After(args, ps[0], line), line + Newlines(PrintPiece(ps[0])), CommentAfter(ps[1..], false))
            + ArgsOf(ps[1..], line + Newlines(PrintPiece(ps[0])))
  {
    hide Strip, Newlines, PrintPiece, ArgValue, CommentAfter, ArgsOf;
    LayoutFirst(ps, line);
    var line' := line + Newlines(PrintPiece(ps[0]));
    assert Attach(args, line, CommentAfter(ps, false)) == Attach(args, line', CommentAfter(ps[1..], false));
  }

  lemma CommentOfNewArgument(ps: seq<Piece>, line: nat, args: seq<Arg>)
    requires ps != [] && IsArg(ps[0])
    ensures Attach(args, line, CommentAfter(ps, false)) + ArgsOf(ps, line)
         == Attach(After(args, ps[0], line), line + Newlines(PrintPiece(ps[0])), CommentAfter(ps[1..], false))
            + ArgsOf(ps[1..], line + Newlines(PrintPiece(ps[0])))
  {
    hide Strip, Newlines, ArgValue, PrintPiece;
    var p, more := ps[0], ps[1..];
    var newline := Newlines(PrintPiece(p)) > 0;
    var line' := line + Newlines(PrintPiece(p));
    var own := Arg(ArgValue(p), line, None);
    var done := own.(comment := CommentAfter(more, newline));
    assert newline ==> CommentAfter(more, newline) == None;
    assert Attach(args + [own], line', CommentAfter(more, false)) == args + [done];
    assert ArgsOf(ps, line) == [done] + ArgsOf(more, line');
    assert args + [done] + ArgsOf(more, line') == args + ([done] + ArgsOf(more, line'));
  }

  // ---------- Commands ----------

  lemma LexBetween(p: Piece, tail: string, line: nat, commands: seq<Command>)
    requires ValidPiece(p) && IsLayout(p)
    ensures Lex(PrintPiece(p) + tail, line, commands) == Lex(tail, line + Newlines(PrintPiece(p)), commands)
  {
    hide Lex, Find, BracketLevel;
    match p {
      case Space(c) => SpaceBetween(c, tail, line, commands);
      case LineComment(text) => LineCommentBetween(text, tail, line, commands);
      case BracketComment(level, body) => BracketBetween(level, body, tail, line, commands);
    }
  }

  lemma SpaceBetween(c: char, tail: string, line: nat, commands: seq<Command>)
    requires IsSpace(c)
    ensures Lex([c] + tail, line, commands) == Lex(tail, line + Newlines([c]), commands)
  {
    hide SkipComment, NameLength, LexArgs, RunLength;
    assert ([c] + tail)[1..] == tail;
    if c != '\n' { NoNewlines([c]); }
  }

  lemma LineCommentBetween(text: string, tail: string, line: nat, commands: seq<Command>)
    requires ValidPiece(LineComment(text))
    ensures var p := PrintPiece(LineComment(text));
            Lex(p + tail, line, commands) == Lex(tail, line + Newlines(p), commands)
  {
    hide Find, BracketLevel, Strip, Lex, Newlines;
    var s := PrintPiece(LineComment(text)) + tail;
    LineEnds(text, tail);
    assert s[0] == '#' && s[|text| + 1..] == "\n" + tail;
    CommentBetween(s, line, commands);
    SpaceBetween('\n', tail, line, commands);
    NoNewlines("#" + text);
    NewlinesAppend("#" + text, "\n");
  }

  lemma CommentBetween(s: string, line: nat, commands: seq<Command>)
    requires s != "" && s[0] == '#' && SkipComment(s).Skipped?
    ensures var r := SkipComment(s); Lex(s, line, commands) == Lex(s[r.length..], line + r.newlines, commands)
  {
    hide SkipComment, NameLength, RunLength, LexArgs;
  }

  lemma BracketBetween(level: nat, body: string, tail: string, line: nat, commands: seq<Command>)
    requires ValidPiece(BracketComment(level, body))
    ensures var p := PrintPiece(BracketComment(level, body));
            Lex(p + tail, line, commands) == Lex(tail, line + Newlines(p), commands)
  {
    hide Find, Newlines, Lex;
    var text := PrintPiece(BracketComment(level, body));
    BracketEnds(level, body, tail);
    assert (text + tail)[0] == '#' && (text + tail)[|text|..] == tail;
    CommentBetween(text + tail, line, commands);
  }

  lemma LexCall(name: string, blanks: string, ps: seq<Piece>, tail: string, line: nat, commands: seq<Command>)
    requires ValidItem(Call(name, blanks, ps))
    ensures Lex(PrintItem(Call(name, blanks, ps)) + tail, line, commands)
         == Lex(tail, line + Newlines(PrintPieces(ps)), commands + [Command(name, ArgsOf(ps, line), line)])
  {
    hide Lex, LexArgs, ArgsOf, PrintPieces, Newlines, NameLength, RunLength;
    var inner := PrintPieces(ps) + ")" + tail;
    var s := PrintItem(Call(name, blanks, ps)) + tail;
    CallHead(name, blanks, inner);
    assert s == name + blanks + "(" + inner;
    LexPieces(ps, tail, line, [], 1, name, line);
    assert [] + ArgsOf(ps, line) == ArgsOf(ps, line);
    LexCommand(s, |name|, |blanks|, line, commands);
  }

  lemma LexCommand(s: string, n: nat, blanks: nat, line: nat, commands: seq<Command>)
    requires s != "" && !IsSpace(s[0]) && s[0] != '#' && s[0] != '\n'
    requires NameLength(s) == n > 0 && RunLength(s[n..], IsBlank) == blanks && n + blanks < |s| && s[n + blanks] == '('
    ensures var r := LexArgs(s[n + blanks + 1..], line, [], 1, s[..n], line);
            r.Args? ==> Lex(s, line, commands) == Lex(r.rest, r.line, commands + [Command(s[..n], r.args, line)])
  {
    hide NameLength, RunLength, LexArgs, SkipComment;
  }

  lemma CallHead(name: string, blanks: string, inner: string)
    requires name != "" && IsNameStart(name[0]) && (forall c :: c in name ==> IsNameChar(c))
    requires forall c :: c in blanks ==> IsBlank(c)
    ensures var s, n := name + blanks + "(" + inner, |name|;
            && s != "" && !IsSpace(s[0]) && s[0] != '#' && s[0] != '\n'
            && NameLength(s) == n && s[..n] == name && RunLength(s[n..], IsBlank) == |blanks|
            && n + |blanks| < |s| && s[n + |blanks|] == '(' && s[n + |blanks| + 1..] == inner
  {
    var s, after := name + blanks + "(" + inner, blanks + ("(" + inner);
    assert s == name + after && s[0] == name[0];
    assert after[0] == if blanks == "" then '(' else blanks[0];
    assert blanks != "" ==> IsBlank(blanks[0]);
    RunEnds(name, after, IsNameChar);
    RunEnds(blanks, "(" + inner, IsBlank);
    assert s[|name|..] == after;
  }

  lemma CallNewlines(name: string, blanks: string, ps: seq<Piece>)
    requires ValidItem(Call(name, blanks, ps))
    ensures Newlines(PrintItem(Call(name, blanks, ps))) == Newlines(PrintPieces(ps))
  {
    var before := name + blanks + "(";
    NoNewlines(before);
    NoNewlines(")");
    NewlinesAppend(before + PrintPieces(ps), ")");
    NewlinesAppend(before, PrintPieces(ps));
  }

  /** A file may end in a comment without a line end. */
  function PrintLast(last: Option<string>): string {
    if last.None? then "" else "#" + last.value
  }

  lemma LexLast(last: Option<string>, line: nat, commands: seq<Command>)
    requires last.Some? ==> '\n' !in last.value && BracketLevel(last.value).None?
    ensures Lex(PrintLast(last), line, commands) == Commands(commands)
  {
    hide NameLength, LexArgs;
    if last.Some? {
      var s := PrintLast(last);
      assert s[1..] == last.value && s + "" == s;
      RunEnds(s, "", c => c != '\n');
    }
  }

  /** Lexing inverts printing: whatever commands are written down, in whatever layout, are read
      back with their names, arguments, lines and comments. */
  lemma LexingInvertsPrinting(items: seq<Item>, last: Option<string>)
    requires ValidItems(items)
    requires last.Some? ==> '\n' !in last.value && BracketLevel(last.value).None?
    ensures Lex(Print(items) + PrintLast(last), 1, []) == Commands(CommandsOf(items, 1))
  {
    LexItems(items, last, 1, []);
    assert [] + CommandsOf(items, 1) == CommandsOf(items, 1);
  }

  lemma {:induction false} LexItems(items: seq<Item>, last: Option<string>, line: nat, commands: seq<Command>)
    requires ValidItems(items)
    requires last.Some? ==> '\n' !in last.value && BracketLevel(last.value).None?
    ensures Lex(Print(items) + PrintLast(last), line, commands) == Commands(commands + CommandsOf(items, line))
    decreases |items|
  {
    hide Lex, Print, PrintItem, ValidItems, CommandsOf, CommandOf, Newlines, BracketLevel, PrintLast;
    var end := PrintLast(last);
    if items == [] {
      NoItems(end, line);
      LexLast(last, line, commands);
      assert commands + [] == commands;
    } else {
      var item, more := items[0], items[1..];
      var own, line' := CommandOf(item, line), line + Newlines(PrintItem(item));
      ItemFirst(items, line);
      PrintFirstItem(items, end);
      LexItem(item, Print(more) + end, line, commands);
      LexItems(more, last, line', commands + own);
      Reassociated(commands, own, CommandsOf(more, line'));
    }
  }

  lemma NoItems(end: string, line: nat)
    ensures Print([]) + end == end && CommandsOf([], line) == []
  {
  }

  lemma ItemFirst(items: seq<Item>, line: nat)
    requires items != [] && ValidItems(items)
    ensures ValidItem(items[0]) && ValidItems(items[1..])
    ensures CommandsOf(items, line)
         == CommandOf(items[0], line) + CommandsOf(items[1..], line + Newlines(PrintItem(items[0])))
  {
    hide ValidItem, CommandOf, PrintItem, Newlines;
  }

  lemma PrintFirstItem(items: seq<Item>, end: string)
    requires items != []
    ensures Print(items) + end == PrintItem(items[0]) + (Print(items[1..]) + end)
  {
    hide PrintItem;
  }

  lemma Reassociated(a: seq<Command>, b: seq<Command>, c: seq<Command>)
    ensures a + b + c == a + (b + c)
  {
  }

  lemma LexItem(item: Item, tail: string, line: nat, commands: seq<Command>)
    requires ValidItem(item)
    ensures Lex(PrintItem(item) + tail, line, commands)
         == Lex(tail, line + Newlines(PrintItem(item)), commands + CommandOf(item, line))
  {
    hide Lex, ArgsOf, ValidPieces;
    match item {
      case Between(p) =>
        LexBetween(p, tail, line, commands);
        assert commands + [] == commands;
      case Call(name, blanks, ps) =>
        LexCall(name, blanks, ps, tail, line, commands);
        CallNewlines(name, blanks, ps);
    }
  }
}
