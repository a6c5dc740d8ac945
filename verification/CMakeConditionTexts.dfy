/** The texts of conditions, said character by character and argument by argument
    (scripts/sbom/logsquirl_sbom.py: _join_condition, _negate, parse_cpm_packages). */
module CMakeConditionTexts {
  import opened Options
  import opened Texts
  import opened TextMeanings
  import opened CMakeCommands
  import opened CMakeConditions

  // ---------- The text of a condition ----------

  /** Without the spaces that stand right after a "(" or right before a ")". */
  function Dropped(before: Option<char>, s: string): string
    decreases |s|
  {
    if s == "" then ""
    else if s[0] == ' ' && (before == Some('(') || (|s| > 1 && s[1] == ')')) then Dropped(Some(' '), s[1..])
    else [s[0]] + Dropped(Some(s[0]), s[1..])
  }

  function DroppedBefore(s: string): string
    decreases |s|
  {
    if s == "" then ""
    else (if s[0] == ' ' && |s| > 1 && s[1] == ')' then "" else [s[0]]) + DroppedBefore(s[1..])
  }

  function DroppedAfter(before: Option<char>, s: string): string
    decreases |s|
  {
    if s == "" then ""
    else (if s[0] == ' ' && before == Some('(') then "" else [s[0]]) + DroppedAfter(Some(s[0]), s[1..])
  }

  lemma {:induction false} ReplacedBefore(s: string)
    ensures ReplaceAll(s, " )", ")") == DroppedBefore(s)
    decreases |s|
  {
    if s != "" {
      if " )" <= s {
        assert s[1..][0] == ')' && s[1..][1..] == s[2..];
        ReplacedBefore(s[2..]);
        assert DroppedBefore(s) == "" + DroppedBefore(s[1..]);
      } else {
        ReplacedBefore(s[1..]);
      }
    }
  }

  lemma OtherBefore(a: Option<char>, b: Option<char>, s: string)
    requires s == "" || s[0] != ' ' || (a != Some('(') && b != Some('('))
    ensures DroppedAfter(a, s) == DroppedAfter(b, s)
    ensures Dropped(a, s) == Dropped(b, s)
  {
  }

  lemma {:induction false} ReplacedAfter(before: Option<char>, s: string)
    requires before != Some('(')
    ensures ReplaceAll(s, "( ", "(") == DroppedAfter(before, s)
    decreases |s|
  {
    if s != "" {
      if "( " <= s {
        assert s[1..][0] == ' ' && s[1..][1..] == s[2..];
        ReplacedAfter(Some(' '), s[2..]);
        assert DroppedAfter(Some('('), s[1..]) == "" + DroppedAfter(Some(' '), s[2..]);
      } else {
        ReplacedAfter(None, s[1..]);
        OtherBefore(Some(s[0]), None, s[1..]);
      }
    }
  }

  lemma {:induction false} BothDropped(before: Option<char>, s: string)
    ensures DroppedAfter(before, DroppedBefore(s)) == Dropped(before, s)
    decreases |s|
  {
    if s != "" {
      var rest := DroppedBefore(s[1..]);
      if s[0] == ' ' && |s| > 1 && s[1] == ')' {
        BothDropped(Some(' '), s[1..]);
        assert DroppedBefore(s) == rest && rest[0] == ')';
        OtherBefore(before, Some(' '), rest);
      } else {
        BothDropped(Some(s[0]), s[1..]);
        assert DroppedBefore(s) == [s[0]] + rest;
        assert ([s[0]] + rest)[1..] == rest;
      }
    }
  }

  /** A condition's text: its arguments in order with one space between, without the spaces that
      stand right after a "(" or right before a ")". */
  lemma JoinMeans(args: seq<Arg>)
    ensures JoinCondition(args) == Dropped(None, Join(Values(args), " "))
  {
    hide ReplaceAll, Dropped, DroppedBefore, DroppedAfter, Join;
    var s := Join(Values(args), " ");
    ReplacedBefore(s);
    ReplacedAfter(None, DroppedBefore(s));
    BothDropped(None, s);
  }

  // ---------- From the arguments ----------

  /** A parenthesis of its own, or a word with neither a parenthesis nor a space in it. */
  predicate IsToken(s: string) { s == "(" || s == ")" || (' ' !in s && '(' !in s && ')' !in s) }

  /** No space after "(" or before ")", one everywhere else. */
  function Tight(values: seq<string>): string {
    if values == [] then ""
    else if |values| == 1 then values[0]
    else values[0] + (if values[0] == "(" || values[1] == ")" then "" else " ") + Tight(values[1..])
  }

  function LastOf(before: Option<char>, s: string): Option<char> {
    if s == "" then before else Some(s[|s| - 1])
  }

  lemma {:induction false} WordCopied(before: Option<char>, word: string, s: string)
    requires ' ' !in word
    ensures Dropped(before, word + s) == word + Dropped(LastOf(before, word), s)
    decreases |word|
  {
    if word == "" { assert word + s == s && word + Dropped(before, s) == Dropped(before, s); } else {
      assert word[0] in word && (word + s)[1..] == word[1..] + s;
      WordCopied(Some(word[0]), word[1..], s);
      assert LastOf(Some(word[0]), word[1..]) == LastOf(before, word);
      var rest := Dropped(LastOf(before, word), s);
      assert [word[0]] + (word[1..] + rest) == word + rest;
    }
  }

  lemma SpaceCopied(before: Option<char>, s: string)
    ensures Dropped(before, " " + s)
         == (if before == Some('(') || (s != "" && s[0] == ')') then "" else " ") + Dropped(Some(' '), s)
  {
    assert (" " + s)[1..] == s;
  }

  lemma JoinStarts(values: seq<string>)
    requires values != [] && forall v :: v in values ==> IsToken(v)
    ensures var s := Join(values, " "); (s != "" && s[0] == ')') <==> values[0] == ")"
  {
    assert values[0] in values;
    if |values| > 1 && values[0] == "" { assert Join(values, " ")[0] == ' '; }
    if values[0] != "" {
      assert values[0][0] in values[0] && Join(values, " ")[0] == values[0][0];
      if values[0][0] == ')' { assert values[0] == ")"; }
    }
  }

  /** A word, and what becomes of the space after it. */
  lemma WordDropped(before: Option<char>, word: string, s: string)
    requires before != Some('(') && IsToken(word)
    ensures Dropped(before, word + " " + s)
         == word + ((if word == "(" || (s != "" && s[0] == ')') then "" else " ") + Dropped(Some(' '), s))
  {
    hide Dropped;
    WordCopied(before, word, " " + s);
    assert word + " " + s == word + (" " + s);
    SpaceCopied(LastOf(before, word), s);
    LastIsParenthesis(before, word);
  }

  lemma {:induction false} TokensDropped(before: Option<char>, values: seq<string>)
    requires before != Some('(') && forall v :: v in values ==> IsToken(v)
    ensures Dropped(before, Join(values, " ")) == Tight(values)
    decreases |values|
  {
    hide Dropped, IsToken;
    if values == [] {
      DroppedNothing(before);
    } else {
      assert values[0] in values;
      if |values| == 1 {
        OneDropped(before, values[0]);
      } else {
        var rest := values[1..];
        forall v | v in rest ensures IsToken(v) { assert v in values; }
        WordDropped(before, values[0], Join(rest, " "));
        JoinStarts(rest);
        TokensDropped(Some(' '), rest);
        TightFirst(values);
      }
    }
  }

  lemma TightFirst(values: seq<string>)
    requires |values| > 1
    ensures Tight(values)
         == values[0] + ((if values[0] == "(" || values[1] == ")" then "" else " ") + Tight(values[1..]))
  {
  }

  lemma OneDropped(before: Option<char>, word: string)
    requires IsToken(word)
    ensures Dropped(before, word) == word
  {
    hide Dropped;
    WordCopied(before, word, "");
    DroppedNothing(LastOf(before, word));
    assert word + "" == word;
  }

  lemma DroppedNothing(before: Option<char>)
    ensures Dropped(before, "") == ""
  {
  }

  lemma LastIsParenthesis(before: Option<char>, word: string)
    requires before != Some('(') && IsToken(word)
    ensures LastOf(before, word) == Some('(') <==> word == "("
  {
    if word != "" { assert word[|word| - 1] in word; }
  }

  /** With parentheses as arguments of their own, as the lexer hands them on. */
  lemma TightMeans(args: seq<Arg>)
    requires forall v :: v in Values(args) ==> IsToken(v)
    ensures JoinCondition(args) == Tight(Values(args))
  {
    JoinMeans(args);
    TokensDropped(None, Values(args));
  }

  predicate IsPlainWord(s: string) { ' ' !in s && '(' !in s && ')' !in s }

  /** Plain words can be told from the text again, each of them and in their order. */
  lemma WordsCanBeTold(args: seq<Arg>)
    requires args != [] && forall v :: v in Values(args) ==> IsPlainWord(v)
    ensures Split(JoinCondition(args), ' ') == Values(args)
  {
    var values := Values(args);
    TightMeans(args);
    PlainTight(values);
    SplitJoined(values, ' ');
  }

  lemma {:induction false} PlainTight(values: seq<string>)
    requires forall v :: v in values ==> IsPlainWord(v)
    ensures Tight(values) == Join(values, " ")
  {
    if |values| > 1 {
      assert values[0] in values && values[1] in values;
      forall v | v in values[1..] ensures v in values {}
      PlainTight(values[1..]);
      assert values[0] != "(" by { assert IsPlainWord(values[0]) && '(' in "("; }
      assert values[1] != ")" by { assert IsPlainWord(values[1]) && ')' in ")"; }
    }
  }

  // ---------- Negations ----------

  /** A word is negated with NOT, and the negation of that is the word again; anything else with a
      space in it goes into parentheses. */
  lemma NegateMeans(c: string)
    ensures ' ' !in c ==> Negate(c) == "NOT " + c && Negate("NOT " + c) == c
    ensures ' ' in c ==> Negate(c) == "NOT (" + c + ")" || exists word: string :: ' ' !in word && c == "NOT " + word
  {
    assert ("NOT " + c)[4..] == c;
    if "NOT " <= c && ' ' !in c[4..] { assert c == "NOT " + c[4..] && ' ' in c; }
    assert "NOT " <= c ==> c[3] == ' ';
  }

  /** The conditions of a frame: its earlier branches negated, first to last, and then its own. */
  lemma FrameMeans(f: Frame)
    ensures var conds := FrameConditions(f);
            && |conds| == |f.previous| + (if f.cond == "" then 0 else 1)
            && (forall i :: 0 <= i < |f.previous| ==> conds[i] == Negate(f.previous[i]))
            && (f.cond != "" ==> conds[|f.previous|] == f.cond)
  {
  }

  // ---------- Commands ----------

  /** The commands that count, in any letter case. */
  lemma KindMeans(cmd: Command)
    ensures KindOf(cmd) == IfKind <==> SameUpToCase(cmd.name, "if")
    ensures KindOf(cmd) == ElseIfKind <==> SameUpToCase(cmd.name, "elseif")
    ensures KindOf(cmd) == ElseKind <==> SameUpToCase(cmd.name, "else")
    ensures KindOf(cmd) == EndIfKind <==> SameUpToCase(cmd.name, "endif")
    ensures KindOf(cmd) == PackageKind <==> SameUpToCase(cmd.name, "cpmaddpackage")
  {
    hide Lower, SameUpToCase;
    CaseDoesNotMatter(cmd.name, "if");
    CaseDoesNotMatter(cmd.name, "elseif");
    CaseDoesNotMatter(cmd.name, "else");
    CaseDoesNotMatter(cmd.name, "endif");
    CaseDoesNotMatter(cmd.name, "cpmaddpackage");
    LowerNames();
  }

  lemma LowerNames()
    ensures Lower("if") == "if" && Lower("elseif") == "elseif" && Lower("else") == "else"
    ensures Lower("endif") == "endif" && Lower("cpmaddpackage") == "cpmaddpackage"
  {
  }

  /** A package in `if(NOT c)` is recorded under just that, and reached exactly when `c` does not hold. */
  lemma NegatedIf(ifCmd: Command, package: Command, end: Command, c: string, v: Valuation)
    requires SameUpToCase(ifCmd.name, "if") && Values(ifCmd.args) == ["NOT", c] && IsPlainWord(c)
    requires KindOf(package) == PackageKind && KindOf(end) == EndIfKind && RespectsNot(v)
    ensures var bs := Cons(Conditional(ifCmd, Cons(Plain(package), Nil), End(end)), Nil);
            && Packages(Emit(bs)) == Ok([Package(package, ["NOT " + c])])
            && Reached(bs, v, true) == [!v(c)]
  {
    hide JoinCondition, Packages, KindOf;
    KindMeans(ifCmd);
    assert forall x :: x in ["NOT", c] <==> x == "NOT" || x == c;
    assert IsPlainWord("NOT");
    TightMeans(ifCmd.args);
    PlainTight(["NOT", c]);
    assert ["NOT", c][1..] == [c];
    assert Join(["NOT", c], " ") == "NOT" + " " + Join([c], " ");
    assert JoinCondition(ifCmd.args) == "NOT " + c;
    OnePackage(ifCmd, package, end);
  }
}
