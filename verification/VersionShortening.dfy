/** The other rewriting steps: remarks about platforms go, "up to" reads as "through", and the words that
    say nothing become spaces (scripts/sbom/logsquirl_vulns.py, parse_affected_versions). */
module VersionShortening {
  import opened Options
  import opened Texts
  import opened VersionRanges
  import opened VersionWordings
  import opened VersionRewriting

  // ---------- Remarks about platforms ----------

  predicate AtPlatforms(s: string) { " (" <= s }

  lemma PlatformsSkip(prev: char, a: string, b: string)
    requires forall k :: 0 <= k < |a| ==> !AtPlatforms(a[k..] + b)
    ensures Sub(prev, a + b, PlatformsOnly) == a + Sub(LastOf(prev, a), b, PlatformsOnly)
  {
    hide PlatformsOnly, AtPlatforms;
    forall k | 0 <= k < |a| ensures PlatformsOnly(LastOf(prev, a[..k]), a[k..] + b).NoMatch? {
      NoPlatforms(LastOf(prev, a[..k]), a[k..] + b);
    }
    SubSkips(prev, a, b, PlatformsOnly);
  }

  lemma NoPlatforms(prev: char, s: string)
    requires !AtPlatforms(s)
    ensures PlatformsOnly(prev, s).NoMatch?
  {
  }

  lemma PlatformsMatch(prev: char, p: Piece, next: string)
    requires p.Platforms? && ValidPiece(p)
    ensures PieceText(p) != "" && PlatformsOnly(prev, PieceText(p) + next) == Match(|PieceText(p)|, "")
  {
    hide Split, RunLength, IsWordChar;
    var words := p.names + ["platforms", "only"];
    var inner := Join(words, " ");
    PlatformWords(p.names);
    var more := ")" + next;
    assert PieceText(p) == " (" + (inner + ")");
    assert PieceText(p) + next == " (" + (inner + more);
    AfterIs(" (", inner + more);
    InnerCharacters(p.names);
    RunEnds(inner, more, c => c != ')');
    assert (inner + more)[..|inner|] == inner;
    SplitJoined(words, ' ');
    assert words[|words| - 2] == "platforms" && words[|words| - 1] == "only";
    forall k | 0 <= k < |words| - 2 ensures words[k] != "" && forall c :: c in words[k] ==> IsWord(c) || c == '-' {
      assert words[k] in p.names;
      PlatformCharacters(words[k]);
    }
  }

  lemma PlatformCharacters(name: string)
    requires IsPlatform(name)
    ensures name != "" && forall c :: c in name ==> (IsWord(c) || c == '-') && c != ')' && c != ' '
  {
  }

  lemma {:induction false} PlatformWords(names: seq<string>)
    requires names != [] && forall name :: name in names ==> IsPlatform(name)
    ensures var words := names + ["platforms", "only"];
            && Join(words, " ") == Join(names, " ") + " platforms only"
            && forall word :: word in words ==> ' ' !in word && ')' !in word
  {
    hide IsPlatform;
    var words := names + ["platforms", "only"];
    forall word | word in words ensures ' ' !in word && ')' !in word {
      if word in names { PlatformCharacters(word); }
    }
    LastTwo(names);
  }

  lemma {:induction false} LastTwo(names: seq<string>)
    requires names != []
    ensures Join(names + ["platforms", "only"], " ") == Join(names, " ") + " platforms only"
  {
    var words := names + ["platforms", "only"];
    if |names| == 1 {
      assert words[1..] == ["platforms", "only"] && ["platforms", "only"][1..] == ["only"];
      assert Join(["platforms", "only"], " ") == "platforms" + " " + Join(["only"], " ");
    } else {
      assert words[1..] == names[1..] + ["platforms", "only"];
      LastTwo(names[1..]);
    }
  }

  lemma InnerCharacters(names: seq<string>)
    requires names != [] && forall name :: name in names ==> IsPlatform(name)
    ensures forall c :: c in Join(names + ["platforms", "only"], " ") ==> c != ')'
  {
    hide IsPlatform;
    var words := names + ["platforms", "only"];
    PlatformWords(names);
    forall c | c in Join(words, " ") ensures c != ')' { JoinedCharacter(words, " ", c); }
  }

  lemma TermNoPlatforms(t: Term, b: string)
    requires ValidTerm(t)
    ensures forall k :: 0 <= k < |TermText(t)| ==> !AtPlatforms(TermText(t)[k..] + b)
  {
    hide AtPlatforms;
    match t {
      case Name(numbers) =>
        NameCharacters(numbers);
        var a := TermText(t);
        forall k | 0 <= k < |a| ensures a[k] != ' ' { assert a[k] in a && VersionChar(a[k]); }
        SpacesNoPlatforms(a, b);
      case _ => SpacesNoPlatforms(TermText(t), b);
    }
  }

  /** A space with no parenthesis after it. */
  lemma SpacesNoPlatforms(a: string, b: string)
    requires forall k :: 0 <= k < |a| && a[k] == ' ' ==> k + 1 < |a| && a[k + 1] != '('
    ensures forall k :: 0 <= k < |a| ==> !AtPlatforms(a[k..] + b)
  {
    forall k | 0 <= k < |a| ensures !AtPlatforms(a[k..] + b) {
      assert (a[k..] + b)[0] == a[k];
      if a[k] == ' ' { assert (a[k..] + b)[1] == a[k + 1]; }
    }
  }

  predicate IsPlain(p: Piece) { !p.KnownUnaffected? && !p.Unknown? }

  lemma NoParenthesis(ps: seq<Piece>)
    requires Apart(ps)
    ensures Text(ps) != "" ==> Text(ps)[0] != '('
  {
    hide Text, Join, IsName;
    if ps != [] {
      FirstText(ps);
      var a := PieceText(ps[0]);
      if ps[0].Word? && ps[0].term.Name? { NameCharacters(ps[0].term.numbers); }
      assert a != "" && a[0] != '(' && (a + Text(ps[1..]))[0] == a[0];
    } else {
      NoText();
    }
  }

  lemma PlatformsKeep(prev: char, ps: seq<Piece>)
    requires ps != [] && Apart(ps) && IsPlain(ps[0]) && !ps[0].Platforms?
    ensures var a, b := PieceText(ps[0]), Text(ps[1..]);
            Sub(prev, a + b, PlatformsOnly) == a + Sub(LastOf(prev, a), b, PlatformsOnly)
  {
    hide PlatformsOnly, TermText, ValidTerm, Sub, Text;
    var p, a, b := ps[0], PieceText(ps[0]), Text(ps[1..]);
    NoParenthesis(ps[1..]);
    if p.Word? { TermNoPlatforms(p.term, b); }
    else {
      forall k | 0 <= k < |a| ensures !AtPlatforms(a[k..] + b) {
        assert (a[k..] + b)[0] == a[k];
        if p.Gap? && b != "" { assert (a[k..] + b)[1] == b[0]; }
      }
    }
    PlatformsSkip(prev, a, b);
  }

  lemma {:induction false} PlatformsGo(prev: char, ps: seq<Piece>)
    requires Apart(ps) && forall p :: p in ps ==> IsPlain(p)
    ensures Sub(prev, Text(ps), PlatformsOnly) == Text(Each(ps, PlatformsGone))
    decreases |ps|
  {
    hide PieceText, ValidPiece, PlatformsOnly, Sub, IsPlain;
    if ps == [] {
      NothingToReplace(prev, PlatformsOnly);
    } else {
      var p, rest := ps[0], Each(ps[1..], PlatformsGone);
      assert ps[0] in ps;
      forall q | q in ps[1..] ensures IsPlain(q) { assert q in ps; }
      PlatformsGo(LastOf(prev, PieceText(p)), ps[1..]);
      if p.Platforms? {
        PlatformsMatch(prev, p, Text(ps[1..]));
        SubMatches(prev, PieceText(p), Text(ps[1..]), PlatformsOnly, "");
        assert [] + rest == rest && "" + Text(rest) == Text(rest);
      } else {
        PlatformsKeep(prev, ps);
        SameFirst(p, PlatformsGone, rest);
      }
    }
  }

  // ---------- "up to and including" and "up to" ----------

  predicate IsSimple(p: Piece) { IsPlain(p) && !p.Platforms? }

  lemma {:induction false} ReplaceSkips(a: string, b: string, pat: string, sub: string)
    requires pat != "" && forall k :: 0 <= k < |a| ==> !(pat <= a[k..] + b)
    ensures ReplaceAll(a + b, pat, sub) == a + ReplaceAll(b, pat, sub)
    decreases |a|
  {
    if a == "" { assert a + b == b; } else {
      assert a[0..] + b == a + b && !(pat <= a[0..] + b);
      assert (a + b)[1..] == a[1..] + b;
      forall k | 0 <= k < |a[1..]| ensures !(pat <= a[1..][k..] + b) { assert a[1..][k..] == a[k + 1..]; }
      ReplaceSkips(a[1..], b, pat, sub);
    }
  }

  lemma ReplaceMatches(pat: string, b: string, sub: string)
    requires pat != ""
    ensures ReplaceAll(pat + b, pat, sub) == sub + ReplaceAll(b, pat, sub)
  {
    assert (pat + b)[|pat|..] == b;
  }

  /** Neither phrase starts at another letter than a "u" before a "p". */
  lemma NoPhrase(a: string, b: string, pat: string)
    requires "up" <= pat && forall k :: 0 <= k < |a| && a[k] == 'u' ==> k + 1 < |a| && a[k + 1] != 'p'
    ensures forall k :: 0 <= k < |a| ==> !(pat <= a[k..] + b)
  {
    forall k | 0 <= k < |a| ensures !(pat <= a[k..] + b) {
      assert (a[k..] + b)[0] == a[k];
      if a[k] == 'u' { assert (a[k..] + b)[1] == a[k + 1]; }
      assert pat[0] == 'u' && pat[1] == 'p';
    }
  }

  lemma TermNoPhrase(t: Term)
    requires ValidTerm(t) && !t.UpTo? && !t.UpToAndIncluding?
    ensures var a := TermText(t); forall k :: 0 <= k < |a| && a[k] == 'u' ==> k + 1 < |a| && a[k + 1] != 'p'
  {
    var a := TermText(t);
    if t.Name? { NameCharacters(t.numbers); }
    forall k | 0 <= k < |a| && a[k] == 'u' ensures k + 1 < |a| && a[k + 1] != 'p' {
      assert a[k] in a;
      assert t.Through? && k == 4;
    }
  }

  const LONG := "up to and including"
  const SHORT := "up to"

  predicate InAnd(c: char) { c == ' ' || c == 'a' || c == 'n' || c == 'd' }

  /** No piece goes on with "including". */
  lemma PieceNotIncluding(p: Piece, b: string)
    requires ValidPiece(p) && IsSimple(p) && FirstOther(b, InAnd) != Some('i')
    ensures FirstOther(PieceText(p) + b, InAnd) != Some('i')
  {
    hide FirstOther;
    var a := PieceText(p);
    match p {
      case Gap => OtherLater(a, b, InAnd);
      case And => OtherLater(a, b, InAnd);
      case Comma => OtherAt(a, 0, b, InAnd);
      case Mark(_) => OtherAt(a, 0, b, InAnd);
      case Word(t) =>
        if t.Name? { NameCharacters(t.numbers); }
        OtherAt(a, if t == Filler("all") then 1 else 0, b, InAnd);
    }
  }

  lemma {:induction false} TextNotIncluding(ps: seq<Piece>)
    requires Apart(ps) && forall p :: p in ps ==> IsSimple(p)
    ensures FirstOther(Text(ps), InAnd) != Some('i')
  {
    hide PieceText, ValidPiece, IsSimple;
    if ps != [] {
      assert ps[0] in ps;
      forall p | p in ps[1..] ensures IsSimple(p) { assert p in ps; }
      TextNotIncluding(ps[1..]);
      PieceNotIncluding(ps[0], Text(ps[1..]));
    }
  }

  lemma ShortIsNotLong(b: string)
    requires FirstOther(b, InAnd) != Some('i')
    ensures forall k :: 0 <= k < |SHORT| ==> !(LONG <= SHORT[k..] + b)
  {
    forall k | 0 <= k < |SHORT| ensures !(LONG <= SHORT[k..] + b) {
      assert (SHORT[k..] + b)[0] == SHORT[k];
      if LONG <= SHORT[k..] + b {
        assert k == 0 && SHORT[0..] + b == SHORT + b;
        LongGoesOn(b);
      }
    }
  }

  lemma LongGoesOn(b: string)
    requires LONG <= SHORT + b
    ensures FirstOther(b, InAnd) == Some('i')
  {
    hide FirstOther;
    assert LONG[5..] == " and including" && (SHORT + b)[5..] == b;
    assert " and including" <= b;
    assert b == " and including" + b[14..];
    OtherAt(" and including", 5, b[14..], InAnd);
  }

  lemma LongKept(ps: seq<Piece>)
    requires ps != [] && Apart(ps) && (forall p :: p in ps ==> IsSimple(p)) && ps[0] != Word(UpToAndIncluding)
    ensures var a, b := PieceText(ps[0]), Text(ps[1..]);
            ReplaceAll(a + b, LONG, "through") == a + ReplaceAll(b, LONG, "through")
  {
    hide FirstOther, TermText, ReplaceAll, ValidTerm, Text;
    var p, a, b := ps[0], PieceText(ps[0]), Text(ps[1..]);
    assert p in ps;
    forall q | q in ps[1..] ensures IsSimple(q) { assert q in ps; }
    TextNotIncluding(ps[1..]);
    if p == Word(UpTo) {
      ShortText();
      ShortIsNotLong(b);
    } else {
      if p.Word? { TermNoPhrase(p.term); }
      NoPhrase(a, b, LONG);
    }
    ReplaceSkips(a, b, LONG, "through");
  }

  lemma ShortText()
    ensures TermText(UpTo) == SHORT && TermText(UpToAndIncluding) == LONG && TermText(Through) == "through"
  {
  }

  lemma {:induction false} LongGoes(ps: seq<Piece>)
    requires Apart(ps) && forall p :: p in ps ==> IsSimple(p)
    ensures ReplaceAll(Text(ps), LONG, "through") == Text(Each(ps, LongThrough))
    decreases |ps|
  {
    hide PieceText, ValidPiece, ReplaceAll, IsSimple;
    if ps == [] {
      NothingReplaced(LONG);
    } else {
      var p, rest := ps[0], Each(ps[1..], LongThrough);
      forall q | q in ps[1..] ensures IsSimple(q) { assert q in ps; }
      LongGoes(ps[1..]);
      if p == Word(UpToAndIncluding) {
        WordText(UpToAndIncluding);
        WordText(Through);
        ShortText();
        ReplaceMatches(LONG, Text(ps[1..]), "through");
        OneText(Word(Through), rest);
      } else {
        LongKept(ps);
        SameFirst(p, LongThrough, rest);
      }
    }
  }

  lemma WordText(t: Term)
    ensures PieceText(Word(t)) == TermText(t)
  {
  }

  lemma NothingReplaced(pat: string)
    requires pat != ""
    ensures ReplaceAll("", pat, "through") == ""
  {
  }

  lemma ShortKept(p: Piece, b: string)
    requires ValidPiece(p) && IsSimple(p) && p != Word(UpTo) && p != Word(UpToAndIncluding)
    ensures ReplaceAll(PieceText(p) + b, SHORT, "through") == PieceText(p) + ReplaceAll(b, SHORT, "through")
  {
    hide TermText, ReplaceAll, ValidTerm;
    if p.Word? { TermNoPhrase(p.term); }
    NoPhrase(PieceText(p), b, SHORT);
    ReplaceSkips(PieceText(p), b, SHORT, "through");
  }

  lemma {:induction false} ShortGoes(ps: seq<Piece>)
    requires Apart(ps) && forall p :: p in ps ==> IsSimple(p) && p != Word(UpToAndIncluding)
    ensures ReplaceAll(Text(ps), SHORT, "through") == Text(Each(ps, ShortThrough))
    decreases |ps|
  {
    hide PieceText, ValidPiece, ReplaceAll, IsSimple;
    if ps == [] {
      NothingReplaced(SHORT);
    } else {
      var p, rest := ps[0], Each(ps[1..], ShortThrough);
      assert p in ps;
      forall q | q in ps[1..] ensures IsSimple(q) && q != Word(UpToAndIncluding) { assert q in ps; }
      ShortGoes(ps[1..]);
      if p == Word(UpTo) {
        WordText(UpTo);
        WordText(Through);
        ShortText();
        ReplaceMatches(SHORT, Text(ps[1..]), "through");
        OneText(Word(Through), rest);
      } else {
        ShortKept(p, Text(ps[1..]));
        SameFirst(p, ShortThrough, rest);
      }
    }
  }

  // ---------- Words that say nothing ----------

  predicate IsShort(p: Piece) { IsSimple(p) && p != Word(UpTo) && p != Word(UpToAndIncluding) }

  lemma NoWordNoFiller(prev: char, s: string)
    requires IsWord(prev) || s == "" || !IsWord(s[0]) || IsDigit(s[0])
    ensures FillerWord(prev, s).NoMatch?
  {
    var n := RunLength(s, IsWord);
    if n > 0 { assert s[..n][0] == s[0]; }
  }

  /** A word of letters is matched as a whole. */
  lemma WordAt(prev: char, word: string, rest: string)
    requires !IsWord(prev) && (forall c :: c in word ==> IsWord(c)) && EndsWord(rest)
    ensures FillerWord(prev, word + rest)
         == if word in {"all", "version", "versions", "of", "qt"} then Match(|word|, " ") else NoMatch
  {
    RunEnds(word, rest, IsWord);
    assert (word + rest)[..|word|] == word;
  }

  lemma LettersKept(prev: char, word: string, rest: string)
    requires !IsWord(prev) && (forall c :: c in word ==> IsWord(c)) && EndsWord(rest)
    requires word !in {"all", "version", "versions", "of", "qt"}
    ensures Sub(prev, word + rest, FillerWord) == word + Sub(LastOf(prev, word), rest, FillerWord)
  {
    hide FillerWord;
    forall k | 0 <= k < |word| ensures FillerWord(LastOf(prev, word[..k]), word[k..] + rest).NoMatch? {
      if k == 0 {
        WordAt(prev, word, rest);
        assert word[0..] == word;
      } else {
        assert LastOf(prev, word[..k]) == word[k - 1] && word[k - 1] in word;
        NoWordNoFiller(LastOf(prev, word[..k]), word[k..] + rest);
      }
    }
    SubSkips(prev, word, rest, FillerWord);
  }

  /** Neither signs nor digits are part of such a word. */
  lemma OthersKept(prev: char, a: string, rest: string)
    requires forall c :: c in a ==> !IsWord(c) || IsDigit(c)
    ensures Sub(prev, a + rest, FillerWord) == a + Sub(LastOf(prev, a), rest, FillerWord)
  {
    hide FillerWord;
    forall k | 0 <= k < |a| ensures FillerWord(LastOf(prev, a[..k]), a[k..] + rest).NoMatch? {
      assert (a[k..] + rest)[0] == a[k] && a[k] in a;
      NoWordNoFiller(LastOf(prev, a[..k]), a[k..] + rest);
    }
    SubSkips(prev, a, rest, FillerWord);
  }

  lemma TermLetters(t: Term)
    requires ValidTerm(t) && !t.UpTo? && !t.UpToAndIncluding? && !t.Name?
    ensures TermText(t) != "" && forall c :: c in TermText(t) ==> IsWord(c)
    ensures TermText(t) in {"all", "version", "versions", "of", "qt"} <==> t.Filler?
  {
  }

  lemma TextEndsWord(ps: seq<Piece>)
    requires Apart(ps) && (ps != [] ==> IsSimple(ps[0]) && !StartsWord(ps[0]))
    ensures EndsWord(Text(ps))
  {
    hide Text;
    if ps != [] { FirstText(ps); } else { NoText(); }
  }

  lemma PieceFiltered(prev: char, ps: seq<Piece>)
    requires ps != [] && Apart(ps) && ReadyPrev(prev, ps) && forall p :: p in ps ==> IsShort(p)
    ensures Sub(prev, Text(ps), FillerWord)
         == Text(FillerGone(ps[0])) + Sub(LastOf(prev, PieceText(ps[0])), Text(ps[1..]), FillerWord)
  {
    hide FillerWord, Sub, TermText, ValidTerm, EndsWord, IsWord;
    var p, a, rest := ps[0], PieceText(ps[0]), Text(ps[1..]);
    assert p in ps;
    if |ps| > 1 { assert ps[1] in ps; }
    FirstText(ps);
    NoText();
    assert a + "" == a;
    OneText(p, []);
    assert [p] + [] == [p];
    if StartsWord(p) {
      TextEndsWord(ps[1..]);
      if p.And? {
        AndLetters();
        LettersKept(prev, a, rest);
      } else if p.term.Name? {
        WordText(p.term);
        NameSigns(p.term);
        OthersKept(prev, a, rest);
      } else {
        WordText(p.term);
        TermLetters(p.term);
        if p.term.Filler? {
          WordAt(prev, a, rest);
          SubMatches(prev, a, rest, FillerWord, " ");
          OneText(Gap, []);
          assert [Gap] + [] == [Gap] && " " + "" == " ";
        } else {
          LettersKept(prev, a, rest);
        }
      }
    } else {
      SignsOnly(p);
      OthersKept(prev, a, rest);
    }
  }

  lemma AndLetters()
    ensures forall c :: c in "and" ==> IsWord(c)
  {
  }

  lemma SignsOnly(p: Piece)
    requires ValidPiece(p) && IsSimple(p) && !StartsWord(p)
    ensures forall c :: c in PieceText(p) ==> !IsWord(c) || IsDigit(c)
  {
  }

  lemma NameSigns(t: Term)
    requires t.Name? && ValidTerm(t)
    ensures forall c :: c in TermText(t) ==> !IsWord(c) || IsDigit(c)
  {
    NameCharacters(t.numbers);
  }

  lemma {:induction false} FillersGo(prev: char, ps: seq<Piece>)
    requires Apart(ps) && ReadyPrev(prev, ps) && forall p :: p in ps ==> IsShort(p)
    ensures Sub(prev, Text(ps), FillerWord) == Text(Each(ps, FillerGone))
    decreases |ps|
  {
    hide PieceText, ValidPiece, FillerWord, Sub, IsShort, ReadyPrev, FillerGone;
    if ps == [] {
      NothingToReplace(prev, FillerWord);
    } else {
      var p, rest := ps[0], Each(ps[1..], FillerGone);
      forall q | q in ps[1..] ensures IsShort(q) { assert q in ps; }
      ReadyAfter(prev, ps);
      FillersGo(LastOf(prev, PieceText(p)), ps[1..]);
      PieceFiltered(prev, ps);
      TextOfBoth(FillerGone(p), rest);
    }
  }

  lemma ReadyAfter(prev: char, ps: seq<Piece>)
    requires ps != [] && Apart(ps) && ReadyPrev(prev, ps)
    ensures ReadyPrev(LastOf(prev, PieceText(ps[0])), ps[1..])
  {
    hide ValidTerm, TermText;
  }
}
