/** The sentence about versions whose status is unknown, read as all versions before the one it names
    (scripts/sbom/logsquirl_vulns.py, parse_affected_versions). */
module VersionStatus {
  import opened Options
  import opened Texts
  import opened VersionRanges
  import opened VersionWordings
  import opened VersionRewriting

  lemma NoStatusAt(prev: char, s: string)
    requires s != "" && !(" af" <= s) && (s[0] == '.' ==> !(" af" <= s[1..]))
    ensures UnknownStatus(prev, s).NoMatch?
  {
    hide V2Length;
    if STATUS <= Optional(s, ".") { StatusStarts(Optional(s, ".")); }
  }

  lemma StatusStarts(s: string)
    requires STATUS <= s
    ensures " af" <= s
  {
    assert STATUS[..3] == " af";
  }

  /** A version's point comes before any parenthesis. */
  lemma StatusForm(prev: char, s: string)
    requires UnknownStatus(prev, s).Match? && s != "" && s[0] != '.'
    ensures FirstOther(s, BeforePoint) == Some('.')
  {
    hide RunLength, IsWord, FirstOther, StatusName, V2Length;
    var be, forVersions, qt := StatusParts(s);
    StatusPoint(be, forVersions, qt, StatusName(s).value);
  }

  lemma StatusParts(s: string) returns (be: bool, forVersions: bool, qt: bool)
    requires StatusName(s).Some? && s != "" && s[0] != '.'
    ensures s == STATUS + (If(be, "is ") + ("unknown " + (If(forVersions, "for versions ")
                 + ("before " + (If(qt, "qt ") + StatusName(s).value)))))
  {
    hide If, STATUS;
    NotAfter(s, ".");
    hide After, Optional;
    var a := After(s, STATUS).value;
    var b := After(Optional(a, "is "), "unknown ").value;
    var c := After(Optional(b, "for versions "), "before ").value;
    Splits(s, STATUS);
    Splits(a, "is ");
    Splits(Optional(a, "is "), "unknown ");
    Splits(b, "for versions ");
    Splits(Optional(b, "for versions "), "before ");
    Splits(c, "qt ");
    be, forVersions, qt := "is " <= a, "for versions " <= b, "qt " <= c;
  }

  lemma MaybeLater(b: bool, text: string, rest: string)
    requires forall c :: c in text ==> BeforePoint(c)
    ensures FirstOther(If(b, text) + rest, BeforePoint) == FirstOther(rest, BeforePoint)
  {
    hide FirstOther, BeforePoint;
    OtherLater(If(b, text), rest, BeforePoint);
  }

  lemma StatusWords()
    ensures forall c :: (c in STATUS || c in "is " || c in "unknown " || c in "for versions " || c in "before "
                         || c in "qt ") ==> BeforePoint(c)
  {
  }

  lemma StatusPoint(be: bool, forVersions: bool, qt: bool, d: string)
    requires V2Length(d).Some?
    ensures FirstOther(STATUS + (If(be, "is ") + ("unknown " + (If(forVersions, "for versions ") + ("before "
                       + (If(qt, "qt ") + d))))), BeforePoint) == Some('.')
  {
    hide FirstOther, V2Length, If, BeforePoint, STATUS;
    StatusWords();
    PointFirst(d);
    MaybeLater(qt, "qt ", d);
    var c := If(qt, "qt ") + d;
    OtherLater("before ", c, BeforePoint);
    MaybeLater(forVersions, "for versions ", "before " + c);
    var b := If(forVersions, "for versions ") + ("before " + c);
    OtherLater("unknown ", b, BeforePoint);
    MaybeLater(be, "is ", "unknown " + b);
    OtherLater(STATUS, If(be, "is ") + ("unknown " + b), BeforePoint);
  }

  lemma PointFirst(d: string)
    requires V2Length(d).Some?
    ensures FirstOther(d, BeforePoint) == Some('.')
  {
    hide FirstOther;
    var n := RunLength(d, IsDigit);
    DigitsFirst(d);
    assert d == d[..n] + d[n..] && d[n..] == "." + d[n + 1..];
    OtherLater(d[..n], d[n..], BeforePoint);
    OtherAt(".", 0, d[n + 1..], BeforePoint);
  }

  lemma DigitsFirst(d: string)
    ensures forall c :: c in d[..RunLength(d, IsDigit)] ==> BeforePoint(c)
  {
    var n := RunLength(d, IsDigit);
    forall c | c in d[..n] ensures BeforePoint(c) { var k :| 0 <= k < n && d[..n][k] == c; assert d[k] == c; }
  }

  // ---------- The sentence itself ----------

  predicate EndsName(rest: string) {
    EndsWord(rest) && (rest != "" && rest[0] == '.' && |rest| > 1 ==> !IsDigit(rest[1]))
  }

  lemma NumberRuns(n: string, rest: string)
    requires IsNumber(n) && (rest == "" || !IsDigit(rest[0]))
    ensures RunLength(n + rest, IsDigit) == |n| > 0 && (n + rest)[|n|..] == rest
  {
    RunEnds(n, rest, IsDigit);
  }

  lemma TwoNumbers(a: string, b: string, rest: string)
    requires IsNumber(a) && IsNumber(b) && EndsName(rest)
    ensures V2Length(a + ("." + (b + rest))) == Some(|a| + 1 + |b|)
  {
    hide RunLength, IsNumber;
    var s := a + ("." + (b + rest));
    PointAfter(a, b + rest);
    NumberEnds(b, rest);
    assert s[|a| + 1..] == b + rest;
    assert s[|a| + 1 + |b|..] == rest;
    if "." <= rest { NoDigits(rest[1..]); }
  }

  lemma NoDigits(s: string)
    requires s == "" || !IsDigit(s[0])
    ensures RunLength(s, IsDigit) == 0
  {
  }

  lemma ThreeNumbers(a: string, b: string, c: string, rest: string)
    requires IsNumber(a) && IsNumber(b) && IsNumber(c) && EndsName(rest)
    ensures V2Length(a + ("." + (b + ("." + (c + rest))))) == Some(|a| + 1 + |b| + 1 + |c|)
  {
    hide RunLength, IsNumber, IsDigit, V2Length;
    var more := "." + (c + rest);
    PointAfter(a, b + more);
    PointAfter(b, c + rest);
    NumberEnds(c, rest);
    AfterIs(a, "." + (b + more));
    AfterIs(a + ".", b + more);
    AfterIs(a + "." + b, more);
    AfterIs(".", c + rest);
    AfterIs("." + c, rest);
    Moved(a, ".", b + more);
    Moved(a + ".", b, more);
    Moved(".", c, rest);
    ThreeRead(a + ("." + (b + more)), |a|, |b|, |c|, more);
  }

  lemma ThreeRead(s: string, a: nat, b: nat, c: nat, rest: string)
    requires 0 < a == RunLength(s, IsDigit) && "." <= s[a..]
    requires 0 < b == RunLength(s[a + 1..], IsDigit) && rest == s[a + 1..][b..] && "." <= rest
    requires 0 < c == RunLength(rest[1..], IsDigit) && EndsWord(rest[1..][c..])
    ensures V2Length(s) == Some(a + 1 + b + 1 + c)
  {
    hide RunLength, IsDigit, EndsWord;
    assert s[a + 1..][b..] == s[a + 1 + b..] && rest[1..][c..] == rest[1 + c..];
  }

  lemma NumberEnds(n: string, rest: string)
    requires IsNumber(n) && EndsWord(rest)
    ensures RunLength(n + rest, IsDigit) == |n| > 0 && (n + rest)[|n|..] == rest
  {
    NumberRuns(n, rest);
  }

  lemma PointAfter(n: string, rest: string)
    requires IsNumber(n)
    ensures RunLength(n + ("." + rest), IsDigit) == |n| > 0 && (n + ("." + rest))[|n|..] == "." + rest
    ensures "." <= "." + rest && ("." + rest)[1..] == rest
  {
    NumberRuns(n, "." + rest);
  }

  lemma NameMeasured(numbers: seq<string>, rest: string)
    requires IsName(numbers) && 2 <= |numbers| <= 3 && EndsName(rest)
    ensures V2Length(Join(numbers, ".") + rest) == Some(|Join(numbers, ".")|)
  {
    hide V2Length, IsNumber, IsDigit, EndsName, Join;
    assert numbers[0] in numbers && numbers[1] in numbers;
    var a, b := numbers[0], numbers[1];
    if |numbers| == 2 {
      assert numbers == [a, b];
      JoinTwo(a, b, rest);
      TwoNumbers(a, b, rest);
    } else {
      var c := numbers[2];
      assert c in numbers && numbers == [a, b, c];
      JoinThree(a, b, c, rest);
      ThreeNumbers(a, b, c, rest);
    }
  }

  lemma JoinTwo(a: string, b: string, rest: string)
    ensures Join([a, b], ".") + rest == a + ("." + (b + rest)) && |Join([a, b], ".")| == |a| + 1 + |b|
  {
    assert [a, b][1..] == [b];
    assert Join([a, b], ".") == a + "." + b;
  }

  lemma JoinThree(a: string, b: string, c: string, rest: string)
    ensures Join([a, b, c], ".") + rest == a + ("." + (b + ("." + (c + rest))))
    ensures |Join([a, b, c], ".")| == |a| + 1 + |b| + 1 + |c|
  {
    JoinTwo(b, c, rest);
    assert [a, b, c][1..] == [b, c];
    assert Join([a, b, c], ".") == a + "." + Join([b, c], ".");
    assert a + "." + Join([b, c], ".") + rest == a + ("." + (Join([b, c], ".") + rest));
  }

  lemma StatusReads(s: string, a: string, b: string, c: string, d: string)
    requires After(Optional(s, "."), STATUS) == Some(a) && After(Optional(a, "is "), "unknown ") == Some(b)
    requires After(Optional(b, "for versions "), "before ") == Some(c) && Optional(c, "qt ") == d
    ensures StatusName(s) == Some(d)
  {
    hide After, Optional, STATUS;
  }

  lemma StatusMatches(prev: char, p: Piece, next: string)
    requires p.Unknown? && ValidPiece(p) && EndsWord(next) && (next != "" && !p.stop ==> next[0] != '.')
    ensures PieceText(p) != ""
    ensures UnknownStatus(prev, PieceText(p) + next) == Match(|PieceText(p)|, ", before " + Join(p.numbers, "."))
  {
    hide V2Length, After, Optional, PieceText, IsName, StatusName, If;
    var name, end := Join(p.numbers, "."), If(p.stop, ".") + next;
    StopEndsName(p.stop, next);
    NameMeasured(p.numbers, end);
    AfterIs(name, end);
    assert (name + end)[..|name|] == name;
    StatusPrinted(p, next);
    StatusIsRead(p, name + end);
    OptionalIs(p.stop, ".", next);
  }

  lemma StopEndsName(stop: bool, next: string)
    requires EndsWord(next) && (next != "" && !stop ==> next[0] != '.')
    ensures EndsName(If(stop, ".") + next)
  {
  }

  lemma StatusIsRead(p: Piece, d: string)
    requires p.Unknown? && d != "" && IsDigit(d[0])
    ensures StatusName(StatusText(p, d)) == Some(d)
  {
    hide After, Optional, StatusName, If;
    var c := If(p.qt, "qt ") + d;
    var b := If(p.forVersions, "for versions ") + ("before " + c);
    var a := If(p.be, "is ") + ("unknown " + b);
    OptionalIs(p.dot, ".", STATUS + a);
    AfterIs(STATUS, a);
    OptionalIs(p.be, "is ", "unknown " + b);
    AfterIs("unknown ", b);
    OptionalIs(p.forVersions, "for versions ", "before " + c);
    AfterIs("before ", c);
    OptionalIs(p.qt, "qt ", d);
    StatusReads(StatusText(p, d), a, b, c, d);
  }

  function StatusText(p: Piece, d: string): string
    requires p.Unknown?
  {
    If(p.dot, ".") + (STATUS + (If(p.be, "is ") + ("unknown " + (If(p.forVersions, "for versions ")
    + ("before " + (If(p.qt, "qt ") + d))))))
  }

  lemma StatusPrinted(p: Piece, next: string)
    requires p.Unknown? && ValidPiece(p)
    ensures PieceText(p) != "" && PieceText(p) + next == StatusText(p, Join(p.numbers, ".") + (If(p.stop, ".") + next))
    ensures var d := Join(p.numbers, ".") + (If(p.stop, ".") + next); d != "" && IsDigit(d[0])
  {
    hide Join, IsName;
    NameCharacters(p.numbers);
    TextMoves(p, Join(p.numbers, ".") + If(p.stop, "."), next);
    assert Join(p.numbers, ".") + If(p.stop, ".") + next == Join(p.numbers, ".") + (If(p.stop, ".") + next);
    assert PieceText(p) == StatusText(p, Join(p.numbers, ".") + If(p.stop, "."));
  }

  lemma TextMoves(p: Piece, d: string, next: string)
    requires p.Unknown?
    ensures StatusText(p, d) + next == StatusText(p, d + next)
  {
    hide If, STATUS;
    Moved(If(p.qt, "qt "), d, next);
    var c := If(p.qt, "qt ") + d;
    Moved("before ", c, next);
    Moved(If(p.forVersions, "for versions "), "before " + c, next);
    var b := If(p.forVersions, "for versions ") + ("before " + c);
    Moved("unknown ", b, next);
    Moved(If(p.be, "is "), "unknown " + b, next);
    var a := If(p.be, "is ") + ("unknown " + b);
    Moved(STATUS, a, next);
    Moved(If(p.dot, "."), STATUS + a, next);
  }

  // ---------- Nothing else is taken for it ----------

  predicate NoStatus(s: string) {
    s != "" && !(" af" <= s) && (s[0] == '.' ==> !(" af" <= s[1..]))
  }

  lemma StatusSkips(prev: char, a: string, b: string)
    requires forall k :: 0 <= k < |a| ==> NoStatus(a[k..] + b)
    ensures Sub(prev, a + b, UnknownStatus) == a + Sub(LastOf(prev, a), b, UnknownStatus)
  {
    hide UnknownStatus, NoStatus;
    forall k | 0 <= k < |a| ensures UnknownStatus(LastOf(prev, a[..k]), a[k..] + b).NoMatch? {
      assert NoStatus(a[k..] + b);
      StatusNotAt(LastOf(prev, a[..k]), a[k..] + b);
    }
    SubSkips(prev, a, b, UnknownStatus);
  }

  lemma StatusNotAt(prev: char, s: string)
    requires NoStatus(s)
    ensures UnknownStatus(prev, s).NoMatch?
  {
    NoStatusAt(prev, s);
  }

  lemma OthersNoStatus(a: string, b: string)
    requires forall c :: c in a ==> c != ' ' && c != '.'
    ensures forall k :: 0 <= k < |a| ==> NoStatus(a[k..] + b)
  {
    forall k | 0 <= k < |a| ensures NoStatus(a[k..] + b) { assert (a[k..] + b)[0] == a[k] && a[k] in a; }
  }

  lemma NameNoStatus(numbers: seq<string>, b: string)
    requires IsName(numbers)
    ensures forall k :: 0 <= k < |Join(numbers, ".")| ==> NoStatus(Join(numbers, ".")[k..] + b)
  {
    var a := Join(numbers, ".");
    NameCharacters(numbers);
    forall k | 0 <= k < |a| ensures NoStatus(a[k..] + b) {
      var s := a[k..] + b;
      assert s[0] == a[k] && a[k] in a;
      if a[k] == '.' {
        PointBeforeDigit(numbers, k);
        assert s[1] == a[k + 1];
      }
    }
  }

  lemma UpToNoStatus(a: string, b: string)
    requires a == "up to" || a == "up to and including"
    ensures forall k :: 0 <= k < |a| ==> NoStatus(a[k..] + b)
  {
    forall k | 0 <= k < |a| ensures NoStatus(a[k..] + b) {
      var s := a[k..] + b;
      assert s[0] == a[k];
      if a[k] == ' ' {
        assert k == 2 || k == 5 || k == 9;
        assert s[1] == a[k + 1] && s[2] == a[k + 2];
      }
    }
  }

  lemma TermNoStatus(t: Term, b: string)
    requires ValidTerm(t)
    ensures forall k :: 0 <= k < |TermText(t)| ==> NoStatus(TermText(t)[k..] + b)
  {
    hide NoStatus;
    match t {
      case Name(numbers) => NameNoStatus(numbers, b);
      case UpTo => UpToNoStatus(TermText(t), b);
      case UpToAndIncluding => UpToNoStatus(TermText(t), b);
      case _ => OthersNoStatus(TermText(t), b);
    }
  }

  lemma PlatformsNoStatus(prev: char, p: Piece, b: string)
    requires p.Platforms? && ValidPiece(p)
    ensures Sub(prev, PieceText(p) + b, UnknownStatus)
         == PieceText(p) + Sub(LastOf(prev, PieceText(p)), b, UnknownStatus)
  {
    hide FirstOther, UnknownStatus, PieceText, BeforePoint;
    var a := PieceText(p);
    PlatformsPrinted(p);
    forall k | 0 <= k < |a| ensures UnknownStatus(LastOf(prev, a[..k]), a[k..] + b).NoMatch? {
      var s := a[k..] + b;
      assert s[0] == a[k];
      if k < 2 || k == |a| - 1 {
        assert k == 0 ==> s[1] == a[1];
        StatusNotAt(LastOf(prev, a[..k]), s);
      } else {
        InsidePlatforms(p, k, b);
        assert a[k] != '.' by { NoPoint(p, k); }
        if UnknownStatus(LastOf(prev, a[..k]), s).Match? { StatusForm(LastOf(prev, a[..k]), s); }
      }
    }
    SubSkips(prev, a, b, UnknownStatus);
  }

  lemma NoPoint(p: Piece, k: nat)
    requires p.Platforms? && ValidPiece(p) && 2 <= k < |PieceText(p)| - 1
    ensures PieceText(p)[k] != '.'
  {
    hide PieceText;
    PlatformsPrinted(p);
    var a := PieceText(p);
    var inner := a[2..|a| - 1];
    assert a[k] == inner[k - 2] && inner[k - 2] in inner;
    assert BeforePoint(a[k]);
  }

  /** No word but the sentence's own starts with "af". */
  lemma NotAffected(ps: seq<Piece>)
    requires ValidPieces(ps)
    ensures !("af" <= Text(ps))
  {
    hide Text, Join, IsName, CanFollow;
    if ps != [] {
      FirstText(ps);
      var a := PieceText(ps[0]);
      if ps[0].Word? && ps[0].term.Name? { NameCharacters(ps[0].term.numbers); }
      assert a != "" && (a[0] == 'a' ==> |a| > 1 && a[1] != 'f');
      OtherStart(a, Text(ps[1..]));
    } else {
      NoText();
    }
  }

  lemma OtherStart(a: string, b: string)
    requires a != "" && (a[0] == 'a' ==> |a| > 1 && a[1] != 'f')
    ensures !("af" <= a + b)
  {
    assert (a + b)[0] == a[0] && (|a| > 1 ==> (a + b)[1] == a[1]);
  }

  lemma SpaceBefore(b: string)
    requires !("af" <= b)
    ensures !(" af" <= " " + b)
  {
    assert " af"[1..] == "af" && (" " + b)[1..] == b;
  }

  lemma StatusKept(prev: char, ps: seq<Piece>)
    requires ps != [] && ValidPieces(ps) && !ps[0].Unknown? && !ps[0].KnownUnaffected?
    ensures var a, b := PieceText(ps[0]), Text(ps[1..]);
            Sub(prev, a + b, UnknownStatus) == a + Sub(LastOf(prev, a), b, UnknownStatus)
  {
    hide UnknownStatus, TermText, ValidTerm, Sub, Text;
    var p, a, b := ps[0], PieceText(ps[0]), Text(ps[1..]);
    NotAffected(ps[1..]);
    match p {
      case Gap =>
        SpaceBefore(b);
        assert a[0..] + b == " " + b;
        StatusSkips(prev, a, b);
      case Mark(c) =>
        assert (a[0..] + b)[1..] == b;
        MarkNoStatus(ps);
        StatusSkips(prev, a, b);
      case Word(t) =>
        TermNoStatus(t, b);
        StatusSkips(prev, a, b);
      case Platforms(_) => PlatformsNoStatus(prev, p, b);
      case _ =>
        OthersNoStatus(a, b);
        StatusSkips(prev, a, b);
    }
  }

  lemma MarkNoStatus(ps: seq<Piece>)
    requires ps != [] && ps[0].Mark? && ValidPieces(ps)
    ensures !(" af" <= Text(ps[1..]))
  {
    hide Text;
    if |ps| > 1 {
      var more := ps[1..][1..];
      FirstText(ps[1..]);
      NotAffected(more);
      SpaceBefore(Text(more));
    } else {
      NoText();
    }
  }

  // ---------- The step ----------

  lemma RangeText(p: Piece)
    requires p.Unknown?
    ensures Text(UnknownAsRange(p)) == ", before " + Join(p.numbers, ".")
  {
    hide Join, Text;
    var name := Join(p.numbers, ".");
    RangePieces(p, name);
    NoText();
    OneText(Word(Name(p.numbers)), []);
    OneText(Gap, [Word(Name(p.numbers))]);
    OneText(Word(Before), [Gap, Word(Name(p.numbers))]);
    OneText(Gap, [Word(Before), Gap, Word(Name(p.numbers))]);
    OneText(Comma, [Gap, Word(Before), Gap, Word(Name(p.numbers))]);
    assert name + "" == name;
    assert "," + (" " + ("before" + (" " + name))) == ", before " + name;
  }

  lemma RangePieces(p: Piece, name: string)
    requires p.Unknown? && name == Join(p.numbers, ".")
    ensures var word := Word(Name(p.numbers));
            && PieceText(word) == name && PieceText(Gap) == " " && PieceText(Comma) == ","
            && PieceText(Word(Before)) == "before"
            && [word] + [] == [word] && [Gap] + [word] == [Gap, word]
            && [Word(Before)] + [Gap, word] == [Word(Before), Gap, word]
            && [Gap] + [Word(Before), Gap, word] == [Gap, Word(Before), Gap, word]
            && UnknownAsRange(p) == [Comma] + [Gap, Word(Before), Gap, word]
  {
    hide Join;
  }

  lemma AfterUnknown(ps: seq<Piece>)
    requires ps != [] && ps[0].Unknown? && ValidPieces(ps)
    ensures EndsWord(Text(ps[1..])) && (Text(ps[1..]) != "" && !ps[0].stop ==> Text(ps[1..])[0] != '.')
  {
    hide Text, Join, IsName;
    if |ps| > 1 {
      FirstText(ps[1..]);
      var p := ps[1];
      assert ps[1..][0] == p && ValidPiece(p);
      assert PieceText(p) != "" && !IsWord(PieceText(p)[0]);
    } else {
      NoText();
    }
  }

  lemma StatusThere(prev: char, ps: seq<Piece>)
    requires ps != [] && ps[0].Unknown? && ValidPieces(ps)
    ensures Sub(prev, Text(ps), UnknownStatus)
         == Text(UnknownAsRange(ps[0])) + Sub(LastOf(prev, PieceText(ps[0])), Text(ps[1..]), UnknownStatus)
  {
    hide UnknownStatus, Sub, IsName, PieceText, EndsWord, UnknownAsRange;
    var a, next := PieceText(ps[0]), Text(ps[1..]);
    AfterUnknown(ps);
    StatusMatches(prev, ps[0], next);
    SubMatches(prev, a, next, UnknownStatus, ", before " + Join(ps[0].numbers, "."));
    RangeText(ps[0]);
  }

  lemma {:induction false} StatusesGo(prev: char, ps: seq<Piece>)
    requires ValidPieces(ps) && NoNotes(ps)
    ensures Sub(prev, Text(ps), UnknownStatus) == Text(Each(ps, UnknownAsRange))
    decreases |ps|
  {
    hide PieceText, ValidPiece, UnknownStatus, Sub, CanFollow, UnknownAsRange;
    if ps == [] {
      NothingToReplace(prev, UnknownStatus);
    } else {
      var p, rest := ps[0], Each(ps[1..], UnknownAsRange);
      assert ps[0] in ps;
      forall q | q in ps[1..] ensures !q.KnownUnaffected? { assert q in ps; }
      StatusesGo(LastOf(prev, PieceText(p)), ps[1..]);
      if p.Unknown? {
        StatusThere(prev, ps);
        TextOfBoth(UnknownAsRange(p), rest);
      } else {
        StatusKept(prev, ps);
        OtherStays(p);
        SameFirst(p, UnknownAsRange, rest);
      }
    }
  }

  lemma OtherStays(p: Piece)
    requires !p.Unknown?
    ensures UnknownAsRange(p) == [p]
  {
  }
}
