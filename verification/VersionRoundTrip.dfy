/** Texts in any letter case are read, and version ranges that are written down are read back
    (scripts/sbom/logsquirl_vulns.py, VersionRange, parse_affected_versions). */
module VersionRoundTrip {
  import opened Options
  import opened Texts
  import opened TextMeanings
  import opened VersionRanges
  import opened VersionWordings
  import opened VersionRewriting
  import opened VersionReading
  import opened VersionClauses
  import opened VersionTexts

  // ---------- Texts with one space between words ----------

  predicate StartsSpace(p: Piece) { p.Gap? || p.Platforms? || (p.Unknown? && !p.dot) }

  /** No space at the beginning or the end, and none after a gap. */
  predicate EvenlySpaced(ps: seq<Piece>) {
    && ps != [] && !StartsSpace(ps[0]) && !ps[|ps| - 1].Gap?
    && forall i :: 0 <= i < |ps| - 1 && ps[i].Gap? ==> !StartsSpace(ps[i + 1])
  }

  predicate IsLower(c: char) { !('A' <= c <= 'Z') && (IsSpace(c) ==> c == ' ') }

  ghost predicate AllLower(s: string) { forall c :: c in s ==> IsLower(c) }

  ghost predicate NoTwoSpaces(s: string) { forall i :: 0 <= i < |s| - 1 ==> !(s[i] == ' ' && s[i + 1] == ' ') }

  lemma BothLower(a: string, b: string)
    requires AllLower(a) && AllLower(b)
    ensures AllLower(a + b)
  {
    hide IsLower;
  }

  lemma BothSpaced(a: string, b: string)
    requires NoTwoSpaces(a) && NoTwoSpaces(b) && (a != "" && b != "" && a[|a| - 1] == ' ' ==> b[0] != ' ')
    ensures NoTwoSpaces(a + b)
  {
    var s := a + b;
    forall i | 0 <= i < |s| - 1 ensures !(s[i] == ' ' && s[i + 1] == ' ') {
      if i < |a| - 1 { assert s[i] == a[i] && s[i + 1] == a[i + 1]; }
      else if i >= |a| { assert s[i] == b[i - |a|] && s[i + 1] == b[i + 1 - |a|]; }
    }
  }

  lemma Both(a: string, b: string)
    requires AllLower(a) && AllLower(b) && NoTwoSpaces(a) && NoTwoSpaces(b)
    requires a != "" && b != "" && a[|a| - 1] == ' ' ==> b[0] != ' '
    ensures AllLower(a + b) && NoTwoSpaces(a + b)
    ensures a != "" ==> (a + b)[0] == a[0]
    ensures a == "" ==> a + b == b
    ensures b != "" ==> (a + b)[|a + b| - 1] == b[|b| - 1]
  {
    BothLower(a, b);
    BothSpaced(a, b);
  }

  lemma NameIsPlain(numbers: seq<string>)
    requires IsName(numbers)
    ensures var s := Join(numbers, ".");
            s != "" && AllLower(s) && NoTwoSpaces(s) && s[0] != ' ' && s[|s| - 1] != ' '
  {
    NameCharacters(numbers);
    var s := Join(numbers, ".");
    forall i | 0 <= i < |s| ensures s[i] != ' ' { assert s[i] in s && VersionChar(s[i]); }
  }

  lemma PlatformIsPlain(name: string)
    requires IsPlatform(name)
    ensures AllLower(name) && NoTwoSpaces(name) && name[0] != ' ' && name[|name| - 1] != ' '
  {
    forall i | 0 <= i < |name| ensures name[i] != ' ' { assert name[i] in name; }
  }

  lemma {:induction false} PlatformsArePlain(names: seq<string>)
    requires names != [] && forall name :: name in names ==> IsPlatform(name)
    ensures var s := Join(names, " ");
            s != "" && AllLower(s) && NoTwoSpaces(s) && s[0] != ' ' && s[|s| - 1] != ' '
  {
    hide IsPlatform, AllLower, NoTwoSpaces;
    assert names[0] in names;
    PlatformIsPlain(names[0]);
    assert names[0] != "" by { PlatformThere(names[0]); }
    if |names| > 1 {
      forall name | name in names[1..] ensures IsPlatform(name) { assert name in names; }
      PlatformsArePlain(names[1..]);
      SpaceIsPlain();
      Both(names[0], " ");
      Both(names[0] + " ", Join(names[1..], " "));
    }
  }

  lemma PlatformThere(name: string)
    requires IsPlatform(name)
    ensures name != ""
  {
  }

  lemma SpaceIsPlain()
    ensures AllLower(" ") && NoTwoSpaces(" ")
  {
  }

  ghost predicate IsPlainText(p: Piece) {
    var s := PieceText(p);
    && s != "" && AllLower(s) && NoTwoSpaces(s)
    && (s[0] == ' ' <==> StartsSpace(p)) && (s[|s| - 1] == ' ' <==> p.Gap?)
  }

  lemma TermIsPlain(t: Term)
    requires ValidTerm(t)
    ensures IsWhole(TermText(t))
  {
    match t {
      case Name(numbers) => NameIsPlain(numbers);
      case UpTo => UpToIsPlain();
      case UpToAndIncluding => UpToIsPlain();
      case _ => NoSpaceIsPlain(TermText(t));
    }
  }

  lemma NoSpaceIsPlain(s: string)
    requires ' ' !in s
    ensures NoTwoSpaces(s)
  {
  }

  lemma UpToIsPlain()
    ensures IsWhole("up to") && IsWhole("up to and including")
  {
  }

  /** Plain, and neither starting nor ending with a space. */
  ghost predicate IsWhole(s: string) {
    s != "" && AllLower(s) && NoTwoSpaces(s) && s[0] != ' ' && s[|s| - 1] != ' '
  }

  /** Words before it that may end with a space. */
  lemma Ahead(a: string, b: string)
    requires AllLower(a) && NoTwoSpaces(a) && (a != "" ==> a[0] != ' ') && IsWhole(b)
    ensures IsWhole(a + b)
  {
    hide AllLower, NoTwoSpaces;
    Both(a, b);
  }

  lemma UnknownIsPlain(p: Piece)
    requires p.Unknown? && ValidPiece(p)
    ensures IsPlainText(p)
  {
    hide Join, AllLower, NoTwoSpaces, IsName, If, IsWhole;
    NameIsPlain(p.numbers);
    var name := Join(p.numbers, ".");
    assert IsWhole(name) by { Whole(name); }
    MaybePlain(p);
    var g := name + If(p.stop, ".");
    StopIsPlain(name, p.stop);
    Ahead(If(p.qt, "qt "), g);
    Ahead("before ", If(p.qt, "qt ") + g);
    var e := "before " + (If(p.qt, "qt ") + g);
    Ahead(If(p.forVersions, "for versions "), e);
    Ahead("unknown ", If(p.forVersions, "for versions ") + e);
    var c := "unknown " + (If(p.forVersions, "for versions ") + e);
    Ahead(If(p.be, "is "), c);
    StatusIsPlain(p, If(p.be, "is ") + c);
  }

  lemma Whole(s: string)
    requires s != "" && AllLower(s) && NoTwoSpaces(s) && s[0] != ' ' && s[|s| - 1] != ' '
    ensures IsWhole(s)
  {
  }

  lemma StopIsPlain(s: string, stop: bool)
    requires IsWhole(s)
    ensures IsWhole(s + If(stop, "."))
  {
    if stop { Both(s, "."); } else { assert s + "" == s; }
  }

  lemma MaybePlain(p: Piece)
    requires p.Unknown?
    ensures forall s :: s in {If(p.qt, "qt "), If(p.forVersions, "for versions "), If(p.be, "is "), "before ",
                              "unknown "} ==>
              AllLower(s) && NoTwoSpaces(s) && (s != "" ==> s[0] != ' ')
  {
  }

  lemma StatusIsPlain(p: Piece, b: string)
    requires p.Unknown? && IsWhole(b) && PieceText(p) == If(p.dot, ".") + (" affected status " + b)
    ensures IsPlainText(p)
  {
    StatusWords();
    hide AllLower, NoTwoSpaces, PieceText;
    Both(" affected status ", b);
    Both(If(p.dot, "."), " affected status " + b);
  }

  lemma StatusWords()
    ensures AllLower(" affected status ") && NoTwoSpaces(" affected status ")
    ensures AllLower("") && NoTwoSpaces("") && AllLower(".") && NoTwoSpaces(".")
  {
  }

  lemma NoteIsPlain(p: Piece)
    requires p.KnownUnaffected? && ValidPiece(p)
    ensures IsPlainText(p)
  {
    hide Join, AllLower, NoTwoSpaces, IsName, If, IsWhole;
    NameIsPlain(p.numbers);
    var name := Join(p.numbers, ".");
    assert IsWhole(name) by { Whole(name); }
    NoteWords();
    var verb := if p.are then " are" else " is";
    var version := "version" + If(p.plural, "s");
    StopIsPlain("known to be unaffected", p.stop);
    var e := "known to be unaffected" + If(p.stop, ".");
    Ahead(if p.are then "are " else "is ", e);
    var d := (if p.are then "are " else "is ") + e;
    SpaceBetween(name, d);
    Ahead("before ", name + " " + d);
    PluralIsPlain(p.plural);
    SpaceBetween(version, "before " + (name + " " + d));
    NoteSpelled(p);
    assert PieceText(p) == version + " " + ("before " + (name + " " + d));
    NotePlain(p);
  }

  lemma NotePlain(p: Piece)
    requires p.KnownUnaffected? && IsWhole(PieceText(p))
    ensures IsPlainText(p)
  {
  }

  lemma PluralIsPlain(plural: bool)
    ensures IsWhole("version" + If(plural, "s"))
  {
    NoSpaceIsPlain("version" + If(plural, "s"));
  }

  lemma SpaceBetween(a: string, b: string)
    requires IsWhole(a) && IsWhole(b)
    ensures IsWhole(a + " " + b)
  {
    SpaceIsPlain();
    hide AllLower, NoTwoSpaces;
    Both(a, " ");
    Both(a + " ", b);
  }

  lemma NoteWords()
    ensures IsWhole("known to be unaffected")
    ensures forall s :: s in {"are ", "is ", "before "} ==> AllLower(s) && NoTwoSpaces(s) && s[0] != ' '
  {
    NoteWord();
  }

  lemma NoteWord()
    ensures IsWhole("known to be unaffected")
  {
  }

  lemma NoteSpelled(p: Piece)
    requires p.KnownUnaffected?
    ensures PieceText(p) == "version" + If(p.plural, "s") + " " + ("before " + (Join(p.numbers, ".") + " "
              + ((if p.are then "are " else "is ") + ("known to be unaffected" + If(p.stop, ".")))))
  {
    hide Join, If;
    var name, stop, plural := Join(p.numbers, "."), If(p.stop, "."), If(p.plural, "s");
    var verb := if p.are then "are " else "is ";
    var e := "known to be unaffected" + stop;
    VerbSpelled(p.are, stop);
    Moved(name, " ", verb + e);
    BeforeSpelled(name + " " + (verb + e));
    Moved("version" + plural, " ", "before " + (name + " " + (verb + e)));
    Moved("version", plural, " " + ("before " + (name + " " + (verb + e))));
  }

  lemma VerbSpelled(are: bool, stop: string)
    ensures (if are then " are" else " is") + (" known to be unaffected" + stop)
         == " " + ((if are then "are " else "is ") + ("known to be unaffected" + stop))
  {
    Moved(" ", "known to be unaffected", stop);
    if are { Moved(" are", " ", "known to be unaffected" + stop); Moved(" ", "are ", "known to be unaffected" + stop); }
    else { Moved(" is", " ", "known to be unaffected" + stop); Moved(" ", "is ", "known to be unaffected" + stop); }
    assert " are" + " " == " " + "are " && " is" + " " == " " + "is ";
    assert " " + "known to be unaffected" == " known to be unaffected";
  }

  lemma BeforeSpelled(s: string)
    ensures " before " + s == " " + ("before " + s)
  {
    Moved(" ", "before ", s);
    assert " " + "before " == " before ";
  }

  lemma PlatformsPlain(p: Piece)
    requires p.Platforms? && ValidPiece(p)
    ensures IsPlainText(p)
  {
    hide Join, AllLower, NoTwoSpaces, IsPlatform;
    PlatformsArePlain(p.names);
    EndsArePlain();
    Both(Join(p.names, " "), " platforms only)");
    Both(" (", Join(p.names, " ") + " platforms only)");
  }

  lemma EndsArePlain()
    ensures AllLower(" platforms only)") && NoTwoSpaces(" platforms only)") && AllLower(" (") && NoTwoSpaces(" (")
  {
  }

  lemma PieceIsPlain(p: Piece)
    requires ValidPiece(p)
    ensures IsPlainText(p)
  {
    hide TermText, ValidTerm;
    match p {
      case Word(t) => TermIsPlain(t);
      case Platforms(_) => PlatformsPlain(p);
      case Unknown(_, _, _, _, _, _) => UnknownIsPlain(p);
      case KnownUnaffected(_, _, _, _) => NoteIsPlain(p);
      case _ =>
    }
  }

  lemma {:induction false} TextIsPlain(ps: seq<Piece>)
    requires EvenlySpaced(ps) && forall p :: p in ps ==> ValidPiece(p)
    ensures var s := Text(ps);
            s != "" && AllLower(s) && NoTwoSpaces(s) && s[0] != ' ' && s[|s| - 1] != ' '
    decreases |ps|
  {
    hide ValidPiece, AllLower, NoTwoSpaces, StartsSpace, PieceText;
    var n := |ps| - 1;
    assert ps[n] in ps;
    PieceIsPlain(ps[n]);
    LastText(ps);
    if n == 0 { OneIsText(ps); } else {
      var init := ps[..n];
      forall p | p in init ensures ValidPiece(p) { assert p in ps; }
      BeginningIsPlain(init);
      Both(Text(init), PieceText(ps[n]));
    }
  }

  lemma OneIsText(ps: seq<Piece>)
    requires |ps| == 1
    ensures Text(ps) == PieceText(ps[0])
  {
    hide PieceText;
    LastText(ps);
    assert ps[..0] == [] && "" + PieceText(ps[0]) == PieceText(ps[0]);
  }

  /** A beginning of such a text may end with a gap. */
  lemma {:induction false} BeginningIsPlain(ps: seq<Piece>)
    requires ps != [] && !StartsSpace(ps[0]) && forall p :: p in ps ==> ValidPiece(p)
    requires forall i :: 0 <= i < |ps| - 1 && ps[i].Gap? ==> !StartsSpace(ps[i + 1])
    ensures var s := Text(ps);
            && s != "" && AllLower(s) && NoTwoSpaces(s) && s[0] != ' '
            && (s[|s| - 1] == ' ' <==> ps[|ps| - 1].Gap?)
    decreases |ps|
  {
    hide ValidPiece, AllLower, NoTwoSpaces, StartsSpace, PieceText;
    var n := |ps| - 1;
    assert ps[n] in ps && ps[0] in ps;
    PieceIsPlain(ps[n]);
    LastText(ps);
    if n == 0 { OneIsText(ps); } else {
      var init := ps[..n];
      forall p | p in init ensures ValidPiece(p) { assert p in ps; }
      BeginningIsPlain(init);
      Both(Text(init), PieceText(ps[n]));
    }
  }

  /** Such a text is not changed by lower-casing and squeezing. */
  lemma PlainTextStays(ps: seq<Piece>)
    requires EvenlySpaced(ps) && forall p :: p in ps ==> ValidPiece(p)
    ensures Lower(Text(ps)) == Text(ps) && Squeeze(Text(ps)) == Text(ps)
  {
    hide ValidPiece, StartsSpace;
    var s := Text(ps);
    TextIsPlain(ps);
    forall i | 0 <= i < |s| ensures LowerChar(s[i]) == s[i] && (IsSpace(s[i]) ==> s[i] == ' ') { assert s[i] in s; }
    SqueezedAlready(s);
  }

  lemma {:induction false} ValidOnes(ps: seq<Piece>)
    requires ValidPieces(ps)
    ensures forall p :: p in ps ==> ValidPiece(p)
  {
    hide ValidPiece, CanFollow;
    if ps != [] { ValidOnes(ps[1..]); }
  }

  /** In whatever letter case: the text is read as the ranges its clauses say. */
  lemma AnyCaseIsRead(text: string, lead: seq<Piece>, body: seq<Piece>, trail: seq<Piece>, rs: seq<VersionRange>)
    requires ValidText(lead, body, trail) && EvenlySpaced(lead + body + trail)
    requires SameUpToCase(text, Text(lead + body + trail))
    requires SayAll(Said(lead + body + trail), rs) && rs != []
    ensures Parse(text) == Ranges(rs)
  {
    hide ValidPieces, Parse, Said, Text, Lower, Squeeze, SayAll, SameUpToCase, EvenlySpaced;
    var ps := lead + body + trail;
    ValidOnes(ps);
    PlainTextStays(ps);
    CaseDoesNotMatter(text, Text(ps));
    TextIsRead(text, lead, body, trail);
  }

  // ---------- Ranges that are written down ----------

  /** A range between versions of three parts. */
  predicate ThreeParts(r: VersionRange) { |r.high| == 3 && (r.low.Some? ==> |r.low.value| == 3) }

  function Strs(rs: seq<VersionRange>): seq<string> {
    if rs == [] then [] else [rs[0].Str()] + Strs(rs[1..])
  }

  function Written(rs: seq<VersionRange>): string { Join(Strs(rs), ", ") }

  function Decimals(v: Version): (numbers: seq<string>)
    ensures |numbers| == |v|
  {
    seq(|v|, i requires 0 <= i < |v| => Decimal(v[i]))
  }

  lemma DecimalsAreName(v: Version)
    requires |v| == 3
    ensures IsName(Decimals(v)) && Value(Decimals(v)) == v && Join(Decimals(v), ".") == VersionText(v)
  {
    hide Decimal, Int;
    forall i | 0 <= i < |v| ensures Int(Decimals(v)[i]) == v[i] { IntOfDecimal(v[i]); }
    assert Value(Decimals(v)) == v;
  }

  /** The words a range is written with. */
  function PiecesOf(r: VersionRange): seq<Piece> {
    var high := Word(Name(Decimals(r.high)));
    if r.low == Some(r.high) && r.highIncluded then [high]
    else if r.low.None? then [Word(if r.highIncluded then UpTo else Before), Gap, high]
    else [Word(Name(Decimals(r.low.value))), Gap, Word(if r.highIncluded then To else Before), Gap, high]
  }

  function TermsOf(r: VersionRange): seq<Term> {
    var high := Name(Decimals(r.high));
    if r.low == Some(r.high) && r.highIncluded then [high]
    else if r.low.None? then [if r.highIncluded then UpTo else Before, high]
    else [Name(Decimals(r.low.value)), if r.highIncluded then To else Before, high]
  }

  lemma TextOfThree(a: Piece, b: Piece, c: Piece)
    ensures Text([a]) == PieceText(a) && Text([a, b, c]) == PieceText(a) + (PieceText(b) + PieceText(c))
  {
    hide PieceText;
    NoText();
    assert [c][1..] == [] && [b, c][1..] == [c] && [a, b, c][1..] == [b, c] && [a][1..] == [];
    assert PieceText(c) + "" == PieceText(c) && PieceText(a) + "" == PieceText(a);
    assert Text([b, c]) == PieceText(b) + Text([c]);
  }

  lemma TextOfRange(r: VersionRange)
    requires ThreeParts(r)
    ensures Text(PiecesOf(r)) == r.Str()
  {
    hide VersionText, Decimals, PieceText, Text;
    DecimalsAreName(r.high);
    var high := Word(Name(Decimals(r.high)));
    var h := VersionText(r.high);
    WordTexts(Decimals(r.high), h);
    TextOfThree(high, Gap, high);
    if r.low.None? {
      TextOfThree(Word(UpTo), Gap, high);
      TextOfThree(Word(Before), Gap, high);
      assert "up to" + (" " + h) == "up to " + h && "before" + (" " + h) == "before " + h;
    } else {
      DecimalsAreName(r.low.value);
      var low, l := Word(Name(Decimals(r.low.value))), VersionText(r.low.value);
      WordTexts(Decimals(r.low.value), l);
      var word := Word(if r.highIncluded then To else Before);
      TextOfThree(word, Gap, high);
      TextOfThree(low, Gap, Gap);
      TextOfBoth([low, Gap], [word, Gap, high]);
      TextOfTwo(low, Gap);
      assert [low, Gap] + [word, Gap, high] == [low, Gap, word, Gap, high];
      assert l + " " + ("to" + (" " + h)) == l + " to " + h;
      assert l + " " + ("before" + (" " + h)) == l + " before " + h;
    }
  }

  lemma TextOfTwo(a: Piece, b: Piece)
    ensures Text([a, b]) == PieceText(a) + PieceText(b)
  {
    hide PieceText;
    NoText();
    assert [a, b][1..] == [b] && [b][1..] == [] && PieceText(b) + "" == PieceText(b);
  }

  lemma WordTexts(numbers: seq<string>, name: string)
    requires Join(numbers, ".") == name
    ensures PieceText(Word(Name(numbers))) == name && PieceText(Word(UpTo)) == "up to" && PieceText(Gap) == " "
    ensures PieceText(Word(Before)) == "before" && PieceText(Word(To)) == "to" && PieceText(Comma) == ","
  {
  }

  function WrittenPieces(rs: seq<VersionRange>): seq<Piece> {
    if rs == [] then []
    else if |rs| == 1 then PiecesOf(rs[0])
    else PiecesOf(rs[0]) + ([Comma, Gap] + WrittenPieces(rs[1..]))
  }

  lemma {:induction false} WrittenText(rs: seq<VersionRange>)
    requires rs != [] && forall r :: r in rs ==> ThreeParts(r)
    ensures Text(WrittenPieces(rs)) == Written(rs)
  {
    hide PiecesOf, VersionRange.Str, ThreeParts, PieceText, Text;
    TextOfRange(rs[0]);
    var one, rest := rs[0].Str(), rs[1..];
    if |rs| == 1 {
      StrsOfOne(rs);
    } else {
      WrittenText(rest);
      StrsFirst(rs);
      JoinMore(one, Strs(rest), ", ");
      WordTexts([], "");
      TextOfTwo(Comma, Gap);
      TextOfBoth(PiecesOf(rs[0]), [Comma, Gap] + WrittenPieces(rest));
      TextOfBoth([Comma, Gap], WrittenPieces(rest));
      assert "," + " " == ", ";
      assert one + (", " + Written(rest)) == one + ", " + Written(rest);
    }
  }

  lemma StrsFirst(rs: seq<VersionRange>)
    requires |rs| > 1
    ensures Strs(rs) == [rs[0].Str()] + Strs(rs[1..]) && Strs(rs[1..]) != []
  {
    hide VersionRange.Str;
  }

  lemma StrsOfOne(rs: seq<VersionRange>)
    requires |rs| == 1
    ensures Written(rs) == rs[0].Str()
  {
    hide VersionRange.Str;
    assert Strs(rs[1..]) == [] && Strs(rs) == [rs[0].Str()];
  }

  /** What a piece of a written text can be, and what can follow it. */
  predicate IsWritten(p: Piece) { p.Gap? || p.Comma? || (p.Word? && ValidTerm(p.term)) }

  predicate CanStand(p: Piece, next: Piece) { (p.Word? ==> next.Gap? || next.Comma?) && (p.Gap? ==> next.Word?) }

  ghost predicate WellWritten(ps: seq<Piece>) {
    && ps != [] && ps[0].Word? && ps[|ps| - 1].Word? && (forall p :: p in ps ==> IsWritten(p))
    && forall i :: 0 <= i < |ps| - 1 ==> CanStand(ps[i], ps[i + 1])
  }

  lemma RangeWellWritten(r: VersionRange)
    requires ThreeParts(r)
    ensures WellWritten(PiecesOf(r))
  {
    hide Decimals;
    DecimalsAreName(r.high);
    if r.low.Some? { DecimalsAreName(r.low.value); }
  }

  lemma CommaWellWritten(a: seq<Piece>, b: seq<Piece>)
    requires WellWritten(a) && WellWritten(b)
    ensures WellWritten(a + ([Comma, Gap] + b))
  {
    hide IsWritten;
    var ps := a + ([Comma, Gap] + b);
    assert IsWritten(Comma) && IsWritten(Gap) by { SignsAreWritten(); }
    forall p | p in ps ensures IsWritten(p) { assert p in a || p == Comma || p == Gap || p in b; }
    forall i | 0 <= i < |ps| - 1 ensures CanStand(ps[i], ps[i + 1]) {
      if i < |a| - 1 { assert ps[i] == a[i] && ps[i + 1] == a[i + 1]; }
      else if i >= |a| + 2 { assert ps[i] == b[i - |a| - 2] && ps[i + 1] == b[i - |a| - 1]; }
      else if i == |a| - 1 { assert ps[i] == a[i] && ps[i + 1] == Comma; }
      else if i == |a| { assert ps[i] == Comma; }
      else { assert ps[i] == Gap && ps[i + 1] == b[0]; }
    }
  }

  lemma SignsAreWritten()
    ensures IsWritten(Comma) && IsWritten(Gap)
  {
  }

  lemma {:induction false} AllWellWritten(rs: seq<VersionRange>)
    requires rs != [] && forall r :: r in rs ==> ThreeParts(r)
    ensures WellWritten(WrittenPieces(rs))
  {
    hide ThreeParts, PiecesOf, WellWritten;
    RangeWellWritten(rs[0]);
    if |rs| > 1 {
      AllWellWritten(rs[1..]);
      CommaWellWritten(PiecesOf(rs[0]), WrittenPieces(rs[1..]));
    }
  }

  lemma {:induction false} WrittenIsValid(ps: seq<Piece>)
    requires (forall p :: p in ps ==> IsWritten(p)) && forall i :: 0 <= i < |ps| - 1 ==> CanStand(ps[i], ps[i + 1])
    ensures ValidPieces(ps)
  {
    hide ValidTerm;
    if ps != [] {
      assert ps[0] in ps;
      forall p | p in ps[1..] ensures IsWritten(p) { assert p in ps; }
      forall i | 0 <= i < |ps[1..]| - 1 ensures CanStand(ps[1..][i], ps[1..][i + 1]) {
        assert ps[1..][i] == ps[i + 1] && ps[1..][i + 1] == ps[i + 2];
      }
      WrittenIsValid(ps[1..]);
      if |ps| > 1 { assert ps[1] in ps && CanStand(ps[0], ps[1]); }
    }
  }

  lemma WrittenIsText(ps: seq<Piece>)
    requires WellWritten(ps)
    ensures ValidText([], ps, []) && EvenlySpaced([] + ps + []) && [] + ps + [] == ps
  {
    hide ValidPieces;
    WrittenIsValid(ps);
    assert [] + ps + [] == ps;
    forall p | p in ps ensures !p.Mark? { assert IsWritten(p); }
    forall i | 0 <= i < |ps| - 1 && ps[i].Gap? ensures !StartsSpace(ps[i + 1]) { assert CanStand(ps[i], ps[i + 1]); }
  }

  // ---------- What written ranges say ----------

  lemma RangeSays(r: VersionRange)
    requires ThreeParts(r)
    ensures TermsOf(r) != [] && Says(TermsOf(r), r)
  {
    hide Decimals, Value;
    DecimalsAreName(r.high);
    if r.low.Some? { DecimalsAreName(r.low.value); }
    var w := if r.low == Some(r.high) && r.highIncluded then Only(Decimals(r.high))
             else if r.low.None? then
               if r.highIncluded then AllThrough(UpTo, Decimals(r.high)) else AllBefore(Decimals(r.high))
             else if r.highIncluded then Between(false, Decimals(r.low.value), To, Decimals(r.high))
             else BetweenBefore(false, Decimals(r.low.value), Decimals(r.high));
    assert ValidWording(w) && RangeOf(w) == r;
    assert Wordings(w) == TermsOf(r);
  }

  lemma AddFirst(p: Piece, ps: seq<Piece>, rest: seq<seq<Term>>)
    requires rest != []
    ensures AddAll([p] + ps, rest) == Add(p, AddAll(ps, rest))
  {
    hide Add;
    assert ([p] + ps)[1..] == ps;
  }

  /** Terms with a gap between them. */
  function Gapped(ts: seq<Term>): seq<Piece> {
    if ts == [] then [] else if |ts| == 1 then [Word(ts[0])] else [Word(ts[0])] + ([Gap] + Gapped(ts[1..]))
  }

  lemma {:induction false} GappedAdds(ts: seq<Term>, rest: seq<seq<Term>>)
    requires rest != [] && ts != [] && forall t :: t in ts ==> !t.Filler?
    ensures AddAll(Gapped(ts), rest) == [ts + rest[0]] + rest[1..]
  {
    assert ts[0] in ts;
    if |ts| == 1 {
      AddOne(Word(ts[0]), rest);
      assert ts == [ts[0]];
    } else {
      forall t | t in ts[1..] ensures !t.Filler? { assert t in ts; }
      GappedAdds(ts[1..], rest);
      AddFirst(Word(ts[0]), [Gap] + Gapped(ts[1..]), rest);
      AddFirst(Gap, Gapped(ts[1..]), rest);
      assert [ts[0]] + (ts[1..] + rest[0]) == ts + rest[0];
    }
  }

  lemma RangeAdds(r: VersionRange, rest: seq<seq<Term>>)
    requires rest != []
    ensures AddAll(PiecesOf(r), rest) == [TermsOf(r) + rest[0]] + rest[1..]
  {
    hide Decimals, AddAll;
    var ts := TermsOf(r);
    GappedAdds(ts, rest);
    PiecesAreGapped(r);
  }

  lemma PiecesAreGapped(r: VersionRange)
    ensures PiecesOf(r) == Gapped(TermsOf(r))
  {
    hide Decimals;
    var ts := TermsOf(r);
    if |ts| == 2 { assert ts[1..] == [ts[1]] && Gapped([ts[1]]) == [Word(ts[1])]; }
    if |ts| == 3 {
      assert ts[1..] == [ts[1], ts[2]] && [ts[1], ts[2]][1..] == [ts[2]] && Gapped([ts[2]]) == [Word(ts[2])];
    }
  }

  lemma {:induction false} WrittenSays(rs: seq<VersionRange>)
    requires rs != [] && forall r :: r in rs ==> ThreeParts(r)
    ensures SayAll(Said(WrittenPieces(rs)), rs)
  {
    hide ThreeParts, PiecesOf, TermsOf, Says, Said;
    var ps := WrittenPieces(rs);
    RangeSays(rs[0]);
    if |rs| == 1 {
      SaidOfBoth(ps, []);
      SaidOfNothing();
      assert ps + [] == ps;
      RangeAdds(rs[0], [[]]);
      assert TermsOf(rs[0]) + [] == TermsOf(rs[0]);
      assert Said(ps)[1..] == [] && rs[1..] == [];
    } else {
      var more := WrittenPieces(rs[1..]);
      WrittenSays(rs[1..]);
      SaidOfBoth(PiecesOf(rs[0]), [Comma, Gap] + more);
      SaidAfterComma(more);
      RangeAdds(rs[0], [[]] + Said(more));
      assert TermsOf(rs[0]) + [] == TermsOf(rs[0]);
      assert Said(ps)[1..] == Said(more);
    }
  }

  lemma SaidAfterComma(ps: seq<Piece>)
    ensures Said([Comma, Gap] + ps) == [[]] + Said(ps)
  {
    var a := [Gap] + ps;
    assert [Comma, Gap] + ps == [Comma] + a && a[1..] == ps && ([Comma] + a)[1..] == a;
  }

  /** Writing ranges of three-part versions, separated by ", ", and reading them gives them back. */
  lemma RangesReadBack(rs: seq<VersionRange>)
    requires rs != [] && forall r :: r in rs ==> ThreeParts(r)
    ensures Parse(Written(rs)) == Ranges(rs)
  {
    hide ThreeParts, WellWritten, Parse, Written, SayAll, Said, ValidText, EvenlySpaced, Text, SameUpToCase;
    var ps := WrittenPieces(rs);
    AllWellWritten(rs);
    WrittenIsText(ps);
    WrittenText(rs);
    WrittenSays(rs);
    SameAsItself(Written(rs));
    AnyCaseIsRead(Written(rs), [], ps, [], rs);
  }

  lemma SameAsItself(s: string)
    ensures SameUpToCase(s, s)
  {
  }

  // ---------- A sentence of the page ----------

  lemma {:induction false} GappedText(ts: seq<Term>)
    ensures Text(Gapped(ts)) == ClauseText(ts)
  {
    hide TermText, ClauseText, Text, PieceText;
    if ts == [] {
      NoText();
      OneMoreTerm(From, []);
    } else {
      OneMoreTerm(ts[0], ts[1..]);
      assert ts == [ts[0]] + ts[1..];
      WordIs(ts[0]);
      if |ts| == 1 {
        OneIsText([Word(ts[0])]);
      } else {
        GappedText(ts[1..]);
        OneText(Word(ts[0]), [Gap] + Gapped(ts[1..]));
        OneText(Gap, Gapped(ts[1..]));
        Moved(TermText(ts[0]), " ", ClauseText(ts[1..]));
      }
    }
  }

  lemma WordIs(t: Term)
    ensures PieceText(Word(t)) == TermText(t) && PieceText(Gap) == " "
  {
  }

  lemma {:induction false} GappedWellWritten(ts: seq<Term>)
    requires ts != [] && forall t :: t in ts ==> ValidTerm(t)
    ensures WellWritten(Gapped(ts))
  {
    hide ValidTerm;
    assert ts[0] in ts;
    if |ts| > 1 {
      forall t | t in ts[1..] ensures ValidTerm(t) { assert t in ts; }
      GappedWellWritten(ts[1..]);
      var a, b := [Word(ts[0])], Gapped(ts[1..]);
      var ps := a + ([Gap] + b);
      assert IsWritten(Gap) by { SignsAreWritten(); }
      forall p | p in ps ensures IsWritten(p) { assert p == Word(ts[0]) || p == Gap || p in b; }
      forall i | 0 <= i < |ps| - 1 ensures CanStand(ps[i], ps[i + 1]) {
        if i >= 2 { assert ps[i] == b[i - 2] && ps[i + 1] == b[i - 1]; }
      }
    }
  }

  /** With fillers in front of them, the terms are said all the same. */
  lemma {:induction false} FillersSayNothing(fillers: seq<Term>, ts: seq<Term>)
    requires ts != [] && forall t :: t in fillers ==> t.Filler?
    ensures Said(Gapped(fillers + ts)) == Said(Gapped(ts))
  {
    if fillers == [] { assert fillers + ts == ts; } else {
      assert fillers[0] in fillers;
      forall t | t in fillers[1..] ensures t.Filler? { assert t in fillers; }
      FillersSayNothing(fillers[1..], ts);
      var rest := Gapped(fillers[1..] + ts);
      assert (fillers + ts)[1..] == fillers[1..] + ts;
      assert Gapped(fillers + ts) == [Word(fillers[0])] + ([Gap] + rest);
      assert ([Word(fillers[0])] + ([Gap] + rest))[1..] == [Gap] + rest && ([Gap] + rest)[1..] == rest;
    }
  }

  /** "All version of Qt up to and including" a version takes that version in. */
  lemma UpToAndIncludingIsRead(high: Version)
    requires |high| == 3
    ensures Parse("All version of Qt up to and including " + VersionText(high))
         == Ranges([VersionRange(None, high, true)])
  {
    hide Decimals, Parse, Said, SayAll, ValidText, EvenlySpaced, Text, SameUpToCase, WellWritten, TermText, Value;
    var fillers := [Filler("all"), Filler("version"), Filler("of"), Filler("qt")];
    var terms := [UpToAndIncluding, Name(Decimals(high))];
    var ps := Gapped(fillers + terms);
    DecimalsAreName(high);
    GappedWellWritten(fillers + terms);
    WrittenIsText(ps);
    GappedText(fillers + terms);
    SentenceText(Decimals(high), VersionText(high));
    FillersSayNothing(fillers, terms);
    TermsSaid(terms);
    var r := VersionRange(None, high, true);
    var w := AllThrough(UpToAndIncluding, Decimals(high));
    assert ValidWording(w) && Wordings(w) == terms && RangeOf(w) == r;
    OneClauseSays(terms, r);
    AnyCaseIsRead("All version of Qt up to and including " + VersionText(high), [], ps, [], [r]);
  }

  lemma TermsSaid(ts: seq<Term>)
    requires ts != [] && forall t :: t in ts ==> !t.Filler?
    ensures Said(Gapped(ts)) == [ts]
  {
    hide Said, AddAll;
    SaidOfBoth(Gapped(ts), []);
    SaidOfNothing();
    assert Gapped(ts) + [] == Gapped(ts);
    GappedAdds(ts, [[]]);
    assert ts + [] == ts;
  }

  lemma OneClauseSays(ts: seq<Term>, r: VersionRange)
    requires ts != [] && Says(ts, r)
    ensures SayAll([ts], [r])
  {
    hide Says;
    assert [ts][1..] == [] && [r][1..] == [] && SayAll([], []);
  }

  lemma FillerText(word: string, ts: seq<Term>, text: string)
    requires ts != [] && ClauseText(ts) == text
    ensures ClauseText([Filler(word)] + ts) == word + (" " + text)
  {
    hide ClauseText;
    OneMoreTerm(Filler(word), ts);
    Moved(word, " ", text);
  }

  /** The sentence is the words joined, up to the case of its letters. */
  lemma SentenceText(numbers: seq<string>, name: string)
    requires Join(numbers, ".") == name
    ensures var fillers := [Filler("all"), Filler("version"), Filler("of"), Filler("qt")];
            SameUpToCase("All version of Qt up to and including " + name,
                         ClauseText(fillers + [UpToAndIncluding, Name(numbers)]))
  {
    hide Join, ClauseText, SameUpToCase;
    var c := [UpToAndIncluding, Name(numbers)];
    BoundText(numbers, name);
    var x := "up to and including " + name;
    FillerText("qt", c, x);
    FillerText("of", [Filler("qt")] + c, "qt" + (" " + x));
    FillerText("version", [Filler("of")] + ([Filler("qt")] + c), "of" + (" " + ("qt" + (" " + x))));
    var f := [Filler("version")] + ([Filler("of")] + ([Filler("qt")] + c));
    FillerText("all", f, "version" + (" " + ("of" + (" " + ("qt" + (" " + x))))));
    assert [Filler("all")] + f == [Filler("all"), Filler("version"), Filler("of"), Filler("qt")] + c;
    FillersJoined(x);
    CapitalLetters();
    Moved("All version of Qt ", "up to and including ", name);
    assert "All version of Qt " + "up to and including " == "All version of Qt up to and including ";
    SameBeginning("All version of Qt ", "all version of qt ", x);
  }

  lemma BoundText(numbers: seq<string>, name: string)
    requires Join(numbers, ".") == name
    ensures ClauseText([UpToAndIncluding, Name(numbers)]) == "up to and including " + name
  {
    hide Join, ClauseText;
    OneMoreTerm(Name(numbers), []);
    OneMoreTerm(UpToAndIncluding, [Name(numbers)]);
    assert [Name(numbers)] + [] == [Name(numbers)];
    assert [UpToAndIncluding] + [Name(numbers)] == [UpToAndIncluding, Name(numbers)];
    assert "up to and including" + " " == "up to and including ";
  }

  lemma FillersJoined(x: string)
    ensures "all" + (" " + ("version" + (" " + ("of" + (" " + ("qt" + (" " + x))))))) == "all version of qt " + x
  {
    Moved("qt", " ", x);
    Moved("of", " ", "qt " + x);
    Moved("of ", "qt ", x);
    Moved("version", " ", "of qt " + x);
    Moved("version ", "of qt ", x);
    Moved("all", " ", "version of qt " + x);
    Moved("all ", "version of qt ", x);
    assert "qt" + " " == "qt " && "of" + " " == "of " && "version" + " " == "version " && "all" + " " == "all ";
    assert "of " + "qt " == "of qt " && "version " + "of qt " == "version of qt ";
    assert "all " + "version of qt " == "all version of qt ";
  }

  lemma CapitalLetters()
    ensures SameUpToCase("All version of Qt ", "all version of qt ")
  {
  }

  lemma SameBeginning(a: string, b: string, rest: string)
    requires SameUpToCase(a, b)
    ensures SameUpToCase(a + rest, b + rest)
  {
    hide SameLetter;
    forall c ensures SameLetter(c, c) { SameLetterAsItself(c); }
  }

  lemma SameLetterAsItself(c: char)
    ensures SameLetter(c, c)
  {
  }

  lemma ClauseHasThreeParts(clause: string)
    ensures ParseClause(clause).Some? ==> ThreeParts(ParseClause(clause).value)
  {
    hide IsNumber, Int;
  }

  lemma {:induction false} ParsedHaveThreeParts(clauses: seq<string>, ranges: seq<VersionRange>)
    requires forall r :: r in ranges ==> ThreeParts(r)
    ensures var p := ParseClauses(clauses, ranges);
            p.Ranges? ==> p.ranges != [] && forall r :: r in p.ranges ==> ThreeParts(r)
    decreases |clauses|
  {
    hide ParseClause, Strip, ThreeParts;
    if clauses != [] {
      var clause := Strip(clauses[0]);
      ClauseHasThreeParts(clause);
      var range := ParseClause(clause);
      if clause == "" { ParsedHaveThreeParts(clauses[1..], ranges); }
      else if range.Some? { ParsedHaveThreeParts(clauses[1..], ranges + [range.value]); }
    }
  }

  /** The written form is a normal form: whatever text is understood, writing what it means and
      reading that means the same. */
  lemma WrittenIsNormalForm(text: string)
    ensures Parse(text).Ranges? ==> Parse(Written(Parse(text).ranges)) == Parse(text)
  {
    hide Clauses, Normalized, ParseClauses, Written;
    ParsedHaveThreeParts(Clauses(' ', Normalized(text), ""), []);
    if Parse(text).Ranges? { RangesReadBack(Parse(text).ranges); }
  }
}
