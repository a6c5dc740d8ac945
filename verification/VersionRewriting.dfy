/** The rewriting steps on the pieces of a text, one step after the other
    (scripts/sbom/logsquirl_vulns.py, parse_affected_versions). */
module VersionRewriting {
  import opened Options
  import opened Texts
  import opened VersionRanges
  import opened VersionWordings

  // ---------- Texts and what they begin with ----------

  function LastOf(prev: char, s: string): char { if s == "" then prev else s[|s| - 1] }

  lemma {:induction false} TextOfBoth(a: seq<Piece>, b: seq<Piece>)
    ensures Text(a + b) == Text(a) + Text(b)
  {
    if a == [] { assert a + b == b; } else {
      assert (a + b)[1..] == a[1..] + b;
      TextOfBoth(a[1..], b);
      assert PieceText(a[0]) + (Text(a[1..]) + Text(b)) == PieceText(a[0]) + Text(a[1..]) + Text(b);
    }
  }

  lemma AfterIs(a: string, b: string)
    ensures a <= a + b && After(a + b, a) == Some(b) && Optional(a + b, a) == b && (a + b)[|a|..] == b
  {
  }

  lemma NotAfter(s: string, text: string)
    requires text != "" && (s == "" || s[0] != text[0])
    ensures After(s, text) == None && Optional(s, text) == s
  {
  }

  /** Where nothing matches, nothing is replaced. */
  lemma {:induction false} SubSkips(prev: char, a: string, b: string, m: (char, string) -> Match)
    requires forall k :: 0 <= k < |a| ==> m(LastOf(prev, a[..k]), a[k..] + b).NoMatch?
    ensures Sub(prev, a + b, m) == a + Sub(LastOf(prev, a), b, m)
    decreases |a|
  {
    if a == "" { assert a + b == b; } else {
      var s := a + b;
      assert a[0..] + b == s && a[..0] == "";
      assert m(LastOf(prev, a[..0]), a[0..] + b).NoMatch?;
      assert s[1..] == a[1..] + b;
      forall k | 0 <= k < |a[1..]| ensures m(LastOf(a[0], a[1..][..k]), a[1..][k..] + b).NoMatch? {
        assert a[1..][k..] == a[k + 1..];
        assert LastOf(a[0], a[1..][..k]) == LastOf(prev, a[..k + 1]);
      }
      SubSkips(a[0], a[1..], b, m);
      assert LastOf(a[0], a[1..]) == LastOf(prev, a);
      assert [a[0]] + (a[1..] + Sub(LastOf(prev, a), b, m)) == a + Sub(LastOf(prev, a), b, m);
    }
  }

  lemma SubMatches(prev: char, a: string, b: string, m: (char, string) -> Match, text: string)
    requires a != "" && m(prev, a + b) == Match(|a|, text)
    ensures Sub(prev, a + b, m) == text + Sub(LastOf(prev, a), b, m)
  {
    assert (a + b)[|a|..] == b;
  }

  /** The first character of another kind. */
  function FirstOther(s: string, p: char -> bool): Option<char> {
    var n := RunLength(s, p);
    if n == |s| then None else Some(s[n])
  }

  lemma {:induction false} OtherLater(a: string, b: string, p: char -> bool)
    requires forall c :: c in a ==> p(c)
    ensures FirstOther(a + b, p) == FirstOther(b, p)
  {
    if a == "" { assert a + b == b; } else {
      assert (a + b)[1..] == a[1..] + b;
      OtherLater(a[1..], b, p);
    }
  }

  lemma OtherAt(s: string, k: nat, b: string, p: char -> bool)
    requires k < |s| && !p(s[k]) && forall i :: 0 <= i < k ==> p(s[i])
    ensures FirstOther(s + b, p) == Some(s[k])
  {
    assert s + b == s[..k] + (s[k..] + b);
    RunEnds(s[..k], s[k..] + b, p);
  }

  // ---------- Mapping pieces ----------

  function Each(ps: seq<Piece>, f: Piece -> seq<Piece>): seq<Piece> {
    if ps == [] then [] else f(ps[0]) + Each(ps[1..], f)
  }

  lemma {:induction false} EachOfBoth(a: seq<Piece>, b: seq<Piece>, f: Piece -> seq<Piece>)
    ensures Each(a + b, f) == Each(a, f) + Each(b, f)
  {
    if a == [] { assert a + b == b; } else {
      assert (a + b)[1..] == a[1..] + b;
      EachOfBoth(a[1..], b, f);
    }
  }

  function NoteGone(p: Piece): seq<Piece> { if p.KnownUnaffected? then [] else [p] }

  function UnknownAsRange(p: Piece): seq<Piece> {
    if p.Unknown? then [Comma, Gap, Word(Before), Gap, Word(Name(p.numbers))] else [p]
  }

  function PlatformsGone(p: Piece): seq<Piece> { if p.Platforms? then [] else [p] }

  function LongThrough(p: Piece): seq<Piece> { if p == Word(UpToAndIncluding) then [Word(Through)] else [p] }

  function ShortThrough(p: Piece): seq<Piece> { if p == Word(UpTo) then [Word(Through)] else [p] }

  function FillerGone(p: Piece): seq<Piece> { if p.Word? && p.term.Filler? then [Gap] else [p] }

  predicate ReadyPrev(prev: char, ps: seq<Piece>) { ps != [] && StartsWord(ps[0]) ==> !IsWord(prev) }

  // ---------- Names of versions ----------

  predicate VersionChar(c: char) { IsDigit(c) || c == '.' }

  lemma {:induction false} NameCharacters(numbers: seq<string>)
    requires IsName(numbers)
    ensures var s := Join(numbers, ".");
            s != "" && IsDigit(s[0]) && IsDigit(s[|s| - 1]) && forall c :: c in s ==> VersionChar(c)
  {
    var s, n := Join(numbers, "."), numbers[0];
    assert n in numbers && IsNumber(n) && n[0] in n && n[|n| - 1] in n;
    if |numbers| > 1 {
      forall m | m in numbers[1..] ensures m in numbers {}
      NameCharacters(numbers[1..]);
      var t := Join(numbers[1..], ".");
      assert s == n + "." + t;
      forall c | c in s ensures VersionChar(c) { assert c in n || c == '.' || c in t; }
      assert s[|s| - 1] == t[|t| - 1];
    } else {
      forall c | c in s ensures VersionChar(c) {}
    }
  }

  /** A point in a version's name is followed by a digit. */
  lemma {:induction false} PointBeforeDigit(numbers: seq<string>, k: nat)
    requires IsName(numbers) && k < |Join(numbers, ".")| && Join(numbers, ".")[k] == '.'
    ensures k + 1 < |Join(numbers, ".")| && IsDigit(Join(numbers, ".")[k + 1])
  {
    var s, n := Join(numbers, "."), numbers[0];
    assert n in numbers && IsNumber(n);
    forall i | 0 <= i < |n| ensures IsDigit(n[i]) { assert n[i] in n; }
    if |numbers| > 1 {
      forall m | m in numbers[1..] ensures m in numbers {}
      var t := Join(numbers[1..], ".");
      assert s == n + "." + t;
      NameCharacters(numbers[1..]);
      if k > |n| { PointBeforeDigit(numbers[1..], k - |n| - 1); }
    }
  }

  lemma NameIsRead(numbers: seq<string>)
    requires IsName(numbers)
    ensures Split(Join(numbers, "."), '.') == numbers
    ensures IsV2(Join(numbers, ".")) <==> 2 <= |numbers| <= 3
    ensures IsV(Join(numbers, ".")) <==> |numbers| == 3
  {
    forall n | n in numbers ensures '.' !in n {}
    SplitJoined(numbers, '.');
  }

  // ---------- "version(s) before ... known to be unaffected" ----------

  /** What stands in it before "known". */
  predicate BeforeKnown(c: char) {
    IsDigit(c) || c in {'e', 'r', 's', 'i', 'o', 'n', 'b', 'f', 'a', ' ', '.'}
  }

  /** And before the version's point. */
  predicate BeforePoint(c: char) { IsWordChar(c) || c == ' ' || c == '-' }

  lemma {:induction false} NumberIsPlain(n: string)
    requires IsNumber(n)
    ensures forall c :: c in n ==> BeforeKnown(c) && BeforePoint(c) && VersionChar(c)
  {
  }

  lemma V2Parts(text: string)
    requires IsV2(text)
    ensures exists n, more :: IsNumber(n) && text == n + "." + more
    ensures forall c :: c in text ==> VersionChar(c)
  {
    var parts := Split(text, '.');
    SplitRejoins(text, '.');
    NameCharacters(parts);
    assert parts[0] in parts;
    assert text == parts[0] + "." + Join(parts[1..], ".");
  }

  lemma Splits(s: string, text: string)
    ensures After(s, text).Some? ==> s == text + After(s, text).value
    ensures s == If(text <= s, text) + Optional(s, text)
  {
  }

  function NoteText(plural: bool, version: string, verb: string, rest: string): string {
    "version" + (If(plural, "s") + (" before " + (version + (verb + (KNOWN + rest)))))
  }

  /** The parts of a match. */
  lemma UnaffectedParts(prev: char, s: string) returns (plural: bool, version: string, verb: string, rest: string)
    requires Unaffected(prev, s).Match?
    ensures (verb == " are" || verb == " is") && IsV2(version) && s == NoteText(plural, version, verb, rest)
  {
    hide IsV2, RunLength, IsWord, After, Optional, If, KNOWN;
    var a := After(s, "version").value;
    plural := "s" <= a;
    var b := Optional(a, "s");
    var c := After(b, " before ").value;
    var n := RunLength(c, c => IsDigit(c) || c == '.');
    version := c[..n];
    var d := c[n..];
    verb := if " are" <= d then " are" else " is";
    rest := After(d[|verb|..], KNOWN).value;
    Splits(s, "version");
    Splits(a, "s");
    Splits(b, " before ");
    Splits(d[|verb|..], KNOWN);
    assert c == version + d && d == verb + d[|verb|..];
  }

  lemma UnaffectedForm(prev: char, s: string)
    requires Unaffected(prev, s).Match?
    ensures s != "" && FirstOther(s[1..], BeforeKnown) == Some('k')
    ensures FirstOther(s, BeforePoint) == Some('.')
  {
    hide IsV2, Unaffected, FirstOther, NoteText;
    var plural, version, verb, rest := UnaffectedParts(prev, s);
    KnownComes(plural, version, verb, rest);
    PointComes(plural, version, verb, rest);
    NoteStarts(plural, version, verb, rest);
  }

  lemma NoteStarts(plural: bool, version: string, verb: string, rest: string)
    ensures NoteText(plural, version, verb, rest) != ""
  {
  }

  lemma KnownComes(plural: bool, version: string, verb: string, rest: string)
    requires (verb == " are" || verb == " is") && IsV2(version)
    ensures NoteText(plural, version, verb, rest) != ""
    ensures FirstOther(NoteText(plural, version, verb, rest)[1..], BeforeKnown) == Some('k')
  {
    hide IsV2, FirstOther;
    V2Parts(version);
    var e := KNOWN + rest;
    var d := version + (verb + e);
    var b := If(plural, "s") + (" before " + d);
    assert ("version" + b)[1..] == "ersion" + b;
    OtherLater("ersion", b, BeforeKnown);
    OtherLater(If(plural, "s"), " before " + d, BeforeKnown);
    OtherLater(" before ", d, BeforeKnown);
    OtherLater(version, verb + e, BeforeKnown);
    OtherLater(verb, e, BeforeKnown);
    OtherAt(KNOWN, 1, rest, BeforeKnown);
  }

  lemma PointComes(plural: bool, version: string, verb: string, rest: string)
    requires IsV2(version)
    ensures FirstOther(NoteText(plural, version, verb, rest), BeforePoint) == Some('.')
  {
    var tail := verb + (KNOWN + rest);
    hide IsV2, FirstOther, IsNumber;
    V2Parts(version);
    var n, more :| IsNumber(n) && version == n + "." + more;
    NumberIsPlain(n);
    var e := "." + (more + tail);
    assert version + tail == n + e;
    OtherLater("version", If(plural, "s") + (" before " + (n + e)), BeforePoint);
    OtherLater(If(plural, "s"), " before " + (n + e), BeforePoint);
    OtherLater(" before ", n + e, BeforePoint);
    OtherLater(n, e, BeforePoint);
    OtherAt(".", 0, more + tail, BeforePoint);
  }

  lemma NoteReads(prev: char, s: string, a: string, c: string, n: nat, verb: string, end: string)
    requires !IsWord(prev) && After(s, "version") == Some(a) && After(Optional(a, "s"), " before ") == Some(c)
    requires n == RunLength(c, c => IsDigit(c) || c == '.') && IsV2(c[..n])
    requires verb == " is" || verb == " are"
    requires verb <= c[n..] && After(c[n..][|verb|..], KNOWN) == Some(end)
    ensures Unaffected(prev, s) == Match(|s| - |Optional(end, ".")|, "")
  {
    hide IsV2, RunLength, IsWord, After, Optional;
    assert c[n..][1] == verb[1];
  }

  /** The sentence itself. */
  lemma NoteMatches(prev: char, p: Piece, next: string)
    requires p.KnownUnaffected? && ValidPiece(p) && !IsWord(prev)
    requires next != "" && !p.stop ==> next[0] != '.'
    ensures PieceText(p) != "" && Unaffected(prev, PieceText(p) + next) == Match(|PieceText(p)|, "")
  {
    hide IsV2, RunLength, IsWord, IsName, After, Optional, PieceText, Unaffected, If, KNOWN, Join;
    var name, verb := Join(p.numbers, "."), if p.are then " are" else " is";
    var end := If(p.stop, ".") + next;
    NameIsRead(p.numbers);
    NameCharacters(p.numbers);
    NotePrinted(p, next);
    var c := name + (verb + (KNOWN + end));
    NoteBegins(p.plural, c);
    NoteGoesOn(name, verb, end);
    NoteReads(prev, PieceText(p) + next, If(p.plural, "s") + (" before " + c), c, |name|, verb, end);
    OptionalIs(p.stop, ".", next);
  }

  lemma NoteBegins(plural: bool, c: string)
    ensures var b := If(plural, "s") + (" before " + c);
            After("version" + b, "version") == Some(b) && After(Optional(b, "s"), " before ") == Some(c)
  {
    hide After, Optional, If;
    AfterIs("version", If(plural, "s") + (" before " + c));
    OptionalIs(plural, "s", " before " + c);
    AfterIs(" before ", c);
  }

  lemma NoteGoesOn(name: string, verb: string, end: string)
    requires (forall c :: c in name ==> VersionChar(c)) && (verb == " are" || verb == " is")
    ensures var c := name + (verb + (KNOWN + end));
            && RunLength(c, c => IsDigit(c) || c == '.') == |name| && c[..|name|] == name
            && verb <= c[|name|..] && After(c[|name|..][|verb|..], KNOWN) == Some(end)
  {
    hide RunLength, After, Optional, KNOWN;
    var e := verb + (KNOWN + end);
    RunEnds(name, e, c => IsDigit(c) || c == '.');
    AfterIs(name, e);
    AfterIs(verb, KNOWN + end);
    AfterIs(KNOWN, end);
    assert (name + e)[..|name|] == name;
  }

  /** What may be there, and is or is not. */
  lemma OptionalIs(b: bool, text: string, rest: string)
    requires text != "" && (!b && rest != "" ==> rest[0] != text[0])
    ensures Optional(If(b, text) + rest, text) == rest
  {
    if b { AfterIs(text, rest); } else { assert "" + rest == rest; }
  }

  lemma NotePrinted(p: Piece, next: string)
    requires p.KnownUnaffected?
    ensures PieceText(p) != ""
    ensures PieceText(p) + next
         == NoteText(p.plural, Join(p.numbers, "."), if p.are then " are" else " is", If(p.stop, ".") + next)
  {
    hide Join, If, KNOWN;
    var name, verb, stop := Join(p.numbers, "."), if p.are then " are" else " is", If(p.stop, ".");
    NoteIsText(p);
    Moved(KNOWN, stop, next);
    Moved(verb, KNOWN + stop, next);
    Moved(name, verb + (KNOWN + stop), next);
    Moved(" before ", name + (verb + (KNOWN + stop)), next);
    Moved(If(p.plural, "s"), " before " + (name + (verb + (KNOWN + stop))), next);
    Moved("version", If(p.plural, "s") + (" before " + (name + (verb + (KNOWN + stop)))), next);
  }

  lemma NoteIsText(p: Piece)
    requires p.KnownUnaffected?
    ensures PieceText(p) == NoteText(p.plural, Join(p.numbers, "."), if p.are then " are" else " is", If(p.stop, "."))
    ensures PieceText(p) != ""
  {
    hide Join;
  }

  lemma Moved(a: string, b: string, c: string)
    ensures (a + b) + c == a + (b + c)
  {
  }

  // ---------- Nothing else is taken for it ----------

  lemma NoVSkips(prev: char, a: string, b: string)
    requires 'v' !in a
    ensures Sub(prev, a + b, Unaffected) == a + Sub(LastOf(prev, a), b, Unaffected)
  {
    hide Unaffected;
    forall k | 0 <= k < |a| ensures Unaffected(LastOf(prev, a[..k]), a[k..] + b).NoMatch? {
      NoVNoNote(LastOf(prev, a[..k]), a[k..] + b);
    }
    SubSkips(prev, a, b, Unaffected);
  }

  lemma NoVNoNote(prev: char, s: string)
    requires s != "" && s[0] != 'v'
    ensures Unaffected(prev, s).NoMatch?
  {
    NotAfter(s, "version");
  }

  lemma VersionSkips(prev: char, a: string, b: string)
    requires a != "" && 'v' !in a[1..] && FirstOther(a[1..] + b, BeforeKnown) != Some('k')
    ensures Sub(prev, a + b, Unaffected) == a + Sub(LastOf(prev, a), b, Unaffected)
  {
    hide Unaffected, FirstOther;
    forall k | 0 <= k < |a| ensures Unaffected(LastOf(prev, a[..k]), a[k..] + b).NoMatch? {
      if k == 0 {
        assert (a[0..] + b)[1..] == a[1..] + b;
        if Unaffected(LastOf(prev, a[..0]), a[0..] + b).Match? { UnaffectedForm(LastOf(prev, a[..0]), a[0..] + b); }
      } else {
        assert a[k] == a[1..][k - 1];
        NoVNoNote(LastOf(prev, a[..k]), a[k..] + b);
      }
    }
    SubSkips(prev, a, b, Unaffected);
  }

  /** The first character of a term that cannot stand before "known" in the sentence is not its "k". */
  lemma TermNotKnown(t: Term, b: string)
    requires ValidTerm(t) && FirstOther(b, BeforeKnown) != Some('k')
    ensures FirstOther(TermText(t) + b, BeforeKnown) != Some('k')
  {
    hide FirstOther;
    var a := TermText(t);
    match t {
      case Filler(word) =>
        if word == "of" { OtherLater(a, b, BeforeKnown); }
        else { OtherAt(a, if word == "all" then 1 else 0, b, BeforeKnown); }
      case From => OtherAt(a, 3, b, BeforeKnown);
      case Before => OtherLater(a, b, BeforeKnown);
      case Name(numbers) =>
        NameCharacters(numbers);
        OtherLater(a, b, BeforeKnown);
      case _ => OtherAt(a, 0, b, BeforeKnown);
    }
  }

  lemma PieceNotKnown(p: Piece, b: string)
    requires ValidPiece(p) && FirstOther(b, BeforeKnown) != Some('k')
    ensures FirstOther(PieceText(p) + b, BeforeKnown) != Some('k')
  {
    hide FirstOther, TermText;
    match p {
      case Gap => OtherLater(" ", b, BeforeKnown);
      case Comma => OtherAt(",", 0, b, BeforeKnown);
      case And => OtherAt("and", 2, b, BeforeKnown);
      case Mark(c) => if c == '.' { OtherLater([c], b, BeforeKnown); } else { OtherAt([c], 0, b, BeforeKnown); }
      case Word(t) => TermNotKnown(t, b);
      case Platforms(names) => OtherAt(PieceText(p), 1, b, BeforeKnown);
      case Unknown(dot, _, _, _, _, _) => UnknownNotKnown(p, b);
      case KnownUnaffected(_, _, _, _) => OtherAt(PieceText(p), 0, b, BeforeKnown);
    }
  }

  lemma UnknownNotKnown(p: Piece, b: string)
    requires p.Unknown?
    ensures FirstOther(PieceText(p) + b, BeforeKnown) == Some('c')
  {
    hide FirstOther, Join;
    var s := PieceText(p);
    var k := if p.dot then 6 else 5;
    assert s[..k] == If(p.dot, ".") + " affe" && s[k] == 'c';
    forall i | 0 <= i < k ensures BeforeKnown(s[i]) { assert s[i] == s[..k][i]; }
    OtherAt(s, k, b, BeforeKnown);
  }

  lemma {:induction false} TextNotKnown(ps: seq<Piece>)
    requires ValidPieces(ps)
    ensures FirstOther(Text(ps), BeforeKnown) != Some('k')
  {
    hide PieceText, ValidPiece, CanFollow;
    if ps != [] {
      TextNotKnown(ps[1..]);
      PieceNotKnown(ps[0], Text(ps[1..]));
    }
  }

  lemma TermKept(prev: char, t: Term, b: string)
    requires ValidTerm(t) && FirstOther(b, BeforeKnown) != Some('k')
    ensures Sub(prev, TermText(t) + b, Unaffected) == TermText(t) + Sub(LastOf(prev, TermText(t)), b, Unaffected)
  {
    hide FirstOther, Unaffected;
    var a := TermText(t);
    match t {
      case Filler(word) =>
        if word == "version" || word == "versions" {
          OtherLater(a[1..], b, BeforeKnown);
          VersionSkips(prev, a, b);
        } else {
          NoVSkips(prev, a, b);
        }
      case Name(numbers) =>
        NameCharacters(numbers);
        NoVSkips(prev, a, b);
      case _ => NoVSkips(prev, a, b);
    }
  }

  /** In the remark about platforms a parenthesis comes before any point. */
  lemma PlatformsKept(prev: char, p: Piece, b: string)
    requires p.Platforms? && ValidPiece(p)
    ensures Sub(prev, PieceText(p) + b, Unaffected) == PieceText(p) + Sub(LastOf(prev, PieceText(p)), b, Unaffected)
  {
    hide FirstOther, Unaffected, PieceText;
    var a := PieceText(p);
    PlatformsPrinted(p);
    forall k | 0 <= k < |a| ensures Unaffected(LastOf(prev, a[..k]), a[k..] + b).NoMatch? {
      if k < 2 || k == |a| - 1 {
        NoVNoNote(LastOf(prev, a[..k]), a[k..] + b);
      } else {
        InsidePlatforms(p, k, b);
        if Unaffected(LastOf(prev, a[..k]), a[k..] + b).Match? { UnaffectedForm(LastOf(prev, a[..k]), a[k..] + b); }
      }
    }
    SubSkips(prev, a, b, Unaffected);
  }

  lemma PlatformsPrinted(p: Piece)
    requires p.Platforms? && ValidPiece(p)
    ensures var a := PieceText(p);
            && |a| > 3 && a[0] == ' ' && a[1] == '(' && a[|a| - 1] == ')'
            && a[2..|a| - 1] == Join(p.names, " ") + " platforms only"
            && forall c :: c in a[2..|a| - 1] ==> BeforePoint(c)
  {
    var inner := Join(p.names, " ") + " platforms only";
    assert PieceText(p) == " (" + (inner + ")");
    forall c | c in inner ensures BeforePoint(c) {
      if c in Join(p.names, " ") { JoinedCharacter(p.names, " ", c); }
    }
  }

  lemma InsidePlatforms(p: Piece, k: nat, b: string)
    requires p.Platforms? && ValidPiece(p) && 2 <= k < |PieceText(p)|
    ensures FirstOther(PieceText(p)[k..] + b, BeforePoint) == Some(')')
  {
    hide FirstOther, PieceText;
    var a := PieceText(p);
    PlatformsPrinted(p);
    var inner := a[2..|a| - 1];
    forall i | 0 <= i < |a| - 1 - k ensures BeforePoint(a[k..][i]) {
      assert a[k..][i] == inner[k - 2 + i] && inner[k - 2 + i] in inner;
    }
    OtherAt(a[k..], |a| - 1 - k, b, BeforePoint);
  }

  function UnknownStart(p: Piece): string
    requires p.Unknown?
  {
    If(p.dot, ".") + (" affected status " + (If(p.be, "is ") + "unknown "))
  }

  function UnknownTail(p: Piece): string
    requires p.Unknown?
  {
    "before " + (If(p.qt, "qt ") + (Join(p.numbers, ".") + If(p.stop, ".")))
  }

  /** Nor is the sentence about an unknown status taken for it, or any part of it. */
  lemma UnknownKept(prev: char, p: Piece, b: string)
    requires p.Unknown? && ValidPiece(p) && FirstOther(b, BeforeKnown) != Some('k')
    ensures Sub(prev, PieceText(p) + b, Unaffected) == PieceText(p) + Sub(LastOf(prev, PieceText(p)), b, Unaffected)
  {
    hide FirstOther, Unaffected, Sub, Join, IsName, PieceText, UnknownStart, UnknownTail;
    UnknownPrinted(p);
    NoVInUnknown(p);
    if p.forVersions {
      var start, tail := UnknownStart(p) + "for ", "versions " + UnknownTail(p);
      NoVSkips(prev, start, tail + b);
      NameCharacters(p.numbers);
      TailNotKnown(p, b);
      assert tail[1..] == "ersions " + UnknownTail(p);
      VersionSkips(LastOf(prev, start), tail, b);
      SkipsTogether(prev, start, tail, b, Unaffected);
    } else {
      NoVSkips(prev, PieceText(p), b);
    }
  }

  lemma SkipsTogether(prev: char, a: string, a': string, b: string, m: (char, string) -> Match)
    requires a' != "" && Sub(prev, a + (a' + b), m) == a + Sub(LastOf(prev, a), a' + b, m)
    requires Sub(LastOf(prev, a), a' + b, m) == a' + Sub(LastOf(LastOf(prev, a), a'), b, m)
    ensures Sub(prev, (a + a') + b, m) == (a + a') + Sub(LastOf(prev, a + a'), b, m)
  {
    hide Sub;
    assert a + (a' + b) == (a + a') + b;
    assert LastOf(LastOf(prev, a), a') == LastOf(prev, a + a');
    var rest := Sub(LastOf(prev, a + a'), b, m);
    assert a + (a' + rest) == (a + a') + rest;
  }

  lemma NoVInUnknown(p: Piece)
    requires p.Unknown? && ValidPiece(p)
    ensures 'v' !in UnknownStart(p) + "for " && 'v' !in UnknownStart(p) && 'v' !in UnknownTail(p)
    ensures 'v' !in "ersions " + UnknownTail(p)
  {
    hide Join, IsName;
    NameCharacters(p.numbers);
  }

  lemma UnknownPrinted(p: Piece)
    requires p.Unknown?
    ensures p.forVersions ==> PieceText(p) == (UnknownStart(p) + "for ") + ("versions " + UnknownTail(p))
    ensures !p.forVersions ==> PieceText(p) == UnknownStart(p) + UnknownTail(p)
  {
    hide Join;
    var tail := UnknownTail(p);
    var rest := If(p.forVersions, "for versions ") + tail;
    StartMoved(p, rest);
    if p.forVersions {
      assert "for versions " + tail == "for " + ("versions " + tail);
      Moved(UnknownStart(p), "for ", "versions " + tail);
    } else {
      assert "" + tail == tail;
    }
  }

  lemma StartMoved(p: Piece, rest: string)
    requires p.Unknown?
    ensures UnknownStart(p) + rest == If(p.dot, ".") + (" affected status " + (If(p.be, "is ") + ("unknown " + rest)))
  {
    hide If;
    Moved(If(p.be, "is "), "unknown ", rest);
    Moved(" affected status ", If(p.be, "is ") + "unknown ", rest);
    Moved(If(p.dot, "."), " affected status " + (If(p.be, "is ") + "unknown "), rest);
  }

  lemma TailNotKnown(p: Piece, b: string)
    requires p.Unknown? && (forall c :: c in Join(p.numbers, ".") ==> VersionChar(c))
    requires FirstOther(b, BeforeKnown) != Some('k')
    ensures FirstOther("ersions " + UnknownTail(p) + b, BeforeKnown) != Some('k')
  {
    hide FirstOther, Join;
    var s := "ersions " + UnknownTail(p);
    if p.qt {
      assert s[..15] == "ersions before " && s[15] == 'q';
      forall i | 0 <= i < 15 ensures BeforeKnown(s[i]) { assert s[i] == s[..15][i]; }
      OtherAt(s, 15, b, BeforeKnown);
    } else {
      forall c | c in s ensures BeforeKnown(c) {
        assert c in "ersions " || c in "before " || c in Join(p.numbers, ".") || c == '.';
      }
      OtherLater(s, b, BeforeKnown);
    }
  }

  lemma PieceKept(prev: char, p: Piece, b: string)
    requires ValidPiece(p) && !p.KnownUnaffected? && FirstOther(b, BeforeKnown) != Some('k')
    ensures Sub(prev, PieceText(p) + b, Unaffected) == PieceText(p) + Sub(LastOf(prev, PieceText(p)), b, Unaffected)
  {
    hide FirstOther, Unaffected, Sub, TermText, ValidTerm;
    match p {
      case Word(t) => TermKept(prev, t, b);
      case Platforms(_) => PlatformsKept(prev, p, b);
      case Unknown(_, _, _, _, _, _) => UnknownKept(prev, p, b);
      case _ => NoVSkips(prev, PieceText(p), b);
    }
  }

  /** Where a word starts, none ends. */
  lemma ReadyNext(prev: char, ps: seq<Piece>)
    requires ps != [] && ValidPieces(ps) && ReadyPrev(prev, ps)
    ensures ReadyPrev(LastOf(prev, PieceText(ps[0])), ps[1..])
  {
    hide ValidTerm, TermText;
  }

  /** The sentences about versions known to be unaffected go, and nothing else does. */
  lemma {:induction false} NotesGo(prev: char, ps: seq<Piece>)
    requires ValidPieces(ps) && ReadyPrev(prev, ps)
    ensures Sub(prev, Text(ps), Unaffected) == Text(Each(ps, NoteGone))
    decreases |ps|
  {
    hide PieceText, ValidPiece, FirstOther, Unaffected, Sub, ReadyPrev;
    if ps == [] {
      NothingToReplace(prev, Unaffected);
    } else {
      var p, rest := ps[0], Text(ps[1..]);
      ReadyNext(prev, ps);
      NotesGo(LastOf(prev, PieceText(p)), ps[1..]);
      if p.KnownUnaffected? {
        NoteThere(prev, ps);
        assert [] + Each(ps[1..], NoteGone) == Each(ps[1..], NoteGone);
      } else {
        TextNotKnown(ps[1..]);
        PieceKept(prev, p, rest);
        assert ([p] + Each(ps[1..], NoteGone))[1..] == Each(ps[1..], NoteGone);
      }
    }
  }

  lemma NothingToReplace(prev: char, m: (char, string) -> Match)
    ensures Sub(prev, "", m) == ""
  {
  }

  lemma NoteThere(prev: char, ps: seq<Piece>)
    requires ps != [] && ps[0].KnownUnaffected? && ValidPieces(ps) && ReadyPrev(prev, ps)
    ensures Sub(prev, Text(ps), Unaffected) == Sub(LastOf(prev, PieceText(ps[0])), Text(ps[1..]), Unaffected)
  {
    hide Unaffected, Sub, IsName;
    var a, next := PieceText(ps[0]), Text(ps[1..]);
    if |ps| > 1 { assert PieceText(ps[1]) == " " || PieceText(ps[1]) == ","; }
    NoteMatches(prev, ps[0], next);
    SubMatches(prev, a, next, Unaffected, "");
    assert "" + Sub(LastOf(prev, a), next, Unaffected) == Sub(LastOf(prev, a), next, Unaffected);
  }

  // ---------- The pieces that are left ----------

  ghost predicate NoNotes(ps: seq<Piece>) { forall p :: p in ps ==> !p.KnownUnaffected? }

  lemma {:induction false} NotesLeaveValid(ps: seq<Piece>)
    requires ValidPieces(ps)
    ensures ValidPieces(Each(ps, NoteGone)) && NoNotes(Each(ps, NoteGone))
    ensures forall p: Piece :: ps != [] && Each(ps, NoteGone) != [] && !p.KnownUnaffected? && CanFollow(p, ps[0]) ==>
              CanFollow(p, Each(ps, NoteGone)[0])
  {
    hide ValidPiece, PieceText;
    if ps != [] {
      NotesLeaveValid(ps[1..]);
      var rest := Each(ps[1..], NoteGone);
      if ps[0].KnownUnaffected? { assert [] + rest == rest; } else {
        assert ([ps[0]] + rest)[1..] == rest;
        if ps[1..] == [] { assert rest == []; }
      }
    }
  }

  /** No word follows another at once. */
  predicate Apart(ps: seq<Piece>) {
    ps != [] ==> ValidPiece(ps[0]) && (|ps| > 1 && NeedsGap(ps[0]) ==> !StartsWord(ps[1])) && Apart(ps[1..])
  }

  lemma {:induction false} ValidIsApart(ps: seq<Piece>)
    requires ValidPieces(ps)
    ensures Apart(ps)
  {
    hide ValidPiece;
    if ps != [] { ValidIsApart(ps[1..]); }
  }

  /** What becomes of a piece starts and ends with a word only where the piece does. */
  ghost predicate IsGentle(p: Piece, f: Piece -> seq<Piece>) {
    && Apart(f(p))
    && (f(p) == [] ==> NeedsGap(p) && !StartsWord(p))
    && (f(p) != [] ==> (StartsWord(f(p)[0]) ==> StartsWord(p)) && (NeedsGap(f(p)[|f(p)| - 1]) ==> NeedsGap(p)))
  }

  lemma {:induction false} ApartBoth(a: seq<Piece>, b: seq<Piece>)
    requires Apart(a) && Apart(b) && (a != [] && b != [] && NeedsGap(a[|a| - 1]) ==> !StartsWord(b[0]))
    ensures Apart(a + b)
  {
    hide ValidPiece, NeedsGap, StartsWord;
    if a == [] { assert a + b == b; } else {
      assert (a + b)[1..] == a[1..] + b;
      ApartBoth(a[1..], b);
    }
  }

  lemma {:induction false} EachApart(ps: seq<Piece>, f: Piece -> seq<Piece>)
    requires Apart(ps) && forall p :: p in ps ==> IsGentle(p, f)
    ensures Apart(Each(ps, f))
    ensures Each(ps, f) != [] && StartsWord(Each(ps, f)[0]) ==> ps != [] && StartsWord(ps[0])
  {
    hide ValidPiece, NeedsGap, StartsWord;
    if ps != [] {
      forall p | p in ps[1..] ensures IsGentle(p, f) { assert p in ps; }
      EachApart(ps[1..], f);
      assert IsGentle(ps[0], f) by { assert ps[0] in ps; }
      if f(ps[0]) == [] { assert [] + Each(ps[1..], f) == Each(ps[1..], f); }
      ApartBoth(f(ps[0]), Each(ps[1..], f));
    }
  }

  lemma SameFirst(p: Piece, f: Piece -> seq<Piece>, rest: seq<Piece>)
    requires f(p) == [p]
    ensures Text(f(p) + rest) == PieceText(p) + Text(rest)
  {
    assert ([p] + rest)[1..] == rest;
  }

  lemma OneText(p: Piece, rest: seq<Piece>)
    ensures Text([p] + rest) == PieceText(p) + Text(rest)
  {
    assert ([p] + rest)[1..] == rest;
  }

  lemma FirstText(ps: seq<Piece>)
    requires ps != []
    ensures Text(ps) == PieceText(ps[0]) + Text(ps[1..])
  {
  }

  lemma NoText()
    ensures Text([]) == ""
  {
  }
}
