/** Texts put together from the words are read as what they say
    (scripts/sbom/logsquirl_vulns.py, parse_affected_versions). */
module VersionTexts {
  import opened Options
  import opened Texts
  import opened VersionRanges
  import opened VersionWordings
  import opened VersionRewriting
  import opened VersionReading
  import opened VersionClauses

  // ---------- One clause ----------

  function Bounded(low: Term, high: Term, included: bool): Option<VersionRange> {
    if low.Name? && high.Name? && TwoOrThree(low.numbers)
       && (if included then |high.numbers| == 3 else TwoOrThree(high.numbers))
    then Some(VersionRange(Some(Value(low.numbers)), Value(high.numbers), included)) else None
  }

  function Unbounded(high: Term, included: bool): Option<VersionRange> {
    if high.Name? && (if included then |high.numbers| == 3 else TwoOrThree(high.numbers))
    then Some(VersionRange(None, Value(high.numbers), included)) else None
  }

  /** What a clause says, if anything. */
  function Meaning(ts: seq<Term>): Option<VersionRange> {
    var body := if ts != [] && ts[0].From? then ts[1..] else ts;
    if |body| == 3 && Includes(body[1]) then Bounded(body[0], body[2], true)
    else if |body| == 3 && body[1].Before? then Bounded(body[0], body[2], false)
    else if |ts| == 2 && Includes(ts[0]) && !ts[0].To? then Unbounded(ts[1], true)
    else if |ts| == 2 && ts[0].Before? then Unbounded(ts[1], false)
    else if |ts| == 1 && ts[0].Name? && |ts[0].numbers| == 3 then
      Some(VersionRange(Some(Value(ts[0].numbers)), Value(ts[0].numbers), true))
    else None
  }

  lemma SaysMeans(ts: seq<Term>, r: VersionRange)
    ensures Says(ts, r) <==> Meaning(ts) == Some(r)
  {
    hide Value;
    if Says(ts, r) {
      var w :| ValidWording(w) && Wordings(w) == ts && RangeOf(w) == r;
      WordingMeans(w);
    }
    if Meaning(ts) == Some(r) {
      var w := WordingOf(ts);
    }
  }

  lemma WordingMeans(w: Wording)
    requires ValidWording(w)
    ensures Meaning(Wordings(w)) == Some(RangeOf(w))
  {
    hide Value, Bounded, Unbounded;
    match w {
      case Between(from, low, connector, high) =>
        BodyIs(from, [Name(low), connector, Name(high)]);
        BoundsAre(low, high, true);
      case BetweenBefore(from, low, high) =>
        BodyIs(from, [Name(low), Before, Name(high)]);
        BoundsAre(low, high, false);
      case AllThrough(_, high) => BoundsAre(high, high, true);
      case AllBefore(high) => BoundsAre(high, high, false);
      case Only(_) =>
    }
  }

  lemma BoundsAre(low: seq<string>, high: seq<string>, included: bool)
    requires if included then |high| == 3 else TwoOrThree(high)
    ensures Unbounded(Name(high), included) == Some(VersionRange(None, Value(high), included))
    ensures TwoOrThree(low) ==>
              Bounded(Name(low), Name(high), included) == Some(VersionRange(Some(Value(low)), Value(high), included))
  {
    hide Value;
  }

  lemma BodyIs(from: bool, body: seq<Term>)
    requires |body| == 3 && !body[0].From?
    ensures var ts := (if from then [From] else []) + body;
            ts != [] && (if ts[0].From? then ts[1..] else ts) == body
  {
    if from { assert ([From] + body)[1..] == body; } else { assert [] + body == body; }
  }

  lemma WordingOf(ts: seq<Term>) returns (w: Wording)
    requires Meaning(ts).Some?
    ensures ValidWording(w) && Wordings(w) == ts && RangeOf(w) == Meaning(ts).value
  {
    hide Value;
    var from := ts != [] && ts[0].From?;
    var body := if from then ts[1..] else ts;
    assert ts == (if from then [From] else []) + body;
    if |body| == 3 {
      assert body == [body[0], body[1], body[2]];
      w := if Includes(body[1]) then Between(from, body[0].numbers, body[1], body[2].numbers)
           else BetweenBefore(from, body[0].numbers, body[2].numbers);
    } else if |ts| == 2 {
      assert ts == [ts[0], ts[1]];
      w := if Includes(ts[0]) then AllThrough(ts[0], ts[1].numbers) else AllBefore(ts[1].numbers);
    } else {
      assert ts == [ts[0]];
      w := Only(ts[0].numbers);
    }
  }

  lemma PlainerMeans(ts: seq<Term>)
    ensures Meaning(PlainerAll(ts)) == Meaning(ts)
  {
    hide Value, Bounded, Unbounded;
    var us := PlainerAll(ts);
    if ts != [] && ts[0].From? { assert us[1..] == PlainerAll(ts[1..]); }
    forall a: Term, b: Term, included: bool
      ensures Bounded(Plainer(a), Plainer(b), included) == Bounded(a, b, included)
    {
      PlainerBounds(a, b, included);
    }
    forall b: Term, included: bool ensures Unbounded(Plainer(b), included) == Unbounded(b, included) {
      PlainerBounds(From, b, included);
    }
  }

  lemma PlainerBounds(a: Term, b: Term, included: bool)
    ensures Bounded(Plainer(a), Plainer(b), included) == Bounded(a, b, included)
    ensures Unbounded(Plainer(b), included) == Unbounded(b, included)
  {
  }

  // ---------- A clause's text ----------

  /** Which word it is. */
  lemma TermIs(t: Term)
    requires IsCoreTerm(t)
    ensures var s := TermText(t);
            && (s == "from" <==> t.From?) && (s == "to" <==> t.To?) && (s == "through" <==> t.Through?)
            && (s == "before" <==> t.Before?)
            && (IsV2(s) <==> t.Name? && TwoOrThree(t.numbers)) && (IsV(s) <==> t.Name? && |t.numbers| == 3)
            && (t.Name? && TwoOrThree(t.numbers) ==> Numbers(s) == Value(t.numbers))
  {
    hide Join, Int;
    if t.Name? {
      NameIsRead(t.numbers);
      NameCharacters(t.numbers);
    } else {
      assert '.' !in TermText(t);
      SplitOfOne(TermText(t), '.');
    }
  }

  lemma ClauseWords(ts: seq<Term>)
    requires ts != [] && forall t :: t in ts ==> IsCoreTerm(t)
    ensures Split(ClauseText(ts), ' ') == TermTexts(ts)
  {
    hide TermText, IsCoreTerm;
    forall word | word in TermTexts(ts) ensures ' ' !in word {
      var i :| 0 <= i < |ts| && TermTexts(ts)[i] == word;
      assert ts[i] in ts;
      CoreTermText(ts[i]);
    }
    SplitJoined(TermTexts(ts), ' ');
  }

  /** A clause is read as what it says, or not at all. */
  lemma ClauseIsRead(ts: seq<Term>)
    requires ts != [] && forall t :: t in ts ==> IsCoreTerm(t)
    ensures ParseClause(ClauseText(ts)) == Meaning(ts)
  {
    hide TermText, IsCoreTerm, IsV, IsV2, Numbers, Value, ClauseText, TwoOrThree;
    ClauseWords(ts);
    var words := TermTexts(ts);
    forall i | 0 <= i < |ts|
      ensures words[i] == TermText(ts[i]) && IsCoreTerm(ts[i])
    {
      assert ts[i] in ts;
    }
    forall t | IsCoreTerm(t)
      ensures (TermText(t) == "from" <==> t.From?) && (TermText(t) == "to" <==> t.To?)
      ensures (TermText(t) == "through" <==> t.Through?) && (TermText(t) == "before" <==> t.Before?)
      ensures (IsV2(TermText(t)) <==> t.Name? && TwoOrThree(t.numbers))
      ensures (IsV(TermText(t)) <==> t.Name? && |t.numbers| == 3) && (IsV(TermText(t)) ==> IsV2(TermText(t)))
      ensures IsV2(TermText(t)) ==> Numbers(TermText(t)) == Value(t.numbers)
      ensures !t.UpTo? && !t.UpToAndIncluding?
    {
      TermIs(t);
      CoreIs(t);
      VIsV2(TermText(t));
    }
  }

  lemma VIsV2(s: string)
    ensures IsV(s) ==> IsV2(s)
  {
  }

  lemma CoreIs(t: Term)
    requires IsCoreTerm(t)
    ensures !t.UpTo? && !t.UpToAndIncluding?
  {
  }

  /** The other way round: a text is only read as a clause if it is one. */
  lemma ReadIsClause(clause: string)
    requires ParseClause(clause).Some?
    ensures exists ts :: clause == ClauseText(ts) && Meaning(ts) == ParseClause(clause)
                         && ts != [] && forall t :: t in ts ==> IsCoreTerm(t)
  {
    hide IsV, IsV2, Numbers, Meaning, ParseClause, IsCoreTerm, TermText;
    var words := Split(clause, ' ');
    WordsAreTerms(clause);
    var ts := seq(|words|, i requires 0 <= i < |words| => TermOf(words[i]));
    forall i | 0 <= i < |words| ensures TermText(ts[i]) == words[i] && IsCoreTerm(ts[i]) { TermOfText(words[i]); }
    assert TermTexts(ts) == words;
    SplitRejoins(clause, ' ');
    forall t | t in ts ensures IsCoreTerm(t) { var i :| 0 <= i < |ts| && ts[i] == t; }
    ClauseIsRead(ts);
  }

  predicate IsWordOfClause(s: string) { s in {"from", "to", "through", "before"} || IsV2(s) }

  function TermOf(s: string): Term {
    if s == "from" then From else if s == "to" then To else if s == "through" then Through
    else if s == "before" then Before else Name(Split(s, '.'))
  }

  lemma TermOfText(s: string)
    requires IsWordOfClause(s)
    ensures TermText(TermOf(s)) == s && IsCoreTerm(TermOf(s))
  {
    hide IsNumber;
    SplitRejoins(s, '.');
  }

  lemma WordsAreTerms(clause: string)
    requires ParseClause(clause).Some?
    ensures forall word :: word in Split(clause, ' ') ==> IsWordOfClause(word)
  {
    hide Numbers, IsV2, Split;
    var words := Split(clause, ' ');
    var body := if words[0] == "from" then words[1..] else words;
    assert words == (if words[0] == "from" then [words[0]] else []) + body;
    forall word | word in words ensures IsWordOfClause(word) {
      if word in body { var i :| 0 <= i < |body| && body[i] == word; }
    }
  }

  // ---------- All clauses ----------

  lemma {:induction false} ClausesAreRead(cs: seq<string>, clauses: seq<seq<Term>>, said: seq<seq<Term>>,
                                          before: seq<VersionRange>)
    requires |cs| == |clauses| == |said|
    requires forall i :: 0 <= i < |cs| ==> IsSpread(cs[i], clauses[i]) && clauses[i] == PlainerAll(said[i])
    requires forall i :: 0 <= i < |cs| ==> forall t :: t in clauses[i] ==> IsCoreTerm(t)
    ensures forall rs :: SayAll(said, rs) ==>
              ParseClauses(cs, before) == if before + rs == [] then NoRange else Ranges(before + rs)
    ensures !ParseClauses(cs, before).CannotRead? ==> exists rs :: SayAll(said, rs)
    decreases |cs|
  {
    hide IsSpread, PlainerAll, IsCoreTerm, ParseClause, Strip, Says, ClauseText;
    if cs == [] {
      forall rs | SayAll(said, rs) ensures before + rs == before { assert rs == []; }
      assert SayAll(said, []);
    } else {
      FirstIsRead(cs[0], clauses[0], said[0]);
      var r := ParseClause(ClauseText(clauses[0]));
      if said[0] == [] {
        ClausesAreRead(cs[1..], clauses[1..], said[1..], before);
        forall rs | SayAll(said[1..], rs) ensures SayAll(said, rs) {}
      } else if r.Some? {
        ClausesAreRead(cs[1..], clauses[1..], said[1..], before + [r.value]);
        forall rs | SayAll(said, rs)
          ensures rs != [] && rs[0] == r.value && SayAll(said[1..], rs[1..])
          ensures before + [r.value] + rs[1..] == before + rs
        {
          OneRange(said[0], rs[0], r.value);
        }
        forall rs | SayAll(said[1..], rs) ensures SayAll(said, [r.value] + rs) {
          assert ([r.value] + rs)[1..] == rs;
        }
      } else {
        forall rs ensures !SayAll(said, rs) {}
      }
    }
  }

  lemma OneRange(ts: seq<Term>, a: VersionRange, b: VersionRange)
    requires Says(ts, a) && Says(ts, b)
    ensures a == b
  {
    hide Meaning, Says;
    SaysMeans(ts, a);
    SaysMeans(ts, b);
  }

  lemma FirstIsRead(c: string, clause: seq<Term>, said: seq<Term>)
    requires IsSpread(c, clause) && clause == PlainerAll(said) && forall t :: t in clause ==> IsCoreTerm(t)
    ensures Strip(c) == ClauseText(clause) && (ClauseText(clause) == "" <==> said == [])
    ensures said != [] ==> forall r :: Says(said, r) <==> ParseClause(ClauseText(clause)) == Some(r)
  {
    hide IsSpread, IsCoreTerm, ParseClause, Strip, Says, ClauseText, Meaning;
    SpreadStrips(c, clause);
    assert |clause| == |said|;
    if said != [] {
      ClauseIsRead(clause);
      PlainerMeans(said);
      forall r ensures Says(said, r) <==> ParseClause(ClauseText(clause)) == Some(r) { SaysMeans(said, r); }
    }
  }

  // ---------- A whole text ----------

  lemma {:induction false} ApartParts(a: seq<Piece>, b: seq<Piece>)
    requires Apart(a + b)
    ensures Apart(a) && Apart(b)
  {
    hide ValidPiece, NeedsGap, StartsWord;
    if a == [] { assert a + b == b; } else {
      assert (a + b)[1..] == a[1..] + b;
      ApartParts(a[1..], b);
    }
  }

  lemma ShortenedBoth(a: seq<Piece>, b: seq<Piece>)
    ensures Shortened(a + b) == Shortened(a) + Shortened(b)
  {
    hide Each;
    EachOfBoth(a, b, NoteGone);
    var a1, b1 := Each(a, NoteGone), Each(b, NoteGone);
    EachOfBoth(a1, b1, UnknownAsRange);
    var a2, b2 := Each(a1, UnknownAsRange), Each(b1, UnknownAsRange);
    EachOfBoth(a2, b2, PlatformsGone);
    var a3, b3 := Each(a2, PlatformsGone), Each(b2, PlatformsGone);
    EachOfBoth(a3, b3, LongThrough);
    var a4, b4 := Each(a3, LongThrough), Each(b3, LongThrough);
    EachOfBoth(a4, b4, ShortThrough);
    EachOfBoth(Each(a4, ShortThrough), Each(b4, ShortThrough), FillerGone);
  }

  lemma {:induction false} EachStays(ps: seq<Piece>, f: Piece -> seq<Piece>)
    requires forall p :: p in ps ==> f(p) == [p]
    ensures Each(ps, f) == ps
  {
    if ps != [] {
      assert ps[0] in ps;
      forall p | p in ps[1..] ensures f(p) == [p] { assert p in ps; }
      EachStays(ps[1..], f);
      assert ps == [ps[0]] + ps[1..];
    }
  }

  /** Marks and gaps stay, sentences about versions known to be unaffected go. */
  lemma OutsideStays(ps: seq<Piece>)
    requires forall p :: p in ps ==> IsLead(p) || p.KnownUnaffected?
    ensures forall p :: p in Shortened(ps) ==> IsLead(p)
    ensures Said(Shortened(ps)) == [[]]
  {
    var p1 := Each(ps, NoteGone);
    forall q | q in p1 ensures IsLead(q) { EachElement(ps, NoteGone, q); }
    EachStays(p1, UnknownAsRange);
    EachStays(p1, PlatformsGone);
    EachStays(p1, LongThrough);
    EachStays(p1, ShortThrough);
    EachStays(p1, FillerGone);
    LeadSaysNothing(p1, [[]]);
    SaidOfBoth(p1, []);
    assert p1 + [] == p1;
  }

  lemma {:induction false} LeadSaysNothing(ps: seq<Piece>, rest: seq<seq<Term>>)
    requires rest != [] && forall p :: p in ps ==> IsLead(p)
    ensures AddAll(ps, rest) == rest
  {
    if ps != [] {
      assert ps[0] in ps;
      forall p | p in ps[1..] ensures IsLead(p) { assert p in ps; }
      LeadSaysNothing(ps[1..], rest);
    }
  }

  lemma NoMarkLeft(ps: seq<Piece>)
    requires forall p :: p in ps ==> !p.Mark?
    ensures forall p :: p in Shortened(ps) ==> !p.Mark?
  {
    hide Each;
    MarksFrom(ps, NoteGone);
    var p1 := Each(ps, NoteGone);
    MarksFrom(p1, UnknownAsRange);
    var p2 := Each(p1, UnknownAsRange);
    MarksFrom(p2, PlatformsGone);
    var p3 := Each(p2, PlatformsGone);
    MarksFrom(p3, LongThrough);
    var p4 := Each(p3, LongThrough);
    MarksFrom(p4, ShortThrough);
    MarksFrom(Each(p4, ShortThrough), FillerGone);
  }

  lemma MarksFrom(ps: seq<Piece>, f: Piece -> seq<Piece>)
    requires forall p :: p in ps ==> !p.Mark?
    requires forall p: Piece, q :: !p.Mark? && q in f(p) ==> !q.Mark?
    ensures forall q :: q in Each(ps, f) ==> !q.Mark?
  {
    forall q | q in Each(ps, f) ensures !q.Mark? { EachElement(ps, f, q); }
  }

  lemma {:induction false} SaidIsCore(ps: seq<Piece>)
    requires AllInner(ps)
    ensures forall i :: 0 <= i < |Said(ps)| ==> forall t :: t in Said(ps)[i] ==> IsCoreTerm(t)
  {
    hide AllInner;
    if ps != [] {
      InnerTail(ps);
      SaidIsCore(ps[1..]);
      var rest := Said(ps[1..]);
      forall i, t | 0 <= i < |Said(ps)| && t in Said(ps)[i] ensures IsCoreTerm(t) {
        if ps[0].Gap? { assert t in rest[i]; }
        else if ps[0].Word? { assert t == ps[0].term || t in rest[i]; }
        else { assert i > 0 && t in rest[i - 1]; }
      }
    }
  }

  lemma PlainAlready(clauses: seq<seq<Term>>)
    requires forall i :: 0 <= i < |clauses| ==> forall t :: t in clauses[i] ==> IsCoreTerm(t)
    ensures PlainClauses(clauses) == clauses
  {
    forall i | 0 <= i < |clauses| ensures PlainerAll(clauses[i]) == clauses[i] {
      forall k | 0 <= k < |clauses[i]| ensures Plainer(clauses[i][k]) == clauses[i][k] {
        assert clauses[i][k] in clauses[i];
        CoreIs(clauses[i][k]);
      }
    }
  }

  /** What is left of the text's inside after all steps, and that it is all there is to read. */
  lemma InsideIsLeft(text: string, lead: seq<Piece>, body: seq<Piece>, trail: seq<Piece>)
    requires ValidText(lead, body, trail) && Squeeze(Lower(text)) == Text(lead + body + trail)
    ensures var inside := Shortened(body);
            && Normalized(text) == Squeeze(Trim(Text(inside))) && Apart(inside) && AllInner(inside)
            && Said(inside) == PlainClauses(Said(lead + body + trail))
  {
    hide ValidPiece, IsCore, IsLead, Squeeze, Trim, Normalized, Lower, Shortened, Text, ValidPieces, Said, PlainClauses;
    hide Apart;
    var all, inside := lead + body + trail, Shortened(body);
    Normalizes(text, all);
    var start, end := Shortened(lead), Shortened(trail);
    ShortenedBoth(lead + body, trail);
    ShortenedBoth(lead, body);
    assert Shortened(all) == start + inside + end;
    ApartPieces(start + inside + end);
    OutsideStays(lead);
    OutsideStays(trail);
    NoMarkLeft(body);
    forall p | p in start ensures IsLead(p) && ValidPiece(p) { assert p in start + inside + end; }
    forall p | p in end ensures IsLead(p) && ValidPiece(p) { assert p in start + inside + end; }
    forall p | p in inside ensures ValidPiece(p) && IsInner(p) { assert p in start + inside + end; }
    TextOfBoth(start + inside, end);
    TextOfBoth(start, inside);
    TrimTrail(Text(start) + Text(inside), end);
    TrimLead(start, Text(inside));
    ApartParts(start + inside, end);
    ApartParts(start, inside);
    SaidInside(start, inside, end);
    SaidIsCore(inside);
    PlainAlready(Said(inside));
    ShortenedSays(all);
  }

  lemma SaidInside(start: seq<Piece>, inside: seq<Piece>, end: seq<Piece>)
    requires (forall p :: p in start ==> IsLead(p)) && Said(end) == [[]]
    ensures Said(start + inside + end) == Said(inside)
  {
    hide Said, Add, IsLead, AddAll;
    SaidOfBoth(start + inside, end);
    SaidOfBoth(inside, []);
    assert inside + [] == inside;
    SaidOfNothing();
    AddsTogether(start, inside, [[]]);
    LeadSaysNothing(start, AddAll(inside, [[]]));
  }

  lemma SaidOfNothing()
    ensures Said([]) == [[]]
  {
  }

  lemma {:induction false} AddsTogether(a: seq<Piece>, b: seq<Piece>, rest: seq<seq<Term>>)
    requires rest != []
    ensures AddAll(a + b, rest) == AddAll(a, AddAll(b, rest))
  {
    hide Add;
    if a == [] { assert a + b == b; } else {
      assert (a + b)[1..] == a[1..] + b;
      AddsTogether(a[1..], b, rest);
    }
  }

  /** The text is read exactly when each clause that has a word that counts says a range, and then as
      these ranges, in their order. Letter case and white space do not matter. */
  lemma TextIsRead(text: string, lead: seq<Piece>, body: seq<Piece>, trail: seq<Piece>)
    requires ValidText(lead, body, trail) && Squeeze(Lower(text)) == Text(lead + body + trail)
    ensures forall rs :: SayAll(Said(lead + body + trail), rs) ==>
              Parse(text) == if rs == [] then NoRange else Ranges(rs)
    ensures !Parse(text).CannotRead? ==> exists rs :: SayAll(Said(lead + body + trail), rs)
  {
    hide ValidPieces, Squeeze, Trim, Normalized, Lower, Shortened, Text, Said, AllInner, Apart, Bare, SayAll, Clauses;
    hide ParseClauses, IsSpread, IsCoreTerm, PlainerAll, NoDouble, ValidText;
    var said, inside := Said(lead + body + trail), Shortened(body);
    InsideIsLeft(text, lead, body, trail);
    SqueezedText(inside);
    var ps := Bare(inside);
    ReadyAtStart(ps);
    ClausesOfPieces(' ', ps, "");
    var cs := ClauseTexts(ps);
    assert "" + cs[0] == cs[0] && [cs[0]] + cs[1..] == cs;
    SpreadAll(ps);
    SaidIsCore(ps);
    assert forall i :: 0 <= i < |said| ==> PlainClauses(said)[i] == PlainerAll(said[i]);
    ClausesAreRead(cs, Said(ps), said, []);
    forall rs: seq<VersionRange> ensures [] + rs == rs {}
  }

  lemma SpreadAll(ps: seq<Piece>)
    requires Apart(ps) && AllInner(ps) && NoDouble(ps)
    ensures var c, ts := ClauseTexts(ps), Said(ps);
            |c| == |ts| && forall i :: 0 <= i < |c| ==> IsSpread(c[i], ts[i])
  {
    hide IsTail, AllInner, Apart, NoDouble, ClauseTexts, Said;
    ClausesAreSpread(ps);
    NothingSpread();
  }
}
