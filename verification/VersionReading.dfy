/** What a text made of the words is read as, from the rewriting to the last clause
    (scripts/sbom/logsquirl_vulns.py, parse_affected_versions). */
module VersionReading {
  import opened Texts
  import opened VersionRanges
  import opened VersionWordings
  import opened VersionRewriting
  import opened VersionStatus
  import opened VersionShortening

  // ---------- All steps together ----------

  function Shortened(ps: seq<Piece>): seq<Piece> {
    Each(Each(Each(Each(Each(Each(ps, NoteGone), UnknownAsRange), PlatformsGone), LongThrough), ShortThrough),
         FillerGone)
  }

  lemma {:induction false} EachElement(ps: seq<Piece>, f: Piece -> seq<Piece>, q: Piece)
    requires q in Each(ps, f)
    ensures exists p :: p in ps && q in f(p)
  {
    if q in f(ps[0]) { assert ps[0] in ps; } else {
      EachElement(ps[1..], f, q);
      var p :| p in ps[1..] && q in f(p);
      assert p in ps;
    }
  }

  lemma {:induction false} ApartPieces(ps: seq<Piece>)
    requires Apart(ps)
    ensures forall p :: p in ps ==> ValidPiece(p)
  {
    hide ValidPiece;
    if ps != [] { ApartPieces(ps[1..]); }
  }

  lemma Gentle(p: Piece)
    requires ValidPiece(p)
    ensures IsGentle(p, UnknownAsRange) && IsGentle(p, PlatformsGone) && IsGentle(p, LongThrough)
    ensures IsGentle(p, ShortThrough) && IsGentle(p, FillerGone)
  {
    OneApart(p);
    OneApart(Word(Through));
    OneApart(Gap);
    if p.Unknown? {
      var name := Word(Name(p.numbers));
      OneApart(name);
      ApartBoth([Gap], [name]);
      ApartBoth([Word(Before)], [Gap, name]);
      assert [Gap] + [name] == [Gap, name];
      assert [Word(Before)] + [Gap, name] == [Word(Before), Gap, name];
      OneApart(Word(Before));
      OneApart(Comma);
      ApartBoth([Gap], [Word(Before), Gap, name]);
      assert [Gap] + [Word(Before), Gap, name] == [Gap, Word(Before), Gap, name];
      ApartBoth([Comma], [Gap, Word(Before), Gap, name]);
      assert [Comma] + [Gap, Word(Before), Gap, name] == UnknownAsRange(p);
    }
  }

  lemma OneApart(p: Piece)
    requires ValidPiece(p)
    ensures Apart([p])
  {
    assert [p][1..] == [];
  }

  lemma StepApart(ps: seq<Piece>, f: Piece -> seq<Piece>)
    requires Apart(ps)
    requires f == UnknownAsRange || f == PlatformsGone || f == LongThrough || f == ShortThrough || f == FillerGone
    ensures Apart(Each(ps, f))
  {
    hide IsGentle, ValidPiece;
    ApartPieces(ps);
    forall p | p in ps ensures IsGentle(p, f) { Gentle(p); }
    EachApart(ps, f);
  }

  /** What a text is made of after all steps: words that count, and what stands between them. */
  predicate IsCore(p: Piece) { IsShort(p) && !(p.Word? && p.term.Filler?) }

  lemma Normalizes(text: string, ps: seq<Piece>)
    requires ValidPieces(ps) && Squeeze(Lower(text)) == Text(ps)
    ensures Normalized(text) == Squeeze(Trim(Text(Shortened(ps))))
    ensures Apart(Shortened(ps)) && forall p :: p in Shortened(ps) ==> IsCore(p)
  {
    hide Squeeze, Trim, Sub, Text, Lower, ReplaceAll, ValidPieces, Apart, Each, Unaffected, UnknownStatus;
    hide PlatformsOnly, FillerWord, NoNotes, IsPlain, IsSimple, IsShort;
    ReadyAtStart(ps);
    NotesGo(' ', ps);
    NotesLeaveValid(ps);
    var p1 := Each(ps, NoteGone);
    ValidIsApart(p1);
    StatusesGo(' ', p1);
    StepApart(p1, UnknownAsRange);
    var p2 := Each(p1, UnknownAsRange);
    PlainAfter(p1);
    PlatformsGo(' ', p2);
    StepApart(p2, PlatformsGone);
    var p3 := Each(p2, PlatformsGone);
    SimpleAfter(p2);
    LongGoes(p3);
    StepApart(p3, LongThrough);
    var p4 := Each(p3, LongThrough);
    LongAfter(p3);
    ShortGoes(p4);
    StepApart(p4, ShortThrough);
    var p5 := Each(p4, ShortThrough);
    ShortAfter(p4);
    ReadyAtStart(p5);
    FillersGo(' ', p5);
    StepApart(p5, FillerGone);
    CoreAfter(p5);
    assert LONG == "up to and including" && SHORT == "up to";
  }

  lemma ReadyAtStart(ps: seq<Piece>)
    ensures ReadyPrev(' ', ps)
  {
  }

  lemma PlainAfter(ps: seq<Piece>)
    requires NoNotes(ps)
    ensures forall q :: q in Each(ps, UnknownAsRange) ==> IsPlain(q)
  {
    forall q | q in Each(ps, UnknownAsRange) ensures IsPlain(q) { EachElement(ps, UnknownAsRange, q); }
  }

  lemma SimpleAfter(ps: seq<Piece>)
    requires forall p :: p in ps ==> IsPlain(p)
    ensures forall q :: q in Each(ps, PlatformsGone) ==> IsSimple(q)
  {
    forall q | q in Each(ps, PlatformsGone) ensures IsSimple(q) { EachElement(ps, PlatformsGone, q); }
  }

  lemma LongAfter(ps: seq<Piece>)
    requires forall p :: p in ps ==> IsSimple(p)
    ensures forall q :: q in Each(ps, LongThrough) ==> IsSimple(q) && q != Word(UpToAndIncluding)
  {
    forall q | q in Each(ps, LongThrough) ensures IsSimple(q) && q != Word(UpToAndIncluding) {
      EachElement(ps, LongThrough, q);
    }
  }

  lemma ShortAfter(ps: seq<Piece>)
    requires forall p :: p in ps ==> IsSimple(p) && p != Word(UpToAndIncluding)
    ensures forall q :: q in Each(ps, ShortThrough) ==> IsShort(q)
  {
    forall q | q in Each(ps, ShortThrough) ensures IsShort(q) { EachElement(ps, ShortThrough, q); }
  }

  lemma CoreAfter(ps: seq<Piece>)
    requires forall p :: p in ps ==> IsShort(p)
    ensures forall q :: q in Each(ps, FillerGone) ==> IsCore(q)
  {
    forall q | q in Each(ps, FillerGone) ensures IsCore(q) { EachElement(ps, FillerGone, q); }
  }

  // ---------- The steps keep what is said ----------

  function AddAll(ps: seq<Piece>, rest: seq<seq<Term>>): (clauses: seq<seq<Term>>)
    requires rest != []
    ensures clauses != []
  {
    if ps == [] then rest else Add(ps[0], AddAll(ps[1..], rest))
  }

  lemma {:induction false} SaidOfBoth(a: seq<Piece>, b: seq<Piece>)
    ensures Said(a + b) == AddAll(a, Said(b))
  {
    hide Add;
    if a == [] { assert a + b == b; } else {
      assert (a + b)[1..] == a[1..] + b;
      SaidOfBoth(a[1..], b);
    }
  }

  function Plainer(t: Term): Term { if t.UpTo? || t.UpToAndIncluding? then Through else t }

  function PlainerAll(ts: seq<Term>): seq<Term> {
    seq(|ts|, i requires 0 <= i < |ts| => Plainer(ts[i]))
  }

  function PlainClauses(clauses: seq<seq<Term>>): (r: seq<seq<Term>>)
    ensures |r| == |clauses|
  {
    seq(|clauses|, i requires 0 <= i < |clauses| => PlainerAll(clauses[i]))
  }

  /** What becomes of a piece says the same as the piece. */
  ghost predicate SaysSame(p: Piece, f: Piece -> seq<Piece>) {
    forall rest: seq<seq<Term>> :: rest != [] ==> PlainClauses(AddAll(f(p), rest)) == PlainClauses(Add(p, rest))
  }

  lemma AddOne(p: Piece, rest: seq<seq<Term>>)
    requires rest != []
    ensures AddAll([p], rest) == Add(p, rest)
  {
    assert [p][1..] == [];
  }

  lemma SaysSameAs(p: Piece)
    ensures SaysSame(p, NoteGone) && SaysSame(p, UnknownAsRange) && SaysSame(p, PlatformsGone)
    ensures SaysSame(p, LongThrough) && SaysSame(p, ShortThrough) && SaysSame(p, FillerGone)
  {
    hide PlainClauses, Add, AddAll;
    forall rest: seq<seq<Term>> | rest != []
      ensures PlainClauses(AddAll(NoteGone(p), rest)) == PlainClauses(Add(p, rest))
      ensures PlainClauses(AddAll(UnknownAsRange(p), rest)) == PlainClauses(Add(p, rest))
      ensures PlainClauses(AddAll(PlatformsGone(p), rest)) == PlainClauses(Add(p, rest))
      ensures PlainClauses(AddAll(LongThrough(p), rest)) == PlainClauses(Add(p, rest))
      ensures PlainClauses(AddAll(ShortThrough(p), rest)) == PlainClauses(Add(p, rest))
      ensures PlainClauses(AddAll(FillerGone(p), rest)) == PlainClauses(Add(p, rest))
    {
      AddOne(p, rest);
      if p.Unknown? { AddRange(p, rest); }
      if p.KnownUnaffected? || p.Platforms? || (p.Word? && p.term.Filler?) { NothingAdded(p, rest); }
      if p.Word? && (p.term.UpTo? || p.term.UpToAndIncluding?) {
        AddOne(Word(Through), rest);
        ThroughSame(p.term, rest);
      }
    }
  }

  lemma NothingAdded(p: Piece, rest: seq<seq<Term>>)
    requires rest != [] && (p.KnownUnaffected? || p.Platforms? || (p.Word? && p.term.Filler?))
    ensures Add(p, rest) == rest && AddAll([], rest) == rest && AddAll([Gap], rest) == rest
  {
    AddOne(Gap, rest);
  }

  lemma ThroughSame(t: Term, rest: seq<seq<Term>>)
    requires rest != [] && (t.UpTo? || t.UpToAndIncluding?)
    ensures PlainClauses(Add(Word(Through), rest)) == PlainClauses(Add(Word(t), rest))
  {
    assert PlainerAll([Through] + rest[0]) == PlainerAll([t] + rest[0]);
  }

  lemma AddRange(p: Piece, rest: seq<seq<Term>>)
    requires p.Unknown? && rest != []
    ensures AddAll(UnknownAsRange(p), rest) == Add(p, rest)
  {
    var name := Name(p.numbers);
    var e, d := [Word(name)], [Gap, Word(name)];
    var c, b := [Word(Before), Gap, Word(name)], [Gap, Word(Before), Gap, Word(name)];
    assert d[1..] == e && c[1..] == d && b[1..] == c && UnknownAsRange(p)[1..] == b;
    AddOne(Word(name), rest);
    assert AddAll(d, rest) == [[name] + rest[0]] + rest[1..];
    assert AddAll(c, rest) == [[Before] + ([name] + rest[0])] + rest[1..];
    assert AddAll(b, rest) == AddAll(c, rest);
    assert [Before] + ([name] + rest[0]) == [Before, name] + rest[0];
    assert AddAll(UnknownAsRange(p), rest) == [[]] + ([[Before, name] + rest[0]] + rest[1..]);
  }

  /** Adding a piece depends on what was said only up to "up to". */
  lemma AddPlain(p: Piece, a: seq<seq<Term>>, b: seq<seq<Term>>)
    requires a != [] && b != [] && PlainClauses(a) == PlainClauses(b)
    ensures PlainClauses(Add(p, a)) == PlainClauses(Add(p, b))
  {
    hide PlainerAll, PlainClauses;
    PlainParts(a, b);
    PlainParts(Add(p, a), Add(p, b));
    var first := if p.Word? then [p.term] else if p.Unknown? then [Before, Name(p.numbers)] else [];
    PlainerBoth(first, a[0]);
    PlainerBoth(first, b[0]);
  }

  lemma PlainParts(a: seq<seq<Term>>, b: seq<seq<Term>>)
    ensures PlainClauses(a) == PlainClauses(b) <==>
            |a| == |b| && forall i :: 0 <= i < |a| ==> PlainerAll(a[i]) == PlainerAll(b[i])
  {
    hide PlainerAll;
    if PlainClauses(a) == PlainClauses(b) {
      assert |a| == |PlainClauses(a)| == |b|;
      forall i | 0 <= i < |a| ensures PlainerAll(a[i]) == PlainerAll(b[i]) {
        assert PlainClauses(a)[i] == PlainClauses(b)[i];
      }
    }
  }

  lemma PlainerBoth(a: seq<Term>, b: seq<Term>)
    ensures PlainerAll(a + b) == PlainerAll(a) + PlainerAll(b)
  {
  }

  lemma {:induction false} AddAllPlain(ps: seq<Piece>, a: seq<seq<Term>>, b: seq<seq<Term>>)
    requires a != [] && b != [] && PlainClauses(a) == PlainClauses(b)
    ensures PlainClauses(AddAll(ps, a)) == PlainClauses(AddAll(ps, b))
  {
    hide PlainClauses, Add;
    if ps != [] {
      AddAllPlain(ps[1..], a, b);
      AddPlain(ps[0], AddAll(ps[1..], a), AddAll(ps[1..], b));
    }
  }

  lemma {:induction false} StepSays(ps: seq<Piece>, f: Piece -> seq<Piece>)
    requires forall p :: p in ps ==> SaysSame(p, f)
    ensures PlainClauses(Said(Each(ps, f))) == PlainClauses(Said(ps))
  {
    hide PlainClauses, Add, AddAll, SaysSame;
    if ps != [] {
      forall p | p in ps[1..] ensures SaysSame(p, f) { assert p in ps; }
      StepSays(ps[1..], f);
      SaidOfBoth(f(ps[0]), Each(ps[1..], f));
      AddAllPlain(f(ps[0]), Said(Each(ps[1..], f)), Said(ps[1..]));
      assert ps[0] in ps;
      SaidSame(ps[0], f, Said(ps[1..]));
    }
  }

  lemma SaidSame(p: Piece, f: Piece -> seq<Piece>, rest: seq<seq<Term>>)
    requires SaysSame(p, f) && rest != []
    ensures PlainClauses(AddAll(f(p), rest)) == PlainClauses(Add(p, rest))
  {
    hide PlainClauses, Add, AddAll;
  }

  lemma ShortenedSays(ps: seq<Piece>)
    ensures PlainClauses(Said(Shortened(ps))) == PlainClauses(Said(ps))
  {
    hide PlainClauses, Said, Each, SaysSame;
    forall p ensures SaysSame(p, NoteGone) && SaysSame(p, UnknownAsRange) && SaysSame(p, PlatformsGone)
                     && SaysSame(p, LongThrough) && SaysSame(p, ShortThrough) && SaysSame(p, FillerGone)
    {
      SaysSameAs(p);
    }
    var p1 := Each(ps, NoteGone);
    var p2 := Each(p1, UnknownAsRange);
    var p3 := Each(p2, PlatformsGone);
    var p4 := Each(p3, LongThrough);
    StepSays(ps, NoteGone);
    StepSays(p1, UnknownAsRange);
    StepSays(p2, PlatformsGone);
    StepSays(p3, LongThrough);
    StepSays(p4, ShortThrough);
    StepSays(Each(p4, ShortThrough), FillerGone);
  }
}
