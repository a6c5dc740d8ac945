/** Trimming, squeezing, splitting and reading what the rewriting leaves
    (scripts/sbom/logsquirl_vulns.py, parse_affected_versions). */
module VersionClauses {
  import opened Texts
  import opened TextMeanings
  import opened VersionRanges
  import opened VersionWordings
  import opened VersionRewriting
  import opened VersionShortening
  import opened VersionReading

  // ---------- Trimming ----------

  lemma TrimFirst(c: char, s: string)
    requires IsTrimmed(c)
    ensures Trim([c] + s) == Trim(s)
  {
    assert ([c] + s)[1..] == s;
  }

  lemma {:induction false} TrimLast(s: string, c: char)
    requires IsTrimmed(c)
    ensures Trim(s + [c]) == Trim(s)
    decreases |s|
  {
    if s == "" {
      assert s + [c] == [c] && [c][1..] == "";
    } else if IsTrimmed(s[0]) {
      assert (s + [c])[1..] == s[1..] + [c];
      TrimLast(s[1..], c);
    } else {
      assert (s + [c])[..|s|] == s;
    }
  }

  lemma LeadText(p: Piece)
    requires IsLead(p) && ValidPiece(p)
    ensures |PieceText(p)| == 1 && IsTrimmed(PieceText(p)[0])
  {
  }

  lemma {:induction false} TrimLead(ps: seq<Piece>, s: string)
    requires forall p :: p in ps ==> IsLead(p) && ValidPiece(p)
    ensures Trim(Text(ps) + s) == Trim(s)
  {
    hide Trim, IsLead, ValidPiece, PieceText;
    if ps == [] { assert "" + s == s; } else {
      assert ps[0] in ps;
      forall p | p in ps[1..] ensures IsLead(p) && ValidPiece(p) { assert p in ps; }
      LeadText(ps[0]);
      var c := PieceText(ps[0])[0];
      assert Text(ps) + s == [c] + (Text(ps[1..]) + s);
      TrimFirst(c, Text(ps[1..]) + s);
      TrimLead(ps[1..], s);
    }
  }

  lemma {:induction false} TrimTrail(s: string, ps: seq<Piece>)
    requires forall p :: p in ps ==> IsLead(p) && ValidPiece(p)
    ensures Trim(s + Text(ps)) == Trim(s)
    decreases |ps|
  {
    hide Trim, IsLead, ValidPiece, PieceText;
    if ps == [] { assert s + "" == s; } else {
      var n := |ps| - 1;
      var init, last := ps[..n], ps[n];
      assert ps == init + [last] && last in ps;
      forall p | p in init ensures IsLead(p) && ValidPiece(p) { assert p in ps; }
      LeadText(last);
      TextOfBoth(init, [last]);
      OneText(last, []);
      NoText();
      assert [last] + [] == [last];
      var c := PieceText(last)[0];
      assert s + Text(ps) == (s + Text(init)) + [c];
      TrimLast(s + Text(init), c);
      TrimTrail(s, init);
    }
  }

  /** Words and signs between them: no mark to trim. */
  predicate IsInner(p: Piece) { IsCore(p) && !p.Mark? }

  lemma InnerText(p: Piece)
    requires ValidPiece(p) && IsInner(p)
    ensures PieceText(p) != "" && (!p.Gap? ==> NoSpaces(PieceText(p)))
    ensures !p.Gap? ==> !IsTrimmed(PieceText(p)[0]) && !IsTrimmed(PieceText(p)[|PieceText(p)| - 1])
  {
    hide Join;
    if p.Word? && p.term.Name? { NameText(p.term); }
  }

  lemma NameText(t: Term)
    requires t.Name? && ValidTerm(t)
    ensures var s := TermText(t); s != "" && NoSpaces(s) && !IsTrimmed(s[0]) && !IsTrimmed(s[|s| - 1])
  {
    NameCharacters(t.numbers);
  }

  lemma {:induction false} WordsSplit(a: string, b: string)
    ensures Words(a + " " + b) == Words(a) + Words(b)
    decreases |a|
  {
    hide IsSpace, Words;
    if a == "" {
      GapIsSpace();
      assert a + " " + b == " " + b;
      WordsAfterGap(" ", b);
      NoWords();
      assert [] + Words(b) == Words(b);
    } else if IsSpace(a[0]) {
      var rest := a[1..] + " " + b;
      assert a + " " + b == [a[0]] + rest && a == [a[0]] + a[1..];
      WordsSplit(a[1..], b);
      WordsAfterGap([a[0]], rest);
      WordsAfterGap([a[0]], a[1..]);
    } else {
      var word, rest := a[..RunLength(a, c => !IsSpace(c))], a[RunLength(a, c => !IsSpace(c))..];
      WordRun(a);
      GapIsSpace();
      WordsSplit(rest, b);
      WordFirst(word, rest);
      WordFirst(word, rest + " " + b);
      assert a + " " + b == word + (rest + " " + b) && a == word + rest;
      assert [word] + (Words(rest) + Words(b)) == [word] + Words(rest) + Words(b);
    }
  }

  /** The word a text begins with. */
  lemma WordRun(a: string)
    requires a != "" && !IsSpace(a[0])
    ensures var n := RunLength(a, c => !IsSpace(c));
            a[..n] != "" && NoSpaces(a[..n]) && (a[n..] == "" || IsSpace(a[n..][0]))
  {
    hide IsSpace;
    var n := RunLength(a, c => !IsSpace(c));
    forall c | c in a[..n] ensures !IsSpace(c) { var k :| 0 <= k < n && a[..n][k] == c; assert a[k] == c; }
  }

  lemma GapIsSpace()
    ensures IsSpace(' ') && forall c :: c in " " ==> IsSpace(c)
  {
  }

  ghost predicate AllInner(ps: seq<Piece>) { forall p :: p in ps ==> ValidPiece(p) && IsInner(p) }

  lemma InnerTail(ps: seq<Piece>)
    requires AllInner(ps) && ps != []
    ensures ValidPiece(ps[0]) && IsInner(ps[0]) && AllInner(ps[1..]) && AllInner(ps[..|ps| - 1])
    ensures ValidPiece(ps[|ps| - 1]) && IsInner(ps[|ps| - 1])
  {
    hide ValidPiece, IsInner;
    assert ps[0] in ps && ps[|ps| - 1] in ps;
    forall p | p in ps[1..] || p in ps[..|ps| - 1] ensures p in ps {}
  }

  /** Of words and gaps, trimming takes nothing but spaces. */
  lemma {:induction false} TrimKeepsWords(ps: seq<Piece>)
    requires AllInner(ps)
    ensures Words(Trim(Text(ps))) == Words(Text(ps))
    decreases |ps|
  {
    hide Trim, Words, AllInner, PieceText, ValidPiece, IsInner;
    if ps == [] {
      TrimNothing();
    } else {
      InnerTail(ps);
      FirstText(ps);
      if ps[0].Gap? {
        GapText();
        TrimFirst(' ', Text(ps[1..]));
        TrimKeepsWords(ps[1..]);
        GapIsSpace();
        WordsAfterGap(" ", Text(ps[1..]));
      } else if ps[|ps| - 1].Gap? {
        var init := ps[..|ps| - 1];
        LastText(ps);
        GapText();
        TrimLast(Text(init), ' ');
        TrimKeepsWords(init);
        WordsSplit(Text(init), "");
        NoWords();
        assert Text(init) + " " + "" == Text(ps);
      } else {
        LastText(ps);
        InnerText(ps[0]);
        InnerText(ps[|ps| - 1]);
        EndsStay(Text(ps), PieceText(ps[0]), PieceText(ps[|ps| - 1]));
      }
    }
  }

  lemma TrimNothing()
    ensures Trim(Text([])) == Text([])
  {
  }

  lemma GapText()
    ensures PieceText(Gap) == " "
  {
  }

  lemma LastText(ps: seq<Piece>)
    requires ps != []
    ensures Text(ps) == Text(ps[..|ps| - 1]) + PieceText(ps[|ps| - 1])
  {
    hide PieceText, Text;
    var n := |ps| - 1;
    assert ps == ps[..n] + [ps[n]];
    TextOfBoth(ps[..n], [ps[n]]);
    OneText(ps[n], []);
    NoText();
    assert [ps[n]] + [] == [ps[n]] && PieceText(ps[n]) + "" == PieceText(ps[n]);
  }

  lemma EndsStay(s: string, first: string, last: string)
    requires first != "" && last != "" && !IsTrimmed(first[0]) && !IsTrimmed(last[|last| - 1])
    requires first <= s && |last| <= |s| && s[|s| - |last|..] == last
    ensures Trim(s) == s
  {
    assert s[0] == first[0] && s[|s| - 1] == last[|last| - 1];
  }

  // ---------- Squeezing ----------

  /** Without a gap at the end, and without two in a row. */
  function Tidy(ps: seq<Piece>): seq<Piece> {
    if ps == [] then []
    else
      var rest := Tidy(ps[1..]);
      if ps[0].Gap? && (rest == [] || rest[0].Gap?) then rest else [ps[0]] + rest
  }

  predicate NoDouble(ps: seq<Piece>) {
    ps != [] ==> (ps[0].Gap? ==> |ps| > 1 && !ps[1].Gap?) && NoDouble(ps[1..])
  }

  lemma {:induction false} TidyIs(ps: seq<Piece>)
    requires AllInner(ps) && Apart(ps)
    ensures NoDouble(Tidy(ps)) && AllInner(Tidy(ps)) && Apart(Tidy(ps)) && Said(Tidy(ps)) == Said(ps)
    ensures Tidy(ps) != [] && StartsWord(Tidy(ps)[0]) ==> ps[0].Gap? || StartsWord(ps[0])
  {
    hide ValidPiece, IsInner, StartsWord, NeedsGap, Add;
    if ps != [] {
      InnerTail(ps);
      TidyIs(ps[1..]);
      var rest := Tidy(ps[1..]);
      if ps[0].Gap? {
        forall r: seq<seq<Term>> | r != [] ensures Add(Gap, r) == r { AddGap(r); }
      }
      if !(ps[0].Gap? && (rest == [] || rest[0].Gap?)) {
        assert ([ps[0]] + rest)[1..] == rest;
        FollowsStill(ps);
        assert Said([ps[0]] + rest) == Add(ps[0], Said(rest));
      }
    }
  }

  lemma AddGap(r: seq<seq<Term>>)
    requires r != []
    ensures Add(Gap, r) == r
  {
  }

  /** What follows a word is still a gap, if it was one. */
  lemma FollowsStill(ps: seq<Piece>)
    requires ps != [] && Apart(ps) && AllInner(ps)
    ensures var rest := Tidy(ps[1..]); NeedsGap(ps[0]) && rest != [] ==> !StartsWord(rest[0])
  {
    hide ValidPiece, IsInner;
    if |ps| > 1 && NeedsGap(ps[0]) {
      InnerTail(ps);
      if ps[1].Gap? { GapFirst(ps[1..]); } else { assert Tidy(ps[1..])[0] == ps[1]; }
    }
  }

  lemma {:induction false} GapFirst(ps: seq<Piece>)
    requires ps != [] && ps[0].Gap?
    ensures Tidy(ps) == [] || Tidy(ps)[0].Gap?
  {
  }

  lemma {:induction false} TidyWords(before: string, ps: seq<Piece>)
    ensures Words(before + Text(Tidy(ps))) == Words(before + Text(ps))
    decreases |ps|
  {
    hide Words, PieceText;
    if ps != [] {
      var rest := Tidy(ps[1..]);
      FirstText(ps);
      GapText();
      if ps[0].Gap? && (rest == [] || rest[0].Gap?) {
        TidyWords("", ps[1..]);
        assert "" + Text(rest) == Text(rest) && "" + Text(ps[1..]) == Text(ps[1..]);
        WordsSplit(before, Text(ps[1..]));
        assert before + Text(ps) == before + " " + Text(ps[1..]);
        GapDropped(before, rest);
      } else {
        OneText(ps[0], rest);
        TidyWords(before + PieceText(ps[0]), ps[1..]);
        assert before + PieceText(ps[0]) + Text(rest) == before + (PieceText(ps[0]) + Text(rest));
        assert before + PieceText(ps[0]) + Text(ps[1..]) == before + (PieceText(ps[0]) + Text(ps[1..]));
      }
    }
  }

  lemma GapDropped(before: string, rest: seq<Piece>)
    requires rest == [] || rest[0].Gap?
    ensures Words(before + Text(rest)) == Words(before) + Words(Text(rest))
  {
    hide Words;
    if rest == [] {
      NoText();
      NoWords();
      assert before + "" == before && Words(before) + [] == Words(before);
    } else {
      FirstText(rest);
      var more := Text(rest[1..]);
      WordsSplit(before, more);
      GapIsSpace();
      WordsAfterGap(" ", more);
      assert before + (" " + more) == before + " " + more;
    }
  }

  /** A tidy text is squeezed already. */
  lemma {:induction false} TidySqueezed(word: string, ps: seq<Piece>)
    requires NoSpaces(word) && NoDouble(ps) && AllInner(ps) && (word == "" && ps != [] ==> !ps[0].Gap?)
    ensures var s := word + Text(ps); Join(Words(s), " ") == s && (s != "" ==> Words(s) != [])
    decreases |ps|
  {
    hide Words, PieceText, NoSpaces, ValidPiece, IsInner, AllInner, Join;
    if ps == [] {
      NoText();
      assert word + "" == word;
      OneOrNone(word);
    } else {
      InnerTail(ps);
      InnerText(ps[0]);
      FirstText(ps);
      var rest := Text(ps[1..]);
      if ps[0].Gap? {
        GapText();
        NoneSpaced();
        TidySqueezed("", ps[1..]);
        assert "" + rest == rest && word + Text(ps) == word + " " + rest;
        InnerTail(ps[1..]);
        InnerText(ps[1]);
        FirstText(ps[1..]);
        WordsSplit(word, rest);
        OneOrNone(word);
        JoinMore(word, Words(rest), " ");
      } else {
        BothNoSpaces(word, PieceText(ps[0]));
        TidySqueezed(word + PieceText(ps[0]), ps[1..]);
        assert word + PieceText(ps[0]) + rest == word + (PieceText(ps[0]) + rest);
      }
    }
  }

  lemma NoneSpaced()
    ensures NoSpaces("")
  {
  }

  lemma BothNoSpaces(a: string, b: string)
    requires NoSpaces(a) && NoSpaces(b)
    ensures NoSpaces(a + b)
  {
    hide IsSpace;
  }

  lemma OneOrNone(word: string)
    requires NoSpaces(word)
    ensures Words(word) == (if word == "" then [] else [word]) && Join(Words(word), " ") == word
  {
    hide IsSpace;
    if word == "" { NoWords(); } else {
      assert word + "" == word;
      WordFirst(word, "");
      NoWords();
    }
  }

  function Bare(ps: seq<Piece>): seq<Piece> {
    var t := Tidy(ps);
    if t != [] && t[0].Gap? then t[1..] else t
  }

  lemma SqueezedText(ps: seq<Piece>)
    requires AllInner(ps) && Apart(ps)
    ensures Squeeze(Trim(Text(ps))) == Text(Bare(ps))
    ensures NoDouble(Bare(ps)) && AllInner(Bare(ps)) && Apart(Bare(ps)) && Said(Bare(ps)) == Said(ps)
    ensures Bare(ps) != [] ==> !Bare(ps)[0].Gap?
  {
    hide Words, PieceText, ValidPiece, IsInner, AllInner, Join, Trim, Tidy, StartsWord, NeedsGap;
    TrimKeepsWords(ps);
    TidyIs(ps);
    TidyWords("", ps);
    var t := Tidy(ps);
    assert "" + Text(ps) == Text(ps) && "" + Text(t) == Text(t) && "" + Text(Bare(ps)) == Text(Bare(ps));
    if t != [] && t[0].Gap? {
      InnerTail(t);
      FirstText(t);
      GapText();
      GapIsSpace();
      WordsAfterGap(" ", Text(t[1..]));
      AddGap(Said(t[1..]));
    }
    NoneSpaced();
    TidySqueezed("", Bare(ps));
  }

  // ---------- Splitting ----------

  function ClauseTexts(ps: seq<Piece>): (clauses: seq<string>)
    ensures clauses != []
  {
    if ps == [] then [""]
    else
      var rest := ClauseTexts(ps[1..]);
      if ps[0].Comma? || ps[0].And? then [""] + rest else [PieceText(ps[0]) + rest[0]] + rest[1..]
  }

  lemma {:induction false} ClauseSkips(prev: char, a: string, b: string, clause: string)
    requires forall c :: c in a ==> c != ',' && c != 'a'
    ensures Clauses(prev, a + b, clause) == Clauses(LastOf(prev, a), b, clause + a)
    decreases |a|
  {
    if a == "" {
      assert a + b == b && clause + a == clause;
    } else {
      assert a[0] in a && (a + b)[1..] == a[1..] + b;
      forall c | c in a[1..] ensures c != ',' && c != 'a' { assert c in a; }
      ClauseSkips(a[0], a[1..], b, clause + [a[0]]);
      assert clause + [a[0]] + a[1..] == clause + a;
      assert LastOf(a[0], a[1..]) == LastOf(prev, a);
    }
  }

  lemma AndSplits(prev: char, b: string, clause: string)
    requires !IsWord(prev) && EndsWord(b)
    ensures Clauses(prev, "and" + b, clause) == [clause] + Clauses('d', b, "")
  {
    assert ("and" + b)[3..] == b;
  }

  lemma CommaSplits(prev: char, b: string, clause: string)
    ensures Clauses(prev, "," + b, clause) == [clause] + Clauses(',', b, "")
  {
    assert ("," + b)[1..] == b;
  }

  lemma InnerLetters(p: Piece)
    requires ValidPiece(p) && IsInner(p) && !p.Comma? && !p.And?
    ensures forall c :: c in PieceText(p) ==> c != ',' && c != 'a'
  {
    if p.Word? && p.term.Name? { NameCharacters(p.term.numbers); }
  }

  lemma {:induction false} ClausesOfPieces(prev: char, ps: seq<Piece>, clause: string)
    requires Apart(ps) && AllInner(ps) && ReadyPrev(prev, ps)
    ensures var r := ClauseTexts(ps); Clauses(prev, Text(ps), clause) == [clause + r[0]] + r[1..]
    decreases |ps|
  {
    hide PieceText, ValidPiece, IsInner, AllInner, ReadyPrev, Clauses, IsWord, EndsWord;
    if ps == [] {
      NoClauses(prev, clause);
      assert clause + "" == clause;
    } else {
      InnerTail(ps);
      FirstText(ps);
      ReadyAfter(prev, ps);
      var p, rest, r := ps[0], Text(ps[1..]), ClauseTexts(ps[1..]);
      assert ([""] + r)[1..] == r;
      assert "" + r[0] == r[0] && [r[0]] + r[1..] == r && clause + "" == clause;
      if p.Comma? || p.And? {
        SignSplits(prev, ps, clause);
        ClausesOfPieces(LastOf(prev, PieceText(p)), ps[1..], "");
      } else {
        InnerLetters(p);
        ClauseSkips(prev, PieceText(p), rest, clause);
        ClausesOfPieces(LastOf(prev, PieceText(p)), ps[1..], clause + PieceText(p));
        assert clause + PieceText(p) + r[0] == clause + (PieceText(p) + r[0]);
      }
    }
  }

  lemma SignSplits(prev: char, ps: seq<Piece>, clause: string)
    requires ps != [] && Apart(ps) && AllInner(ps) && ReadyPrev(prev, ps) && (ps[0].Comma? || ps[0].And?)
    ensures Clauses(prev, Text(ps), clause) == [clause] + Clauses(LastOf(prev, PieceText(ps[0])), Text(ps[1..]), "")
  {
    hide Clauses, IsWord, AllInner, IsInner, Text;
    FirstText(ps);
    var rest := Text(ps[1..]);
    if ps[0].Comma? {
      CommaSplits(prev, rest, clause);
    } else {
      InnerTail(ps);
      if |ps| > 1 {
        InnerTail(ps[1..]);
        assert IsSimple(ps[1]) by { InnerSimple(ps[1]); }
      }
      TextEndsWord(ps[1..]);
      AndSplits(prev, rest, clause);
    }
  }

  lemma InnerSimple(p: Piece)
    requires IsInner(p)
    ensures IsSimple(p)
  {
  }

  lemma NoClauses(prev: char, clause: string)
    ensures Clauses(prev, Text([]), clause) == [clause]
  {
  }

  // ---------- Stripping ----------

  function TermTexts(ts: seq<Term>): (r: seq<string>)
    ensures |r| == |ts|
  {
    seq(|ts|, i requires 0 <= i < |ts| => TermText(ts[i]))
  }

  function ClauseText(ts: seq<Term>): string { Join(TermTexts(ts), " ") }

  /** The words with one space between, and at most one space after. */
  predicate IsTail(c: string, ts: seq<Term>) {
    c == ClauseText(ts) || (ts != [] && c == ClauseText(ts) + " ")
  }

  predicate IsSpread(c: string, ts: seq<Term>) { IsTail(c, ts) || (c != "" && c[0] == ' ' && IsTail(c[1..], ts)) }

  lemma OneMoreTerm(t: Term, ts: seq<Term>)
    ensures ts == [] ==> ClauseText([t] + ts) == TermText(t)
    ensures ts != [] ==> ClauseText([t] + ts) == TermText(t) + " " + ClauseText(ts)
    ensures ClauseText([]) == ""
  {
    hide TermText;
    assert TermTexts([t] + ts) == [TermText(t)] + TermTexts(ts);
    if ts != [] { JoinMore(TermText(t), TermTexts(ts), " "); }
    else { assert [TermText(t)] + TermTexts(ts) == [TermText(t)]; }
  }

  /** After a word comes a gap or the end of the clause. */
  lemma WordTail(t: Term, c: string, ts: seq<Term>)
    requires (c == "" && ts == []) || (c != "" && c[0] == ' ' && IsTail(c[1..], ts))
    ensures IsTail(TermText(t) + c, [t] + ts)
  {
    hide TermText, ClauseText;
    OneMoreTerm(t, ts);
    var a := TermText(t);
    if c != "" {
      assert c == " " + c[1..];
      if c[1..] == ClauseText(ts) {
        assert ts != [] ==> a + c == a + " " + ClauseText(ts);
      } else {
        assert a + c == a + " " + ClauseText(ts) + " ";
      }
    } else {
      assert a + c == a;
    }
  }

  lemma {:induction false} ClausesAreSpread(ps: seq<Piece>)
    requires Apart(ps) && AllInner(ps) && NoDouble(ps)
    ensures var c, ts := ClauseTexts(ps), Said(ps);
            && |c| == |ts| && (forall i :: 1 <= i < |c| ==> IsSpread(c[i], ts[i]))
            && if ps == [] || ps[0].Comma? || ps[0].And? then c[0] == "" && ts[0] == []
               else if ps[0].Gap? then c[0] != "" && c[0][0] == ' ' && IsTail(c[0][1..], ts[0])
               else IsTail(c[0], ts[0])
    decreases |ps|
  {
    hide ValidPiece, IsInner, AllInner, PieceText, IsTail, ClauseText;
    if ps != [] {
      InnerTail(ps);
      ClausesAreSpread(ps[1..]);
      var p, c, ts := ps[0], ClauseTexts(ps[1..]), Said(ps[1..]);
      NothingSpread();
      if p.Comma? || p.And? {
        assert ([""] + c)[1..] == c && Said(ps) == [[]] + ts;
        forall i | 1 <= i < |c| + 1 ensures IsSpread(([""] + c)[i], ([[]] + ts)[i]) {
          assert ([""] + c)[i] == c[i - 1] && ([[]] + ts)[i] == ts[i - 1];
        }
      } else if p.Gap? {
        GapText();
        assert (" " + c[0])[1..] == c[0] && [" " + c[0]] + c[1..] == ClauseTexts(ps);
        assert Said(ps) == ts;
      } else {
        WordBefore(ps);
        WordTail(p.term, c[0], ts[0]);
        assert Said(ps) == [[p.term] + ts[0]] + ts[1..];
        WordText(p.term);
      }
    }
  }

  lemma NothingSpread()
    ensures IsTail("", []) && IsSpread("", [])
  {
  }

  lemma WordBefore(ps: seq<Piece>)
    requires ps != [] && Apart(ps) && AllInner(ps) && !ps[0].Comma? && !ps[0].And? && !ps[0].Gap?
    ensures ps[0].Word? && !ps[0].term.Filler?
    ensures ps[1..] == [] || ps[1..][0].Comma? || ps[1..][0].Gap?
  {
    hide ValidPiece;
    InnerTail(ps);
    if |ps| > 1 { InnerTail(ps[1..]); }
  }

  lemma StripPadded(m: string)
    requires m == "" || (!IsSpace(m[0]) && !IsSpace(m[|m| - 1]))
    ensures Strip(m) == m && Strip(m + " ") == m && Strip(" " + m) == m && Strip(" " + (m + " ")) == m
  {
    hide IsSpace;
    GapIsSpace();
    StripsTo("", m, "");
    StripsTo("", m, " ");
    StripsTo(" ", m, "");
    StripsTo(" ", m, " ");
    assert "" + (m + "") == m && "" + (m + " ") == m + " " && " " + (m + "") == " " + m;
  }

  lemma StripsTo(a: string, m: string, b: string)
    requires m == "" || (!IsSpace(m[0]) && !IsSpace(m[|m| - 1]))
    requires (a == "" || a == " ") && (b == "" || b == " ")
    ensures Strip(a + (m + b)) == m
  {
    hide IsSpace;
    GapIsSpace();
    if m == "" {
      StripsAll(a, b);
    } else {
      assert forall c :: c in a ==> IsSpace(c);
      RunEnds(a, m + b, IsSpace);
      assert (a + (m + b))[|a|..] == m + b;
      StripsEnd(m, b);
    }
  }

  lemma StripsEnd(m: string, b: string)
    requires m != "" && !IsSpace(m[|m| - 1]) && (b == "" || b == " ")
    ensures StripEnd(m + b) == m
  {
    hide IsSpace;
    GapIsSpace();
    if b == " " {
      assert (m + b)[|m + b| - 1] == ' ' && (m + b)[..|m + b| - 1] == m;
    } else {
      assert m + b == m;
    }
  }

  lemma StripsAll(a: string, b: string)
    requires (a == "" || a == " ") && (b == "" || b == " ")
    ensures Strip(a + ("" + b)) == ""
  {
    var s := a + ("" + b);
    assert forall c :: c in s ==> IsSpace(c);
    assert s + "" == s;
    RunEnds(s, "", IsSpace);
  }

  predicate IsCoreTerm(t: Term) { ValidTerm(t) && !t.Filler? && !t.UpTo? && !t.UpToAndIncluding? }

  lemma CoreTermText(t: Term)
    requires IsCoreTerm(t)
    ensures TermText(t) != "" && NoSpaces(TermText(t)) && ' ' !in TermText(t)
  {
    if t.Name? { NameCharacters(t.numbers); }
  }

  lemma {:induction false} ClauseEnds(ts: seq<Term>)
    requires ts != [] && forall t :: t in ts ==> IsCoreTerm(t)
    ensures var m := ClauseText(ts); m != "" && !IsSpace(m[0]) && !IsSpace(m[|m| - 1])
  {
    hide IsSpace, IsCoreTerm, TermText, ClauseText;
    var t, rest := ts[0], ts[1..];
    assert t in ts && ts == [t] + rest;
    CoreTermText(t);
    OneMoreTerm(t, rest);
    var a := TermText(t);
    assert a[0] in a && a[|a| - 1] in a;
    if rest != [] {
      forall u | u in rest ensures IsCoreTerm(u) { assert u in ts; }
      ClauseEnds(rest);
    }
  }

  lemma SpreadStrips(c: string, ts: seq<Term>)
    requires IsSpread(c, ts) && forall t :: t in ts ==> IsCoreTerm(t)
    ensures Strip(c) == ClauseText(ts) && (ClauseText(ts) == "" <==> ts == [])
  {
    hide IsSpace, IsCoreTerm, TermText, ClauseText, Strip;
    OneMoreTerm(From, []);
    if ts != [] { ClauseEnds(ts); }
    StripPadded(ClauseText(ts));
    if !IsTail(c, ts) { assert c == " " + c[1..]; }
  }
}
