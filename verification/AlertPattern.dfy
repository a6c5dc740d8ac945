/** The alert message and its pattern said outright
    (scripts/sbom/logsquirl_vulns.py: to_sarif, _ALERT_MESSAGE). */
module AlertPattern {
  import opened Options
  import opened Texts
  import opened FindingMerge
  import opened AlertMessage

  // ---------- What is written ----------

  /** Each before the next in the order of texts, none twice. */
  ghost predicate Ascending(names: seq<string>) {
    forall i, j :: 0 <= i < j < |names| ==> TextLeq(names[i], names[j]) && names[i] != names[j]
  }

  lemma {:induction false} SortedAscend(names: set<string>)
    ensures Ascending(SortedNames(names))
    decreases |names|
  {
    hide TextLeq, SortedNames;
    if names == {} {
      SortedHas(names);
    } else {
      var least := SortedFirst(names);
      SortedAscend(names - {least});
      FirstAscends(least, SortedNames(names - {least}));
    }
  }

  lemma SortedFirst(names: set<string>) returns (least: string)
    requires names != {}
    ensures least in names && SortedNames(names) == [least] + SortedNames(names - {least})
    ensures forall n :: n in SortedNames(names - {least}) ==> TextLeq(least, n) && n != least
  {
    hide TextLeq;
    LeastExists(names);
    least :| least in names && (forall n :: n in names ==> TextLeq(least, n))
             && SortedNames(names) == [least] + SortedNames(names - {least});
  }

  lemma FirstAscends(least: string, rest: seq<string>)
    requires Ascending(rest) && forall n :: n in rest ==> TextLeq(least, n) && n != least
    ensures Ascending([least] + rest)
  {
    hide TextLeq;
    var sorted := [least] + rest;
    forall i, j | 0 <= i < j < |sorted| ensures TextLeq(sorted[i], sorted[j]) && sorted[i] != sorted[j] {
      assert sorted[j] == rest[j - 1] && rest[j - 1] in rest;
      if i > 0 { assert sorted[i] == rest[i - 1]; }
    }
  }

  predicate GivesReason(f: Finding) { f.unconfirmed.Some? && f.unconfirmed.value != "" }

  /** The message word for word: a finding that gives a reason to doubt it only "may be". */
  predicate IsMessage(s: string, f: Finding, names: seq<string>, details: string) {
    var version := if f.version == None || f.version == Some("") then "(unversioned)" else f.version.value;
    var verb := if GivesReason(f) then " may be affected by " else " is affected by ";
    var also := if names == [] then "" else " (also " + Join(names, ", ") + ")";
    s == f.component + " " + version + verb + f.id + also + ", severity " + details
  }

  lemma MessageMeans(f: Finding, details: string)
    ensures exists names :: IsMessage(Message(f, details), f, names, details) && Ascending(names)
                            && forall n :: n in names <==> n in f.aliases
  {
    hide SortedNames, Join, Ascending, IsMessage, Message, AliasText;
    var names := SortedNames(f.aliases);
    SortedAscend(f.aliases);
    SortedHas(f.aliases);
    AliasesWritten(f);
    MessageIs(f, names, details);
  }

  lemma MessageIs(f: Finding, names: seq<string>, details: string)
    requires AliasText(f) == if names == [] then "" else " (also " + Join(names, ", ") + ")"
    ensures IsMessage(Message(f, details), f, names, details)
  {
    hide SortedNames, Join, AliasText;
    Grouping(f.component + " " + VersionText(f), Verb(f), f.id, AliasText(f), details);
    AffectedIs(Verb(f));
    assert " is" + " affected by " == " is affected by " && " may be" + " affected by " == " may be affected by ";
  }

  lemma SortedHas(names: set<string>)
    ensures forall n :: n in names <==> n in SortedNames(names)
    ensures names == {} <==> SortedNames(names) == []
  {
  }

  lemma AliasesWritten(f: Finding)
    ensures var names := SortedNames(f.aliases);
            AliasText(f) == if names == [] then "" else " (also " + Join(names, ", ") + ")"
  {
    SortedHas(f.aliases);
  }

  lemma Grouping(start: string, verb: string, id: string, also: string, details: string)
    ensures start + verb + AFFECTED + id + also + SEVERITY + details
         == start + (verb + AFFECTED) + id + also + ", severity " + details
  {
    assert start + verb + AFFECTED == start + (verb + AFFECTED);
  }

  // ---------- What the pattern accepts ----------

  /** The pattern from the id on. */
  ghost predicate IdMatches(s: string, id: string, aliases: Option<string>) {
    && id != "" && (forall c :: c in id ==> !IsSpace(c) && c != ',')
    && match aliases
       case None => id + ", severity " <= s
       case Some(names) => ')' !in names && id + " (also " + names + "), severity " <= s
  }

  /** The pattern as a whole, with a component of at least one character, on one line. */
  ghost predicate Matches(s: string, p: Parsed) {
    p.component != "" && '\n' !in p.component
    && exists version: string, verb: string, rest: string ::
         && s == p.component + (" " + (version + (verb + " affected by " + rest)))
         && version != "" && NoSpaces(version) && (verb == " is" || verb == " may be")
         && IdMatches(rest, p.id, p.aliases)
  }

  lemma SplitAt(s: string, start: string)
    requires start <= s
    ensures s == start + s[|start|..]
  {
  }

  lemma IdMatchIsRead(s: string, id: string, aliases: Option<string>)
    requires IdMatches(s, id, aliases)
    ensures ParseId(s) == Some((id, aliases))
  {
    hide IsSpace, ParseId, RunLength;
    match aliases {
      case None =>
        SplitAt(s, id + ", severity ");
        var details := s[|id + ", severity "|..];
        assert s == id + (SEVERITY + details);
        IdAloneIsRead(id, details);
      case Some(names) =>
        var start := id + " (also " + names + "), severity ";
        SplitAt(s, start);
        var details := s[|start|..];
        Grouped(id, names, details);
        IdWithAliasesIsRead(id, names, details);
    }
  }

  lemma Grouped(id: string, names: string, details: string)
    ensures id + " (also " + names + "), severity " + details == id + (ALSO + (names + (")" + SEVERITY + details)))
  {
  }

  lemma RunHas(s: string, p: char -> bool)
    ensures forall c :: c in s[..RunLength(s, p)] ==> p(c)
  {
    var n := RunLength(s, p);
    forall c | c in s[..n] ensures p(c) { var k :| 0 <= k < n && s[..n][k] == c; assert s[k] == c; }
  }

  lemma ReadIdMatches(s: string)
    requires ParseId(s).Some?
    ensures IdMatches(s, ParseId(s).value.0, ParseId(s).value.1)
  {
    hide IsSpace, RunLength;
    var m := RunLength(s, IsIdChar);
    var id, rest := s[..m], s[m..];
    assert s == id + rest;
    RunHas(s, IsIdChar);
    if ALSO <= rest { ReadAliasesMatch(s, id, rest); }
    else {
      SplitAt(rest, SEVERITY);
      assert s == id + ", severity " + rest[|SEVERITY|..];
    }
  }

  lemma ReadAliasesMatch(s: string, id: string, rest: string)
    requires s == id + rest && ALSO <= rest
    ensures var n := RunLength(rest[|ALSO|..], c => c != ')');
            var names := rest[|ALSO|..|ALSO| + n];
            ')' !in names && (")" + SEVERITY <= rest[|ALSO| + n..] ==> id + " (also " + names + "), severity " <= s)
  {
    hide RunLength;
    var tail := rest[|ALSO|..];
    var n := RunLength(tail, c => c != ')');
    RunHas(tail, c => c != ')');
    assert rest[|ALSO|..|ALSO| + n] == tail[..n] && rest[|ALSO| + n..] == tail[n..];
    if ")" + SEVERITY <= tail[n..] { AliasesAt(s, id, rest, n); }
  }

  lemma AliasesAt(s: string, id: string, rest: string, n: nat)
    requires s == id + rest && ALSO <= rest && n <= |rest[|ALSO|..]| && ")" + SEVERITY <= rest[|ALSO|..][n..]
    ensures id + " (also " + rest[|ALSO|..][..n] + "), severity " <= s
  {
    var tail := rest[|ALSO|..];
    var names, details := tail[..n], tail[n..][|")" + SEVERITY|..];
    SplitAt(rest, ALSO);
    SplitAt(tail[n..], ")" + SEVERITY);
    assert tail == names + tail[n..];
    Grouped(id, names, details);
    assert s == id + (ALSO + (names + (")" + SEVERITY + details)));
  }

  /** The parts of what the search finds. */
  lemma PartsAt(s: string, k: nat) returns (version: string, verb: string, tail: string)
    requires k < |s| && s[k] == ' ' && ParseAt(s, k).Some?
    ensures s[k + 1..] == version + (verb + AFFECTED + tail)
    ensures version != "" && NoSpaces(version) && (verb == " is" || verb == " may be")
    ensures ParseId(tail).Some?
    ensures ParseAt(s, k) == Some(Parsed(s[..k], ParseId(tail).value.0, ParseId(tail).value.1))
  {
    hide ParseId, IsSpace, RunLength;
    var t := s[k + 1..];
    var n := RunLength(t, c => !IsSpace(c));
    var rest := t[n..];
    version := t[..n];
    RunHas(t, c => !IsSpace(c));
    verb := if " is" + AFFECTED <= rest then " is" else " may be";
    tail := rest[|verb| + |AFFECTED|..];
    SplitAt(rest, verb + AFFECTED);
    assert t == version + rest;
  }

  /** What the search finds at a component's end is a match of the pattern. */
  lemma EndMatches(s: string, k: nat)
    requires 0 < k < |s| && s[k] == ' ' && '\n' !in s[..k] && ParseAt(s, k).Some?
    ensures Matches(s, ParseAt(s, k).value)
  {
    hide ParseId, ParseAt, IdMatches, NoSpaces;
    var version, verb, tail := PartsAt(s, k);
    ReadIdMatches(tail);
    AfterSpace(s, k);
    AffectedIs(verb);
    Found(s, Parsed(s[..k], ParseId(tail).value.0, ParseId(tail).value.1), version, verb, tail);
  }

  lemma AffectedIs(verb: string)
    ensures verb + AFFECTED == verb + " affected by "
  {
  }

  lemma AfterSpace(s: string, k: nat)
    requires 0 < k < |s| && s[k] == ' '
    ensures s == s[..k] + (" " + s[k + 1..]) && s[..k] != ""
  {
  }

  lemma Found(s: string, p: Parsed, version: string, verb: string, tail: string)
    requires p.component != "" && '\n' !in p.component
    requires s == p.component + (" " + (version + (verb + " affected by " + tail)))
    requires version != "" && NoSpaces(version) && (verb == " is" || verb == " may be")
    requires IdMatches(tail, p.id, p.aliases)
    ensures Matches(s, p)
  {
    hide IdMatches, NoSpaces;
  }

  lemma MatchIsRead(s: string, p: Parsed)
    requires Matches(s, p)
    ensures |p.component| < |s| && s[|p.component|] == ' ' && ParseAt(s, |p.component|) == Some(p)
    ensures s[..|p.component|] == p.component
  {
    hide ParseId, ParseAt, IdMatches, IsSpace, NoSpaces;
    var version: string, verb: string, rest: string :|
      && s == p.component + (" " + (version + (verb + " affected by " + rest)))
      && version != "" && NoSpaces(version) && (verb == " is" || verb == " may be")
      && IdMatches(rest, p.id, p.aliases);
    assert FromVersion(s, |p.component|, version, verb, rest);
    EndIsRead(s, |p.component|, version, verb, rest);
    IdMatchIsRead(rest, p.id, p.aliases);
  }

  /** The pattern is found wherever it can be, with the shortest component it can have. */
  lemma ParseMeans(s: string)
    ensures Parse(s).Some? ==> Matches(s, Parse(s).value)
    ensures forall p :: Matches(s, p) ==>
              && Parse(s).Some? && |Parse(s).value.component| <= |p.component|
              && (|Parse(s).value.component| == |p.component| ==> Parse(s).value == p)
  {
    hide ParseAt, Matches;
    if s != "" {
      SearchMeans(s, 1);
      forall p | Matches(s, p)
        ensures Parse(s).Some? && |Parse(s).value.component| <= |p.component|
        ensures |Parse(s).value.component| == |p.component| ==> Parse(s).value == p
      {
        MatchIsRead(s, p);
        NotEmptyMatch(s, p);
        FirstIsFound(s, 1, |p.component|);
        FoundAtItsEnd(s, 1);
      }
    } else {
      forall p ensures !Matches(s, p) { if Matches(s, p) { MatchIsRead(s, p); } }
    }
  }

  lemma NotEmptyMatch(s: string, p: Parsed)
    requires Matches(s, p)
    ensures p.component != "" && '\n' !in p.component
  {
  }

  lemma SearchMeans(s: string, k: nat)
    requires 0 < k <= |s| && '\n' !in s[..k - 1]
    ensures Search(s, k).Some? ==> Matches(s, Search(s, k).value)
    decreases |s| - k
  {
    hide ParseAt, Matches;
    if k < |s| && s[k - 1] != '\n' {
      assert s[..k] == s[..k - 1] + [s[k - 1]];
      if s[k] == ' ' && ParseAt(s, k).Some? { EndMatches(s, k); } else { SearchMeans(s, k + 1); }
    }
  }

  lemma {:induction false} FirstIsFound(s: string, k: nat, c: nat)
    requires 0 < k <= c < |s| && s[c] == ' ' && ParseAt(s, c).Some? && '\n' !in s[..c]
    ensures Search(s, k).Some? && |Search(s, k).value.component| <= c
    decreases c - k
  {
    hide ParseId, RunLength;
    assert s[..c][k - 1] == s[k - 1];
    if s[k] == ' ' && ParseAt(s, k).Some? {
      assert |s[..k]| == k;
    } else {
      FirstIsFound(s, k + 1, c);
    }
  }
}
