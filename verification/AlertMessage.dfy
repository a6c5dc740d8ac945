/** The message a finding is reported with, and the pattern that reads an alert back out of it
    (scripts/sbom/logsquirl_vulns.py: to_sarif, _ALERT_MESSAGE). */
module AlertMessage {
  import opened Options
  import opened Texts
  import opened FindingMerge

  // ---------- Writing ----------

  lemma {:induction false} LeastName(names: set<string>) returns (least: string)
    requires names != {}
    ensures least in names && forall n :: n in names ==> TextLeq(least, n)
    decreases |names|
  {
    var x :| x in names;
    TextLeqReflexive(x);
    if names == {x} { return x; }
    var rest := names - {x};
    assert names == rest + {x};
    var y := LeastName(rest);
    TextLeqTotal(x, y);
    least := if TextLeq(x, y) then x else y;
    forall n | n in names ensures TextLeq(least, n) {
      TextLeqReflexive(n);
      if n in rest && least == x { TextLeqTransitive(x, y, n); }
    }
  }

  lemma LeastExists(names: set<string>)
    requires names != {}
    ensures exists least :: least in names && forall n :: n in names ==> TextLeq(least, n)
  {
    var least := LeastName(names);
  }

  /** sorted(): the names from least to greatest. */
  ghost function SortedNames(names: set<string>): (sorted: seq<string>)
    ensures forall n :: n in sorted <==> n in names
    ensures names != {} <==> sorted != []
    decreases |names|
  {
    if names == {} then []
    else
      LeastExists(names);
      var least :| least in names && forall n :: n in names ==> TextLeq(least, n);
      [least] + SortedNames(names - {least})
  }

  const AFFECTED := " affected by "
  const ALSO := " (also "
  const SEVERITY := ", severity "

  function VersionText(f: Finding): string {
    if f.version.Some? && f.version.value != "" then f.version.value else "(unversioned)"
  }

  function Verb(f: Finding): string { if f.Confirmed() then " is" else " may be" }

  ghost function AliasText(f: Finding): string {
    if f.aliases == {} then "" else ALSO + Join(SortedNames(f.aliases), ", ") + ")"
  }

  /** The message text; `details` is all that follows ", severity ". */
  ghost function Message(f: Finding, details: string): string {
    f.component + " " + VersionText(f) + Verb(f) + AFFECTED + f.id + AliasText(f) + SEVERITY + details
  }

  // ---------- Reading ----------

  datatype Parsed = Parsed(component: string, id: string, aliases: Option<string>)

  predicate IsIdChar(c: char) { !IsSpace(c) && c != ',' }

  /** The pattern from the id on. Every character class stops at what must follow it, so each
      run is the longest one. */
  function ParseId(s: string): Option<(string, Option<string>)> {
    var m := RunLength(s, IsIdChar);
    if m == 0 then None
    else
      var rest := s[m..];
      if ALSO <= rest then
        var n := RunLength(rest[|ALSO|..], c => c != ')');
        var after := rest[|ALSO| + n..];
        if ")" + SEVERITY <= after then Some((s[..m], Some(rest[|ALSO|..|ALSO| + n]))) else None
      else if SEVERITY <= rest then Some((s[..m], None))
      else None
  }

  /** The pattern after a component that ends at `k`. */
  function ParseAt(s: string, k: nat): Option<Parsed>
    requires k < |s| && s[k] == ' '
  {
    var t := s[k + 1..];
    var n := RunLength(t, c => !IsSpace(c));
    var rest := t[n..];
    var verb := if " is" + AFFECTED <= rest then 3 else if " may be" + AFFECTED <= rest then 7 else 0;
    if n == 0 || verb == 0 then None
    else
      var r := ParseId(rest[verb + |AFFECTED|..]);
      if r.None? then None else Some(Parsed(s[..k], r.value.0, r.value.1))
  }

  /** The lazy component: the shortest one the rest of the pattern can follow. */
  function Search(s: string, k: nat): Option<Parsed>
    requires 0 < k <= |s|
    decreases |s| - k
  {
    if k == |s| || s[k - 1] == '\n' then None
    else if s[k] == ' ' && ParseAt(s, k).Some? then ParseAt(s, k)
    else Search(s, k + 1)
  }

  function Parse(s: string): Option<Parsed> { if s == "" then None else Search(s, 1) }

  /** The aliases named in the parentheses. */
  function AliasSet(aliases: Option<string>): set<string> {
    if aliases.None? then {}
    else set a | a in Split(aliases.value, ',') && Strip(a) != "" :: Strip(a)
  }

  // ---------- Reading back what was written ----------

  ghost predicate Occurs(pat: string, s: string) { exists i :: 0 <= i <= |s| && pat <= s[i..] }

  /** What a finding must keep out of its texts. */
  ghost predicate Plain(f: Finding) {
    && !Occurs(AFFECTED, f.component)
    && NoSpaces(VersionText(f))
    && (forall c :: c in f.id ==> IsIdChar(c))
    && (forall a :: a in f.aliases ==> forall c :: c in a ==> IsIdChar(c) && c != ')')
  }

  lemma IdAloneIsRead(id: string, details: string)
    requires id != "" && (forall c :: c in id ==> IsIdChar(c))
    ensures ParseId(id + (SEVERITY + details)) == Some((id, None))
  {
    hide RunLength, IsIdChar;
    var rest := SEVERITY + details;
    assert !IsIdChar(rest[0]) by { SeparatorsEndIds(); }
    RunEnds(id, rest, IsIdChar);
    assert (id + rest)[..|id|] == id && (id + rest)[|id|..] == rest;
    assert rest[0] == ',';
  }

  lemma SeparatorsEndIds()
    ensures !IsIdChar(',') && !IsIdChar(' ')
  {
  }

  lemma IdWithAliasesIsRead(id: string, text: string, details: string)
    requires id != "" && (forall c :: c in id ==> IsIdChar(c)) && ')' !in text
    ensures ParseId(id + (ALSO + (text + (")" + SEVERITY + details)))) == Some((id, Some(text)))
  {
    hide RunLength, IsIdChar;
    var after := ")" + SEVERITY + details;
    var rest := ALSO + (text + after);
    assert !IsIdChar(rest[0]) by { SeparatorsEndIds(); }
    RunEnds(id, rest, IsIdChar);
    assert (id + rest)[..|id|] == id && (id + rest)[|id|..] == rest;
    RunEnds(text, after, c => c != ')');
    assert rest[|ALSO|..] == text + after;
    assert rest[|ALSO| + |text|..] == after && rest[|ALSO|..|ALSO| + |text|] == text;
  }

  ghost function AliasList(f: Finding): Option<string> {
    if f.aliases == {} then None else Some(Join(SortedNames(f.aliases), ", "))
  }

  /** An empty id is none. */
  lemma NoIdIsRead(f: Finding, details: string)
    requires f.id == ""
    ensures ParseId(f.id + AliasText(f) + SEVERITY + details) == None
  {
    hide SortedNames, Join;
    SeparatorsEndIds();
    var s := f.id + AliasText(f) + SEVERITY + details;
    assert s[0] == if f.aliases == {} then ',' else ' ';
  }

  /** The id and the aliases are read back from where the id starts. */
  lemma IdIsRead(f: Finding, details: string)
    requires Plain(f)
    ensures ParseId(f.id + AliasText(f) + SEVERITY + details) == if f.id == "" then None else Some((f.id, AliasList(f)))
  {
    hide ParseId, IsIdChar;
    if f.id == "" {
      NoIdIsRead(f, details);
    } else if f.aliases == {} {
      IdAloneIsRead(f.id, details);
      assert f.id + AliasText(f) + SEVERITY + details == f.id + (SEVERITY + details);
    } else {
      var text := Join(SortedNames(f.aliases), ", ");
      if ')' in text { JoinedCharacter(SortedNames(f.aliases), ", ", ')'); }
      IdWithAliasesIsRead(f.id, text, details);
      assert f.id + AliasText(f) + SEVERITY + details == f.id + (ALSO + (text + (")" + SEVERITY + details)));
    }
  }

  function Stripped(parts: seq<string>): set<string> {
    set a | a in parts && Strip(a) != "" :: Strip(a)
  }

  /** Splitting at the commas and stripping gives the aliases back, but for an empty one. */
  lemma AliasesAreRead(f: Finding)
    requires Plain(f)
    ensures AliasSet(AliasList(f)) == f.aliases - {""}
  {
    hide Split, Strip, Join;
    if f.aliases != {} {
      var names := SortedNames(f.aliases);
      JoinedSplit(names, "");
      assert "" + Join(names, ", ") == Join(names, ", ");
      assert Stripped(Split(Join(names, ", "), ',')) == AliasSet(AliasList(f));
    }
  }

  function NonEmpty(names: seq<string>): set<string> { set a | a in names && a != "" }

  /** With or without a leading space, as every part but the first has one. */
  lemma {:induction false} JoinedSplit(names: seq<string>, lead: string)
    requires names != [] && (lead == "" || lead == " ")
    requires forall a :: a in names ==> NoSpaces(a) && ',' !in a
    ensures Stripped(Split(lead + Join(names, ", "), ',')) == NonEmpty(names)
  {
    hide Split, Strip, NoSpaces, Stripped, NonEmpty, Join;
    var first := lead + names[0];
    assert names[0] in names && ',' !in first;
    SplitOfOne(first, ',');
    StripNothing(names[0]);
    assert Strip(first) == names[0] by { assert "" + names[0] == names[0]; }
    if |names| > 1 {
      var rest := names[1..];
      assert names == [names[0]] + rest;
      JoinMore(names[0], rest, ", ");
      var more := " " + Join(rest, ", ");
      assert lead + (names[0] + ", " + Join(rest, ", ")) == first + [','] + more;
      SplitOfJoined(first, more, ',');
      assert forall a :: a in rest ==> a in names;
      JoinedSplit(rest, " ");
      StrippedFirst(first, Split(more, ','));
      NonEmptyFirst(names[0], rest);
    } else {
      assert names == [names[0]] && [first] + [] == [first] && [names[0]] + [] == [names[0]];
      OneJoined(names[0]);
      StrippedFirst(first, []);
      NonEmptyFirst(names[0], []);
    }
  }

  lemma OneJoined(name: string)
    ensures Join([name], ", ") == name && Stripped([]) == {} && NonEmpty([]) == {}
  {
  }

  lemma StrippedFirst(first: string, parts: seq<string>)
    ensures Stripped([first] + parts) == (if Strip(first) == "" then {} else {Strip(first)}) + Stripped(parts)
  {
    hide Strip;
    assert forall a :: a in [first] + parts <==> a == first || a in parts;
  }

  lemma NonEmptyFirst(first: string, names: seq<string>)
    ensures NonEmpty([first] + names) == (if first == "" then {} else {first}) + NonEmpty(names)
  {
    assert forall a :: a in [first] + names <==> a == first || a in names;
  }

  // ---------- No shorter component ----------

  lemma IdAtVersion(version: string, verb: string, rest: string)
    requires NoSpaces(version) && (verb == " is" || verb == " may be")
    ensures ParseId(version + (verb + AFFECTED + rest)) == None
  {
    hide IsSpace;
    var after := verb + AFFECTED + rest;
    var v := version + after;
    var m := RunLength(v, IsIdChar);
    SpaceIsSpace();
    assert after[0] == ' ' && (after[1] == 'i' || after[1] == 'm');
    assert !IsIdChar(v[|version|]);
    if m == |version| {
      assert v[m..] == after;
    } else {
      CommaInVersion(version, after, m);
    }
  }

  /** A version with a comma in it does not go on as a severity either. */
  lemma CommaInVersion(version: string, after: string, m: nat)
    requires NoSpaces(version) && m < |version| && |after| > 1
    requires after[0] == ' ' && (after[1] == 'i' || after[1] == 'm')
    ensures !(SEVERITY <= (version + after)[m..]) && !(ALSO <= (version + after)[m..])
  {
    var tail := (version + after)[m..];
    assert version[m] in version && tail[0] == version[m];
    if m + 1 < |version| { assert version[m + 1] in version && tail[1] == version[m + 1]; }
    else { assert tail[1] == after[0] && tail[2] == after[1]; }
  }

  lemma VerbCharacters()
    ensures IsSpace(' ') && !IsSpace('i') && !IsSpace('s') && !IsSpace('m') && !IsSpace('a') && !IsSpace('y')
  {
  }

  lemma IdAtWord(word: string, after: string)
    requires word == "is" || word == "may"
    requires |after| > 1 && after[0] == ' ' && (after[1] == 'a' || after[1] == 'b')
    ensures ParseId(word + after) == None
  {
    hide IsSpace;
    VerbCharacters();
    RunEnds(word, after, IsIdChar);
    assert (word + after)[|word|..] == after;
  }

  lemma IdAtVerb(verb: string, rest: string)
    requires verb == " is" || verb == " may be"
    ensures ParseId(verb[1..] + AFFECTED + rest) == None
  {
    hide ParseId;
    var word := if verb == " is" then "is" else "may";
    var after := (if verb == " is" then "" else " be") + AFFECTED + rest;
    assert verb[1..] + AFFECTED + rest == word + after;
    IdAtWord(word, after);
  }

  /** Where the spaces of the verb and what follows it are. */
  lemma SpacesOfIs(o: nat)
    requires o < 16 && (" is" + AFFECTED)[o] == ' '
    ensures o == 0 || o == 3 || o == 12 || o == 15
  {
    var p := " is affected by ";
    assert " is" + AFFECTED == p;
    assert p[1] == 'i' && p[2] == 's' && p[4] == 'a' && p[5] == 'f' && p[6] == 'f' && p[7] == 'e' && p[8] == 'c';
    assert p[9] == 't' && p[10] == 'e' && p[11] == 'd' && p[13] == 'b' && p[14] == 'y';
  }

  lemma SpacesOfMayBe(o: nat)
    requires o < 20 && (" may be" + AFFECTED)[o] == ' '
    ensures o == 0 || o == 4 || o == 7 || o == 16 || o == 19
  {
    var p := " may be affected by ";
    assert " may be" + AFFECTED == p;
    assert p[1] == 'm' && p[2] == 'a' && p[3] == 'y' && p[5] == 'b' && p[6] == 'e' && p[8] == 'a' && p[9] == 'f';
    assert p[10] == 'f' && p[11] == 'e' && p[12] == 'c' && p[13] == 't' && p[14] == 'e' && p[15] == 'd';
    assert p[17] == 'b' && p[18] == 'y';
  }

  /** The pattern's verb with what follows it, and the space after a space in it. */
  function VerbPattern(maybe: bool): string { (if maybe then " may be" else " is") + AFFECTED }

  function NextSpace(maybe: bool, o: nat): nat {
    if maybe then (if o < 4 then 4 else if o < 7 then 7 else if o < 16 then 16 else 19)
    else if o < 3 then 3 else if o < 12 then 12 else 15
  }

  lemma Gaps(maybe: bool, o: nat)
    requires o + 1 < |VerbPattern(maybe)| && VerbPattern(maybe)[o] == ' '
    ensures var p, next := VerbPattern(maybe), NextSpace(maybe, o);
            && o < next < |p| && p[next] == ' '
            && (next + 1 < |p| ==> p[next + 1] == 'a' || p[next + 1] == 'b')
            && forall x :: o < x < |p| && p[x] == ' ' ==> next <= x
  {
    var p := VerbPattern(maybe);
    if maybe { SpacesOfMayBe(o); } else { SpacesOfIs(o); }
    forall x | o < x < |p| && p[x] == ' ' ensures NextSpace(maybe, o) <= x {
      if maybe { SpacesOfMayBe(x); } else { SpacesOfIs(x); }
    }
    if maybe {
      assert p == " may be affected by ";
    } else {
      assert p == " is affected by ";
    }
  }

  /** The text from the component's end on. */
  ghost predicate FromVersion(s: string, c: nat, version: string, verb: string, rest: string) {
    && c < |s| && s[c..] == " " + (version + (verb + AFFECTED + rest))
    && NoSpaces(version) && version != "" && (verb == " is" || verb == " may be")
  }

  /** Between the component and the verb there is one space, before the version. */
  lemma VersionHasNoSpaces(s: string, c: nat, version: string, verb: string, rest: string)
    requires FromVersion(s, c, version, verb, rest)
    ensures var d := c + 1 + |version|;
            && d + 1 < |s| && s[c] == ' ' && s[d] == ' ' && (s[d + 1] == 'i' || s[d + 1] == 'm')
            && (forall x :: c < x < d ==> !IsSpace(s[x]) && s[x] != ' ')
            && s[c + 1..] == version + (verb + AFFECTED + rest)
            && s[d + 1..] == verb[1..] + AFFECTED + rest
  {
    var d := c + 1 + |version|;
    assert IsSpace(' ');
    forall x | c < x < d ensures !IsSpace(s[x]) {
      assert s[x] == s[c..][x - c] == version[x - c - 1] && version[x - c - 1] in version;
    }
    assert s[c] == s[c..][0];
    assert s[d] == s[c..][d - c] == verb[0];
    assert s[d + 1] == s[c..][d + 1 - c] == verb[1];
    assert s[c + 1..] == s[c..][1..];
    assert s[d + 1..] == s[c..][d + 1 - c..];
  }

  /** Where the pattern's verb reaches over the end of the component, what follows is no id. */
  lemma Straddle(s: string, e: nat, c: nat, version: string, verb: string, rest: string, maybe: bool)
    requires FromVersion(s, c, version, verb, rest)
    requires e <= c < e + |VerbPattern(maybe)| && VerbPattern(maybe) <= s[e..]
    ensures ParseId(s[e + |VerbPattern(maybe)|..]) == None
  {
    hide ParseId, VerbPattern, NextSpace, IsSpace;
    var p, o, d := VerbPattern(maybe), c - e, c + 1 + |version|;
    VersionHasNoSpaces(s, c, version, verb, rest);
    forall x | 0 <= x < |p| ensures s[e + x] == p[x] { assert s[e..][x] == p[x]; }
    assert p[o] == s[e + o];
    if o + 1 == |p| {
      IdAtVersion(version, verb, rest);
    } else {
      if d - e < |p| { assert p[d - e] == s[d]; }
      if d - e + 1 < |p| { assert p[d - e + 1] == s[d + 1]; }
      Gaps(maybe, o);
      var next := NextSpace(maybe, o);
      assert s[e + next] == ' ';
      assert d <= e + next;
      IdAtVerb(verb, rest);
    }
  }

  /** An end inside the component is not followed by the rest of the pattern. */
  lemma NoEarlierEnd(s: string, k: nat, component: string, version: string, verb: string, rest: string)
    requires component <= s && FromVersion(s, |component|, version, verb, rest) && !Occurs(AFFECTED, component)
    requires 0 < k < |component| && s[k] == ' '
    ensures ParseAt(s, k) == None
  {
    hide ParseId, ParseAt, IsSpace, RunLength, Occurs, VerbPattern, FromVersion;
    var t, c := s[k + 1..], |component|;
    var n := RunLength(t, c => !IsSpace(c));
    var e := k + 1 + n;
    EndsInside(s, k, e, component, version, verb, rest);
    VerbAt(s, e, component, version, verb, rest, false);
    VerbAt(s, e, component, version, verb, rest, true);
    ParseAtFails(s, k, e);
  }

  lemma EndsInside(s: string, k: nat, e: nat, component: string, version: string, verb: string, rest: string)
    requires FromVersion(s, |component|, version, verb, rest) && k < |component|
    requires e == k + 1 + RunLength(s[k + 1..], c => !IsSpace(c))
    ensures e <= |component|
  {
    hide IsSpace;
    VersionHasNoSpaces(s, |component|, version, verb, rest);
    SpaceIsSpace();
    assert s[k + 1..][|component| - k - 1] == s[|component|];
  }

  lemma ParseAtFails(s: string, k: nat, e: nat)
    requires k < |s| && s[k] == ' ' && e == k + 1 + RunLength(s[k + 1..], c => !IsSpace(c)) && e <= |s|
    requires forall maybe :: VerbPattern(maybe) <= s[e..] ==> ParseId(s[e + |VerbPattern(maybe)|..]) == None
    ensures ParseAt(s, k) == None
  {
    hide ParseId, IsSpace, RunLength;
    assert s[k + 1..][e - k - 1..] == s[e..];
    assert " is" + AFFECTED == VerbPattern(false) && " may be" + AFFECTED == VerbPattern(true);
    if " is" + AFFECTED <= s[e..] { assert s[e..][3 + |AFFECTED|..] == s[e + |VerbPattern(false)|..]; }
    if " may be" + AFFECTED <= s[e..] { assert s[e..][7 + |AFFECTED|..] == s[e + |VerbPattern(true)|..]; }
  }

  lemma SpaceIsSpace()
    ensures IsSpace(' ')
  {
  }

  lemma VerbAt(s: string, e: nat, component: string, version: string, verb: string, rest: string, maybe: bool)
    requires component <= s && FromVersion(s, |component|, version, verb, rest) && !Occurs(AFFECTED, component)
    requires e <= |component|
    ensures VerbPattern(maybe) <= s[e..] ==> ParseId(s[e + |VerbPattern(maybe)|..]) == None
  {
    hide ParseId, Occurs;
    var p := VerbPattern(maybe);
    if p <= s[e..] {
      if |component| < e + |p| { Straddle(s, e, |component|, version, verb, rest, maybe); }
      else { PatternOccurs(s, e, component, maybe); }
    }
  }

  lemma PatternOccurs(s: string, e: nat, component: string, maybe: bool)
    requires component <= s && e + |VerbPattern(maybe)| <= |component| && VerbPattern(maybe) <= s[e..]
    ensures Occurs(AFFECTED, component)
  {
    var p, i := VerbPattern(maybe), e + |VerbPattern(maybe)| - |AFFECTED|;
    assert component[i..i + |AFFECTED|] == s[e..][..|p|][|p| - |AFFECTED|..] == AFFECTED;
    assert AFFECTED <= component[i..];
  }

  /** The message's own parts match. */
  lemma OwnEnd(f: Finding, details: string)
    requires Plain(f)
    ensures var s, c := Message(f, details), |f.component|;
            && c < |s| && s[c] == ' '
            && ParseAt(s, c) == if f.id == "" then None else Some(Parsed(f.component, f.id, AliasList(f)))
  {
    hide ParseId, ParseAt, Message, Occurs, IsIdChar, AliasText, AliasList;
    MessageShape(f, details);
    IdIsRead(f, details);
    EndIsRead(Message(f, details), |f.component|, VersionText(f), Verb(f), f.id + AliasText(f) + SEVERITY + details);
    assert Message(f, details)[..|f.component|] == f.component;
  }

  lemma EndIsRead(s: string, c: nat, version: string, verb: string, rest: string)
    requires FromVersion(s, c, version, verb, rest)
    ensures s[c] == ' '
    ensures ParseAt(s, c) == if ParseId(rest).None? then None
                             else Some(Parsed(s[..c], ParseId(rest).value.0, ParseId(rest).value.1))
  {
    hide ParseId, IsSpace, RunLength;
    VersionHasNoSpaces(s, c, version, verb, rest);
    SpaceIsSpace();
    var after := verb + AFFECTED + rest;
    assert forall x :: x in version ==> !IsSpace(x);
    RunEnds(version, after, c => !IsSpace(c));
    assert s[c + 1..][|version|..] == after;
    assert after[|verb| + |AFFECTED|..] == rest;
    OneVerb(verb, rest);
  }

  lemma OneVerb(verb: string, rest: string)
    requires verb == " is" || verb == " may be"
    ensures " is" + AFFECTED <= verb + AFFECTED + rest <==> verb == " is"
    ensures " may be" + AFFECTED <= verb + AFFECTED + rest <==> verb == " may be"
  {
    var s := verb + AFFECTED + rest;
    assert s[1] == verb[1] && (" is" + AFFECTED)[1] == 'i' && (" may be" + AFFECTED)[1] == 'm';
  }

  lemma MessageShape(f: Finding, details: string)
    requires NoSpaces(VersionText(f))
    ensures var s, rest := Message(f, details), f.id + AliasText(f) + SEVERITY + details;
            && f.component <= s && FromVersion(s, |f.component|, VersionText(f), Verb(f), rest)
  {
    hide NoSpaces, AliasText, VersionText;
    var s, rest := Message(f, details), f.id + AliasText(f) + SEVERITY + details;
    Regrouped(f.component, VersionText(f), Verb(f), f.id, AliasText(f), details);
    assert VersionText(f) != "" by { VersionIsThere(f); }
  }

  lemma VersionIsThere(f: Finding)
    ensures VersionText(f) != ""
  {
  }

  lemma Regrouped(component: string, version: string, verb: string, id: string, aliases: string, details: string)
    ensures component + " " + version + verb + AFFECTED + id + aliases + SEVERITY + details
         == component + (" " + (version + (verb + AFFECTED + (id + aliases + SEVERITY + details))))
  {
    var rest := id + aliases + SEVERITY + details;
    assert verb + AFFECTED + id + aliases + SEVERITY + details == verb + AFFECTED + rest;
    assert component + " " + version + (verb + AFFECTED + rest)
         == component + (" " + (version + (verb + AFFECTED + rest)));
  }

  lemma {:induction false} SearchFinds(s: string, k: nat, c: nat)
    requires 0 < k <= c < |s| && s[c] == ' ' && ParseAt(s, c).Some?
    requires forall j :: k <= j < c && s[j] == ' ' ==> ParseAt(s, j).None?
    requires '\n' !in s[..c]
    ensures Search(s, k) == ParseAt(s, c)
    decreases c - k
  {
    hide ParseAt;
    assert s[..c][k - 1] == s[k - 1];
    if k < c { SearchFinds(s, k + 1, c); }
  }

  lemma {:induction false} SearchKeepsToOneLine(s: string, k: nat)
    requires 0 < k <= |s|
    ensures Search(s, k).Some? ==> |Search(s, k).value.component| >= k && '\n' !in Search(s, k).value.component[k - 1..]
    decreases |s| - k
  {
    hide ParseId, RunLength;
    if k < |s| && s[k - 1] != '\n' {
      if s[k] == ' ' && ParseAt(s, k).Some? {
        assert ParseAt(s, k).value.component == s[..k];
      } else {
        SearchKeepsToOneLine(s, k + 1);
        var r := Search(s, k + 1);
        if r.Some? {
          SearchTakesBeginning(s, k + 1);
          assert r.value.component[k - 1..] == [s[k - 1]] + r.value.component[k..];
        }
      }
    }
  }

  lemma {:induction false} SearchTakesBeginning(s: string, k: nat)
    requires 0 < k <= |s|
    ensures Search(s, k).Some? ==> Search(s, k).value.component <= s
    decreases |s| - k
  {
    hide ParseId, RunLength;
    if k < |s| && s[k - 1] != '\n' && !(s[k] == ' ' && ParseAt(s, k).Some?) { SearchTakesBeginning(s, k + 1); }
  }

  lemma {:induction false} FoundAtItsEnd(s: string, k: nat)
    requires 0 < k <= |s|
    ensures var r := Search(s, k);
            r.Some? ==>
              && |r.value.component| < |s| && s[|r.value.component|] == ' '
              && ParseAt(s, |r.value.component|) == r
    decreases |s| - k
  {
    hide ParseId, RunLength;
    if k < |s| && s[k - 1] != '\n' && !(s[k] == ' ' && ParseAt(s, k).Some?) { FoundAtItsEnd(s, k + 1); }
  }

  ghost predicate ReadsBack(f: Finding, details: string) {
    var r := Parse(Message(f, details));
    r.Some? && r.value.component == f.component && r.value.id == f.id && AliasSet(r.value.aliases) == f.aliases
  }

  /** A finding with plain texts is read back from its alert, component, id and aliases, exactly
      when its component is not empty and on one line, since the pattern's dot stops at a line
      end, and neither its id nor an alias is empty. */
  lemma ReadsBackIff(f: Finding, details: string)
    requires Plain(f)
    ensures ReadsBack(f, details) <==> f.component != "" && '\n' !in f.component && f.id != "" && "" !in f.aliases
  {
    hide ParseAt, Search, Occurs, AliasSet, AliasList, Message;
    var s, c := Message(f, details), |f.component|;
    var rest := f.id + AliasText(f) + SEVERITY + details;
    MessageShape(f, details);
    OwnEnd(f, details);
    AliasesAreRead(f);
    SearchKeepsToOneLine(s, 1);
    FoundAtItsEnd(s, 1);
    assert f.component[0..] == f.component;
    if f.component != "" && '\n' !in f.component && f.id != "" {
      forall j | 1 <= j < c && s[j] == ' ' ensures ParseAt(s, j).None? {
        NoEarlierEnd(s, j, f.component, VersionText(f), Verb(f), rest);
      }
      assert s[..c] == f.component;
      SearchFinds(s, 1, c);
    }
  }
}
