/** Merging the findings of several sources into one per component and vulnerability
    (scripts/sbom/logsquirl_vulns.py). */
module FindingMerge {
  import opened Options
  import opened Texts

  // From worst to least severe.
  datatype Severity = Critical | High | Medium | Low | Unscored | Unknown {
    function Rank(): nat {
      match this
      case Critical => 0 case High => 1 case Medium => 2 case Low => 3 case Unscored => 4 case Unknown => 5
    }
  }

  datatype Finding = Finding(ref: string, component: string, version: Option<string>, id: string,
                             aliases: set<string>, severity: Severity, score: Option<real>, summary: string,
                             sources: set<string>, suppressed: Option<string>, affected: string,
                             fixed: seq<string>, unconfirmed: Option<string>)
  {
    function Names(): set<string> { {id} + aliases }

    /** An empty reason counts as none. */
    predicate Confirmed() { unconfirmed == None || unconfirmed == Some("") }
  }

  /** The same issue of the same component: some id or alias is shared. */
  predicate Linked(f: Finding, g: Finding) {
    f.ref == g.ref && f.Names() * g.Names() != {}
  }

  // ---------- Which id stands for a group ----------

  function IdClass(id: string): nat {
    if "CVE-" <= id then 0 else 1
  }

  predicate IdLeq(a: string, b: string) {
    IdClass(a) < IdClass(b) || (IdClass(a) == IdClass(b) && TextLeq(a, b))
  }

  lemma IdLeqTransitive(a: string, b: string, c: string)
    requires IdLeq(a, b) && IdLeq(b, c)
    ensures IdLeq(a, c)
  {
    if IdClass(a) == IdClass(c) { TextLeqTransitive(a, b, c); }
  }

  lemma IdLeqAntisymmetric(a: string, b: string)
    requires IdLeq(a, b) && IdLeq(b, a)
    ensures a == b
  {
    TextLeqAntisymmetric(a, b);
  }

  // ---------- The code's own computation ----------

  function BestId(group: seq<Finding>): (id: string)
    requires group != []
    ensures exists g :: g in group && g.id == id
    ensures forall g :: g in group ==> IdLeq(id, g.id)
  {
    if |group| == 1 then
      TextLeqReflexive(group[0].id);
      group[0].id
    else
      var rest := BestId(group[1..]);
      TextLeqReflexive(rest);
      TextLeqReflexive(group[0].id);
      TextLeqTotal(group[0].id, rest);
      assert group == [group[0]] + group[1..];
      assert forall g :: g in group[1..] && IdLeq(group[0].id, rest) ==> IdLeq(group[0].id, g.id) by {
        forall g | g in group[1..] && IdLeq(group[0].id, rest) { IdLeqTransitive(group[0].id, rest, g.id); }
      }
      if IdLeq(group[0].id, rest) then group[0].id else rest
  }

  function WorstSeverity(group: seq<Finding>): (s: Severity)
    ensures forall g :: g in group ==> s.Rank() <= g.severity.Rank()
    ensures group != [] ==> exists g :: g in group && g.severity == s
  {
    if group == [] then Unknown
    else
      var rest := WorstSeverity(group[1..]);
      assert group == [group[0]] + group[1..];
      if group[0].severity.Rank() <= rest.Rank() then group[0].severity else rest
  }

  function BestScore(group: seq<Finding>): (s: Option<real>)
    ensures s.None? ==> forall g :: g in group ==> g.score.None?
    ensures s.Some? ==> exists g :: g in group && g.score == s
    ensures s.Some? ==> forall g :: g in group && g.score.Some? ==> g.score.value <= s.value
  {
    if group == [] then None
    else
      var rest := BestScore(group[1..]);
      assert group == [group[0]] + group[1..];
      if group[0].score.None? then rest
      else if rest.None? || rest.value <= group[0].score.value then group[0].score
      else rest
  }

  function AllNames(group: seq<Finding>): (names: set<string>)
    ensures forall n :: n in names <==> exists g :: g in group && n in g.Names()
  {
    if group == [] then {}
    else
      assert group == [group[0]] + group[1..];
      group[0].Names() + AllNames(group[1..])
  }

  function AllSources(group: seq<Finding>): (sources: set<string>)
    ensures forall n :: n in sources <==> exists g :: g in group && n in g.sources
  {
    if group == [] then {}
    else
      assert group == [group[0]] + group[1..];
      group[0].sources + AllSources(group[1..])
  }

  function FirstNonEmpty<T(==)>(texts: seq<seq<T>>): seq<T> {
    if texts == [] then [] else if texts[0] != [] then texts[0] else FirstNonEmpty(texts[1..])
  }

  function Combine(f: Finding, same: seq<Finding>): Finding {
    var group := [f] + same;
    var primary := BestId(group);
    f.(id := primary, aliases := AllNames(group) - {primary}, severity := WorstSeverity(group),
       score := BestScore(group),
       summary := FirstNonEmpty(seq(|group|, i requires 0 <= i < |group| => group[i].summary)),
       sources := AllSources(group),
       affected := FirstNonEmpty(seq(|group|, i requires 0 <= i < |group| => group[i].affected)),
       fixed := FirstNonEmpty(seq(|group|, i requires 0 <= i < |group| => group[i].fixed)),
       unconfirmed := if exists g :: g in group && g.Confirmed() then None else f.unconfirmed)
  }

  function LinkedTo(merged: seq<Finding>, f: Finding): (same: seq<Finding>)
    ensures forall m :: m in same <==> m in merged && Linked(m, f)
  {
    if merged == [] then []
    else (if Linked(merged[0], f) then [merged[0]] else []) + LinkedTo(merged[1..], f)
  }

  /** A list without the elements of a set, in its order. */
  function Without(merged: seq<Finding>, gone: set<Finding>): (rest: seq<Finding>)
    ensures forall m :: m in rest <==> m in merged && m !in gone
    ensures NoDuplicates(merged) ==> NoDuplicates(rest)
  {
    if merged == [] then []
    else
      assert NoDuplicates(merged) ==> merged[0] !in merged[1..];
      (if merged[0] in gone then [] else [merged[0]]) + Without(merged[1..], gone)
  }

  ghost predicate NoDuplicates(s: seq<Finding>) {
    forall i, j :: 0 <= i < j < |s| ==> s[i] != s[j]
  }

  function Elements(s: seq<Finding>): set<Finding> { set f | f in s }

  function MergeStep(merged: seq<Finding>, f: Finding): seq<Finding> {
    var same := LinkedTo(merged, f);
    Without(merged, Elements(same)) + [Combine(f, same)]
  }

  function MergeAll(findings: seq<Finding>): seq<Finding> {
    if findings == [] then []
    else MergeStep(MergeAll(findings[..|findings| - 1]), findings[|findings| - 1])
  }

  // ---------- What a merge means ----------

  /** Findings joined by a chain of links, each link in `S`. */
  ghost predicate IsChain(S: set<Finding>, p: seq<Finding>, x: Finding, y: Finding) {
    && p != [] && p[0] == x && p[|p| - 1] == y
    && (forall i :: 0 <= i < |p| ==> p[i] in S)
    && (forall i :: 0 <= i < |p| - 1 ==> Linked(p[i], p[i + 1]))
  }

  ghost predicate Connected(S: set<Finding>, x: Finding, y: Finding) {
    exists p :: IsChain(S, p, x, y)
  }

  /** The connected component of `x`. */
  ghost function Component(S: set<Finding>, x: Finding): set<Finding> {
    set y | y in S && Connected(S, x, y)
  }

  ghost predicate SameRef(m: Finding, C: set<Finding>) {
    forall g :: g in C ==> g.ref == m.ref
  }

  ghost predicate HasTheNames(m: Finding, C: set<Finding>) {
    forall n :: n in m.Names() <==> exists g :: g in C && n in g.Names()
  }

  ghost predicate HasTheBestId(m: Finding, C: set<Finding>) {
    (exists g :: g in C && g.id == m.id) && (forall g :: g in C ==> IdLeq(m.id, g.id))
  }

  ghost predicate HasTheWorstSeverity(m: Finding, C: set<Finding>) {
    && (exists g :: g in C && g.severity == m.severity)
    && (forall g :: g in C ==> m.severity.Rank() <= g.severity.Rank())
  }

  ghost predicate HasTheHighestScore(m: Finding, C: set<Finding>) {
    && (m.score.None? ==> forall g :: g in C ==> g.score.None?)
    && (m.score.Some? ==> exists g :: g in C && g.score == m.score)
    && (m.score.Some? ==> forall g :: g in C && g.score.Some? ==> g.score.value <= m.score.value)
  }

  ghost predicate HasTheSources(m: Finding, C: set<Finding>) {
    forall n :: n in m.sources <==> exists g :: g in C && n in g.sources
  }

  ghost predicate ConfirmedIfAnyIs(m: Finding, C: set<Finding>) {
    m.Confirmed() <==> exists g :: g in C && g.Confirmed()
  }

  /** One finding for the whole of `C`: the union of the names and sources, the best-ranked id,
      the worst severity, the highest score; confirmed as soon as one member is. */
  ghost predicate IsSummary(m: Finding, C: set<Finding>) {
    && SameRef(m, C)
    && HasTheNames(m, C)
    && HasTheBestId(m, C)
    && HasTheWorstSeverity(m, C)
    && HasTheHighestScore(m, C)
    && HasTheSources(m, C)
    && ConfirmedIfAnyIs(m, C)
  }

  ghost predicate IsComponentSummary(m: Finding, S: set<Finding>) {
    exists x :: x in S && IsSummary(m, Component(S, x))
  }

  ghost predicate OnlyComponents(out: seq<Finding>, S: set<Finding>) {
    forall m :: m in out ==> IsComponentSummary(m, S)
  }

  ghost predicate EveryComponent(out: seq<Finding>, S: set<Finding>) {
    forall x :: x in S ==> exists m :: m in out && IsSummary(m, Component(S, x))
  }

  /** Exactly one finding for each connected component of `S`, and no two that share a name. */
  ghost predicate IsMerge(out: seq<Finding>, S: set<Finding>) {
    OnlyComponents(out, S) && EveryComponent(out, S) && Apart(out)
  }

  ghost predicate Apart(out: seq<Finding>) {
    && NoDuplicates(out)
    && forall m, m' :: m in out && m' in out && m != m' ==> !Linked(m, m')
  }
}
