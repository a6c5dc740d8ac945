/** What merging findings means, said without the rankings and helpers of the code
    (scripts/sbom/logsquirl_vulns.py: SEVERITIES, _worse, _id_rank, merge_findings). */
module FindingMeanings {
  import opened Options
  import opened Texts
  import opened FindingMerge
  import opened FindingMergeLaws

  /** One name of each, an id or an alias, is the same. */
  lemma LinkedMeans(f: Finding, g: Finding)
    ensures Linked(f, g) <==>
            f.ref == g.ref && (f.id == g.id || f.id in g.aliases || g.id in f.aliases || f.aliases * g.aliases != {})
  {
    if Linked(f, g) {
      var n :| n in f.Names() * g.Names();
      assert n in f.aliases && n in g.aliases ==> n in f.aliases * g.aliases;
    }
    if f.aliases * g.aliases != {} {
      var n :| n in f.aliases * g.aliases;
      assert n in f.Names() * g.Names();
    }
    assert f.id in f.Names() && g.id in g.Names();
    assert f.id == g.id || f.id in g.aliases ==> f.id in f.Names() * g.Names();
    assert g.id in f.aliases ==> g.id in f.Names() * g.Names();
  }

  predicate IsCve(id: string) { "CVE-" <= id }

  /** The id of a group: the first of its CVE ids in the order of texts, and of all its ids only
      when none of them is a CVE id. */
  ghost predicate IsIdOf(id: string, ids: set<string>) {
    && id in ids
    && if exists i :: i in ids && IsCve(i) then IsCve(id) && forall i :: i in ids && IsCve(i) ==> TextLeq(id, i)
       else forall i :: i in ids ==> TextLeq(id, i)
  }

  lemma LeastIdMeans(id: string, ids: set<string>)
    ensures id in ids && (forall i :: i in ids ==> IdLeq(id, i)) <==> IsIdOf(id, ids)
  {
  }

  function IdsOf(group: seq<Finding>): set<string> { set g | g in group :: g.id }

  lemma BestIdMeans(group: seq<Finding>)
    requires group != []
    ensures IsIdOf(BestId(group), IdsOf(group))
  {
    hide BestId, IdLeq;
    LeastIdMeans(BestId(group), IdsOf(group));
  }

  // From worst to least severe.
  const SEVERITIES := [Critical, High, Medium, Low, Unscored, Unknown]

  /** The severity of a group: the first of the list that any of them has. */
  ghost predicate IsSeverityOf(s: Severity, C: set<Finding>) {
    exists n :: 0 <= n < |SEVERITIES| && s == SEVERITIES[n] && (exists g :: g in C && g.severity == s)
                && forall g, k :: g in C && 0 <= k < n ==> g.severity != SEVERITIES[k]
  }

  lemma WorstSeverityMeans(m: Finding, C: set<Finding>)
    ensures HasTheWorstSeverity(m, C) <==> IsSeverityOf(m.severity, C)
  {
    RankIsPlace(m.severity);
    forall g | g in C ensures SEVERITIES[g.severity.Rank()] == g.severity { RankIsPlace(g.severity); }
    forall n | 0 <= n < |SEVERITIES| ensures SEVERITIES[n].Rank() == n { RankIsPlace(SEVERITIES[n]); }
    if HasTheWorstSeverity(m, C) {
      var n := m.severity.Rank();
      assert SEVERITIES[n] == m.severity;
    }
    if IsSeverityOf(m.severity, C) {
      var n :| 0 <= n < |SEVERITIES| && m.severity == SEVERITIES[n]
               && forall g, k :: g in C && 0 <= k < n ==> g.severity != SEVERITIES[k];
      forall g | g in C ensures m.severity.Rank() <= g.severity.Rank() {
        assert SEVERITIES[g.severity.Rank()] == g.severity;
      }
    }
  }

  lemma RankIsPlace(s: Severity)
    ensures s.Rank() < |SEVERITIES| && SEVERITIES[s.Rank()] == s
    ensures forall n :: 0 <= n < |SEVERITIES| && SEVERITIES[n] == s ==> s.Rank() == n
  {
  }

  predicate GivesNoReason(f: Finding) { f.unconfirmed == None || f.unconfirmed == Some("") }

  /** What one finding that stands for a group is, member by member. */
  lemma SummaryMeans(m: Finding, C: set<Finding>)
    requires IsSummary(m, C)
    ensures forall g :: g in C ==> g.ref == m.ref
    ensures forall n :: n == m.id || n in m.aliases <==> exists g :: g in C && (n == g.id || n in g.aliases)
    ensures IsIdOf(m.id, set g | g in C :: g.id)
    ensures IsSeverityOf(m.severity, C)
    ensures forall g :: g in C && g.score.Some? ==> m.score.Some? && g.score.value <= m.score.value
    ensures m.score.Some? ==> exists g :: g in C && g.score == m.score
    ensures forall n :: n in m.sources <==> exists g :: g in C && n in g.sources
    ensures GivesNoReason(m) <==> exists g :: g in C && GivesNoReason(g)
  {
    hide IdLeq;
    var ids := set g | g in C :: g.id;
    assert m.id in ids && forall i :: i in ids ==> IdLeq(m.id, i);
    LeastIdMeans(m.id, ids);
    WorstSeverityMeans(m, C);
    forall n ensures n == m.id || n in m.aliases <==> exists g :: g in C && (n == g.id || n in g.aliases) {
      assert n in m.Names() <==> n == m.id || n in m.aliases;
      assert forall g: Finding :: n in g.Names() <==> n == g.id || n in g.aliases;
    }
  }

  /** So every finding merged is merged into exactly one that has its names, for its component
      ref: the one that stands for all that are linked to it, directly or through others. */
  lemma MergedMeans(findings: seq<Finding>, f: Finding)
    requires f in findings
    ensures exists m :: StandsFor(m, f, findings)
    ensures forall m, m' :: StandsFor(m, f, findings) && StandsFor(m', f, findings) ==> m == m'
  {
    hide IsSummary, Component, MergeAll, OnlyComponents;
    MergeAllIsMerge(findings);
    var S := Elements(findings);
    assert f in S;
    var m :| m in MergeAll(findings) && IsSummary(m, Component(S, f));
    assert StandsFor(m, f, findings);
    forall m, m' | StandsFor(m, f, findings) && StandsFor(m', f, findings) ensures m == m' {
      SummaryUnique(m, m', Component(S, f));
      SameViewLinked(m, m');
    }
  }

  ghost predicate StandsFor(m: Finding, f: Finding, findings: seq<Finding>) {
    m in MergeAll(findings) && IsSummary(m, Component(Elements(findings), f))
  }
}
