/** Which texts of a merged finding depend on the order the findings come in
    (scripts/sbom/logsquirl_vulns.py, merge_findings). */
module FindingTexts {
  import opened Options
  import opened FindingMerge
  import opened FindingMergeLaws

  /** How merging treats a text: a group's is that of one of them, the last finding's if it has
      one, and blank only when all are. `ifUnconfirmed`: a confirmed finding in the group erases
      the text instead. */
  datatype Rule<!T> = Rule(field: Finding -> T, blank: T -> bool, ifUnconfirmed: bool, erased: T) {
    predicate Erases(m: Finding) { ifUnconfirmed && m.Confirmed() }
  }

  ghost predicate Follows<T(!new)>(rule: Rule<T>, f: Finding, same: seq<Finding>) {
    var group, m := [f] + same, Combine(f, same);
    if rule.Erases(m) then rule.field(m) == rule.erased
    else
      && (exists g :: g in group && rule.field(g) == rule.field(m))
      && (!rule.blank(rule.field(f)) ==> rule.field(m) == rule.field(f))
      && (rule.blank(rule.field(m)) ==> forall g :: g in group ==> rule.blank(rule.field(g)))
  }

  ghost predicate IsRule<T(!new)>(rule: Rule<T>) {
    && (forall f, same :: Follows(rule, f, same))
    && (forall a, b :: rule.blank(a) && rule.blank(b) ==> a == b)
  }

  // ---------- What a merged text is ----------

  /** Reported as part of what was merged. */
  predicate Within(g: Finding, m: Finding) { g.ref == m.ref && g.Names() <= m.Names() }

  ghost predicate HasOrigin<T(!new)>(rule: Rule<T>, m: Finding, findings: seq<Finding>) {
    exists g :: g in findings && Within(g, m) && rule.field(g) == rule.field(m)
  }

  lemma WithinMerged(f: Finding, same: seq<Finding>, g: Finding)
    requires g in [f] + same && forall m :: m in same ==> m.ref == f.ref
    ensures Within(g, Combine(f, same))
  {
    hide Combine;
    CombineNames(f, same);
  }

  lemma Last(findings: seq<Finding>)
    requires findings != []
    ensures var merged, f := MergeAll(findings[..|findings| - 1]), findings[|findings| - 1];
            && MergeAll(findings) == MergeStep(merged, f)
            && Combine(f, LinkedTo(merged, f)) in MergeAll(findings)
  {
    hide Combine;
  }

  /** A merged text is erased by a confirmed member, and otherwise is that of some member. */
  lemma {:induction false} TextHasOrigin<T(!new)>(rule: Rule<T>, findings: seq<Finding>)
    requires IsRule(rule)
    ensures forall m :: m in MergeAll(findings) ==>
              if rule.Erases(m) then rule.field(m) == rule.erased else HasOrigin(rule, m, findings)
  {
    hide Combine, MergeStep, Within, IsRule;
    if findings != [] {
      var init, f := findings[..|findings| - 1], findings[|findings| - 1];
      assert findings == init + [f];
      TextHasOrigin(rule, init);
      forall m | m in MergeAll(findings)
        ensures if rule.Erases(m) then rule.field(m) == rule.erased else HasOrigin(rule, m, findings)
      {
        StepMembers(MergeAll(init), f, m);
        if m in MergeAll(init) {
          if !rule.Erases(m) { OriginStays(rule, m, init, f); }
        } else {
          CombinedHasOrigin(rule, init, f);
        }
      }
    }
  }

  lemma CombinedHasOrigin<T(!new)>(rule: Rule<T>, init: seq<Finding>, f: Finding)
    requires IsRule(rule)
    requires forall m :: m in MergeAll(init) ==>
               if rule.Erases(m) then rule.field(m) == rule.erased else HasOrigin(rule, m, init)
    ensures var m := Combine(f, LinkedTo(MergeAll(init), f));
            if rule.Erases(m) then rule.field(m) == rule.erased else HasOrigin(rule, m, init + [f])
  {
    hide Combine, MergeAll;
    var same := LinkedTo(MergeAll(init), f);
    var m := Combine(f, same);
    assert Follows(rule, f, same);
    if !rule.Erases(m) {
      var g :| g in [f] + same && rule.field(g) == rule.field(m);
      WithinMerged(f, same, g);
      if g == f {
        assert f in init + [f];
      } else {
        NotErased(rule, f, same, g);
        var h :| h in init && Within(h, g) && rule.field(h) == rule.field(g);
        assert h in init + [f];
      }
    }
  }

  lemma OriginStays<T(!new)>(rule: Rule<T>, m: Finding, init: seq<Finding>, f: Finding)
    requires HasOrigin(rule, m, init) && forall x :: x in init ==> x in init + [f]
    ensures HasOrigin(rule, m, init + [f])
  {
    var g :| g in init && Within(g, m) && rule.field(g) == rule.field(m);
    assert g in init + [f];
  }

  /** What is within a merged finding is in the component it summarises. */
  lemma WithinComponent(m: Finding, S: set<Finding>, x: Finding, g: Finding)
    requires x in S && g in S && IsSummary(m, Component(S, x)) && Within(g, m)
    ensures g in Component(S, x)
  {
    hide IdLeq, Severity.Rank, IsChain;
    assert g.id in g.Names() && g.id in m.Names();
    var h :| h in Component(S, x) && g.id in h.Names();
    assert g.id in h.Names() * g.Names();
    ConnectedStep(S, x, h, g);
  }

  lemma ComponentWithin(m: Finding, C: set<Finding>, g: Finding)
    requires IsSummary(m, C) && g in C
    ensures Within(g, m)
  {
    hide IdLeq, Severity.Rank;
    forall n | n in g.Names() ensures n in m.Names() {}
  }

  /** A finding that has the text has it from then on. */
  lemma {:induction false} TextStays<T(!new)>(rule: Rule<T>, findings: seq<Finding>, m: Finding, g: Finding)
    requires IsRule(rule) && m in MergeAll(findings) && g in findings && Within(g, m)
    requires !rule.Erases(m) && !rule.blank(rule.field(g))
    ensures !rule.blank(rule.field(m))
    decreases |findings|
  {
    hide *;
    var init, f := findings[..|findings| - 1], findings[|findings| - 1];
    var merged := MergeAll(init);
    Last(findings);
    StepMembers(merged, f, m);
    if m in merged && !Linked(m, f) {
      NotTheLast(m, f, g);
      assert g in init;
      TextStays(rule, init, m, g);
    } else {
      CombinedText(rule, f, LinkedTo(merged, f));
      if g in init {
        var before := Before(findings, m, g);
        if before != m {
          NotErased(rule, f, LinkedTo(merged, f), before);
        }
        TextStays(rule, init, before, g);
      }
    }
  }

  lemma NotTheLast(m: Finding, f: Finding, g: Finding)
    requires Within(g, m) && !Linked(m, f)
    ensures g != f
  {
    WithinIsLinked(m, g);
  }

  lemma CombinedText<T(!new)>(rule: Rule<T>, f: Finding, same: seq<Finding>)
    requires IsRule(rule)
    ensures var m := Combine(f, same); !rule.Erases(m) && rule.blank(rule.field(m)) ==>
              rule.blank(rule.field(f)) && forall h :: h in same ==> rule.blank(rule.field(h))
  {
    hide Combine;
    assert Follows(rule, f, same);
    assert f in [f] + same && forall h :: h in same ==> h in [f] + same;
  }

  lemma NotErased<T(!new)>(rule: Rule<T>, f: Finding, same: seq<Finding>, before: Finding)
    requires before in same && !rule.Erases(Combine(f, same))
    ensures !rule.Erases(before)
  {
    hide Combine;
    CombineNames(f, same);
    assert before in [f] + same;
  }

  /** The merged finding a finding was within before the last one came: the same one, or one of
      those the last one joined. */
  lemma Before(findings: seq<Finding>, m: Finding, g: Finding) returns (before: Finding)
    requires findings != [] && m in MergeAll(findings) && g in findings[..|findings| - 1] && Within(g, m)
    ensures var merged := MergeAll(findings[..|findings| - 1]);
            && before in merged && Within(g, before)
            && (before == m || before in LinkedTo(merged, findings[|findings| - 1]))
  {
    hide MergeAll, MergeStep, Combine, Within, Component, IsSummary, OnlyComponents, Apart;
    var init, f := findings[..|findings| - 1], findings[|findings| - 1];
    MergeAllIsMerge(init);
    MergeAllIsMerge(findings);
    Last(findings);
    InElements(init, g);
    before := SummaryHere(g, MergeAll(init), Elements(init));
    OwnComponent(Elements(init), g);
    ComponentWithin(before, Component(Elements(init), g), g);
    StepMembers(MergeAll(init), f, before);
    if !Linked(before, f) { SameWithin(MergeAll(findings), before, m, g); }
  }

  lemma InElements(findings: seq<Finding>, g: Finding)
    requires g in findings
    ensures g in Elements(findings)
  {
  }

  lemma OwnComponent(S: set<Finding>, x: Finding)
    requires x in S
    ensures x in Component(S, x)
  {
    ConnectedReflexive(S, x);
  }

  lemma WithinIsLinked(m: Finding, g: Finding)
    requires Within(g, m)
    ensures Linked(m, g)
  {
    assert g.id in m.Names() * g.Names();
  }

  /** A finding is within one merged finding only. */
  lemma SameWithin(out: seq<Finding>, a: Finding, b: Finding, g: Finding)
    requires Apart(out) && a in out && b in out && Within(g, a) && Within(g, b)
    ensures a == b
  {
    assert g.id in a.Names() * b.Names();
  }

  lemma StepMembers(merged: seq<Finding>, f: Finding, m: Finding)
    ensures m in MergeStep(merged, f) <==> m == Combine(f, LinkedTo(merged, f)) || (m in merged && !Linked(m, f))
  {
    hide Combine;
  }

  /** A component's text is that of one of its members, and blank only when all of theirs are; a
      confirmed member erases it if the rule says so. */
  ghost predicate IsTextOf<T(!new)>(rule: Rule<T>, m: Finding, C: set<Finding>) {
    if rule.Erases(m) then rule.field(m) == rule.erased
    else
      && (exists g :: g in C && rule.field(g) == rule.field(m))
      && (rule.blank(rule.field(m)) ==> forall g :: g in C ==> rule.blank(rule.field(g)))
  }

  lemma MergedText<T(!new)>(rule: Rule<T>, findings: seq<Finding>, m: Finding, x: Finding)
    requires IsRule(rule) && m in MergeAll(findings)
    requires x in Elements(findings) && IsSummary(m, Component(Elements(findings), x))
    ensures IsTextOf(rule, m, Component(Elements(findings), x))
  {
    hide IsSummary, Within, MergeAll, IsRule, Component;
    var S := Elements(findings);
    TextHasOrigin(rule, findings);
    if !rule.Erases(m) {
      assert HasOrigin(rule, m, findings);
      var g :| g in findings && Within(g, m) && rule.field(g) == rule.field(m);
      WithinComponent(m, S, x, g);
      forall h | h in Component(S, x) && rule.blank(rule.field(m)) ensures rule.blank(rule.field(h)) {
        ComponentWithin(m, Component(S, x), h);
        InSet(S, x, h);
        if !rule.blank(rule.field(h)) { TextStays(rule, findings, m, h); }
      }
    }
  }

  lemma InSet(S: set<Finding>, x: Finding, h: Finding)
    requires h in Component(S, x)
    ensures h in S
  {
  }

  // ---------- When the order does not matter ----------

  /** Connected findings of which no confirmed one erases the text, if the rule has it so. */
  ghost predicate Comparable<T(!new)>(rule: Rule<T>, S: set<Finding>, x: Finding, y: Finding) {
    x in S && y in Component(S, x) && (rule.ifUnconfirmed ==> forall z :: z in Component(S, x) ==> !z.Confirmed())
  }

  /** Within each component all texts that are not blank are one. */
  ghost predicate Agree<T(!new)>(rule: Rule<T>, S: set<Finding>) {
    forall x, y :: Comparable(rule, S, x, y) && !rule.blank(rule.field(x)) && !rule.blank(rule.field(y)) ==>
      rule.field(x) == rule.field(y)
  }

  /** The merged findings, each with its text. */
  ghost function Texts<T(!new)>(rule: Rule<T>, out: seq<Finding>): set<(View, T)> {
    set m | m in out :: (ViewOf(m), rule.field(m))
  }

  ghost predicate SameTexts<T(!new)>(rule: Rule<T>, findings: seq<Finding>, findings': seq<Finding>) {
    Texts(rule, MergeAll(findings)) == Texts(rule, MergeAll(findings'))
  }

  lemma TextDetermined<T(!new)>(rule: Rule<T>, S: set<Finding>, x: Finding, m: Finding, m': Finding)
    requires IsRule(rule) && Agree(rule, S) && x in S
    requires IsSummary(m, Component(S, x)) && IsSummary(m', Component(S, x))
    requires IsTextOf(rule, m, Component(S, x)) && IsTextOf(rule, m', Component(S, x))
    ensures rule.field(m) == rule.field(m')
  {
    var C := Component(S, x);
    assert m.Confirmed() == m'.Confirmed() by { SummaryUnique(m, m', C); }
    if !rule.Erases(m) && !rule.blank(rule.field(m)) && !rule.blank(rule.field(m')) {
      hide Component, IsSummary;
      assert rule.ifUnconfirmed ==> forall z :: z in C ==> !z.Confirmed() by { ConfirmedOf(m, C); }
      var g :| g in C && rule.field(g) == rule.field(m);
      var g' :| g' in C && rule.field(g') == rule.field(m');
      SameComponent(S, x, g);
      assert Comparable(rule, S, g, g');
    }
  }

  lemma ConfirmedOf(m: Finding, C: set<Finding>)
    requires IsSummary(m, C)
    ensures m.Confirmed() <==> exists z :: z in C && z.Confirmed()
  {
  }

  lemma SameComponent(S: set<Finding>, x: Finding, y: Finding)
    requires x in S && y in Component(S, x)
    ensures y in S && Component(S, y) == Component(S, x)
  {
    hide IsChain;
    ConnectedSymmetric(S, x, y);
    forall z | z in S ensures Connected(S, y, z) <==> Connected(S, x, z) {
      if Connected(S, y, z) { ConnectedTransitive(S, x, y, z); }
      if Connected(S, x, z) { ConnectedTransitive(S, y, x, z); }
    }
  }

  lemma TextsIncluded<T(!new)>(rule: Rule<T>, findings: seq<Finding>, findings': seq<Finding>)
    requires IsRule(rule) && Elements(findings) == Elements(findings') && Agree(rule, Elements(findings))
    ensures Texts(rule, MergeAll(findings)) <= Texts(rule, MergeAll(findings'))
  {
    hide *;
    forall m | m in MergeAll(findings)
      ensures exists m' :: m' in MergeAll(findings') && ViewOf(m') == ViewOf(m) && rule.field(m') == rule.field(m)
    {
      var m' := Counterpart(rule, findings, findings', m);
    }
    TextsSubset(rule, MergeAll(findings), MergeAll(findings'));
  }

  lemma TextsSubset<T(!new)>(rule: Rule<T>, out: seq<Finding>, out': seq<Finding>)
    requires forall m :: m in out ==>
               exists m' :: m' in out' && ViewOf(m') == ViewOf(m) && rule.field(m') == rule.field(m)
    ensures Texts(rule, out) <= Texts(rule, out')
  {
    hide ViewOf;
  }

  lemma Counterpart<T(!new)>(rule: Rule<T>, findings: seq<Finding>, findings': seq<Finding>, m: Finding)
      returns (m': Finding)
    requires IsRule(rule) && Elements(findings) == Elements(findings') && Agree(rule, Elements(findings))
    requires m in MergeAll(findings)
    ensures m' in MergeAll(findings') && ViewOf(m') == ViewOf(m) && rule.field(m') == rule.field(m)
  {
    hide IsRule, Agree, IsSummary, Component, MergeAll, IsTextOf, OnlyComponents, EveryComponent, Apart;
    var S := Elements(findings);
    MergeAllIsMerge(findings);
    MergeAllIsMerge(findings');
    var x := SummarisedHere(m, MergeAll(findings), S);
    m' := SummaryHere(x, MergeAll(findings'), S);
    SummaryUnique(m, m', Component(S, x));
    MergedText(rule, findings, m, x);
    MergedText(rule, findings', m', x);
    TextDetermined(rule, S, x, m, m');
  }

  /** Where the texts agree the order does not matter. */
  lemma AgreeingTexts<T(!new)>(rule: Rule<T>, findings: seq<Finding>, findings': seq<Finding>)
    requires IsRule(rule) && Elements(findings) == Elements(findings') && Agree(rule, Elements(findings))
    ensures SameTexts(rule, findings, findings')
  {
    TextsIncluded(rule, findings, findings');
    TextsIncluded(rule, findings', findings);
  }

  // ---------- When it does ----------

  lemma Listed(S: set<Finding>) returns (list: seq<Finding>)
    ensures NoDuplicates(list) && Elements(list) == S
    decreases |S|
  {
    if S == {} {
      list := [];
    } else {
      var x :| x in S;
      var rest := Listed(S - {x});
      list := LastListed(rest, x);
    }
  }

  lemma LastListed(rest: seq<Finding>, x: Finding) returns (list: seq<Finding>)
    requires NoDuplicates(rest) && x !in Elements(rest)
    ensures list == rest + [x] && NoDuplicates(list) && Elements(list) == Elements(rest) + {x}
  {
    list := rest + [x];
    forall i | 0 <= i < |rest| ensures rest[i] != x { assert rest[i] in Elements(rest); }
  }

  /** The finding that comes last has its text in its component's. */
  lemma LastWins<T(!new)>(rule: Rule<T>, S: set<Finding>, x: Finding, y: Finding, rest: seq<Finding>)
      returns (m: Finding)
    requires IsRule(rule) && Comparable(rule, S, x, y) && !rule.blank(rule.field(y))
    requires Elements(rest + [y]) == S
    ensures m in MergeAll(rest + [y]) && IsSummary(m, Component(S, x)) && rule.field(m) == rule.field(y)
  {
    hide Combine, IsSummary, MergeAll, MergeStep, Component, IsRule, Within, OnlyComponents, EveryComponent, Apart;
    var list := rest + [y];
    assert list[..|list| - 1] == rest && y in list;
    var same := LinkedTo(MergeAll(rest), y);
    m := Combine(y, same);
    Last(list);
    MergeAllIsMerge(list);
    var z := SummarisedHere(m, MergeAll(list), S);
    WithinMerged(y, same, y);
    InSet(S, x, y);
    WithinComponent(m, S, z, y);
    SameComponent(S, z, y);
    SameComponent(S, x, y);
    ConfirmedOf(m, Component(S, x));
    RuleApplies(rule, y, same);
  }

  lemma RuleApplies<T(!new)>(rule: Rule<T>, f: Finding, same: seq<Finding>)
    requires IsRule(rule)
    ensures Follows(rule, f, same)
  {
  }

  lemma OneView(out: seq<Finding>, m: Finding, m': Finding)
    requires Apart(out) && m in out && m' in out && ViewOf(m) == ViewOf(m')
    ensures m == m'
  {
    SameViewLinked(m, m');
  }

  lemma DisagreeingTexts<T(!new)>(rule: Rule<T>, S: set<Finding>, x: Finding, y: Finding)
      returns (findings: seq<Finding>, findings': seq<Finding>)
    requires IsRule(rule) && Comparable(rule, S, x, y) && rule.field(x) != rule.field(y)
    requires !rule.blank(rule.field(x)) && !rule.blank(rule.field(y))
    ensures NoDuplicates(findings) && Elements(findings) == S
    ensures NoDuplicates(findings') && Elements(findings') == S
    ensures !SameTexts(rule, findings, findings')
  {
    hide IsRule, IsSummary, Component, MergeAll, OnlyComponents, EveryComponent, NoDuplicates, Apart, Elements;
    InSet(S, x, y);
    var before := Listed(S - {x});
    var before' := Listed(S - {y});
    findings := LastListed(before, x);
    findings' := LastListed(before', y);
    assert S - {x} + {x} == S && S - {y} + {y} == S;
    OwnComponent(S, x);
    var m := LastWins(rule, S, x, x, before);
    var m' := LastWins(rule, S, x, y, before');
    SummaryUnique(m, m', Component(S, x));
    MergeAllIsMerge(findings');
    if SameTexts(rule, findings, findings') {
      assert (ViewOf(m), rule.field(m)) in Texts(rule, MergeAll(findings));
      var n :| n in MergeAll(findings') && ViewOf(n) == ViewOf(m) && rule.field(n) == rule.field(m);
      OneView(MergeAll(findings'), n, m');
      assert false;
    }
  }

  /** All orders of the findings give the same texts, each of them occurring once or more often. */
  ghost predicate OrderFree<T(!new)>(rule: Rule<T>, S: set<Finding>) {
    forall findings, findings' :: Elements(findings) == S && Elements(findings') == S ==>
      SameTexts(rule, findings, findings')
  }

  ghost predicate PermutationFree<T(!new)>(rule: Rule<T>, S: set<Finding>) {
    forall findings, findings' :: Elements(findings) == S && Elements(findings') == S
                                  && NoDuplicates(findings) && NoDuplicates(findings') ==>
      SameTexts(rule, findings, findings')
  }

  /** A text does not depend on the order exactly when, within each component, all findings that
      have one have the same. */
  lemma OrderFreeIffAgree<T(!new)>(rule: Rule<T>, S: set<Finding>)
    requires IsRule(rule)
    ensures OrderFree(rule, S) <==> Agree(rule, S)
    ensures PermutationFree(rule, S) <==> Agree(rule, S)
  {
    hide IsRule, SameTexts, Comparable, NoDuplicates, Elements;
    if Agree(rule, S) {
      forall findings, findings' | Elements(findings) == S && Elements(findings') == S
        ensures SameTexts(rule, findings, findings')
      {
        AgreeingTexts(rule, findings, findings');
      }
    } else {
      var x, y :| Comparable(rule, S, x, y) && !rule.blank(rule.field(x)) && !rule.blank(rule.field(y))
                  && rule.field(x) != rule.field(y);
      var findings, findings' := DisagreeingTexts(rule, S, x, y);
    }
  }

  // ---------- The texts there are ----------

  const SUMMARY: Rule<string> := Rule((m: Finding) => m.summary, (t: string) => t == "", false, "")
  const AFFECTED: Rule<string> := Rule((m: Finding) => m.affected, (t: string) => t == "", false, "")
  const FIXED: Rule<seq<string>> := Rule((m: Finding) => m.fixed, (t: seq<string>) => t == [], false, [])
  const COMPONENT: Rule<string> := Rule((m: Finding) => m.component, (t: string) => false, false, "")
  const VERSION: Rule<Option<string>> := Rule((m: Finding) => m.version, (t: Option<string>) => false, false, None)
  const SUPPRESSED: Rule<Option<string>> :=
    Rule((m: Finding) => m.suppressed, (t: Option<string>) => false, false, None)
  const UNCONFIRMED: Rule<Option<string>> :=
    Rule((m: Finding) => m.unconfirmed, (t: Option<string>) => false, true, None)

  lemma {:induction false} FirstOfTexts<T>(texts: seq<seq<T>>)
    requires texts != []
    ensures FirstNonEmpty(texts) in texts
    ensures texts[0] != [] ==> FirstNonEmpty(texts) == texts[0]
    ensures FirstNonEmpty(texts) == [] ==> forall t :: t in texts ==> t == []
  {
    if |texts| > 1 && texts[0] == [] {
      FirstOfTexts(texts[1..]);
      assert texts == [texts[0]] + texts[1..];
    }
  }

  /** A text taken from the first of a group that has one. */
  lemma FirstFollows<T(!new)>(rule: Rule<seq<T>>, f: Finding, same: seq<Finding>)
    requires !rule.ifUnconfirmed && forall t :: rule.blank(t) <==> t == []
    requires var group := [f] + same;
             rule.field(Combine(f, same))
             == FirstNonEmpty(seq(|group|, i requires 0 <= i < |group| => rule.field(group[i])))
    ensures Follows(rule, f, same)
  {
    hide Combine;
    var group := [f] + same;
    var texts := seq(|group|, i requires 0 <= i < |group| => rule.field(group[i]));
    FirstOfTexts(texts);
    var k :| 0 <= k < |texts| && texts[k] == FirstNonEmpty(texts);
    assert group[k] in group && rule.field(group[k]) == rule.field(Combine(f, same));
    forall g | g in group && rule.blank(rule.field(Combine(f, same))) ensures rule.blank(rule.field(g)) {
      var j :| 0 <= j < |group| && group[j] == g;
      assert texts[j] in texts;
    }
  }

  /** A text taken from the last finding, or erased. */
  lemma LastFollows<T(!new)>(rule: Rule<T>, f: Finding, same: seq<Finding>)
    requires forall t :: !rule.blank(t)
    requires rule.field(Combine(f, same)) == if rule.Erases(Combine(f, same)) then rule.erased else rule.field(f)
    ensures Follows(rule, f, same)
  {
    hide Combine;
    assert f in [f] + same;
  }

  lemma CombinedTexts(f: Finding, same: seq<Finding>)
    ensures var m, group := Combine(f, same), [f] + same;
            && m.summary == FirstNonEmpty(seq(|group|, i requires 0 <= i < |group| => SUMMARY.field(group[i])))
            && m.affected == FirstNonEmpty(seq(|group|, i requires 0 <= i < |group| => AFFECTED.field(group[i])))
            && m.fixed == FirstNonEmpty(seq(|group|, i requires 0 <= i < |group| => FIXED.field(group[i])))
            && m.component == f.component && m.version == f.version && m.suppressed == f.suppressed
            && m.unconfirmed == if m.Confirmed() then None else f.unconfirmed
  {
    hide BestId, WorstSeverity, BestScore, AllNames, AllSources;
    var m, group := Combine(f, same), [f] + same;
    assert m.summary == FirstNonEmpty(seq(|group|, i requires 0 <= i < |group| => group[i].summary));
    assert seq(|group|, i requires 0 <= i < |group| => group[i].summary)
        == seq(|group|, i requires 0 <= i < |group| => SUMMARY.field(group[i]));
    assert seq(|group|, i requires 0 <= i < |group| => group[i].affected)
        == seq(|group|, i requires 0 <= i < |group| => AFFECTED.field(group[i]));
    assert seq(|group|, i requires 0 <= i < |group| => group[i].fixed)
        == seq(|group|, i requires 0 <= i < |group| => FIXED.field(group[i]));
    CombineNames(f, same);
    assert f in group;
  }

  lemma AllAreRules()
    ensures IsRule(SUMMARY) && IsRule(AFFECTED) && IsRule(FIXED)
    ensures IsRule(COMPONENT) && IsRule(VERSION) && IsRule(SUPPRESSED) && IsRule(UNCONFIRMED)
  {
    forall f, same
      ensures Follows(SUMMARY, f, same) && Follows(AFFECTED, f, same) && Follows(FIXED, f, same)
      ensures Follows(COMPONENT, f, same) && Follows(VERSION, f, same) && Follows(SUPPRESSED, f, same)
      ensures Follows(UNCONFIRMED, f, same)
    {
      hide Follows, Combine, FirstNonEmpty;
      CombinedTexts(f, same);
      FirstFollows(SUMMARY, f, same);
      FirstFollows(AFFECTED, f, same);
      FirstFollows(FIXED, f, same);
      LastFollows(COMPONENT, f, same);
      LastFollows(VERSION, f, same);
      LastFollows(SUPPRESSED, f, same);
      LastFollows(UNCONFIRMED, f, same);
    }
  }

  /** For any findings: whether their order matters to each text of what they are merged into. */
  lemma TextsIgnoreOrderIff(S: set<Finding>)
    ensures OrderFree(SUMMARY, S) <==> Agree(SUMMARY, S)
    ensures OrderFree(AFFECTED, S) <==> Agree(AFFECTED, S)
    ensures OrderFree(FIXED, S) <==> Agree(FIXED, S)
    ensures OrderFree(COMPONENT, S) <==> Agree(COMPONENT, S)
    ensures OrderFree(VERSION, S) <==> Agree(VERSION, S)
    ensures OrderFree(SUPPRESSED, S) <==> Agree(SUPPRESSED, S)
    ensures OrderFree(UNCONFIRMED, S) <==> Agree(UNCONFIRMED, S)
  {
    hide OrderFree, Agree, IsRule, PermutationFree;
    AllAreRules();
    OrderFreeIffAgree(SUMMARY, S);
    OrderFreeIffAgree(AFFECTED, S);
    OrderFreeIffAgree(FIXED, S);
    OrderFreeIffAgree(COMPONENT, S);
    OrderFreeIffAgree(VERSION, S);
    OrderFreeIffAgree(SUPPRESSED, S);
    OrderFreeIffAgree(UNCONFIRMED, S);
  }
}
