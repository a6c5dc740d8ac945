/** `merge_findings` computes connected components, whatever the order and however often. */
module FindingMergeLaws {
  import opened Options
  import opened Texts
  import opened FindingMerge

  // ---------- Chains of links ----------

  lemma LinkedReflexive(x: Finding)
    ensures Linked(x, x)
  {
    assert x.id in x.Names() * x.Names();
  }

  lemma ConnectedReflexive(S: set<Finding>, x: Finding)
    requires x in S
    ensures Connected(S, x, x)
  {
    assert IsChain(S, [x], x, x);
  }

  lemma ConnectedStep(S: set<Finding>, x: Finding, y: Finding, z: Finding)
    requires Connected(S, x, y) && z in S && Linked(y, z)
    ensures Connected(S, x, z)
  {
    var p :| IsChain(S, p, x, y);
    assert IsChain(S, p + [z], x, z);
  }

  lemma LinkedConnected(S: set<Finding>, x: Finding, y: Finding)
    requires x in S && y in S && Linked(x, y)
    ensures Connected(S, x, y)
  {
    ConnectedReflexive(S, x);
    ConnectedStep(S, x, x, y);
  }

  lemma {:induction false} ConnectedTransitive(S: set<Finding>, x: Finding, y: Finding, z: Finding)
    requires Connected(S, x, y) && Connected(S, y, z)
    ensures Connected(S, x, z)
  {
    var p :| IsChain(S, p, x, y);
    var q :| IsChain(S, q, y, z);
    var r := p + q[1..];
    assert q == [y] + q[1..];
    forall i | 0 <= i < |r| - 1 ensures Linked(r[i], r[i + 1]) {
      if i >= |p| - 1 { assert r[i] == q[i - (|p| - 1)] && r[i + 1] == q[i - (|p| - 1) + 1]; }
    }
    assert r[|r| - 1] == z by { if |q| == 1 { assert r == p; } }
    assert IsChain(S, r, x, z);
  }

  lemma ConnectedSymmetric(S: set<Finding>, x: Finding, y: Finding)
    requires Connected(S, x, y)
    ensures Connected(S, y, x)
  {
    var p :| IsChain(S, p, x, y);
    var r := seq(|p|, i requires 0 <= i < |p| => p[|p| - 1 - i]);
    forall i | 0 <= i < |r| - 1 ensures Linked(r[i], r[i + 1]) {
      assert Linked(p[|p| - 2 - i], p[|p| - 2 - i + 1]);
      assert r[i].Names() * r[i + 1].Names() == r[i + 1].Names() * r[i].Names();
    }
    assert IsChain(S, r, y, x);
  }

  lemma ConnectedMonotone(S: set<Finding>, S': set<Finding>, x: Finding, y: Finding)
    requires S <= S' && Connected(S, x, y)
    ensures Connected(S', x, y)
  {
    var p :| IsChain(S, p, x, y);
    assert IsChain(S', p, x, y);
  }

  ghost predicate Closed(S: set<Finding>, D: set<Finding>) {
    forall y, w :: y in D && w in S && Linked(y, w) ==> w in D
  }

  /** A component is the least closed set around any of its members. */
  lemma {:induction false} ChainStaysInside(S: set<Finding>, D: set<Finding>, p: seq<Finding>, x: Finding, y: Finding)
    requires Closed(S, D) && x in D && IsChain(S, p, x, y)
    ensures y in D
    decreases |p|
  {
    if |p| > 1 {
      var q := p[..|p| - 1];
      assert IsChain(S, q, x, p[|p| - 2]) by {
        forall i | 0 <= i < |q| - 1 ensures Linked(q[i], q[i + 1]) { assert Linked(p[i], p[i + 1]); }
      }
      ChainStaysInside(S, D, q, x, p[|p| - 2]);
      assert Linked(p[|p| - 2], p[|p| - 2 + 1]);
    }
  }

  lemma ComponentInClosed(S: set<Finding>, D: set<Finding>, x: Finding)
    requires Closed(S, D) && x in D
    ensures Component(S, x) <= D
  {
    forall y | y in Component(S, x) ensures y in D {
      var p :| IsChain(S, p, x, y);
      ChainStaysInside(S, D, p, x, y);
    }
  }

  // ---------- Summaries ----------

  lemma SummaryOfOne(f: Finding)
    ensures IsSummary(f, {f})
  {
    TextLeqReflexive(f.id);
  }

  /** The findings of `G` together stand for `K`, each for its block. */
  ghost predicate Covers(G: set<Finding>, blocks: map<Finding, set<Finding>>, K: set<Finding>) {
    && G <= blocks.Keys
    && (forall g :: g in G ==> blocks[g] <= K && IsSummary(g, blocks[g]))
    && (forall y :: y in K ==> exists g :: g in G && y in blocks[g])
  }

  /** A summary of summaries summarises everything they stand for. */
  lemma SummaryOfSummaries(m: Finding, G: set<Finding>, blocks: map<Finding, set<Finding>>, K: set<Finding>)
    requires IsSummary(m, G) && Covers(G, blocks, K)
    ensures IsSummary(m, K)
  {
    hide SameRef, HasTheNames, HasTheBestId, HasTheWorstSeverity, HasTheHighestScore, HasTheSources, ConfirmedIfAnyIs;
    RefOfAll(m, G, blocks, K);
    NamesOfAll(m, G, blocks, K);
    BestIdOfAll(m, G, blocks, K);
    WorstSeverityOfAll(m, G, blocks, K);
    HighestScoreOfAll(m, G, blocks, K);
    SourcesOfAll(m, G, blocks, K);
    ConfirmedOfAll(m, G, blocks, K);
  }

  lemma RefOfAll(m: Finding, G: set<Finding>, blocks: map<Finding, set<Finding>>, K: set<Finding>)
    requires SameRef(m, G) && Covers(G, blocks, K)
    ensures SameRef(m, K)
  {
    hide HasTheNames, HasTheBestId, HasTheWorstSeverity, HasTheHighestScore, HasTheSources, ConfirmedIfAnyIs;
    forall y | y in K ensures y.ref == m.ref {
      var g :| g in G && y in blocks[g];
      assert IsSummary(g, blocks[g]);
    }
  }

  lemma NamesOfAll(m: Finding, G: set<Finding>, blocks: map<Finding, set<Finding>>, K: set<Finding>)
    requires HasTheNames(m, G) && Covers(G, blocks, K)
    ensures HasTheNames(m, K)
  {
    hide SameRef, HasTheBestId, HasTheWorstSeverity, HasTheHighestScore, HasTheSources, ConfirmedIfAnyIs;
    forall n ensures n in m.Names() <==> exists y :: y in K && n in y.Names() {
      if n in m.Names() {
        var g :| g in G && n in g.Names();
        assert IsSummary(g, blocks[g]);
        var y :| y in blocks[g] && n in y.Names();
        assert y in K;
      }
      if y :| y in K && n in y.Names() {
        var g :| g in G && y in blocks[g];
        assert IsSummary(g, blocks[g]);
        assert n in g.Names();
      }
    }
  }

  lemma BoundsMember(g: Finding, C: set<Finding>, y: Finding)
    requires IsSummary(g, C) && y in C
    ensures IdLeq(g.id, y.id) && g.severity.Rank() <= y.severity.Rank()
  {
  }

  lemma BestIdOfAll(m: Finding, G: set<Finding>, blocks: map<Finding, set<Finding>>, K: set<Finding>)
    requires HasTheBestId(m, G) && Covers(G, blocks, K)
    ensures HasTheBestId(m, K)
  {
    hide IdLeq, IsSummary;
    var g :| g in G && g.id == m.id;
    var y := WithTheBestId(g, blocks[g]);
    assert y in K;
    forall y | y in K ensures IdLeq(m.id, y.id) {
      var g :| g in G && y in blocks[g];
      BoundsMember(g, blocks[g], y);
      IdLeqTransitive(m.id, g.id, y.id);
    }
  }

  lemma WithTheBestId(m: Finding, C: set<Finding>) returns (y: Finding)
    requires IsSummary(m, C)
    ensures y in C && y.id == m.id
  {
    y :| y in C && y.id == m.id;
  }

  lemma WorstSeverityOfAll(m: Finding, G: set<Finding>, blocks: map<Finding, set<Finding>>, K: set<Finding>)
    requires HasTheWorstSeverity(m, G) && Covers(G, blocks, K)
    ensures HasTheWorstSeverity(m, K)
  {
    hide Severity.Rank, IsSummary;
    var g :| g in G && g.severity == m.severity;
    var y := WithTheWorstSeverity(g, blocks[g]);
    assert y in K;
    forall y | y in K ensures m.severity.Rank() <= y.severity.Rank() {
      var g :| g in G && y in blocks[g];
      BoundsMember(g, blocks[g], y);
    }
  }

  lemma WithTheWorstSeverity(m: Finding, C: set<Finding>) returns (y: Finding)
    requires IsSummary(m, C)
    ensures y in C && y.severity == m.severity
  {
    y :| y in C && y.severity == m.severity;
  }

  lemma HighestScoreOfAll(m: Finding, G: set<Finding>, blocks: map<Finding, set<Finding>>, K: set<Finding>)
    requires HasTheHighestScore(m, G) && Covers(G, blocks, K)
    ensures HasTheHighestScore(m, K)
  {
    hide IsSummary;
    forall y | y in K && y.score.Some? ensures m.score.Some? && y.score.value <= m.score.value {
      var g :| g in G && y in blocks[g];
      ScoresMember(g, blocks[g], y);
    }
    if m.score.Some? {
      var g :| g in G && g.score == m.score;
      var y := WithTheHighestScore(g, blocks[g]);
      assert y in K;
    }
  }

  lemma ScoresMember(g: Finding, C: set<Finding>, y: Finding)
    requires IsSummary(g, C) && y in C && y.score.Some?
    ensures g.score.Some? && y.score.value <= g.score.value
  {
  }

  lemma WithTheHighestScore(m: Finding, C: set<Finding>) returns (y: Finding)
    requires IsSummary(m, C) && m.score.Some?
    ensures y in C && y.score == m.score
  {
    y :| y in C && y.score == m.score;
  }

  lemma SourcesOfAll(m: Finding, G: set<Finding>, blocks: map<Finding, set<Finding>>, K: set<Finding>)
    requires HasTheSources(m, G) && Covers(G, blocks, K)
    ensures HasTheSources(m, K)
  {
    hide SameRef, HasTheNames, HasTheBestId, HasTheWorstSeverity, HasTheHighestScore, ConfirmedIfAnyIs;
    forall n ensures n in m.sources <==> exists y :: y in K && n in y.sources {
      if n in m.sources {
        var g :| g in G && n in g.sources;
        assert IsSummary(g, blocks[g]);
        var y :| y in blocks[g] && n in y.sources;
        assert y in K;
      }
      if y :| y in K && n in y.sources {
        var g :| g in G && y in blocks[g];
        assert IsSummary(g, blocks[g]);
        assert n in g.sources;
      }
    }
  }

  lemma ConfirmedOfAll(m: Finding, G: set<Finding>, blocks: map<Finding, set<Finding>>, K: set<Finding>)
    requires ConfirmedIfAnyIs(m, G) && Covers(G, blocks, K)
    ensures ConfirmedIfAnyIs(m, K)
  {
    hide SameRef, HasTheNames, HasTheBestId, HasTheWorstSeverity, HasTheHighestScore, HasTheSources;
    if g :| g in G && g.Confirmed() {
      assert IsSummary(g, blocks[g]);
      var y :| y in blocks[g] && y.Confirmed();
      assert y in K;
    }
    if y :| y in K && y.Confirmed() {
      var g :| g in G && y in blocks[g];
      assert IsSummary(g, blocks[g]);
      assert g.Confirmed();
    }
  }

  /** All of a finding that does not depend on the order its sources are read in. */
  datatype View = View(ref: string, id: string, names: set<string>, severity: Severity, score: Option<real>,
                       sources: set<string>, confirmed: bool)

  function ViewOf(m: Finding): View {
    View(m.ref, m.id, m.Names(), m.severity, m.score, m.sources, m.Confirmed())
  }

  lemma SummaryUnique(m: Finding, m': Finding, C: set<Finding>)
    requires IsSummary(m, C) && IsSummary(m', C)
    ensures ViewOf(m) == ViewOf(m')
  {
    IdLeqAntisymmetric(m.id, m'.id);
    assert m.Names() == m'.Names();
    assert m.sources == m'.sources;
    assert m.severity == m'.severity;
  }

  /** Two merges of the same findings are the same, but for the texts taken from the first
      source that has one. */
  lemma MergeUnique(out: seq<Finding>, out': seq<Finding>, S: set<Finding>)
    requires IsMerge(out, S) && IsMerge(out', S)
    ensures (set m | m in out :: ViewOf(m)) == (set m | m in out' :: ViewOf(m))
  {
    MergeViewsIncluded(out, out', S);
    MergeViewsIncluded(out', out, S);
  }

  lemma MergeViewsIncluded(out: seq<Finding>, out': seq<Finding>, S: set<Finding>)
    requires OnlyComponents(out, S) && EveryComponent(out', S)
    ensures (set m | m in out :: ViewOf(m)) <= (set m | m in out' :: ViewOf(m))
  {
    hide *;
    forall m | m in out ensures exists m' :: m' in out' && ViewOf(m') == ViewOf(m) {
      var x := SummarisedHere(m, out, S);
      var m' := SummaryHere(x, out', S);
      SummaryUnique(m, m', Component(S, x));
    }
  }

  lemma SummarisedHere(m: Finding, out: seq<Finding>, S: set<Finding>) returns (x: Finding)
    requires OnlyComponents(out, S) && m in out
    ensures x in S && IsSummary(m, Component(S, x))
  {
    hide IsSummary;
    x :| x in S && IsSummary(m, Component(S, x));
  }

  lemma SummaryHere(x: Finding, out: seq<Finding>, S: set<Finding>) returns (m: Finding)
    requires EveryComponent(out, S) && x in S
    ensures m in out && IsSummary(m, Component(S, x))
  {
    hide IsSummary;
    m :| m in out && IsSummary(m, Component(S, x));
  }

  // ---------- Merging in stages ----------

  /** Every member of `T` stands for a connected block of `S`, and the blocks cover `S`. */
  ghost predicate StandsFor(T: set<Finding>, blocks: map<Finding, set<Finding>>, S: set<Finding>) {
    && blocks.Keys == T
    && (forall t :: t in T ==> blocks[t] <= S && IsSummary(t, blocks[t]))
    && (forall t, x, y :: t in T && x in blocks[t] && y in blocks[t] ==> Connected(S, x, y))
    && (forall x :: x in S ==> exists t :: t in T && x in blocks[t])
  }

  lemma LinkGoesDown(m: Finding, m': Finding, C: set<Finding>, C': set<Finding>)
    requires IsSummary(m, C) && IsSummary(m', C') && Linked(m, m')
    ensures exists y, w :: y in C && w in C' && Linked(y, w)
  {
    hide HasTheBestId, HasTheWorstSeverity, HasTheHighestScore, HasTheSources, ConfirmedIfAnyIs;
    var n :| n in m.Names() * m'.Names();
    var y :| y in C && n in y.Names();
    var w :| w in C' && n in w.Names();
    assert n in y.Names() * w.Names();
  }

  lemma LinkGoesUp(m: Finding, m': Finding, C: set<Finding>, C': set<Finding>, y: Finding, w: Finding)
    requires IsSummary(m, C) && IsSummary(m', C') && y in C && w in C' && Linked(y, w)
    ensures Linked(m, m')
  {
    hide HasTheBestId, HasTheWorstSeverity, HasTheHighestScore, HasTheSources, ConfirmedIfAnyIs;
    var n :| n in y.Names() * w.Names();
    assert n in m.Names() * m'.Names();
  }

  /** The component of a stand-in, spelled out, is the component of whatever it stands for. */
  lemma ComponentSpelledOut(T: set<Finding>, blocks: map<Finding, set<Finding>>, S: set<Finding>, t: Finding,
                            x: Finding)
    requires StandsFor(T, blocks, S) && t in T && x in blocks[t]
    ensures Covers(Component(T, t), blocks, Component(S, x))
  {
    hide IsSummary;
    forall u | u in Component(T, t) ensures blocks[u] <= Component(S, x) {
      var p :| IsChain(T, p, t, u);
      BlocksAlongChain(T, blocks, S, p, t, u, x);
    }
    var D := set y | y in S && exists u :: u in Component(T, t) && y in blocks[u];
    forall y, w | y in D && w in S && Linked(y, w) ensures w in D {
      var u :| u in Component(T, t) && y in blocks[u];
      var v :| v in T && w in blocks[v];
      LinkGoesUp(u, v, blocks[u], blocks[v], y, w);
      ConnectedStep(T, t, u, v);
      assert v in Component(T, t);
    }
    ConnectedReflexive(T, t);
    assert t in Component(T, t);
    ComponentInClosed(S, D, x);
  }

  lemma {:induction false} BlocksAlongChain(T: set<Finding>, blocks: map<Finding, set<Finding>>, S: set<Finding>,
                                            p: seq<Finding>, t: Finding, u: Finding, x: Finding)
    requires StandsFor(T, blocks, S) && IsChain(T, p, t, u) && x in blocks[t]
    ensures blocks[u] <= Component(S, x)
    decreases |p|
  {
    hide IsSummary;
    if |p| == 1 {
    } else {
      var q, v := p[..|p| - 1], p[|p| - 2];
      assert IsChain(T, q, t, v) by {
        forall i | 0 <= i < |q| - 1 ensures Linked(q[i], q[i + 1]) { assert Linked(p[i], p[i + 1]); }
      }
      BlocksAlongChain(T, blocks, S, q, t, v, x);
      assert Linked(p[|p| - 2], p[|p| - 2 + 1]);
      LinkGoesDown(v, u, blocks[v], blocks[u]);
      var y, w :| y in blocks[v] && w in blocks[u] && Linked(y, w);
      ConnectedStep(S, x, y, w);
      forall z | z in blocks[u] ensures Connected(S, x, z) { ConnectedTransitive(S, x, w, z); }
    }
  }

  /** Merging stand-ins merges what they stand for. */
  lemma MergeInStages(out: seq<Finding>, T: set<Finding>, blocks: map<Finding, set<Finding>>, S: set<Finding>)
    requires IsMerge(out, T) && StandsFor(T, blocks, S)
    ensures IsMerge(out, S)
  {
    hide IsSummary, OnlyComponents, EveryComponent, Component, StandsFor, Apart;
    assert OnlyComponents(out, S) by { OnlyComponentsInStages(out, T, blocks, S); }
    assert EveryComponent(out, S) by { EveryComponentInStages(out, T, blocks, S); }
  }

  lemma OnlyComponentsInStages(out: seq<Finding>, T: set<Finding>, blocks: map<Finding, set<Finding>>, S: set<Finding>)
    requires OnlyComponents(out, T) && StandsFor(T, blocks, S)
    ensures OnlyComponents(out, S)
  {
    hide IsSummary, Component;
    forall m | m in out ensures IsComponentSummary(m, S) {
      var t := SummarisedHere(m, out, T);
      var x := WithTheBestId(t, blocks[t]);
      ComponentSpelledOut(T, blocks, S, t, x);
      SummaryOfSummaries(m, Component(T, t), blocks, Component(S, x));
      assert x in S;
    }
  }

  lemma EveryComponentInStages(out: seq<Finding>, T: set<Finding>, blocks: map<Finding, set<Finding>>, S: set<Finding>)
    requires EveryComponent(out, T) && StandsFor(T, blocks, S)
    ensures EveryComponent(out, S)
  {
    hide IsSummary, Component;
    forall x | x in S ensures exists m :: m in out && IsSummary(m, Component(S, x)) {
      var t :| t in T && x in blocks[t];
      var m := SummaryHere(t, out, T);
      ComponentSpelledOut(T, blocks, S, t, x);
      SummaryOfSummaries(m, Component(T, t), blocks, Component(S, x));
    }
  }

  /** A merged list stands for the findings it was made of. */
  lemma MergedStandsFor(out: seq<Finding>, S: set<Finding>) returns (blocks: map<Finding, set<Finding>>)
    requires IsMerge(out, S)
    ensures StandsFor(Elements(out), blocks, S)
  {
    hide IsSummary, Apart, EveryComponent, Component, Connected, IsComponentSummary, BlockOf;
    blocks := map m | m in out :: BlockOf(m, S);
    forall x | x in S ensures exists t :: t in Elements(out) && x in blocks[t] {
      var m := SummaryHere(x, out, S);
      var x' := BlockIsComponent(m, S);
      SameSummarySameComponent(m, S, x, x');
      assert m in Elements(out) && x in blocks[m];
    }
    forall t, x, y | t in Elements(out) && x in blocks[t] && y in blocks[t] ensures Connected(S, x, y) {
      var z := BlockIsComponent(t, S);
      TwoOfAComponent(S, z, x, y);
    }
    forall t | t in Elements(out) ensures blocks[t] <= S && IsSummary(t, blocks[t]) {
      var z := BlockIsComponent(t, S);
    }
  }

  ghost function BlockOf(m: Finding, S: set<Finding>): set<Finding>
    requires IsComponentSummary(m, S)
  {
    var x :| x in S && IsSummary(m, Component(S, x));
    Component(S, x)
  }

  lemma BlockIsComponent(m: Finding, S: set<Finding>) returns (x: Finding)
    requires IsComponentSummary(m, S)
    ensures x in S && BlockOf(m, S) == Component(S, x) <= S && IsSummary(m, BlockOf(m, S))
  {
    hide IsSummary;
    x :| x in S && IsSummary(m, Component(S, x)) && BlockOf(m, S) == Component(S, x);
  }

  lemma TwoOfAComponent(S: set<Finding>, z: Finding, x: Finding, y: Finding)
    requires x in Component(S, z) && y in Component(S, z)
    ensures Connected(S, x, y)
  {
    ConnectedSymmetric(S, z, x);
    ConnectedTransitive(S, x, z, y);
  }

  lemma SameSummarySameComponent(m: Finding, S: set<Finding>, x: Finding, x': Finding)
    requires x in S && x' in S && IsSummary(m, Component(S, x)) && IsSummary(m, Component(S, x'))
    ensures x in Component(S, x')
  {
    LinkedReflexive(m);
    LinkGoesDown(m, m, Component(S, x'), Component(S, x));
    var y, w :| y in Component(S, x') && w in Component(S, x) && Linked(y, w);
    ConnectedStep(S, x', y, w);
    ConnectedSymmetric(S, x, w);
    ConnectedTransitive(S, x', w, x);
  }

  /** Two lists of stand-ins together stand for what each stands for. */
  lemma StandsForUnion(T: set<Finding>, b: map<Finding, set<Finding>>, S: set<Finding>,
                       T': set<Finding>, b': map<Finding, set<Finding>>, S': set<Finding>)
      returns (both: map<Finding, set<Finding>>)
    requires StandsFor(T, b, S) && StandsFor(T', b', S')
    ensures StandsFor(T + T', both, S + S')
  {
    hide IsSummary, Connected;
    both := map t | t in T + T' :: (if t in T then b[t] else {}) + (if t in T' then b'[t] else {});
    forall t | t in T + T' ensures both[t] <= S + S' && IsSummary(t, both[t]) {
      if t in T && t in T' { SummaryOfUnion(t, b[t], b'[t]); }
      assert t !in T ==> both[t] == b'[t];
      assert t !in T' ==> both[t] == b[t];
    }
    forall t, x, y | t in T + T' && x in both[t] && y in both[t] ensures Connected(S + S', x, y) {
      BlocksConnected(t, if t in T then b[t] else {}, if t in T' then b'[t] else {}, S, S', x, y);
    }
    forall x | x in S + S' ensures exists t :: t in T + T' && x in both[t] {
      if x in S {
        var t :| t in T && x in b[t];
        assert x in both[t];
      } else {
        var t :| t in T' && x in b'[t];
        assert x in both[t];
      }
    }
  }

  lemma SummaryOfUnion(m: Finding, C: set<Finding>, C': set<Finding>)
    requires IsSummary(m, C) && IsSummary(m, C')
    ensures IsSummary(m, C + C')
  {
    hide IdLeq, Severity.Rank;
  }

  lemma BlocksConnected(t: Finding, C: set<Finding>, C': set<Finding>, S: set<Finding>, S': set<Finding>,
                        x: Finding, y: Finding)
    requires C <= S && C' <= S' && x in C + C' && y in C + C'
    requires (C != {} ==> IsSummary(t, C)) && (C' != {} ==> IsSummary(t, C'))
    requires forall u, v :: u in C && v in C ==> Connected(S, u, v)
    requires forall u, v :: u in C' && v in C' ==> Connected(S', u, v)
    ensures Connected(S + S', x, y)
  {
    hide IsSummary, Connected;
    if x in C && y in C {
      ConnectedMonotone(S, S + S', x, y);
    } else if x in C' && y in C' {
      ConnectedMonotone(S', S + S', x, y);
    } else if x in C {
      AcrossBlocks(t, C, C', S, S', x, y);
    } else {
      AcrossBlocks(t, C', C, S', S, x, y);
      assert S' + S == S + S';
    }
  }

  /** Two blocks with one summary share a name, and so a link. */
  lemma AcrossBlocks(t: Finding, C: set<Finding>, C': set<Finding>, S: set<Finding>, S': set<Finding>,
                     x: Finding, y: Finding)
    requires IsSummary(t, C) && IsSummary(t, C') && C <= S && C' <= S' && x in C && y in C'
    requires forall u, v :: u in C && v in C ==> Connected(S, u, v)
    requires forall u, v :: u in C' && v in C' ==> Connected(S', u, v)
    ensures Connected(S + S', x, y)
  {
    hide IsSummary, Connected;
    LinkedReflexive(t);
    LinkGoesDown(t, t, C, C');
    var u, v :| u in C && v in C' && Linked(u, v);
    ConnectedMonotone(S, S + S', x, u);
    ConnectedMonotone(S', S + S', v, y);
    ConnectedStep(S + S', x, u, v);
    ConnectedTransitive(S + S', x, v, y);
  }

  lemma SelfStandsFor(T: set<Finding>) returns (self: map<Finding, set<Finding>>)
    ensures StandsFor(T, self, T)
  {
    hide IsSummary, Connected;
    self := map t | t in T :: {t};
    forall t | t in T ensures IsSummary(t, {t}) { SummaryOfOne(t); }
    forall t | t in T ensures Connected(T, t, t) { ConnectedReflexive(T, t); }
  }

  // ---------- One step of the code ----------

  lemma CombineSummarises(f: Finding, same: seq<Finding>)
    requires forall m :: m in same ==> m.ref == f.ref
    ensures IsSummary(Combine(f, same), {f} + Elements(same))
  {
    hide IdLeq, Severity.Rank, Finding.Names, Finding.Confirmed, BestId, WorstSeverity, BestScore, AllNames, AllSources,
      FirstNonEmpty;
    var group, m := [f] + same, Combine(f, same);
    forall g ensures g in group <==> g in {f} + Elements(same) {}
    CombineNames(f, same);
    assert SameRef(m, {f} + Elements(same));
  }

  lemma CombineNames(f: Finding, same: seq<Finding>)
    ensures Combine(f, same).Names() == AllNames([f] + same) && Combine(f, same).ref == f.ref
    ensures Combine(f, same).Confirmed() <==> exists g :: g in [f] + same && g.Confirmed()
  {
    var group := [f] + same;
    var g :| g in group && g.id == BestId(group);
    assert g.id in g.Names();
    if !exists g :: g in group && g.Confirmed() { assert f in group; }
  }

  lemma StepIsMerge(merged: seq<Finding>, f: Finding)
    requires Apart(merged)
    ensures IsMerge(MergeStep(merged, f), Elements(merged) + {f})
  {
    hide IsSummary, Combine;
    var T, same := Elements(merged) + {f}, LinkedTo(merged, f);
    var G, out := {f} + Elements(same), MergeStep(merged, f);
    var c := Combine(f, same);
    LinkedReflexive(f);
    StepComponents(merged, f);
    CombineSummarises(f, same);
    forall m | m in out ensures IsComponentSummary(m, T) {
      if m != c { SummaryOfOne(m); assert IsSummary(m, Component(T, m)); }
      else { assert IsSummary(m, Component(T, f)); }
    }
    forall x | x in T ensures exists m :: m in out && IsSummary(m, Component(T, x)) {
      if x in G { assert c in out; } else { SummaryOfOne(x); assert x in out; }
    }
    StepApart(merged, f);
  }

  /** The new finding joins exactly the merged findings it shares a name with. */
  lemma StepComponents(merged: seq<Finding>, f: Finding)
    requires Apart(merged)
    ensures var T, G := Elements(merged) + {f}, {f} + Elements(LinkedTo(merged, f));
            && (forall x :: x in G ==> Component(T, x) == G)
            && (forall x :: x in T && x !in G ==> Component(T, x) == {x})
  {
    var T, G := Elements(merged) + {f}, {f} + Elements(LinkedTo(merged, f));
    LinkedReflexive(f);
    forall x, y | Linked(x, y) ensures Linked(y, x) { assert x.Names() * y.Names() == y.Names() * x.Names(); }
    forall x | x in T && x !in G ensures Component(T, x) == {x} {
      ComponentInClosed(T, {x}, x);
      ConnectedReflexive(T, x);
    }
    forall x | x in G ensures Component(T, x) == G {
      ComponentInClosed(T, G, x);
      forall y | y in G ensures Connected(T, x, y) {
        LinkedConnected(T, x, f);
        ConnectedStep(T, x, f, y);
      }
    }
  }

  lemma LinkedToAMember(m: Finding, f: Finding, same: seq<Finding>)
    requires Linked(m, Combine(f, same)) && forall g :: g in same ==> g.ref == f.ref
    ensures exists g :: g in [f] + same && Linked(m, g)
  {
    hide Combine, IdLeq;
    CombineNames(f, same);
    var n :| n in m.Names() * Combine(f, same).Names();
    var g :| g in [f] + same && n in g.Names();
    assert n in m.Names() * g.Names();
  }

  lemma StepApart(merged: seq<Finding>, f: Finding)
    requires Apart(merged)
    ensures Apart(MergeStep(merged, f))
  {
    hide Combine, IdLeq, AllNames;
    var same := LinkedTo(merged, f);
    var c, rest := Combine(f, same), Without(merged, Elements(same));
    CombineNames(f, same);
    forall m | m in rest ensures !Linked(m, c) && !Linked(c, m) {
      if Linked(m, c) { LinkedToAMember(m, f, same); }
      assert m.Names() * c.Names() == c.Names() * m.Names();
    }
    LinkedReflexive(c);
    assert c !in rest;
  }

  /** `merge_findings`: exactly one finding for each connected component of its input. */
  lemma {:induction false} MergeAllIsMerge(findings: seq<Finding>)
    ensures IsMerge(MergeAll(findings), Elements(findings))
  {
    hide IsSummary, OnlyComponents, EveryComponent, Apart, StandsFor, MergeStep;
    if findings == [] {
      assert MergeAll(findings) == [] && Elements(findings) == {};
      EmptyMerge();
    } else {
      var init, f := findings[..|findings| - 1], findings[|findings| - 1];
      MergeAllIsMerge(init);
      var merged, S := MergeAll(init), Elements(init);
      StepIsMerge(merged, f);
      var blocks := MergedStandsFor(merged, S);
      var self := SelfStandsFor({f});
      var both := StandsForUnion(Elements(merged), blocks, S, {f}, self, {f});
      MergeInStages(MergeStep(merged, f), Elements(merged) + {f}, both, S + {f});
      assert findings == init + [f];
      assert S + {f} == Elements(findings);
    }
  }

  lemma EmptyMerge()
    ensures IsMerge([], {})
  {
  }

  // ---------- Order, repetition, stages ----------

  function Views(out: seq<Finding>): set<View> { set m | m in out :: ViewOf(m) }

  /** The order and the repetition of the input do not matter. */
  lemma MergeIgnoresOrder(findings: seq<Finding>, findings': seq<Finding>)
    requires Elements(findings) == Elements(findings')
    ensures Views(MergeAll(findings)) == Views(MergeAll(findings'))
  {
    hide IsMerge, MergeAll;
    MergeAllIsMerge(findings);
    MergeAllIsMerge(findings');
    MergeUnique(MergeAll(findings), MergeAll(findings'), Elements(findings));
  }

  /** What `main` does, merging the sources it merged one by one before, is merging all that
      was found at once; merging a merged list changes nothing. */
  lemma MergePerSource(grype: seq<Finding>, osv: seq<Finding>, qt: seq<Finding>)
    ensures Views(MergeAll(MergeAll(grype) + MergeAll(osv) + qt)) == Views(MergeAll(grype + osv + qt))
    ensures Views(MergeAll(MergeAll(grype))) == Views(MergeAll(grype))
  {
    hide IsMerge, MergeAll, StandsFor;
    var g, o := MergeAll(grype), MergeAll(osv);
    MergeAllIsMerge(grype);
    MergeAllIsMerge(osv);
    var bg := MergedStandsFor(g, Elements(grype));
    var bo := MergedStandsFor(o, Elements(osv));
    var self := SelfStandsFor(Elements(qt));
    var b := StandsForUnion(Elements(g), bg, Elements(grype), Elements(o), bo, Elements(osv));
    var b' := StandsForUnion(Elements(g) + Elements(o), b, Elements(grype) + Elements(osv),
                             Elements(qt), self, Elements(qt));
    assert Elements(g) + Elements(o) + Elements(qt) == Elements(g + o + qt);
    assert Elements(grype) + Elements(osv) + Elements(qt) == Elements(grype + osv + qt);
    MergeAllIsMerge(g + o + qt);
    MergeInStages(MergeAll(g + o + qt), Elements(g + o + qt), b', Elements(grype + osv + qt));
    MergeAllIsMerge(grype + osv + qt);
    MergeUnique(MergeAll(g + o + qt), MergeAll(grype + osv + qt), Elements(grype + osv + qt));
    MergeAllIsMerge(g);
    MergeInStages(MergeAll(g), Elements(g), bg, Elements(grype));
    MergeUnique(MergeAll(g), g, Elements(grype));
  }

  /** One view for each finding: none is lost when the views are compared as sets. */
  lemma MergedViewsDiffer(findings: seq<Finding>, i: nat, j: nat)
    requires i < j < |MergeAll(findings)|
    ensures ViewOf(MergeAll(findings)[i]) != ViewOf(MergeAll(findings)[j])
  {
    hide OnlyComponents, EveryComponent, MergeAll;
    MergeAllIsMerge(findings);
    var out := MergeAll(findings);
    if ViewOf(out[i]) == ViewOf(out[j]) { SameViewLinked(out[i], out[j]); }
  }

  lemma SameViewLinked(m: Finding, m': Finding)
    requires ViewOf(m) == ViewOf(m')
    ensures Linked(m, m')
  {
    LinkedReflexive(m);
  }

  /** The texts do depend on the order: with two summaries given, the later finding's wins. */
  lemma SummaryTextDependsOnOrder(f: Finding, g: Finding)
    requires Linked(f, g) && f.summary != [] && g.summary != [] && f.summary != g.summary
    ensures MergeAll([f, g])[0].summary == g.summary
    ensures MergeAll([g, f])[0].summary == f.summary
  {
    assert g.Names() * f.Names() == f.Names() * g.Names();
    MergeTwo(f, g);
    MergeTwo(g, f);
  }

  lemma MergeTwo(f: Finding, g: Finding)
    requires Linked(f, g) && g.summary != []
    ensures |MergeAll([f, g])| == 1 && MergeAll([f, g])[0].summary == g.summary
  {
    hide Combine;
    var c := Combine(f, []);
    assert [f, g][..1] == [f] && [f][..0] == [];
    assert MergeAll([f]) == [c];
    CombineNames(f, []);
    assert [f] + [] == [f] && AllNames([f]) == f.Names();
    assert LinkedTo([c], g) == [c];
    assert Elements([c]) == {c} && Without([c], {c}) == [];
    assert MergeAll([f, g]) == [Combine(g, [c])];
    OwnSummary(g, [c]);
  }

  lemma OwnSummary(f: Finding, same: seq<Finding>)
    requires f.summary != []
    ensures Combine(f, same).summary == f.summary
  {
    var group := [f] + same;
    var texts := seq(|group|, i requires 0 <= i < |group| => group[i].summary);
    assert texts[0] == f.summary;
  }

  // ---------- The loops of the code ----------

  /** Python's list.remove. */
  function Remove(list: seq<Finding>, m: Finding): seq<Finding>
    requires m in list
  {
    if list[0] == m then list[1..] else [list[0]] + Remove(list[1..], m)
  }

  lemma {:induction false} RemoveIsWithout(list: seq<Finding>, gone: set<Finding>, m: Finding)
    requires NoDuplicates(list) && m in list && m !in gone
    ensures m in Without(list, gone)
    ensures Remove(Without(list, gone), m) == Without(list, gone + {m})
  {
    if list[0] == m {
      assert m !in list[1..];
      WithoutStranger(list[1..], gone, m);
    } else {
      RemoveIsWithout(list[1..], gone, m);
      var w := Without(list[1..], gone);
      if list[0] in gone {
        assert Without(list, gone) == w;
      } else {
        assert Without(list, gone) == [list[0]] + w && ([list[0]] + w)[1..] == w;
      }
    }
  }

  lemma {:induction false} WithoutStranger(list: seq<Finding>, gone: set<Finding>, m: Finding)
    requires m !in list
    ensures Without(list, gone) == Without(list, gone + {m})
  {
    if list != [] { WithoutStranger(list[1..], gone, m); }
  }

  lemma {:induction false} WithoutNothing(list: seq<Finding>)
    ensures Without(list, {}) == list
  {
    if list != [] { WithoutNothing(list[1..]); }
  }

  method MergeFindings(findings: seq<Finding>) returns (merged: seq<Finding>)
    ensures merged == MergeAll(findings)
    ensures IsMerge(merged, Elements(findings))
  {
    hide IsSummary, OnlyComponents, EveryComponent, NoDuplicates, Linked, Combine, LinkedTo, Without;
    merged := [];
    for i := 0 to |findings|
      invariant merged == MergeAll(findings[..i])
    {
      var f := findings[i];
      var same := LinkedTo(merged, f);
      MergeAllIsMerge(findings[..i]);
      LinkedToOnce(merged, f);
      merged := RemoveEach(merged, same);
      merged := merged + [Combine(f, same)];
      assert findings[..i + 1][..i] == findings[..i];
    }
    assert findings[..|findings|] == findings;
    MergeAllIsMerge(findings);
  }

  method RemoveEach(list: seq<Finding>, same: seq<Finding>) returns (rest: seq<Finding>)
    requires NoDuplicates(list) && NoDuplicates(same) && forall m :: m in same ==> m in list
    ensures rest == Without(list, Elements(same))
  {
    hide NoDuplicates;
    rest := list;
    WithoutNothing(list);
    assert Elements(same[..0]) == {};
    for k := 0 to |same|
      invariant rest == Without(list, Elements(same[..k]))
    {
      OneMore(same, k);
      RemoveIsWithout(list, Elements(same[..k]), same[k]);
      rest := Remove(rest, same[k]);
    }
    assert same[..|same|] == same;
  }

  lemma {:induction false} LinkedToOnce(list: seq<Finding>, f: Finding)
    requires NoDuplicates(list)
    ensures NoDuplicates(LinkedTo(list, f))
  {
    if list != [] {
      LinkedToOnce(list[1..], f);
      assert list[0] !in list[1..];
    }
  }

  lemma OneMore(same: seq<Finding>, k: nat)
    requires NoDuplicates(same) && k < |same|
    ensures same[k] in same && same[k] !in Elements(same[..k])
    ensures Elements(same[..k + 1]) == Elements(same[..k]) + {same[k]}
  {
    assert same[..k + 1] == same[..k] + [same[k]];
  }
}
