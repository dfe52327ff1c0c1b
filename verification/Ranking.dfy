/** Combining semantic and graph search results into one scored, ordered list of contractors. */
module Ranking {
  import opened Numbers
  import opened Rounding

  /** A search hit; a rating of zero counts as no rating. */
  datatype SemanticResult = SemanticResult(cid: string, score: real, rating: real)
  datatype GraphResult = GraphResult(cid: string, avgSuccess: real, projects: real, rating: real)

  datatype Scores = Scores(semantic: real, graph: real, rating: real, price: real, availability: real, response: real)

  datatype Match = Match(cid: string, overall: real, semantic: real, graph: real, rating: real)

  /** The weights sum to one. */
  function Weighted(s: Scores): real {
    0.25 * s.semantic + 0.25 * s.graph + 0.20 * s.rating + 0.15 * s.price + 0.10 * s.availability + 0.05 * s.response
  }

  function EntryOf(cid: string, s: Scores): Match {
    Match(cid, RoundTo(Weighted(s), 3), RoundTo(s.semantic, 3), RoundTo(s.graph, 3), RoundTo(s.rating * 5.0, 1))
  }

  /** x is y rounded to the given number of steps per unit. */
  ghost predicate RoundedTo(x: real, y: real, steps: real) {
    && (x * steps).Floor as real == x * steps
    && -0.5 <= x * steps - y * steps <= 0.5
  }

  lemma RoundsToThousandths(x: real)
    ensures RoundedTo(RoundTo(x, 3), x, 1000.0)
  {
    RoundToNearest(x, 3);
  }

  lemma RoundsToTenths(x: real)
    ensures RoundedTo(RoundTo(x, 1), x, 10.0)
  {
    RoundToNearest(x, 1);
  }

  /** What a match shows: the weighted mean and its parts in thousandths, the rating out of five in tenths. */
  lemma ShownScores(cid: string, s: Scores)
    ensures 100.0 * Weighted(s) == 25.0 * s.semantic + 25.0 * s.graph + 20.0 * s.rating + 15.0 * s.price
                                   + 10.0 * s.availability + 5.0 * s.response
    ensures var m := EntryOf(cid, s);
      && m.cid == cid && RoundedTo(m.overall, Weighted(s), 1000.0)
      && RoundedTo(m.semantic, s.semantic, 1000.0) && RoundedTo(m.graph, s.graph, 1000.0)
      && RoundedTo(m.rating, s.rating * 5.0, 10.0)
  {
    RoundsToThousandths(Weighted(s));
    RoundsToThousandths(s.semantic);
    RoundsToThousandths(s.graph);
    RoundsToTenths(s.rating * 5.0);
  }

  // ---- what the score of a contractor should be ----

  predicate Found(semantic: seq<SemanticResult>, cid: string) {
    exists i | 0 <= i < |semantic| :: semantic[i].cid == cid
  }

  predicate Proven(graph: seq<GraphResult>, cid: string) { exists i | 0 <= i < |graph| :: graph[i].cid == cid }

  /** The score of the contractor's last semantic hit. */
  function LastScore(semantic: seq<SemanticResult>, cid: string): real
    requires Found(semantic, cid)
  {
    var n := |semantic| - 1;
    if semantic[n].cid == cid then semantic[n].score else LastScore(semantic[..n], cid)
  }

  function GraphScore(g: GraphResult): real { MinReal(g.avgSuccess * (1.0 + g.projects / 20.0), 1.0) }

  /** The success rate grows by a twentieth of itself with each project, up to one. */
  lemma GraphScoreMeaning(g: GraphResult)
    ensures var twenty := g.avgSuccess * (20.0 + g.projects);
      20.0 * GraphScore(g) == if twenty < 20.0 then twenty else 20.0
  {
    assert g.avgSuccess * (1.0 + g.projects / 20.0) * 20.0 == g.avgSuccess * (20.0 + g.projects);
  }

  function LastGraphScore(graph: seq<GraphResult>, cid: string): real {
    if graph == [] then 0.0
    else if graph[|graph| - 1].cid == cid then GraphScore(graph[|graph| - 1])
    else LastGraphScore(graph[..|graph| - 1], cid)
  }

  /** The last rating any semantic hit gives the contractor, on a scale of one. */
  function SemanticRating(semantic: seq<SemanticResult>, cid: string): real {
    if semantic == [] then 0.0
    else
      var r := semantic[|semantic| - 1];
      if r.cid == cid && r.rating != 0.0 then MinReal(r.rating / 5.0, 1.0)
      else SemanticRating(semantic[..|semantic| - 1], cid)
  }

  /** A rating from the graph takes precedence. */
  function Rating(semantic: seq<SemanticResult>, graph: seq<GraphResult>, cid: string): real {
    if graph == [] then SemanticRating(semantic, cid)
    else
      var g := graph[|graph| - 1];
      if g.cid == cid && g.rating != 0.0 then MinReal(g.rating / 5.0, 1.0)
      else Rating(semantic, graph[..|graph| - 1], cid)
  }

  /** A contractor only the graph knows gets a semantic score of 0.3. */
  function ScoresOf(semantic: seq<SemanticResult>, graph: seq<GraphResult>, cid: string): Scores {
    Scores(if Found(semantic, cid) then LastScore(semantic, cid) else 0.3,
           LastGraphScore(graph, cid), Rating(semantic, graph, cid), 0.5, 0.5, 0.5)
  }

  // ---- the dictionary ----

  /** A dictionary with its insertion order. */
  datatype Table = Table(order: seq<string>, scores: map<string, Scores>)

  ghost predicate Valid(t: Table) {
    && (forall cid :: cid in t.scores <==> cid in t.order)
    && (forall i, j | 0 <= i < j < |t.order| :: t.order[i] != t.order[j])
  }

  ghost predicate Reflects(t: Table, semantic: seq<SemanticResult>, graph: seq<GraphResult>) {
    && Valid(t)
    && (forall cid :: cid in t.scores <==> Found(semantic, cid) || Proven(graph, cid))
    && (forall cid | cid in t.scores :: t.scores[cid] == ScoresOf(semantic, graph, cid))
  }

  /** The contractors of the hits, semantic ones first. */
  function Ids(semantic: seq<SemanticResult>, graph: seq<GraphResult>): seq<string> {
    seq(|semantic| + |graph|, i requires 0 <= i < |semantic| + |graph| =>
      if i < |semantic| then semantic[i].cid else graph[i - |semantic|].cid)
  }

  /** Where an id first appears. */
  function FirstAt(ids: seq<string>, cid: string): (k: nat)
    ensures k <= |ids|
    ensures forall i | 0 <= i < k :: ids[i] != cid
    ensures if cid in ids then k < |ids| && ids[k] == cid else k == |ids|
  {
    if ids == [] || ids[0] == cid then 0 else 1 + FirstAt(ids[1..], cid)
  }

  /** The ids stand in the order in which they first appear. */
  ghost predicate InOrder(order: seq<string>, ids: seq<string>) {
    && (forall cid :: cid in order <==> cid in ids)
    && forall i, j | 0 <= i < j < |order| :: FirstAt(ids, order[i]) < FirstAt(ids, order[j])
  }

  lemma FirstAtOneMore(ids: seq<string>, x: string, cid: string)
    requires cid in ids || cid == x
    ensures FirstAt(ids + [x], cid) == if cid in ids then FirstAt(ids, cid) else |ids|
  {
    var all, k := ids + [x], FirstAt(ids + [x], cid);
    assert forall i | 0 <= i < |ids| :: all[i] == ids[i];
    assert all[|ids|] == x;
  }

  /** An id is appended when it is new, and otherwise stays where it is. */
  predicate OrderAfter(order: seq<string>, cid: string, order': seq<string>) {
    order' == if cid in order then order else order + [cid]
  }

  /** The keys a dictionary has, and their order, after setting each id in turn. */
  function Distinct(ids: seq<string>): seq<string> {
    if ids == [] then []
    else
      var order, last := Distinct(ids[..|ids| - 1]), ids[|ids| - 1];
      if last in order then order else order + [last]
  }

  lemma OrderStep(order: seq<string>, ids: seq<string>, cid: string, order': seq<string>)
    requires InOrder(order, ids) && OrderAfter(order, cid, order')
    ensures InOrder(order', ids + [cid])
  {
    forall i, j | 0 <= i < j < |order'|
      ensures FirstAt(ids + [cid], order'[i]) < FirstAt(ids + [cid], order'[j])
    {
      assert order'[i] in order;
      FirstAtOneMore(ids, cid, order'[i]);
      FirstAtOneMore(ids, cid, order'[j]);
    }
  }

  lemma {:induction false} DistinctInOrder(ids: seq<string>)
    ensures InOrder(Distinct(ids), ids)
    decreases |ids|
  {
    if ids != [] {
      var init, last := ids[..|ids| - 1], ids[|ids| - 1];
      DistinctInOrder(init);
      OrderStep(Distinct(init), init, last, Distinct(ids));
      assert init + [last] == ids;
    }
  }

  function SetDefault(t: Table, cid: string, s: Scores): Table {
    if cid in t.scores then t else Table(t.order + [cid], t.scores[cid := s])
  }

  /** What one semantic hit changes: the score always, the rating when it has one. */
  ghost predicate AddedSemantic(t: Table, r: SemanticResult, t': Table) {
    && Valid(t') && t'.scores.Keys == t.scores.Keys + {r.cid} && OrderAfter(t.order, r.cid, t'.order)
    && (forall cid | cid in t.scores && cid != r.cid :: t'.scores[cid] == t.scores[cid])
    && var before := if r.cid in t.scores then t.scores[r.cid] else Scores(0.0, 0.0, 0.0, 0.5, 0.5, 0.5);
       t'.scores[r.cid]
         == before.(semantic := r.score,
                    rating := if r.rating != 0.0 then MinReal(r.rating / 5.0, 1.0) else before.rating)
  }

  /** What one graph hit changes. */
  ghost predicate AddedGraph(t: Table, g: GraphResult, t': Table) {
    && Valid(t') && t'.scores.Keys == t.scores.Keys + {g.cid} && OrderAfter(t.order, g.cid, t'.order)
    && (forall cid | cid in t.scores && cid != g.cid :: t'.scores[cid] == t.scores[cid])
    && var before := if g.cid in t.scores then t.scores[g.cid] else Scores(0.3, 0.0, 0.0, 0.5, 0.5, 0.5);
       t'.scores[g.cid]
         == before.(graph := GraphScore(g),
                    rating := if g.rating != 0.0 then MinReal(g.rating / 5.0, 1.0) else before.rating)
  }

  method AddSemantic(t: Table, r: SemanticResult) returns (t': Table)
    requires Valid(t)
    ensures AddedSemantic(t, r, t')
  {
    t' := SetDefault(t, r.cid, Scores(0.0, 0.0, 0.0, 0.5, 0.5, 0.5));
    t' := t'.(scores := t'.scores[r.cid := t'.scores[r.cid].(semantic := r.score)]);
    if r.rating != 0.0 {
      t' := t'.(scores := t'.scores[r.cid := t'.scores[r.cid].(rating := MinReal(r.rating / 5.0, 1.0))]);
    }
  }

  method AddGraph(t: Table, g: GraphResult) returns (t': Table)
    requires Valid(t)
    ensures AddedGraph(t, g, t')
  {
    t' := SetDefault(t, g.cid, Scores(0.3, 0.0, 0.0, 0.5, 0.5, 0.5));
    t' := t'.(scores := t'.scores[g.cid := t'.scores[g.cid].(graph := GraphScore(g))]);
    if g.rating != 0.0 {
      t' := t'.(scores := t'.scores[g.cid := t'.scores[g.cid].(rating := MinReal(g.rating / 5.0, 1.0))]);
    }
  }

  lemma FoundOneMore(semantic: seq<SemanticResult>, r: SemanticResult, cid: string)
    ensures Found(semantic + [r], cid) <==> Found(semantic, cid) || r.cid == cid
    ensures (semantic + [r])[..|semantic|] == semantic
  {
    var all := semantic + [r];
    assert all[|semantic|] == r;
    if Found(semantic, cid) {
      var i :| 0 <= i < |semantic| && semantic[i].cid == cid;
      assert all[i].cid == cid;
    }
  }

  lemma ProvenOneMore(graph: seq<GraphResult>, g: GraphResult, cid: string)
    ensures Proven(graph + [g], cid) <==> Proven(graph, cid) || g.cid == cid
    ensures (graph + [g])[..|graph|] == graph
  {
    var all := graph + [g];
    assert all[|graph|] == g;
    if Proven(graph, cid) {
      var i :| 0 <= i < |graph| && graph[i].cid == cid;
      assert all[i].cid == cid;
    }
  }

  /** A contractor in neither list has the default scores. */
  lemma {:induction false} UnknownScores(semantic: seq<SemanticResult>, graph: seq<GraphResult>, cid: string)
    ensures !Found(semantic, cid) ==> SemanticRating(semantic, cid) == 0.0
    ensures !Proven(graph, cid) ==>
      LastGraphScore(graph, cid) == 0.0 && Rating(semantic, graph, cid) == SemanticRating(semantic, cid)
    decreases |semantic| + |graph|
  {
    if semantic != [] {
      var n := |semantic| - 1;
      UnknownScores(semantic[..n], [], cid);
      assert semantic[..n] + [semantic[n]] == semantic;
      FoundOneMore(semantic[..n], semantic[n], cid);
    }
    if graph != [] {
      var n := |graph| - 1;
      UnknownScores(semantic, graph[..n], cid);
      assert graph[..n] + [graph[n]] == graph;
      ProvenOneMore(graph[..n], graph[n], cid);
    }
  }

  lemma SemanticStepAt(t: Table, t': Table, semantic: seq<SemanticResult>, r: SemanticResult, cid: string)
    requires Reflects(t, semantic, []) && AddedSemantic(t, r, t')
    ensures cid in t'.scores <==> Found(semantic + [r], cid)
    ensures cid in t'.scores ==> t'.scores[cid] == ScoresOf(semantic + [r], [], cid)
  {
    FoundOneMore(semantic, r, cid);
    UnknownScores(semantic, [], cid);
  }

  lemma SemanticStep(t: Table, t': Table, semantic: seq<SemanticResult>, r: SemanticResult)
    requires Reflects(t, semantic, []) && AddedSemantic(t, r, t')
    ensures Reflects(t', semantic + [r], [])
  {
    forall cid
      ensures cid in t'.scores <==> Found(semantic + [r], cid)
      ensures cid in t'.scores ==> t'.scores[cid] == ScoresOf(semantic + [r], [], cid)
    {
      SemanticStepAt(t, t', semantic, r, cid);
    }
  }

  lemma GraphStepAt(
      t: Table, t': Table, semantic: seq<SemanticResult>, graph: seq<GraphResult>, g: GraphResult, cid: string)
    requires Reflects(t, semantic, graph) && AddedGraph(t, g, t')
    ensures cid in t'.scores <==> Found(semantic, cid) || Proven(graph + [g], cid)
    ensures cid in t'.scores ==> t'.scores[cid] == ScoresOf(semantic, graph + [g], cid)
  {
    ProvenOneMore(graph, g, cid);
    UnknownScores(semantic, graph, cid);
  }

  lemma GraphStep(t: Table, t': Table, semantic: seq<SemanticResult>, graph: seq<GraphResult>, g: GraphResult)
    requires Reflects(t, semantic, graph) && AddedGraph(t, g, t')
    ensures Reflects(t', semantic, graph + [g])
  {
    forall cid
      ensures cid in t'.scores <==> Found(semantic, cid) || Proven(graph + [g], cid)
      ensures cid in t'.scores ==> t'.scores[cid] == ScoresOf(semantic, graph + [g], cid)
    {
      GraphStepAt(t, t', semantic, graph, g, cid);
    }
  }

  // ---- ordering ----

  predicate Sorted(s: seq<Match>) {
    forall i, j | 0 <= i < j < |s| :: s[i].overall >= s[j].overall
  }

  /** Where a later match goes: behind every match that scores at least as much. */
  function Position(s: seq<Match>, x: Match): (k: nat)
    ensures k <= |s|
    ensures forall i | 0 <= i < k :: s[i].overall >= x.overall
    ensures k < |s| ==> s[k].overall < x.overall
  {
    if s == [] || s[0].overall < x.overall then 0 else 1 + Position(s[1..], x)
  }

  predicate Before(s: seq<Match>, a: Match, b: Match) {
    exists i, j | 0 <= i < j < |s| :: s[i] == a && s[j] == b
  }

  function Inserted(s: seq<Match>, x: Match): seq<Match> {
    s[..Position(s, x)] + [x] + s[Position(s, x)..]
  }

  lemma InsertKeepsOrder(s: seq<Match>, x: Match, a: Match, b: Match)
    requires Before(s, a, b)
    ensures Before(Inserted(s, x), a, b)
  {
    var k, t := Position(s, x), Inserted(s, x);
    var i, j :| 0 <= i < j < |s| && s[i] == a && s[j] == b;
    assert t[if i < k then i else i + 1] == a && t[if j < k then j else j + 1] == b;
  }

  /** The inserted match goes behind every earlier one that scores the same. */
  lemma InsertedBehindTies(s: seq<Match>, x: Match, a: Match)
    requires a in s && a.overall == x.overall && Sorted(s)
    ensures Before(Inserted(s, x), a, x)
  {
    var k, t := Position(s, x), Inserted(s, x);
    var p :| 0 <= p < |s| && s[p] == a;
    assert p < k;
    assert t[p] == a && t[k] == x;
  }

  lemma InsertedSorted(s: seq<Match>, x: Match)
    requires Sorted(s)
    ensures Sorted(Inserted(s, x))
  {
  }

  lemma InsertedContents(s: seq<Match>, x: Match)
    ensures multiset(Inserted(s, x)) == multiset(s) + multiset{x}
  {
    assert s[..Position(s, x)] + s[Position(s, x)..] == s;
  }

  /** Matches with the same score come in their original order. */
  ghost predicate Stable(s: seq<Match>, sorted: seq<Match>) {
    forall i, j | 0 <= i < j < |s| && s[i].overall == s[j].overall :: Before(sorted, s[i], s[j])
  }

  lemma InsertedStable(s: seq<Match>, x: Match, sorted: seq<Match>)
    requires Stable(s, sorted) && Sorted(sorted) && multiset(sorted) == multiset(s)
    ensures Stable(s + [x], Inserted(sorted, x))
  {
    var all := s + [x];
    forall i, j | 0 <= i < j < |all| && all[i].overall == all[j].overall
      ensures Before(Inserted(sorted, x), all[i], all[j])
    {
      if j < |s| {
        InsertKeepsOrder(sorted, x, all[i], all[j]);
      } else {
        assert s[i] in multiset(s);
        assert s[i] in multiset(sorted);
        InsertedBehindTies(sorted, x, s[i]);
      }
    }
  }

  /** A stable sort by falling score: the same matches, ties in the order they came. */
  method SortDescending(s: seq<Match>) returns (sorted: seq<Match>)
    ensures Sorted(sorted) && multiset(sorted) == multiset(s) && Stable(s, sorted)
  {
    sorted := [];
    for n := 0 to |s|
      invariant Sorted(sorted) && multiset(sorted) == multiset(s[..n]) && Stable(s[..n], sorted)
    {
      InsertedSorted(sorted, s[n]);
      InsertedContents(sorted, s[n]);
      InsertedStable(s[..n], s[n], sorted);
      assert s[..n + 1] == s[..n] + [s[n]];
      sorted := Inserted(sorted, s[n]);
    }
    assert s[..|s|] == s;
  }

  // ---- the ranking ----

  lemma SemanticOrder(semantic: seq<SemanticResult>, r: SemanticResult)
    ensures OrderAfter(Distinct(Ids(semantic, [])), r.cid, Distinct(Ids(semantic + [r], [])))
  {
    assert Ids(semantic + [r], []) == Ids(semantic, []) + [r.cid];
    assert Ids(semantic + [r], [])[..|semantic|] == Ids(semantic, []);
  }

  lemma GraphOrder(semantic: seq<SemanticResult>, graph: seq<GraphResult>, g: GraphResult)
    ensures OrderAfter(Distinct(Ids(semantic, graph)), g.cid, Distinct(Ids(semantic, graph + [g])))
  {
    assert Ids(semantic, graph + [g]) == Ids(semantic, graph) + [g.cid];
    assert Ids(semantic, graph + [g])[..|semantic| + |graph|] == Ids(semantic, graph);
  }

  /** The dictionary holds what the hits say, filled in the order in which they say it. */
  ghost predicate Filled(t: Table, semantic: seq<SemanticResult>, graph: seq<GraphResult>) {
    Reflects(t, semantic, graph) && t.order == Distinct(Ids(semantic, graph))
  }

  method TakeSemantic(t: Table, r: SemanticResult, ghost done: seq<SemanticResult>) returns (t': Table)
    requires Filled(t, done, [])
    ensures Filled(t', done + [r], [])
  {
    t' := AddSemantic(t, r);
    SemanticStep(t, t', done, r);
    SemanticOrder(done, r);
  }

  method TakeGraph(t: Table, g: GraphResult, ghost semantic: seq<SemanticResult>, ghost done: seq<GraphResult>)
    returns (t': Table)
    requires Filled(t, semantic, done)
    ensures Filled(t', semantic, done + [g])
  {
    t' := AddGraph(t, g);
    GraphStep(t, t', semantic, done, g);
    GraphOrder(semantic, done, g);
  }

  method AddAllSemantic(semantic: seq<SemanticResult>) returns (t: Table)
    ensures Filled(t, semantic, [])
  {
    t := Table([], map[]);
    for i := 0 to |semantic|
      invariant Filled(t, semantic[..i], [])
    {
      assert semantic[..i + 1] == semantic[..i] + [semantic[i]];
      t := TakeSemantic(t, semantic[i], semantic[..i]);
    }
    assert semantic[..|semantic|] == semantic;
  }

  method BuildTable(semantic: seq<SemanticResult>, graph: seq<GraphResult>) returns (t: Table)
    ensures Filled(t, semantic, graph)
  {
    t := AddAllSemantic(semantic);
    for i := 0 to |graph|
      invariant Filled(t, semantic, graph[..i])
    {
      assert graph[..i + 1] == graph[..i] + [graph[i]];
      t := TakeGraph(t, graph[i], semantic, graph[..i]);
    }
    assert graph[..|graph|] == graph;
  }

  /** Among equal scores, the contractor that appears first in the hits ranks first. */
  ghost predicate TiesInOrder(ranking: seq<Match>, ids: seq<string>) {
    forall i, j | 0 <= i < j < |ranking| && ranking[i].overall == ranking[j].overall ::
      FirstAt(ids, ranking[i].cid) < FirstAt(ids, ranking[j].cid)
  }

  /**
   Main result: the ranking holds every contractor of either list exactly once, with the score its
   latest results give it, in order of non-increasing score; equal scores come in the order in which
   the contractors first appear, semantic hits before graph hits.
   */
  method ScoreAndRank(semantic: seq<SemanticResult>, graph: seq<GraphResult>) returns (ranking: seq<Match>)
    ensures Sorted(ranking)
    ensures forall i, j | 0 <= i < j < |ranking| :: ranking[i].cid != ranking[j].cid
    ensures forall cid :: Found(semantic, cid) || Proven(graph, cid) <==> exists m :: m in ranking && m.cid == cid
    ensures forall m | m in ranking :: m == EntryOf(m.cid, ScoresOf(semantic, graph, m.cid))
    ensures TiesInOrder(ranking, Ids(semantic, graph))
  {
    var t := BuildTable(semantic, graph);
    var results := seq(|t.order|, i requires 0 <= i < |t.order| && t.order[i] in t.scores =>
      EntryOf(t.order[i], t.scores[t.order[i]]));
    ranking := SortDescending(results);
    RankingOf(t, semantic, graph, results, ranking);
    DistinctInOrder(Ids(semantic, graph));
    TiesKeepOrder(t, Ids(semantic, graph), results, ranking);
  }

  /** Two matches of the ranking with equal scores stand as in the results. */
  lemma TieStands(results: seq<Match>, ranking: seq<Match>, i: nat, j: nat, p: nat, q: nat)
    requires Stable(results, ranking) && i < j < |ranking| && p < |results| && q < |results|
    requires forall k, l | 0 <= k < l < |ranking| :: ranking[k].cid != ranking[l].cid
    requires results[p] == ranking[i] && results[q] == ranking[j] && ranking[i].overall == ranking[j].overall
    ensures p < q
  {
    assert q < p ==> Before(ranking, ranking[j], ranking[i]);
  }

  lemma TiesKeepOrder(t: Table, ids: seq<string>, results: seq<Match>, ranking: seq<Match>)
    requires InOrder(t.order, ids) && |results| == |t.order|
    requires forall i | 0 <= i < |results| :: results[i].cid == t.order[i]
    requires multiset(ranking) == multiset(results) && Stable(results, ranking)
    requires forall i, j | 0 <= i < j < |ranking| :: ranking[i].cid != ranking[j].cid
    ensures TiesInOrder(ranking, ids)
  {
    forall i, j | 0 <= i < j < |ranking| && ranking[i].overall == ranking[j].overall
      ensures FirstAt(ids, ranking[i].cid) < FirstAt(ids, ranking[j].cid)
    {
      var p := PositionIn(results, ranking, i);
      var q := PositionIn(results, ranking, j);
      TieStands(results, ranking, i, j, p, q);
      assert ranking[i].cid == t.order[p] && ranking[j].cid == t.order[q];
    }
  }

  lemma PositionIn(results: seq<Match>, ranking: seq<Match>, i: nat) returns (p: nat)
    requires multiset(ranking) == multiset(results) && i < |ranking|
    ensures p < |results| && results[p] == ranking[i]
  {
    assert ranking[i] in multiset(ranking);
    assert ranking[i] in results;
    p :| p < |results| && results[p] == ranking[i];
  }

  lemma RankingOf(
      t: Table, semantic: seq<SemanticResult>, graph: seq<GraphResult>, results: seq<Match>, ranking: seq<Match>)
    requires Reflects(t, semantic, graph) && |results| == |t.order|
    requires forall i | 0 <= i < |results| ::
      t.order[i] in t.scores && results[i] == EntryOf(t.order[i], t.scores[t.order[i]])
    requires multiset(ranking) == multiset(results)
    ensures forall i, j | 0 <= i < j < |ranking| :: ranking[i].cid != ranking[j].cid
    ensures forall cid :: Found(semantic, cid) || Proven(graph, cid) <==> exists m :: m in ranking && m.cid == cid
    ensures forall m | m in ranking :: m == EntryOf(m.cid, ScoresOf(semantic, graph, m.cid))
  {
    forall m ensures m in ranking <==> m in results {
      assert m in multiset(ranking) <==> m in multiset(results);
    }
    DistinctCarriesOver(results, ranking);
    forall cid
      ensures Found(semantic, cid) || Proven(graph, cid) <==> exists m :: m in ranking && m.cid == cid
    {
      if cid in t.scores {
        var i :| 0 <= i < |t.order| && t.order[i] == cid;
        assert results[i] in ranking && results[i].cid == cid;
      }
    }
  }

  lemma DistinctCarriesOver(results: seq<Match>, ranking: seq<Match>)
    requires multiset(ranking) == multiset(results)
    requires forall i, j | 0 <= i < j < |results| :: results[i].cid != results[j].cid
    ensures forall i, j | 0 <= i < j < |ranking| :: ranking[i].cid != ranking[j].cid
  {
    forall i, j | 0 <= i < j < |ranking|
      ensures ranking[i].cid != ranking[j].cid
    {
      var a, b := ranking[i], ranking[j];
      assert a in multiset(ranking) && b in multiset(ranking);
      assert a in results && b in results;
      if a == b {
        TwiceIn(ranking, i, j);
        OnceIn(results, a);
        assert false;
      }
    }
  }

  lemma TwiceIn(s: seq<Match>, i: nat, j: nat)
    requires i < j < |s| && s[i] == s[j]
    ensures multiset(s)[s[i]] >= 2
  {
    assert s == s[..j] + s[j..];
    assert multiset(s) == multiset(s[..j]) + multiset(s[j..]);
    assert s[..j][i] in multiset(s[..j]) && s[j..][0] in multiset(s[j..]);
  }

  lemma {:induction false} OnceIn(s: seq<Match>, a: Match)
    requires forall i, j | 0 <= i < j < |s| :: s[i].cid != s[j].cid
    ensures multiset(s)[a] <= 1
  {
    if s != [] {
      OnceIn(s[1..], a);
      assert s == [s[0]] + s[1..];
      assert s[0] !in s[1..];
    }
  }

  // ---- the range of a score ----

  /** What the searches return: similarity in [0, 1], and no negative rating, rate or count. */
  ghost predicate InRange(semantic: seq<SemanticResult>, graph: seq<GraphResult>) {
    && (forall r | r in semantic :: 0.0 <= r.score <= 1.0 && r.rating >= 0.0)
    && (forall g | g in graph :: g.avgSuccess >= 0.0 && g.projects >= 0.0 && g.rating >= 0.0)
  }

  lemma {:induction false} SemanticInRange(semantic: seq<SemanticResult>, cid: string)
    requires InRange(semantic, [])
    ensures 0.0 <= SemanticRating(semantic, cid) <= 1.0
    ensures Found(semantic, cid) ==> 0.0 <= LastScore(semantic, cid) <= 1.0
  {
    if semantic != [] {
      var n := |semantic| - 1;
      SemanticInRange(semantic[..n], cid);
      assert semantic[n] in semantic;
      assert semantic[..n] + [semantic[n]] == semantic;
      FoundOneMore(semantic[..n], semantic[n], cid);
    }
  }

  lemma {:induction false} GraphInRange(semantic: seq<SemanticResult>, graph: seq<GraphResult>, cid: string)
    requires InRange(semantic, graph)
    ensures 0.0 <= LastGraphScore(graph, cid) <= 1.0 && 0.0 <= Rating(semantic, graph, cid) <= 1.0
    decreases |graph|
  {
    if graph == [] {
      SemanticInRange(semantic, cid);
    } else {
      var n := |graph| - 1;
      GraphInRange(semantic, graph[..n], cid);
      assert graph[n] in graph;
      NonNegativeProduct(graph[n].avgSuccess, 1.0 + graph[n].projects / 20.0);
    }
  }

  lemma NonNegativeProduct(a: real, b: real)
    requires a >= 0.0 && b >= 0.0
    ensures a * b >= 0.0
  {
  }

  /** Main result: every overall score lies in [0, 1], as a rounded convex combination. */
  lemma OverallInUnit(semantic: seq<SemanticResult>, graph: seq<GraphResult>, cid: string)
    requires InRange(semantic, graph)
    ensures 0.0 <= EntryOf(cid, ScoresOf(semantic, graph, cid)).overall <= 1.0
  {
    SemanticInRange(semantic, cid);
    GraphInRange(semantic, graph, cid);
    RoundToUnit(Weighted(ScoresOf(semantic, graph, cid)), 3);
  }
}
