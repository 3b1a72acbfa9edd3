/** Greedy maximal-marginal-relevance re-ranking. */
module Mmr {
  import opened ChunkIds
  import opened Fusion
  import opened Vectors

  function MinScore(c: seq<Scored>): (m: real)
    requires c != []
    ensures forall i :: 0 <= i < |c| ==> m <= c[i].score
    ensures exists i :: 0 <= i < |c| && m == c[i].score
  {
    if |c| == 1 then c[0].score
    else
      var m := MinScore(c[..|c| - 1]);
      if c[|c| - 1].score < m then c[|c| - 1].score else m
  }

  function MaxScore(c: seq<Scored>): (m: real)
    requires c != []
    ensures forall i :: 0 <= i < |c| ==> c[i].score <= m
    ensures exists i :: 0 <= i < |c| && m == c[i].score
  {
    if |c| == 1 then c[0].score
    else
      var m := MaxScore(c[..|c| - 1]);
      if c[|c| - 1].score > m then c[|c| - 1].score else m
  }

  /** Relevance against redundancy. */
  function Blend(weight: real, rel: real, sim: real): real {
    weight * rel - (1.0 - weight) * sim
  }

  datatype Problem = Problem(candidates: seq<Scored>, embeddings: map<string, Vector>, lambda: real, sqrt: real -> real) {
    /** A list of positions in the candidate list. */
    predicate Valid(list: seq<nat>) {
      forall i :: 0 <= i < |list| ==> list[i] < |candidates|
    }

    function VectorOf(id: string): Vector {
      if id in embeddings then embeddings[id] else []
    }

    function Similarity(i: nat, j: nat): real
      requires i < |candidates| && j < |candidates|
    {
      Cosine(sqrt, VectorOf(candidates[i].id), VectorOf(candidates[j].id))
    }

    /** The largest similarity to a selected candidate, at least 0. */
    function MaxSim(i: nat, selected: seq<nat>): real
      requires i < |candidates| && Valid(selected)
    {
      if selected == [] then 0.0
      else
        var m := MaxSim(i, selected[..|selected| - 1]);
        var x := Similarity(i, selected[|selected| - 1]);
        if x > m then x else m
    }

    /** Min-max normalized score; 1 for every candidate when all scores are equal. */
    function Rel(i: nat): real
      requires i < |candidates|
    {
      var low, high := MinScore(candidates), MaxScore(candidates);
      if high - low > 0.0 then (candidates[i].score - low) / (high - low) else 1.0
    }

    function Marginal(i: nat, selected: seq<nat>): real
      requires i < |candidates| && Valid(selected)
    {
      Blend(lambda, Rel(i), MaxSim(i, selected))
    }

    /** Among the first `n` of `remaining`, none has a larger marginal than position `best`, and
        none before it has an equal one. */
    ghost predicate BestOf(remaining: seq<nat>, n: nat, best: nat, selected: seq<nat>)
      requires Valid(remaining) && Valid(selected) && n <= |remaining| && best < |remaining|
    {
      forall k :: 0 <= k < n ==>
        || Marginal(remaining[best], selected) > Marginal(remaining[k], selected)
        || (Marginal(remaining[best], selected) == Marginal(remaining[k], selected) && best <= k)
    }

    /** Every candidate once. */
    ghost predicate IsOrder(order: seq<nat>) {
      && |order| == |candidates|
      && Valid(order)
      && (forall i, j :: 0 <= i < j < |order| ==> order[i] != order[j])
      && (forall c: nat :: c < |candidates| ==> c in order)
    }

    /** `x` wins against everything else not yet selected, the earliest input winning ties. */
    ghost predicate Wins(x: nat, selected: seq<nat>)
      requires x < |candidates| && Valid(selected)
    {
      forall c: nat :: c < |candidates| && c !in selected ==>
        Marginal(x, selected) > Marginal(c, selected) || (Marginal(x, selected) == Marginal(c, selected) && x <= c)
    }

    ghost predicate GreedyUpTo(order: seq<nat>, n: nat)
      requires n <= |order| && Valid(order)
    {
      forall t :: 0 <= t < n ==> Wins(order[t], order[..t])
    }

    ghost predicate IsMmr(order: seq<nat>) {
      IsOrder(order) && GreedyUpTo(order, |order|)
    }

    function Pick(order: seq<nat>): seq<Scored>
      requires Valid(order)
    {
      seq(|order|, i requires 0 <= i < |order| => candidates[order[i]])
    }
  }

  lemma {:induction false} MaxSimBounded(p: Problem, i: nat, selected: seq<nat>)
    requires IsSquareRoot(p.sqrt)
    requires i < |p.candidates| && p.Valid(selected)
    ensures 0.0 <= p.MaxSim(i, selected) <= 1.0
  {
    if selected != [] {
      MaxSimBounded(p, i, selected[..|selected| - 1]);
      var j := selected[|selected| - 1];
      CosineBounded(p.sqrt, p.VectorOf(p.candidates[i].id), p.VectorOf(p.candidates[j].id));
    }
  }

  /** The maximum over the selected candidates, as the program folds it. */
  method MaxSimilarity(p: Problem, i: nat, selected: seq<nat>) returns (m: real)
    requires IsSquareRoot(p.sqrt)
    requires i < |p.candidates| && p.Valid(selected)
    ensures m == p.MaxSim(i, selected)
  {
    m := 0.0;
    for k := 0 to |selected|
      invariant m == p.MaxSim(i, selected[..k])
    {
      assert selected[..k + 1][..k] == selected[..k];
      var x := CosineOf(p.sqrt, p.VectorOf(p.candidates[i].id), p.VectorOf(p.candidates[selected[k]].id));
      m := if x > m then x else m;
    }
    assert selected[..|selected|] == selected;
  }

  /** The inner loop: the position of the best remaining candidate. */
  method BestRemaining(p: Problem, remaining: seq<nat>, selected: seq<nat>) returns (best: nat)
    requires IsSquareRoot(p.sqrt) && remaining != []
    requires p.Valid(selected)
    requires p.Valid(remaining)
    requires forall i, j :: 0 <= i < j < |remaining| ==> remaining[i] < remaining[j]
    ensures best < |remaining| && p.BestOf(remaining, |remaining|, best, selected)
  {
    hide Problem.MaxSim, Problem.Rel, Blend;
    best := 0;
    var bestMmr: Option<real> := None;
    for pos := 0 to |remaining|
      invariant best < |remaining|
      invariant pos == 0 <==> bestMmr.None?
      invariant bestMmr.Some? ==> best < pos && bestMmr.value == p.Marginal(remaining[best], selected)
      invariant p.BestOf(remaining, pos, best, selected)
    {
      var idx := remaining[pos];
      var maxSim := MaxSimilarity(p, idx, selected);
      var mmr := Blend(p.lambda, p.Rel(idx), maxSim);
      assert mmr == p.Marginal(idx, selected);
      if bestMmr.None? || mmr > bestMmr.value {
        bestMmr := Some(mmr);
        best := pos;
      }
    }
  }

  /** `mmr_rerank` */
  method MmrRerank(p: Problem) returns (out: seq<Scored>, ghost order: seq<nat>)
    requires IsSquareRoot(p.sqrt)
    ensures p.IsMmr(order) && out == p.Pick(order)
    ensures |out| == |order| && forall i :: 0 <= i < |out| ==> out[i] == p.candidates[order[i]]
    ensures multiset(out) == multiset(p.candidates)
  {
    var n := |p.candidates|;
    var remaining: seq<nat> := seq(n, i requires i >= 0 => i);
    var selected: seq<nat> := [];
    forall c: nat | c < n
      ensures c in remaining
    {
      assert remaining[c] == c;
    }
    while remaining != []
      invariant |remaining| + |selected| == n
      invariant forall i, j :: 0 <= i < j < |remaining| ==> remaining[i] < remaining[j]
      invariant p.Valid(selected) && p.Valid(remaining)
      invariant forall i, j :: 0 <= i < j < |selected| ==> selected[i] != selected[j]
      invariant forall c: nat :: c in remaining <==> c < n && c !in selected
      invariant p.GreedyUpTo(selected, |selected|)
      decreases |remaining|
    {
      var best := BestRemaining(p, remaining, selected);
      var chosen := remaining[best];
      assert chosen in remaining && chosen !in selected;
      RemoveAt(remaining, best);
      WinnerExtends(p, selected, chosen, remaining, best);
      remaining := remaining[..best] + remaining[best + 1..];
      selected := selected + [chosen];
    }
    order := selected;
    out := p.Pick(selected);
    MmrPermutes(p, order);
  }

  lemma RemoveAt(s: seq<nat>, at: nat)
    requires at < |s| && forall i, j :: 0 <= i < j < |s| ==> s[i] < s[j]
    ensures var r := s[..at] + s[at + 1..];
            && (forall i, j :: 0 <= i < j < |r| ==> r[i] < r[j])
            && (forall c :: c in r <==> c in s && c != s[at])
  {
    var r := s[..at] + s[at + 1..];
    forall c | c in s && c != s[at]
      ensures c in r
    {
      var i :| 0 <= i < |s| && s[i] == c;
      assert i < at ==> r[i] == c;
      assert i > at ==> r[i - 1] == c;
    }
  }

  lemma WinnerExtends(p: Problem, selected: seq<nat>, chosen: nat, remaining: seq<nat>, best: nat)
    requires p.Valid(selected) && p.Valid(remaining)
    requires best < |remaining| && chosen == remaining[best]
    requires forall i, j :: 0 <= i < j < |remaining| ==> remaining[i] < remaining[j]
    requires forall c: nat :: c in remaining <==> c < |p.candidates| && c !in selected
    requires p.BestOf(remaining, |remaining|, best, selected)
    requires p.GreedyUpTo(selected, |selected|)
    ensures p.Valid(selected + [chosen]) && p.GreedyUpTo(selected + [chosen], |selected| + 1)
  {
    hide Problem.Marginal;
    var longer := selected + [chosen];
    forall t | 0 <= t < |longer|
      ensures p.Wins(longer[t], longer[..t])
    {
      if t < |selected| {
        assert longer[..t] == selected[..t];
      } else {
        assert longer[..t] == selected;
        BestWins(p, selected, remaining, best);
      }
    }
  }

  lemma BestWins(p: Problem, selected: seq<nat>, remaining: seq<nat>, best: nat)
    requires p.Valid(selected) && p.Valid(remaining) && best < |remaining|
    requires forall i, j :: 0 <= i < j < |remaining| ==> remaining[i] < remaining[j]
    requires forall c: nat :: c in remaining <==> c < |p.candidates| && c !in selected
    requires p.BestOf(remaining, |remaining|, best, selected)
    ensures p.Wins(remaining[best], selected)
  {
    hide Problem.Marginal;
    forall c: nat | c < |p.candidates| && c !in selected
      ensures p.Marginal(remaining[best], selected) > p.Marginal(c, selected)
           || (p.Marginal(remaining[best], selected) == p.Marginal(c, selected) && remaining[best] <= c)
    {
      var k :| 0 <= k < |remaining| && remaining[k] == c;
    }
  }

  // ---------------------------------------------------------------------------------------
  // What the order means
  // ---------------------------------------------------------------------------------------

  lemma {:induction false} PickedMembers(p: Problem, order: seq<nat>, taken: seq<bool>)
    requires p.Valid(order) && |taken| == |p.candidates|
    requires forall i, j :: 0 <= i < j < |order| ==> order[i] != order[j]
    requires forall c: nat :: c < |p.candidates| ==> (taken[c] <==> c in order)
    ensures multiset(p.Pick(order)) == multiset(Taken(p.candidates, taken))
  {
    hide Problem.IsOrder, Taken;
    if order == [] {
      NoneTaken(p.candidates, taken);
    } else {
      var x := order[0];
      var rest := order[1..];
      assert order == [x] + rest && x !in rest;
      var fewer := taken[x := false];
      forall c: nat | c < |p.candidates|
        ensures fewer[c] <==> c in rest
      {
      }
      PickedMembers(p, rest, fewer);
      assert p.Pick(order) == [p.candidates[x]] + p.Pick(rest);
      TakeOneMore(p.candidates, fewer, x);
      assert fewer[x := true] == taken;
    }
  }

  /** The items whose flag is set. */
  function Taken(items: seq<Scored>, taken: seq<bool>): seq<Scored>
    requires |taken| == |items|
  {
    if items == [] then []
    else
      var n := |items| - 1;
      Taken(items[..n], taken[..n]) + if taken[n] then [items[n]] else []
  }

  lemma {:induction false} NoneTaken(items: seq<Scored>, taken: seq<bool>)
    requires |taken| == |items| && forall i :: 0 <= i < |taken| ==> !taken[i]
    ensures Taken(items, taken) == []
  {
    if items != [] {
      NoneTaken(items[..|items| - 1], taken[..|items| - 1]);
    }
  }

  lemma {:induction false} AllTaken(items: seq<Scored>, taken: seq<bool>)
    requires |taken| == |items| && forall i :: 0 <= i < |taken| ==> taken[i]
    ensures Taken(items, taken) == items
  {
    if items != [] {
      AllTaken(items[..|items| - 1], taken[..|items| - 1]);
    }
  }

  lemma {:induction false} TakeOneMore(items: seq<Scored>, taken: seq<bool>, x: nat)
    requires |taken| == |items| && x < |items| && !taken[x]
    ensures multiset(Taken(items, taken[x := true])) == multiset(Taken(items, taken)) + multiset{items[x]}
  {
    var n := |items| - 1;
    var more := taken[x := true];
    if x == n {
      assert more[..n] == taken[..n];
    } else {
      assert more[..n] == taken[..n][x := true];
      TakeOneMore(items[..n], taken[..n], x);
    }
  }

  /** The result is a permutation of the candidates, with their original scores. */
  lemma MmrPermutes(p: Problem, order: seq<nat>)
    requires p.IsMmr(order)
    ensures multiset(p.Pick(order)) == multiset(p.candidates)
  {
    var taken := seq(|p.candidates|, _ => true);
    PickedMembers(p, order, taken);
    AllTaken(p.candidates, taken);
  }

  lemma RelOrder(p: Problem, i: nat, j: nat)
    requires i < |p.candidates| && j < |p.candidates|
    ensures p.candidates[i].score >= p.candidates[j].score <==> p.Rel(i) >= p.Rel(j)
    ensures 0.0 <= p.Rel(i) <= 1.0
  {
    var low, high := MinScore(p.candidates), MaxScore(p.candidates);
    assert low <= p.candidates[i].score <= high && low <= p.candidates[j].score <= high;
    if high - low > 0.0 {
      Ratio(p.candidates[i].score - low, p.candidates[j].score - low, high - low);
    }
  }

  lemma Ratio(x: real, y: real, d: real)
    requires d > 0.0 && 0.0 <= x <= d
    ensures x >= y <==> x / d >= y / d
    ensures 0.0 <= x / d <= 1.0
  {
    var p, q := x / d, y / d;
    assert p * d == x && q * d == y;
    Cancel(p, q, d);
    if p >= q {
      assert (p - q) * d >= 0.0;
    }
    Cancel(p, 0.0, d);
    Cancel(1.0, p, d);
  }

  lemma Cancel(p: real, q: real, d: real)
    requires d > 0.0
    ensures p * d >= q * d ==> p >= q
  {
    if p < q {
      assert (q - p) * d > 0.0;
    }
  }

  /** `a` comes before `b` in a stable sort by score. */
  predicate Ahead(p: Problem, a: nat, b: nat)
    requires a < |p.candidates| && b < |p.candidates|
  {
    p.candidates[a].score > p.candidates[b].score || (p.candidates[a].score == p.candidates[b].score && a < b)
  }

  lemma AheadScores(p: Problem, a: nat, b: nat)
    requires a < |p.candidates| && b < |p.candidates| && Ahead(p, a, b)
    ensures p.candidates[a].score >= p.candidates[b].score
  {
  }

  predicate SortedByScore(list: seq<Scored>) {
    forall i, j :: 0 <= i < j < |list| ==> list[i].score >= list[j].score
  }

  /** With `lambda` 1 diversity does not count: the result is the input stably sorted by score. */
  lemma RelevanceOnlySorts(p: Problem, order: seq<nat>, i: nat, j: nat)
    requires p.IsMmr(order) && p.lambda == 1.0 && i < j < |order|
    ensures Ahead(p, order[i], order[j])
  {
    hide Problem.Rel, Problem.MaxSim, Blend;
    var a, b := order[i], order[j];
    assert p.Wins(a, order[..i]) && b !in order[..i] && a != b;
    OnlyRelevance(p.Rel(a), p.MaxSim(a, order[..i]));
    OnlyRelevance(p.Rel(b), p.MaxSim(b, order[..i]));
    RelOrder(p, a, b);
    RelOrder(p, b, a);
  }

  lemma {:induction false} RelevanceOnlyKeepsOrder(p: Problem, order: seq<nat>, n: nat)
    requires p.IsMmr(order) && p.lambda == 1.0 && n <= |order|
    requires SortedByScore(p.candidates)
    ensures forall t :: 0 <= t < n ==> order[t] == t
  {
    if n > 0 {
      RelevanceOnlyKeepsOrder(p, order, n - 1);
      NextInOrder(p, order, n - 1);
    }
  }

  lemma NextInOrder(p: Problem, order: seq<nat>, t: nat)
    requires p.IsMmr(order) && p.lambda == 1.0 && t < |order|
    requires SortedByScore(p.candidates)
    requires forall i :: 0 <= i < t ==> order[i] == i
    ensures order[t] == t
  {
    NotEarlier(order, t);
    assert t in order;
    var k :| 0 <= k < |order| && order[k] == t;
    assert k >= t;
    if k > t {
      RelevanceOnlySorts(p, order, t, k);
    }
  }

  /** After the identity up to `t` a new element is not an old one. */
  lemma NotEarlier(order: seq<nat>, t: nat)
    requires t < |order| && forall i :: 0 <= i < t ==> order[i] == i
    requires forall i :: 0 <= i < t ==> order[i] != order[t]
    ensures order[t] >= t
  {
    var x := if order[t] < t then order[t] else t;
    var y := order[x];
  }

  lemma OnlyRelevance(rel: real, sim: real)
    ensures Blend(1.0, rel, sim) == rel
  {
  }

  /** So the input comes back as it is exactly when it was sorted by score. */
  lemma RelevanceOnlyIsIdentity(p: Problem, order: seq<nat>)
    requires p.IsMmr(order) && p.lambda == 1.0
    ensures p.Pick(order) == p.candidates <==> SortedByScore(p.candidates)
  {
    hide Problem.GreedyUpTo, Ahead;
    if SortedByScore(p.candidates) {
      RelevanceOnlyKeepsOrder(p, order, |order|);
    }
    if p.Pick(order) == p.candidates {
      forall i, j | 0 <= i < j < |order|
        ensures p.candidates[i].score >= p.candidates[j].score
      {
        RelevanceOnlySorts(p, order, i, j);
        AheadScores(p, order[i], order[j]);
        assert p.Pick(order)[i] == p.candidates[order[i]] && p.Pick(order)[j] == p.candidates[order[j]];
      }
    }
  }

  /** A candidate whose relevance leads by more than `(1 - lambda) / lambda` is never overtaken,
      however similar it is to what was picked. */
  lemma RelevanceLeadHolds(p: Problem, order: seq<nat>, a: nat, b: nat, s: nat, t: nat)
    requires p.IsMmr(order) && IsSquareRoot(p.sqrt) && 0.0 < p.lambda <= 1.0
    requires a < |p.candidates| && b < |p.candidates|
    requires p.Rel(a) - p.Rel(b) > (1.0 - p.lambda) / p.lambda
    requires s < |order| && t < |order| && order[s] == a && order[t] == b
    ensures s < t
  {
    hide Problem.Rel, Problem.MaxSim, Blend;
    if t < s {
      var picked := order[..t];
      assert p.Wins(b, picked);
      assert a !in picked;
      MaxSimBounded(p, a, picked);
      MaxSimBounded(p, b, picked);
      LeadBeatsPenalty(p.lambda, p.Rel(a), p.Rel(b), p.MaxSim(a, picked), p.MaxSim(b, picked));
    }
    LeadIsPositive(p.lambda);
  }

  lemma LeadIsPositive(weight: real)
    requires 0.0 < weight <= 1.0
    ensures (1.0 - weight) / weight >= 0.0
  {
  }

  lemma LeadBeatsPenalty(weight: real, relA: real, relB: real, simA: real, simB: real)
    requires 0.0 < weight <= 1.0 && 0.0 <= simA <= 1.0 && 0.0 <= simB <= 1.0
    requires relA - relB > (1.0 - weight) / weight
    ensures Blend(weight, relA, simA) > Blend(weight, relB, simB)
  {
    var rest := 1.0 - weight;
    var gap, lead := rest / weight, relA - relB;
    assert gap * weight == rest;
    Times(lead, gap, weight);
    Times(1.0, simA, rest);
    Times(simB, 0.0, rest);
    assert lead * weight > rest;
    assert simA * rest <= rest && simB * rest >= 0.0;
    assert lead * weight == weight * relA - weight * relB;
    assert simA * rest == (1.0 - weight) * simA && simB * rest == (1.0 - weight) * simB;
  }

  lemma Times(x: real, y: real, factor: real)
    requires factor >= 0.0
    ensures x >= y ==> x * factor >= y * factor
    ensures x > y && factor > 0.0 ==> x * factor > y * factor
  {
    if x > y && factor > 0.0 {
      assert (x - y) * factor > 0.0;
    }
  }

  // ---------------------------------------------------------------------------------------
  // Relevance against redundancy, in scores and dot products
  // ---------------------------------------------------------------------------------------

  /** The cosine of two candidates' stored vectors; 0 when one has none. */
  ghost predicate Alike(p: Problem, i: nat, j: nat, c: real)
    requires i < |p.candidates| && j < |p.candidates|
  {
    var x, y := p.candidates[i].id, p.candidates[j].id;
    if x in p.embeddings && y in p.embeddings then IsCosine(c, p.embeddings[x], p.embeddings[y]) else c == 0.0
  }

  /** `m` is 0 or a similarity of `i` to a selected candidate, and none of these is larger. */
  ghost predicate IsRedundancy(p: Problem, i: nat, selected: seq<nat>, m: real)
    requires i < |p.candidates| && p.Valid(selected)
  {
    && m >= 0.0
    && (forall k, c :: 0 <= k < |selected| && Alike(p, i, selected[k], c) ==> c <= m)
    && (m == 0.0 || exists k :: 0 <= k < |selected| && Alike(p, i, selected[k], m))
  }

  lemma SimilarityIsAlike(p: Problem, i: nat, j: nat, c: real)
    requires IsSquareRoot(p.sqrt) && i < |p.candidates| && j < |p.candidates|
    ensures Alike(p, i, j, c) <==> c == p.Similarity(i, j)
  {
    hide Dot, Cosine, IsCosine;
    var a, b := p.VectorOf(p.candidates[i].id), p.VectorOf(p.candidates[j].id);
    CosineIsCosine(p.sqrt, a, b, c);
    CosineOfNothing(p.sqrt, a, b);
  }

  lemma CosineOfNothing(sqrt: real -> real, a: Vector, b: Vector)
    ensures a == [] || b == [] ==> Cosine(sqrt, a, b) == 0.0
  {
  }

  lemma {:induction false} MaxSimIsRedundancy(p: Problem, i: nat, selected: seq<nat>)
    requires IsSquareRoot(p.sqrt) && i < |p.candidates| && p.Valid(selected)
    ensures IsRedundancy(p, i, selected, p.MaxSim(i, selected))
  {
    hide Problem.Similarity, Alike;
    if selected != [] {
      var n := |selected| - 1;
      MaxSimIsRedundancy(p, i, selected[..n]);
      SimilarityIsAlike(p, i, selected[n], p.Similarity(i, selected[n]));
      var m := p.MaxSim(i, selected);
      forall k, c | 0 <= k < |selected| && Alike(p, i, selected[k], c)
        ensures c <= m
      {
        SimilarityIsAlike(p, i, selected[k], c);
        assert k < n ==> selected[..n][k] == selected[k];
      }
      if m != 0.0 && m == p.MaxSim(i, selected[..n]) {
        var k :| 0 <= k < n && Alike(p, i, selected[..n][k], m);
        assert selected[k] == selected[..n][k];
      }
    }
  }

  lemma RedundancyIsUnique(p: Problem, i: nat, selected: seq<nat>, m: real, n: real)
    requires i < |p.candidates| && p.Valid(selected)
    requires IsRedundancy(p, i, selected, m) && IsRedundancy(p, i, selected, n)
    ensures m == n
  {
    hide Alike;
  }

  lemma PickedOver(p: Problem, order: seq<nat>, s: nat, t: nat)
    requires p.IsMmr(order) && s < t < |order|
    ensures var picked := order[..s];
            var x, y := p.Marginal(order[s], picked), p.Marginal(order[t], picked);
            x > y || (x == y && order[s] < order[t])
  {
    hide Problem.Marginal;
    assert p.Wins(order[s], order[..s]) && order[t] !in order[..s] && order[s] != order[t];
  }

  /** A score that leads by `gap`, in a list whose scores span `range`, with redundancies `m` against `n`:
      `weight` times the lead makes up for what `1 - weight` takes off for being more redundant. When all
      scores are equal redundancy alone counts. Of equals the earlier input goes first. */
  predicate Outweighs(weight: real, gap: real, range: real, m: real, n: real, earlier: bool) {
    var penalty := (1.0 - weight) * (m - n);
    if range == 0.0 then penalty < 0.0 || (penalty == 0.0 && earlier)
    else weight * gap > penalty * range || (weight * gap == penalty * range && earlier)
  }

  /** How much the score of `a` leads that of `b`. */
  function Gap(p: Problem, a: nat, b: nat): real
    requires a < |p.candidates| && b < |p.candidates|
  {
    p.candidates[a].score - p.candidates[b].score
  }

  function ScoreRange(p: Problem): real
    requires p.candidates != []
  {
    MaxScore(p.candidates) - MinScore(p.candidates)
  }

  /** The rule of the selection in scores and cosines alone: each candidate outweighs every later one. */
  lemma PickedIsBest(p: Problem, order: seq<nat>, s: nat, t: nat, m: real, n: real)
    requires p.IsMmr(order) && IsSquareRoot(p.sqrt) && s < t < |order|
    requires IsRedundancy(p, order[s], order[..s], m) && IsRedundancy(p, order[t], order[..s], n)
    ensures Outweighs(p.lambda, Gap(p, order[s], order[t]), ScoreRange(p), m, n, order[s] < order[t])
  {
    hide Problem.Rel, Problem.MaxSim, IsRedundancy, Blend, Outweighs, IsShare, ScoreRange, Gap;
    var a, b, picked := order[s], order[t], order[..s];
    PickedOver(p, order, s, t);
    MaxSimIsRedundancy(p, a, picked);
    MaxSimIsRedundancy(p, b, picked);
    RedundancyIsUnique(p, a, picked, m, p.MaxSim(a, picked));
    RedundancyIsUnique(p, b, picked, n, p.MaxSim(b, picked));
    RelInScores(p, a, b);
    InUnits(p.lambda, p.Rel(a), p.Rel(b), Gap(p, a, b), m, n, ScoreRange(p), a < b);
  }

  lemma RelInScores(p: Problem, i: nat, j: nat)
    requires i < |p.candidates| && j < |p.candidates|
    ensures ScoreRange(p) >= 0.0
    ensures IsShare(p.Rel(i) - p.Rel(j), Gap(p, i, j), ScoreRange(p))
  {
    hide IsShare, MinScore, MaxScore;
    var low, high := MinScore(p.candidates), MaxScore(p.candidates);
    assert low <= p.candidates[i].score <= high;
    Quotients(p.candidates[i].score - low, p.candidates[j].score - low, high - low);
  }

  /** `share` is `gap` in units of `range`, or nothing when there is no range. */
  predicate IsShare(share: real, gap: real, range: real) {
    if range == 0.0 then share == 0.0 else share * range == gap
  }

  lemma Quotients(x: real, y: real, d: real)
    requires d >= 0.0
    ensures IsShare(if d > 0.0 then x / d - y / d else 0.0, x - y, d)
  {
    if d > 0.0 {
      var p, q := x / d, y / d;
      assert p * d == x && q * d == y;
      assert (p - q) * d == p * d - q * d;
    }
  }

  /** A comparison of two blends, multiplied by the range. */
  lemma InUnits(weight: real, relA: real, relB: real, gap: real, m: real, n: real, range: real, earlier: bool)
    requires range >= 0.0 && IsShare(relA - relB, gap, range)
    ensures var x, y := Blend(weight, relA, m), Blend(weight, relB, n);
            x > y || (x == y && earlier) <==> Outweighs(weight, gap, range, m, n, earlier)
  {
    var x, y := Blend(weight, relA, m), Blend(weight, relB, n);
    var penalty, rel := (1.0 - weight) * (m - n), weight * (relA - relB);
    assert x - y == rel - penalty;
    if range > 0.0 {
      assert rel * range == weight * gap;
      SignOfProduct(rel - penalty, range);
      assert (rel - penalty) * range == weight * gap - penalty * range;
    } else {
      assert rel == 0.0;
    }
  }

  lemma SignOfProduct(d: real, factor: real)
    requires factor > 0.0
    ensures (d > 0.0 <==> d * factor > 0.0) && (d == 0.0 <==> d * factor == 0.0)
  {
    if d < 0.0 {
      assert -d * factor > 0.0;
    }
  }

  /** Nothing makes the two similar: one has no vector, or they are at a right angle or more. */
  predicate Unlike(embeddings: map<string, Vector>, x: string, y: string) {
    x in embeddings && y in embeddings && |embeddings[x]| == |embeddings[y]| ==> Dot(embeddings[x], embeddings[y]) <= 0.0
  }

  /** The two have the same vector, which is not zero. */
  predicate Copies(embeddings: map<string, Vector>, x: string, y: string) {
    && x in embeddings && y in embeddings && embeddings[x] == embeddings[y]
    && Dot(embeddings[x], embeddings[x]) > 0.0
  }

  lemma UnlikeHasNoRedundancy(p: Problem, i: nat, selected: seq<nat>)
    requires i < |p.candidates| && p.Valid(selected)
    requires forall k :: 0 <= k < |selected| ==> Unlike(p.embeddings, p.candidates[i].id, p.candidates[selected[k]].id)
    ensures IsRedundancy(p, i, selected, 0.0)
  {
    hide Dot, IsCosine;
    forall k, c | 0 <= k < |selected| && Alike(p, i, selected[k], c)
      ensures c <= 0.0
    {
      var x, y := p.candidates[i].id, p.candidates[selected[k]].id;
      assert Unlike(p.embeddings, x, y);
      if x in p.embeddings && y in p.embeddings {
        CosineAtExtremes(c, p.embeddings[x], p.embeddings[y]);
        if |p.embeddings[x]| != |p.embeddings[y]| {
          DifferentLengths(c, p.embeddings[x], p.embeddings[y]);
        }
      }
    }
  }

  lemma DifferentLengths(c: real, a: Vector, b: Vector)
    requires IsCosine(c, a, b) && |a| != |b|
    ensures c == 0.0
  {
  }

  lemma CopyIsRedundant(p: Problem, j: nat, selected: seq<nat>, u: nat)
    requires IsSquareRoot(p.sqrt) && j < |p.candidates| && p.Valid(selected) && u < |selected|
    requires Copies(p.embeddings, p.candidates[j].id, p.candidates[selected[u]].id)
    ensures IsRedundancy(p, j, selected, 1.0)
  {
    hide Dot, IsCosine, Cosine;
    var v := p.embeddings[p.candidates[j].id];
    MaxSimIsRedundancy(p, j, selected);
    MaxSimBounded(p, j, selected);
    CosineIsCosine(p.sqrt, v, v, Cosine(p.sqrt, v, v));
    CosineAtExtremes(Cosine(p.sqrt, v, v), v, v);
    assert Alike(p, j, selected[u], 1.0);
  }

  lemma CopyIsOutweighed(weight: real, gap: real, range: real, earlier: bool)
    requires 0.0 <= weight < 1.0 && (range == 0.0 || weight * gap < (1.0 - weight) * range)
    ensures !Outweighs(weight, gap, range, 1.0, 0.0, earlier)
  {
  }

  lemma CopyPickedFirst(p: Problem, order: seq<nat>, s: nat, t: nat, u: nat)
    requires p.IsMmr(order) && IsSquareRoot(p.sqrt) && u < t < s < |order|
    requires Copies(p.embeddings, p.candidates[order[t]].id, p.candidates[order[u]].id)
    requires forall k :: 0 <= k < t ==> Unlike(p.embeddings, p.candidates[order[s]].id, p.candidates[order[k]].id)
    ensures Outweighs(p.lambda, Gap(p, order[t], order[s]), ScoreRange(p), 1.0, 0.0, order[t] < order[s])
  {
    hide Unlike, Copies, IsRedundancy, Outweighs, Problem.GreedyUpTo, Gap, ScoreRange;
    var picked := order[..t];
    CopyIsRedundant(p, order[t], picked, u);
    UnlikeHasNoRedundancy(p, order[s], picked);
    PickedIsBest(p, order, t, s, 1.0, 0.0);
  }

  /** A copy of something already picked falls behind a candidate unlike everything picked so far, unless
      its score leads by more than the weights allow. */
  lemma CopyFallsBehind(p: Problem, order: seq<nat>, s: nat, t: nat, u: nat)
    requires p.IsMmr(order) && IsSquareRoot(p.sqrt) && 0.0 <= p.lambda < 1.0
    requires s < |order| && t < |order| && s != t && u < s && u < t
    requires Copies(p.embeddings, p.candidates[order[t]].id, p.candidates[order[u]].id)
    requires forall k :: 0 <= k < t && k != s ==> Unlike(p.embeddings, p.candidates[order[s]].id, p.candidates[order[k]].id)
    requires var range := MaxScore(p.candidates) - MinScore(p.candidates);
             var lead := p.candidates[order[t]].score - p.candidates[order[s]].score;
             range == 0.0 || p.lambda * lead < (1.0 - p.lambda) * range
    ensures s < t
  {
    hide Unlike, Copies, Outweighs, Problem.GreedyUpTo, MinScore, MaxScore;
    if t < s {
      CopyPickedFirst(p, order, s, t, u);
      CopyIsOutweighed(p.lambda, Gap(p, order[t], order[s]), ScoreRange(p), order[t] < order[s]);
    }
  }
}
