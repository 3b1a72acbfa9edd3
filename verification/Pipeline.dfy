/** The stages of `search_code` in their order: fusion, boost, overlap dedup, diversity, take-k,
    hydration, content dedup. */
module Pipeline {
  import opened ChunkIds
  import opened Dedup
  import opened Fusion
  import opened Mmr
  import opened Ordering
  import opened Vectors

  const MMR_LAMBDA: real := 0.7

  /** The index as one search sees it: hydration gives a chunk's content fingerprint, or nothing
      when the chunk is gone. */
  datatype Index = Index(
    imports: seq<ImportRow>,
    tokens: string -> set<string>,
    embeddings: map<string, Vector>,
    hydrate: string -> Option<set<string>>)

  /** Positions, in increasing order, that pick the hits out of the ranked list. */
  ghost predicate HitsFrom(hits: seq<Hit>, list: seq<Scored>, at: seq<nat>) {
    && |at| == |hits|
    && (forall i, j :: 0 <= i < j < |at| ==> at[i] < at[j])
    && (forall i :: 0 <= i < |at| ==>
          at[i] < |list| && hits[i].chunkId == list[at[i]].id && hits[i].score == list[at[i]].score)
  }

  /** Each hit's fingerprint is what hydration gives for its id. */
  ghost predicate AsHydrated(index: Index, hits: seq<Hit>) {
    forall i :: 0 <= i < |hits| ==> index.hydrate(hits[i].chunkId) == Some(hits[i].fingerprint)
  }

  ghost predicate AllBelow(at: seq<nat>, n: nat) {
    forall i :: 0 <= i < |at| ==> at[i] < n
  }

  /** A hit for this entry of the ranked list, with this fingerprint. */
  ghost predicate Shown(hits: seq<Hit>, x: Scored, fingerprint: set<string>) {
    exists j :: 0 <= j < |hits| && hits[j] == Hit(x.id, fingerprint, x.score)
  }

  /** Hit `j` stands at an earlier place of the ranked list than `i` and shares at least nine tenths of the tokens. */
  predicate ShadowedBy(hits: seq<Hit>, at: seq<nat>, j: nat, i: nat, fingerprint: set<string>) {
    && j < |hits| == |at| && at[j] < i
    && var all := hits[j].fingerprint + fingerprint;
       all != {} && 10 * |hits[j].fingerprint * fingerprint| >= 9 * |all|
  }

  ghost predicate NonIncreasing(list: seq<Scored>) {
    forall i, j :: 0 <= i < j < |list| ==> list[i].score >= list[j].score
  }

  /** No two entries of one file overlap by more than half of the shorter range. */
  ghost predicate Apart(list: seq<Scored>) {
    forall i, j :: 0 <= i < |list| && 0 <= j < |list| && i != j ==> !SameFileOverlap(list[i].id, list[j].id)
  }

  ghost predicate FromLists(list: seq<Scored>, bm25: seq<Scored>, vector: seq<Scored>) {
    forall i :: 0 <= i < |list| ==> Rank(bm25, list[i].id).Some? || Rank(vector, list[i].id).Some?
  }

  /** What holds of the ranked list from fusion to take-k. */
  ghost predicate Ranked(list: seq<Scored>, bm25: seq<Scored>, vector: seq<Scored>) {
    DistinctIds(list) && FromLists(list, bm25, vector)
  }

  lemma FusionIsRanked(q: Query, out: seq<Scored>)
    requires IsFusion(q, out)
    ensures Ranked(out, q.bm25, q.vector) && NonIncreasing(out)
  {
    forall i, j | 0 <= i < j < |out|
      ensures out[i].score >= out[j].score && out[i].id != out[j].id
    {
      FusedOrderIsStrictTotal(q);
      assert FusedOrder(q)(out[i], out[j]);
    }
  }

  lemma SameMembersRanked(a: seq<Scored>, b: seq<Scored>, bm25: seq<Scored>, vector: seq<Scored>)
    requires Ranked(a, bm25, vector) && multiset(a) == multiset(b)
    ensures Ranked(b, bm25, vector)
    ensures Apart(a) ==> Apart(b)
  {
    SameMembersDistinctIds(a, b);
    forall i | 0 <= i < |b|
      ensures b[i] in a
    {
      assert b[i] in multiset(a);
    }
    if Apart(a) {
      forall i, j | 0 <= i < |b| && 0 <= j < |b| && i != j
        ensures !SameFileOverlap(b[i].id, b[j].id)
      {
        assert b[i] in a && b[j] in a && b[i] != b[j];
      }
    }
  }

  lemma BoostedIsRanked(files: set<string>, fused: seq<Scored>, bm25: seq<Scored>, vector: seq<Scored>)
    requires Ranked(fused, bm25, vector)
    ensures Ranked(BoostAll(files, fused), bm25, vector)
  {
    var all := BoostAll(files, fused);
    assert forall i :: 0 <= i < |fused| ==> all[i].id == fused[i].id;
  }

  lemma PicksKeepRanked(list: seq<Scored>, kept: seq<Scored>, at: seq<nat>, bm25: seq<Scored>, vector: seq<Scored>)
    requires Ranked(list, bm25, vector) && PicksFrom(kept, list, at)
    ensures Ranked(kept, bm25, vector)
    ensures NonIncreasing(list) ==> NonIncreasing(kept)
  {
  }

  /** The outcome of the boost: the entries of files with a matching import gain the bonus, and the
      list is sorted again when there is such a file at all. */
  ghost predicate IsBoosted(index: Index, query: set<string>, fused: seq<Scored>, out: seq<Scored>) {
    exists files :: BoostedWith(index, query, fused, out, files)
  }

  ghost predicate BoostedWith(index: Index, query: set<string>, fused: seq<Scored>, out: seq<Scored>, files: set<string>) {
    && AreMatching(index.imports, index.tokens, query, files)
    && (files == {} ==> out == fused)
    && (files != {} ==> Sorted(BoostedBefore, out))
    && multiset(out) == multiset(BoostAll(files, fused))
  }

  /** The lists between the stages of one search. */
  datatype Stages = Stages(fused: seq<Scored>, boosted: seq<Scored>, apart: seq<Scored>, ranked: seq<Scored>)

  ghost predicate IsDiversified(p: Problem, out: seq<Scored>) {
    exists order :: p.IsMmr(order) && out == p.Pick(order)
  }

  /** Each list is what its stage makes of the one before. */
  ghost predicate StagesOf(index: Index, sqrt: real -> real, query: set<string>, q: Query,
                           boostImports: bool, diversify: bool, s: Stages) {
    && IsFusion(q, s.fused)
    && (if boostImports then IsBoosted(index, query, s.fused, s.boosted) else s.boosted == s.fused)
    && s.apart == Greedy(OverlapDuplicate, s.boosted, |s.boosted|)
    && (if diversify then IsDiversified(Problem(s.apart, index.embeddings, MMR_LAMBDA, sqrt), s.ranked)
        else s.ranked == s.apart)
  }

  /** The first `k` of the ranked list, hydrated. */
  function Top(index: Index, ranked: seq<Scored>, k: nat): seq<Hit> {
    Hydrated(index, ranked, if k < |ranked| then k else |ranked|)
  }

  /** Optional boost: a new order of the same ids. */
  method BoostStage(index: Index, query: set<string>, fused: seq<Scored>, ghost bm25: seq<Scored>, ghost vector: seq<Scored>)
    returns (out: seq<Scored>)
    requires Ranked(fused, bm25, vector) && NonIncreasing(fused)
    ensures Ranked(out, bm25, vector) && NonIncreasing(out)
    ensures IsBoosted(index, query, fused, out)
  {
    ghost var files;
    out, files := ApplyStructuralBoost(index.imports, index.tokens, query, fused);
    BoostedIsRanked(files, fused, bm25, vector);
    SameMembersRanked(BoostAll(files, fused), out, bm25, vector);
    assert BoostedWith(index, query, fused, out, files);
  }

  /** The hits of the first `n` ranked ids, without the chunks that are gone. */
  function Hydrated(index: Index, list: seq<Scored>, n: nat): seq<Hit>
    requires n <= |list|
  {
    if n == 0 then []
    else
      var found := index.hydrate(list[n - 1].id);
      Hydrated(index, list, n - 1)
      + if found.Some? then [Hit(list[n - 1].id, found.value, list[n - 1].score)] else []
  }

  /** Hydrates the first `k` ranked ids. */
  method HydrateTop(index: Index, list: seq<Scored>, k: nat) returns (hits: seq<Hit>, ghost at: seq<nat>)
    ensures hits == Top(index, list, k)
    ensures |hits| <= k && HitsFrom(hits, list, at) && AllBelow(at, k) && AsHydrated(index, hits)
  {
    hits := [];
    at := [];
    var top := if k < |list| then k else |list|;
    for i := 0 to top
      invariant hits == Hydrated(index, list, i)
      invariant |hits| <= i && HitsFrom(hits, list, at) && AllBelow(at, i) && AsHydrated(index, hits)
    {
      var found := index.hydrate(list[i].id);
      if found.Some? {
        hits := hits + [Hit(list[i].id, found.value, list[i].score)];
        at := at + [i];
      }
    }
  }

  lemma HitsOfHits(index: Index, hits: seq<Hit>, kept: seq<Hit>, list: seq<Scored>, k: nat, at: seq<nat>, picks: seq<nat>)
    returns (at': seq<nat>)
    requires HitsFrom(hits, list, at) && PicksFrom(kept, hits, picks) && AllBelow(at, k) && AsHydrated(index, hits)
    ensures HitsFrom(kept, list, at') && |kept| <= |hits| && AllBelow(at', k) && AsHydrated(index, kept)
  {
    at' := seq(|picks|, i requires 0 <= i < |picks| => at[picks[i]]);
    PicksAreFewer(picks, |hits|);
  }

  lemma {:induction false} PicksAreFewer(picks: seq<nat>, n: nat)
    requires forall i, j :: 0 <= i < j < |picks| ==> picks[i] < picks[j]
    requires forall i :: 0 <= i < |picks| ==> picks[i] < n
    ensures |picks| <= n
  {
    if picks != [] {
      PicksAreFewer(picks[..|picks| - 1], picks[|picks| - 1]);
    }
  }

  /** A hydrated entry is a hit, and the hits before it come from entries before it. */
  lemma {:induction false} HydratedHas(index: Index, list: seq<Scored>, n: nat, i: nat)
    requires i < n <= |list|
    ensures Hydrated(index, list, i) <= Hydrated(index, list, n)
    ensures index.hydrate(list[i].id).Some? ==>
              && |Hydrated(index, list, i)| < |Hydrated(index, list, n)|
              && Hydrated(index, list, n)[|Hydrated(index, list, i)|]
                 == Hit(list[i].id, index.hydrate(list[i].id).value, list[i].score)
  {
    if i < n - 1 {
      HydratedHas(index, list, n - 1, i);
    }
  }

  lemma {:induction false} HydratedComesFrom(index: Index, list: seq<Scored>, n: nat, m: nat) returns (i: nat)
    requires n <= |list| && m < |Hydrated(index, list, n)|
    ensures i < n && Hydrated(index, list, n)[m].chunkId == list[i].id
  {
    if m < |Hydrated(index, list, n - 1)| {
      i := HydratedComesFrom(index, list, n - 1, m);
    } else {
      i := n - 1;
    }
  }

  /** Every hydrated entry of the top `k` is shown, or a hit from an earlier entry shadows it. */
  lemma TopIsReturned(index: Index, list: seq<Scored>, k: nat, hits: seq<Hit>, at: seq<nat>, i: nat)
    requires DistinctIds(list) && HitsFrom(hits, list, at)
    requires hits == Greedy(ContentDuplicate, Top(index, list, k), |Top(index, list, k)|)
    requires i < k && i < |list| && index.hydrate(list[i].id).Some?
    ensures var f := index.hydrate(list[i].id).value;
            Shown(hits, list[i], f) || exists j :: ShadowedBy(hits, at, j, i, f)
  {
    hide Hydrated, Greedy;
    var n := if k < |list| then k else |list|;
    var all := Hydrated(index, list, n);
    var m := |Hydrated(index, list, i)|;
    HydratedHas(index, list, n, i);
    var j, m' := ContentKept(all, m);
    if m' < m {
      var i' := HydratedComesFrom(index, list, i, m');
      assert all[m'] == Hydrated(index, list, i)[m'];
      assert list[at[j]].id == list[i'].id;
      SimilarIsSymmetric(all[m].fingerprint, hits[j].fingerprint);
      assert ShadowedBy(hits, at, j, i, all[m].fingerprint);
    }
  }

  /** Optional diversity: a new order of the same entries. */
  method DiversityStage(index: Index, sqrt: real -> real, fused: seq<Scored>, ghost bm25: seq<Scored>, ghost vector: seq<Scored>)
    returns (out: seq<Scored>)
    requires IsSquareRoot(sqrt) && Ranked(fused, bm25, vector) && Apart(fused)
    ensures Ranked(out, bm25, vector) && Apart(out)
    ensures IsDiversified(Problem(fused, index.embeddings, MMR_LAMBDA, sqrt), out)
  {
    hide SameFileOverlap, Rank;
    var p := Problem(fused, index.embeddings, MMR_LAMBDA, sqrt);
    ghost var order;
    out, order := MmrRerank(p);
    MmrPermutes(p, order);
    SameMembersRanked(fused, out, bm25, vector);
  }

  /** The ranked list before hydration. */
  method RankChunks(index: Index, sqrt: real -> real, query: set<string>, q: Query, boostImports: bool, diversify: bool)
    returns (ranked: seq<Scored>, ghost s: Stages)
    requires IsSquareRoot(sqrt)
    ensures Ranked(ranked, q.bm25, q.vector) && Apart(ranked)
    ensures !diversify ==> NonIncreasing(ranked)
    ensures s.ranked == ranked && StagesOf(index, sqrt, query, q, boostImports, diversify, s)
  {
    hide SameFileOverlap, Rank, Ranked, IsFusion, IsBoosted, IsDiversified;
    var fused := RrfFuseWeighted(q.bm25, q.vector, q.k, q.bm25Weight, q.vectorWeight);
    FusionIsRanked(q, fused);
    ghost var first := fused;
    if boostImports {
      fused := BoostStage(index, query, fused, q.bm25, q.vector);
    }

    ghost var boosted := fused;
    fused := DedupOverlapping(fused);
    ghost var kept := OverlapSurvivors(boosted);
    PicksKeepRanked(boosted, fused, kept, q.bm25, q.vector);

    ghost var apart := fused;
    if diversify {
      fused := DiversityStage(index, sqrt, fused, q.bm25, q.vector);
    }
    ranked := fused;
    s := Stages(first, boosted, apart, ranked);
  }

  /** `search_code` from the two ranked lists to the returned hits: the composition of its stages.
      Every entry among the first `k` of the ranked list whose chunk still exists is returned, unless a hit
      from an earlier entry shares at least nine tenths of its tokens; `at` gives the place of each hit in
      that list. For every combination of flags the hits have distinct ids, each from one of the lists, no two
      ranges of one file overlap by more than half of the shorter, no two fingerprints are 0.9 similar,
      and without the diversity stage the scores do not increase. */
  method SearchCode(index: Index, sqrt: real -> real, query: set<string>, q: Query, k: nat, boostImports: bool, diversify: bool)
    returns (hits: seq<Hit>, ghost s: Stages, ghost at: seq<nat>)
    requires IsSquareRoot(sqrt)
    ensures StagesOf(index, sqrt, query, q, boostImports, diversify, s)
    ensures hits == Greedy(ContentDuplicate, Top(index, s.ranked, k), |Top(index, s.ranked, k)|)
    ensures |hits| <= k && HitsFrom(hits, s.ranked, at) && AllBelow(at, k) && AsHydrated(index, hits)
    ensures forall i, f :: 0 <= i < k && i < |s.ranked| && index.hydrate(s.ranked[i].id) == Some(f) ==>
              Shown(hits, s.ranked[i], f) || exists j :: ShadowedBy(hits, at, j, i, f)
    ensures forall i :: 0 <= i < |hits| ==> q.Has(hits[i].chunkId)
    ensures forall i, j :: 0 <= i < j < |hits| ==> hits[i].chunkId != hits[j].chunkId
    ensures forall i, j :: 0 <= i < j < |hits| ==> !SameFileOverlap(hits[i].chunkId, hits[j].chunkId)
    ensures forall i, j :: 0 <= i < j < |hits| ==> !Similar(hits[i].fingerprint, hits[j].fingerprint)
    ensures !diversify ==> forall i, j :: 0 <= i < j < |hits| ==> hits[i].score >= hits[j].score
  {
    hide SameFileOverlap, Rank, Similar, StagesOf, Hydrated, Shown, ShadowedBy;
    var ranked;
    ranked, s := RankChunks(index, sqrt, query, q, boostImports, diversify);
    hits, at := HydrateTop(index, ranked, k);
    ghost var hydrated := hits;
    hits := DedupContent(hits);
    ghost var picks := ContentSurvivors(hydrated);
    at := HitsOfHits(index, hydrated, hits, ranked, k, at, picks);
    forall i, f | 0 <= i < k && i < |ranked| && index.hydrate(ranked[i].id) == Some(f)
      ensures Shown(hits, ranked[i], f) || exists j :: ShadowedBy(hits, at, j, i, f)
    {
      TopIsReturned(index, ranked, k, hits, at, i);
    }
  }

  // ---------------------------------------------------------------------------------------
  // What the ranked list holds
  // ---------------------------------------------------------------------------------------

  /** What an entry for these lines of this file gains: 0.01 when the boost is on and an import of the file shares
      a token with the query. */
  ghost predicate IsGain(index: Index, query: set<string>, boostImports: bool, path: string, gain: real) {
    gain == if boostImports && exists n, t: string :: && 0 <= n < |index.imports| && index.imports[n].path == path
                                                      && t in index.tokens(index.imports[n].source) && t in query
            then 0.01 else 0.0
  }

  lemma BoostedHas(index: Index, query: set<string>, boostImports: bool, fused: seq<Scored>, boosted: seq<Scored>,
                   n: nat, path: string, start: nat, end: nat, gain: real) returns (k: nat)
    requires if boostImports then IsBoosted(index, query, fused, boosted) else boosted == fused
    requires n < |fused| && fused[n].id == ChunkId(path, start, end) && start <= I64_MAX && end <= I64_MAX
    requires IsGain(index, query, boostImports, path, gain)
    ensures k < |boosted| && boosted[k] == Scored(fused[n].id, fused[n].score + gain)
  {
    hide ChunkId, ParseChunkId;
    k := n;
    if boostImports {
      var files :| BoostedWith(index, query, fused, boosted, files);
      BoostAdds(index.imports, index.tokens, query, files, fused, n, path, start, end);
      var x := BoostAll(files, fused)[n];
      assert x in multiset(boosted);
      k :| 0 <= k < |boosted| && boosted[k] == x;
    }
  }

  lemma BoostedFalls(index: Index, query: set<string>, q: Query, boostImports: bool, fused: seq<Scored>, boosted: seq<Scored>)
    requires IsFusion(q, fused)
    requires if boostImports then IsBoosted(index, query, fused, boosted) else boosted == fused
    ensures NonIncreasing(boosted)
  {
    FusionIsRanked(q, fused);
    if boostImports {
      var files :| BoostedWith(index, query, fused, boosted, files);
    }
  }

  lemma RankedIsApart(index: Index, sqrt: real -> real, query: set<string>, q: Query, boostImports: bool, diversify: bool, s: Stages)
    requires StagesOf(index, sqrt, query, q, boostImports, diversify, s)
    ensures multiset(s.ranked) == multiset(s.apart)
  {
    hide IsFusion, IsBoosted, Greedy;
    if diversify {
      var p := Problem(s.apart, index.embeddings, MMR_LAMBDA, sqrt);
      var order :| p.IsMmr(order) && s.ranked == p.Pick(order);
      MmrPermutes(p, order);
    }
  }

  /** The filter sees the boosted scores: an entry of the fused list is in the ranked list with its gain, or a
      ranked entry of the same file overlaps it by more than half and has at least the score that would give. */
  lemma StrongerStays(index: Index, sqrt: real -> real, query: set<string>, q: Query, boostImports: bool, diversify: bool,
                      s: Stages, n: nat, path: string, start: nat, end: nat, gain: real) returns (k: nat)
    requires StagesOf(index, sqrt, query, q, boostImports, diversify, s)
    requires n < |s.fused| && s.fused[n].id == ChunkId(path, start, end) && start <= I64_MAX && end <= I64_MAX
    requires IsGain(index, query, boostImports, path, gain)
    ensures k < |s.ranked|
    ensures || s.ranked[k] == Scored(s.fused[n].id, s.fused[n].score + gain)
            || (SameFileOverlap(s.fused[n].id, s.ranked[k].id) && s.ranked[k].score >= s.fused[n].score + gain)
  {
    hide SameFileOverlap, ChunkId, IsGain, IsBoosted, IsFusion, IsDiversified, Greedy;
    var m := BoostedHas(index, query, boostImports, s.fused, s.boosted, n, path, start, end, gain);
    BoostedFalls(index, query, q, boostImports, s.fused, s.boosted);
    var j, i := OverlapKept(s.boosted, m);
    RankedIsApart(index, sqrt, query, q, boostImports, diversify, s);
    assert s.apart[j] in multiset(s.ranked);
    k :| 0 <= k < |s.ranked| && s.ranked[k] == s.apart[j];
  }

  /** The weights of the diversity stage: of the entries the overlap filter leaves, one whose vector copies
      that of an entry ranked before comes after another unlike everything ranked so far, unless seven
      tenths of its lead in score reach three tenths of the range of scores. */
  lemma CopiesRankLower(index: Index, sqrt: real -> real, query: set<string>, q: Query, boostImports: bool, s: Stages,
                        a: nat, b: nat, c: nat)
    requires StagesOf(index, sqrt, query, q, boostImports, true, s) && IsSquareRoot(sqrt)
    requires a < |s.ranked| && b < |s.ranked| && a != b && c < a && c < b
    requires Copies(index.embeddings, s.ranked[b].id, s.ranked[c].id)
    requires forall k :: 0 <= k < b && k != a ==> Unlike(index.embeddings, s.ranked[a].id, s.ranked[k].id)
    requires s.apart != [] && 0.7 * (s.ranked[b].score - s.ranked[a].score) < 0.3 * (MaxScore(s.apart) - MinScore(s.apart))
    ensures a < b
  {
    hide Copies, Unlike, Problem.GreedyUpTo, MinScore, MaxScore, IsFusion, IsBoosted;
    var p := Problem(s.apart, index.embeddings, MMR_LAMBDA, sqrt);
    var order :| p.IsMmr(order) && s.ranked == p.Pick(order);
    assert forall k :: 0 <= k < |s.ranked| ==> s.ranked[k] == p.candidates[order[k]];
    CopyFallsBehind(p, order, a, b, c);
  }
}
