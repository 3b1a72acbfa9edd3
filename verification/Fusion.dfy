/** Weighted reciprocal rank fusion of a lexical and a vector ranking, and the structural boost. */
module Fusion {
  import opened ChunkIds
  import opened Ordering

  /** An entry of a ranked list. */
  datatype Scored = Scored(id: string, score: real)

  // ---------------------------------------------------------------------------------------
  // Ranks and scores
  // ---------------------------------------------------------------------------------------

  /** The 1-based position of the first entry with this id. */
  function Rank(list: seq<Scored>, id: string): Option<nat> {
    if list == [] then None
    else
      var init := list[..|list| - 1];
      match Rank(init, id)
      case Some(r) => Some(r)
      case None => if list[|list| - 1].id == id then Some(|list|) else None
  }

  lemma {:induction false} RankIs(list: seq<Scored>, id: string)
    ensures Rank(list, id).Some? ==> 1 <= Rank(list, id).value <= |list| && list[Rank(list, id).value - 1].id == id
    ensures Rank(list, id).Some? <==> exists i :: 0 <= i < |list| && list[i].id == id
    ensures forall i :: 0 <= i < |list| && list[i].id == id ==> Rank(list, id).Some? && Rank(list, id).value <= i + 1
  {
    if list != [] {
      RankIs(list[..|list| - 1], id);
    }
  }

  function Term(weight: real, k: nat, rank: nat): real
    requires rank > 0
  {
    weight / (k + rank) as real
  }

  /** What one list adds to an id's score. */
  function Share(list: seq<Scored>, id: string, k: nat, weight: real): real {
    match Rank(list, id)
    case None => 0.0
    case Some(r) => if r > 0 then Term(weight, k, r) else 0.0
  }

  datatype Query = Query(bm25: seq<Scored>, vector: seq<Scored>, k: nat, bm25Weight: real, vectorWeight: real) {
    function Score(id: string): real {
      Share(bm25, id, k, bm25Weight) + Share(vector, id, k, vectorWeight)
    }

    predicate Has(id: string) {
      Rank(bm25, id).Some? || Rank(vector, id).Some?
    }

    /** The rank used to break ties; ids the lexical list lacks come last. */
    function TieRank(id: string): nat {
      match Rank(bm25, id)
      case Some(r) => r
      case None => |bm25| + |vector| + 1
    }
  }

  /** Score descending, then lexical rank, then id. */
  predicate FusedBefore(q: Query, a: Scored, b: Scored) {
    || a.score > b.score
    || (a.score == b.score && q.TieRank(a.id) < q.TieRank(b.id))
    || (a.score == b.score && q.TieRank(a.id) == q.TieRank(b.id) && Less(a.id, b.id))
  }

  function FusedOrder(q: Query): (Scored, Scored) -> bool {
    (a: Scored, b: Scored) => FusedBefore(q, a, b)
  }

  lemma FusedOrderIsStrictTotal(q: Query)
    ensures StrictTotal(FusedOrder(q))
  {
    var lt := FusedOrder(q);
    forall a: Scored, b: Scored
      ensures lt(a, b) ==> !lt(b, a)
      ensures a != b ==> lt(a, b) || lt(b, a)
    {
      LessIsStrict(a.id, b.id);
    }
    forall a: Scored, b: Scored, c: Scored | lt(a, b) && lt(b, c)
      ensures lt(a, c)
    {
      if Less(a.id, b.id) && Less(b.id, c.id) {
        LessTransitive(a.id, b.id, c.id);
      }
    }
  }

  /** The fusion of two lists: every id of either list once, with its score, in `FusedOrder`. */
  ghost predicate IsFusion(q: Query, out: seq<Scored>) {
    && Sorted(FusedOrder(q), out)
    && (forall i :: 0 <= i < |out| ==> q.Has(out[i].id) && out[i].score == q.Score(out[i].id))
    && (forall id :: q.Has(id) ==> Scored(id, q.Score(id)) in out)
  }

  /** There is only one fusion: nothing depends on the order a hash map is read in. */
  lemma FusionUnique(q: Query, a: seq<Scored>, b: seq<Scored>)
    requires IsFusion(q, a) && IsFusion(q, b)
    ensures a == b
  {
    FusedOrderIsStrictTotal(q);
    forall x: Scored
      ensures multiset(a)[x] == multiset(b)[x]
    {
      OnceAtMost(FusedOrder(q), a, x);
      OnceAtMost(FusedOrder(q), b, x);
      FusionMember(q, a, x);
      FusionMember(q, b, x);
    }
    assert multiset(a) == multiset(b);
    SortedUnique(FusedOrder(q), a, b);
  }

  lemma FusionMember(q: Query, out: seq<Scored>, x: Scored)
    requires IsFusion(q, out)
    ensures x in out <==> q.Has(x.id) && x.score == q.Score(x.id)
  {
    if q.Has(x.id) && x.score == q.Score(x.id) {
      assert x == Scored(x.id, q.Score(x.id));
    }
  }

  lemma {:induction false} OnceAtMost(lt: (Scored, Scored) -> bool, s: seq<Scored>, x: Scored)
    requires StrictTotal(lt) && Sorted(lt, s)
    ensures multiset(s)[x] == if x in s then 1 else 0
  {
    if s != [] {
      OnceAtMost(lt, s[1..], x);
      assert s == [s[0]] + s[1..];
      if x == s[0] {
        assert x !in s[1..];
      }
    }
  }

  // ---------------------------------------------------------------------------------------
  // The algorithm
  // ---------------------------------------------------------------------------------------

  /** First-seen ranks, as a map. */
  method RankMap(list: seq<Scored>) returns (ranks: map<string, nat>)
    ensures forall id :: id in ranks <==> Rank(list, id).Some?
    ensures forall id :: id in ranks ==> ranks[id] == Rank(list, id).value
  {
    ranks := map[];
    for i := 0 to |list|
      invariant forall id :: id in ranks <==> Rank(list[..i], id).Some?
      invariant forall id :: id in ranks ==> ranks[id] == Rank(list[..i], id).value
    {
      assert list[..i + 1][..i] == list[..i];
      if list[i].id !in ranks {
        ranks := ranks[list[i].id := i + 1];
      }
    }
    assert list[..|list|] == list;
  }

  /** One accumulation loop: each id of `list` gains its share once, at its first rank. */
  method Accumulate(start: map<string, real>, list: seq<Scored>, k: nat, weight: real) returns (fused: map<string, real>)
    ensures forall id :: id in fused <==> id in start || Rank(list, id).Some?
    ensures forall id :: id in fused ==>
              fused[id] == (if id in start then start[id] else 0.0) + Share(list, id, k, weight)
  {
    fused := start;
    var seen: set<string> := {};
    for i := 0 to |list|
      invariant forall id :: id in seen <==> Rank(list[..i], id).Some?
      invariant forall id :: id in fused <==> id in start || Rank(list[..i], id).Some?
      invariant forall id :: id in fused ==>
                  fused[id] == (if id in start then start[id] else 0.0) + Share(list[..i], id, k, weight)
    {
      assert list[..i + 1][..i] == list[..i];
      var id := list[i].id;
      if id !in seen {
        seen := seen + {id};
        fused := fused[id := (if id in fused then fused[id] else 0.0) + weight / (k + i + 1) as real];
      }
    }
    assert list[..|list|] == list;
  }

  /** The entries of a map, in no particular order. */
  method Entries(fused: map<string, real>) returns (out: seq<Scored>)
    ensures Distinct(out)
    ensures forall x :: x in out <==> x.id in fused && x.score == fused[x.id]
  {
    out := [];
    var left := fused.Keys;
    while left != {}
      invariant left <= fused.Keys
      invariant Distinct(out)
      invariant forall x :: x in out <==> x.id in fused && x.id !in left && x.score == fused[x.id]
    {
      var id :| id in left;
      left := left - {id};
      out := out + [Scored(id, fused[id])];
    }
  }

  method RrfFuseWeighted(bm25: seq<Scored>, vector: seq<Scored>, k: nat, bm25Weight: real, vectorWeight: real)
    returns (out: seq<Scored>)
    ensures IsFusion(Query(bm25, vector, k, bm25Weight, vectorWeight), out)
  {
    ghost var q := Query(bm25, vector, k, bm25Weight, vectorWeight);
    var bm25Rank := RankMap(bm25);
    var fused := Accumulate(map[], bm25, k, bm25Weight);
    fused := Accumulate(fused, vector, k, vectorWeight);
    var sentinel := |bm25| + |vector| + 1;
    var before := (a: Scored, b: Scored) =>
      var ra := if a.id in bm25Rank then bm25Rank[a.id] else sentinel;
      var rb := if b.id in bm25Rank then bm25Rank[b.id] else sentinel;
      a.score > b.score || (a.score == b.score && ra < rb) || (a.score == b.score && ra == rb && Less(a.id, b.id));
    var entries := Entries(fused);
    out := Sort(before, entries);
    assert forall a, b :: before(a, b) == FusedOrder(q)(a, b);
    SortedEntriesFuse(q, before, entries);
  }

  lemma SortedEntriesFuse(q: Query, before: (Scored, Scored) -> bool, entries: seq<Scored>)
    requires forall a, b :: before(a, b) == FusedOrder(q)(a, b)
    requires Distinct(entries)
    requires forall x :: x in entries <==> q.Has(x.id) && x.score == q.Score(x.id)
    ensures IsFusion(q, Sort(before, entries))
  {
    FusedOrderIsStrictTotal(q);
    assert StrictTotal(before);
    SortSorted(before, entries);
    SortMembers(before, entries);
    var out := Sort(before, entries);
    forall x: Scored
      ensures x in out <==> x in entries
    {
      assert x in out <==> x in multiset(out);
      assert x in entries <==> x in multiset(entries);
    }
    forall id | q.Has(id)
      ensures Scored(id, q.Score(id)) in out
    {
      assert Scored(id, q.Score(id)) in entries;
    }
  }

  // ---------------------------------------------------------------------------------------
  // What the fused order means
  // ---------------------------------------------------------------------------------------

  predicate NoWorse(list: seq<Scored>, a: string, b: string) {
    Rank(list, b).Some? ==> Rank(list, a).Some? && Rank(list, a).value <= Rank(list, b).value
  }

  predicate Better(list: seq<Scored>, a: string, b: string) {
    Rank(list, a).Some? && (Rank(list, b).Some? ==> Rank(list, a).value < Rank(list, b).value)
  }

  ghost predicate Precedes(out: seq<Scored>, a: string, b: string) {
    exists i, j :: 0 <= i < j < |out| && out[i].id == a && out[j].id == b
  }

  lemma FusedBeforePrecedes(q: Query, out: seq<Scored>, a: string, b: string)
    requires IsFusion(q, out) && q.Has(a) && q.Has(b)
    requires FusedBefore(q, Scored(a, q.Score(a)), Scored(b, q.Score(b)))
    ensures Precedes(out, a, b)
  {
    FusedOrderIsStrictTotal(q);
    var i :| 0 <= i < |out| && out[i] == Scored(a, q.Score(a));
    var j :| 0 <= j < |out| && out[j] == Scored(b, q.Score(b));
    assert FusedOrder(q)(out[i], out[j]);
  }

  lemma TermsShrink(weight: real, k: nat, r: nat, s: nat)
    requires weight > 0.0 && 0 < r < s
    ensures Term(weight, k, r) > Term(weight, k, s) > 0.0
  {
    var x, y := (k + r) as real, (k + s) as real;
    assert weight / x - weight / y == weight * (y - x) / (x * y);
  }

  lemma ShareMonotone(list: seq<Scored>, a: string, b: string, k: nat, weight: real)
    requires weight > 0.0 && NoWorse(list, a, b)
    ensures Share(list, a, k, weight) >= Share(list, b, k, weight)
    ensures Better(list, a, b) ==> Share(list, a, k, weight) > Share(list, b, k, weight)
  {
    RankIs(list, a);
    RankIs(list, b);
    if Rank(list, a).Some? {
      TermsShrink(weight, k, Rank(list, a).value, Rank(list, a).value + 1);
      if Rank(list, b).Some? && Rank(list, a).value < Rank(list, b).value {
        TermsShrink(weight, k, Rank(list, a).value, Rank(list, b).value);
      }
    }
  }

  /** With positive weights an id that is no worse in both lists and better in one comes first. */
  lemma DominantComesFirst(q: Query, out: seq<Scored>, a: string, b: string)
    requires IsFusion(q, out) && q.bm25Weight > 0.0 && q.vectorWeight > 0.0
    requires q.Has(b) && NoWorse(q.bm25, a, b) && NoWorse(q.vector, a, b)
    requires Better(q.bm25, a, b) || Better(q.vector, a, b)
    ensures Precedes(out, a, b)
  {
    ShareMonotone(q.bm25, a, b, q.k, q.bm25Weight);
    ShareMonotone(q.vector, a, b, q.k, q.vectorWeight);
    FusedBeforePrecedes(q, out, a, b);
  }

  // ---------------------------------------------------------------------------------------
  // The fused list in positions and weights
  // ---------------------------------------------------------------------------------------

  /** `id` stands at position `i` of the list and nowhere before. */
  predicate FirstAt(list: seq<Scored>, i: nat, id: string) {
    i < |list| && list[i].id == id && forall j :: 0 <= j < i ==> list[j].id != id
  }

  predicate Lacks(list: seq<Scored>, id: string) {
    forall j :: 0 <= j < |list| ==> list[j].id != id
  }

  lemma RankOfFirst(list: seq<Scored>, i: nat, id: string)
    ensures FirstAt(list, i, id) ==> Rank(list, id) == Some(i + 1)
    ensures Lacks(list, id) ==> Rank(list, id) == None
  {
    RankIs(list, id);
  }

  predicate Mentions(list: seq<Scored>, id: string) {
    exists i :: 0 <= i < |list| && list[i].id == id
  }

  /** The fused list has exactly the ids of the two lists, each once. */
  lemma FusedIds(q: Query, out: seq<Scored>)
    requires IsFusion(q, out)
    ensures forall id :: Mentions(out, id) <==> Mentions(q.bm25, id) || Mentions(q.vector, id)
    ensures forall i, j :: 0 <= i < j < |out| ==> out[i].id != out[j].id
  {
    forall id
      ensures Mentions(out, id) <==> Mentions(q.bm25, id) || Mentions(q.vector, id)
    {
      RankIs(q.bm25, id);
      RankIs(q.vector, id);
      if q.Has(id) {
        assert Scored(id, q.Score(id)) in out;
      }
    }
    forall i, j | 0 <= i < j < |out|
      ensures out[i].id != out[j].id
    {
      if out[i].id == out[j].id {
        OneEntryPerId(q, out, i, j);
      }
    }
  }

  /** An id found by both lists scores one weight over `k` plus its 1-based position in one list, plus the
      other weight over `k` plus its position in the other; an id of one list scores that list's part. */
  lemma FusedScores(q: Query, out: seq<Scored>, n: nat, i: nat, j: nat)
    requires IsFusion(q, out) && n < |out|
    ensures FirstAt(q.bm25, i, out[n].id) && FirstAt(q.vector, j, out[n].id) ==>
              out[n].score == q.bm25Weight / (q.k + i + 1) as real + q.vectorWeight / (q.k + j + 1) as real
    ensures FirstAt(q.bm25, i, out[n].id) && Lacks(q.vector, out[n].id) ==>
              out[n].score == q.bm25Weight / (q.k + i + 1) as real
    ensures Lacks(q.bm25, out[n].id) && FirstAt(q.vector, j, out[n].id) ==>
              out[n].score == q.vectorWeight / (q.k + j + 1) as real
  {
    hide Rank;
    RankOfFirst(q.bm25, i, out[n].id);
    RankOfFirst(q.vector, j, out[n].id);
  }

  /** Entries with equal scores stand in the order of the lexical list; after them, in the order of their
      ids, those it lacks. */
  lemma FusedTies(q: Query, out: seq<Scored>, m: nat, n: nat, i: nat, j: nat)
    requires IsFusion(q, out) && m < n < |out|
    ensures out[m].score >= out[n].score
    ensures out[m].score == out[n].score && FirstAt(q.bm25, j, out[n].id) ==> !Lacks(q.bm25, out[m].id)
    ensures out[m].score == out[n].score && FirstAt(q.bm25, i, out[m].id) && FirstAt(q.bm25, j, out[n].id) ==> i < j
    ensures out[m].score == out[n].score && Lacks(q.bm25, out[m].id) && Lacks(q.bm25, out[n].id) ==>
              Less(out[m].id, out[n].id)
  {
    hide Rank, IsFusion;
    FusionIsOrdered(q, out, m, n);
    RankOfFirst(q.bm25, i, out[m].id);
    RankOfFirst(q.bm25, j, out[n].id);
    RankIs(q.bm25, out[m].id);
    RankIs(q.bm25, out[n].id);
    if FirstAt(q.bm25, i, out[m].id) && FirstAt(q.bm25, j, out[n].id) && i == j {
      LessIsStrict(out[m].id, out[n].id);
    }
  }

  lemma FusionIsOrdered(q: Query, out: seq<Scored>, m: nat, n: nat)
    requires IsFusion(q, out) && m < n < |out|
    ensures FusedBefore(q, out[m], out[n])
  {
    assert FusedOrder(q)(out[m], out[n]);
  }

  /** Which weight belongs to which list: of an id at position `i` of the lexical list alone and an id at
      position `j` of the vector list alone, the first comes first exactly when the lexical weight over
      its `k` plus rank is at least the vector weight over the other's. */
  lemma WeightsDecide(q: Query, out: seq<Scored>, a: string, b: string, i: nat, j: nat)
    requires IsFusion(q, out)
    requires FirstAt(q.bm25, i, a) && Lacks(q.vector, a) && FirstAt(q.vector, j, b) && Lacks(q.bm25, b)
    ensures Precedes(out, a, b) <==>
            q.bm25Weight * (q.k + j + 1) as real >= q.vectorWeight * (q.k + i + 1) as real
  {
    hide Rank;
    RankOfFirst(q.bm25, i, a);
    RankOfFirst(q.vector, i, a);
    RankOfFirst(q.vector, j, b);
    RankOfFirst(q.bm25, j, b);
    CompareTerms(q.bm25Weight, (q.k + i + 1) as real, q.vectorWeight, (q.k + j + 1) as real);
    RankIs(q.bm25, a);
    if q.Score(a) >= q.Score(b) {
      FusedBeforePrecedes(q, out, a, b);
    } else {
      FusedBeforePrecedes(q, out, b, a);
      NotBoth(q, out, a, b);
    }
  }

  lemma CompareTerms(v: real, x: real, w: real, y: real)
    requires x > 0.0 && y > 0.0
    ensures v / x >= w / y <==> v * y >= w * x
  {
    var p, q := v / x, w / y;
    assert p * x == v && q * y == w;
    assert v * y - w * x == (p - q) * (x * y) by {
      assert (p * x) * y == p * (x * y) && (q * y) * x == q * (x * y);
    }
    assert x * y > 0.0;
    if p >= q {
      assert (p - q) * (x * y) >= 0.0;
    } else {
      assert (q - p) * (x * y) > 0.0;
    }
  }

  lemma NotBoth(q: Query, out: seq<Scored>, a: string, b: string)
    requires IsFusion(q, out) && Precedes(out, b, a)
    ensures !Precedes(out, a, b)
  {
    if Precedes(out, a, b) {
      var i, j :| 0 <= i < j < |out| && out[i].id == a && out[j].id == b;
      var m, n :| 0 <= m < n < |out| && out[m].id == b && out[n].id == a;
      OneEntryPerId(q, out, i, n);
      OneEntryPerId(q, out, j, m);
    }
  }

  lemma OneEntryPerId(q: Query, out: seq<Scored>, i: nat, j: nat)
    requires IsFusion(q, out) && i < |out| && j < |out| && out[i].id == out[j].id
    ensures i == j
  {
    FusedOrderIsStrictTotal(q);
    assert out[i] == out[j];
  }

  predicate InBoth(q: Query, id: string) {
    Rank(q.bm25, id).Some? && Rank(q.vector, id).Some?
  }

  predicate InOne(q: Query, id: string) {
    Rank(q.bm25, id).Some? != Rank(q.vector, id).Some?
  }

  lemma TermAtMost(weight: real, k: nat, r: nat, s: nat)
    requires weight > 0.0 && 0 < r <= s
    ensures Term(weight, k, r) >= Term(weight, k, s) > 0.0
  {
    if r < s {
      TermsShrink(weight, k, r, s);
    } else {
      TermsShrink(weight, k, r, r + 1);
    }
  }

  /** With equal positive weights and lists of at most `k + 1` entries, agreement wins: every id
      in both lists comes before every id in one. */
  lemma BothBeatsOne(q: Query, out: seq<Scored>, a: string, b: string)
    requires IsFusion(q, out) && q.bm25Weight == q.vectorWeight > 0.0
    requires |q.bm25| <= q.k + 1 && |q.vector| <= q.k + 1
    requires InBoth(q, a) && InOne(q, b)
    ensures Precedes(out, a, b)
  {
    var w := q.bm25Weight;
    RankIs(q.bm25, a);
    RankIs(q.vector, a);
    RankIs(q.bm25, b);
    RankIs(q.vector, b);
    TermAtMost(w, q.k, Rank(q.bm25, a).value, q.k + 1);
    TermAtMost(w, q.k, Rank(q.vector, a).value, q.k + 1);
    TermAtMost(w, q.k, 1, if Rank(q.bm25, b).Some? then Rank(q.bm25, b).value else Rank(q.vector, b).value);
    TwoLateBeatOneFirst(w, q.k);
    FusedBeforePrecedes(q, out, a, b);
  }

  lemma TwoLateBeatOneFirst(w: real, k: nat)
    requires w > 0.0
    ensures Term(w, k, k + 1) + Term(w, k, k + 1) > Term(w, k, 1)
    ensures Term(w, k, k + 2) + Term(w, k, k + 2) == Term(w, k, 1)
  {
    var x := (k + 1) as real;
    assert (k + (k + 2)) as real == 2.0 * x;
    assert (k + (k + 1)) as real == 2.0 * x - 1.0;
    assert w / (2.0 * x) + w / (2.0 * x) == w / x;
    assert w / (2.0 * x - 1.0) > w / (2.0 * x) by {
      assert w / (2.0 * x - 1.0) - w / (2.0 * x) == w / ((2.0 * x - 1.0) * (2.0 * x));
    }
  }

  /** An id made of `n + 1` copies of one letter. */
  function Filler(n: nat): Scored {
    Scored(seq(n + 1, _ => 'x'), 0.0)
  }

  /** The length bound is exact: for every `k`, lists of `k + 2` distinct ids exist on which an id
      found by one list alone comes before an id found by both. */
  lemma BothBeatsOneIsTight(k: nat) returns (q: Query)
    ensures q.k == k && |q.bm25| == |q.vector| == k + 2 && q.bm25Weight == q.vectorWeight == 1.0
    ensures DistinctIds(q.bm25) && DistinctIds(q.vector)
    ensures InBoth(q, "a") && InOne(q, "b")
    ensures forall out :: IsFusion(q, out) ==> Precedes(out, "b", "a")
  {
    hide IsFusion, Precedes, Rank, Fillers;
    var a, b := Scored("a", 0.0), Scored("b", 0.0);
    var bm25, vector := [b] + Fillers(k) + [a], Fillers(k + 1) + [a];
    FillersAreOthers(k);
    FillersAreOthers(k + 1);
    q := Query(bm25, vector, k, 1.0, 1.0);
    RankFound(bm25, k + 1);
    RankFound(bm25, 0);
    RankFound(vector, k + 1);
    RankIs(vector, "b");
    TwoLateBeatOneFirst(1.0, k);
    forall out | IsFusion(q, out)
      ensures Precedes(out, "b", "a")
    {
      FusedBeforePrecedes(q, out, "b", "a");
    }
  }

  lemma RankFound(list: seq<Scored>, i: nat)
    requires DistinctIds(list) && i < |list|
    ensures Rank(list, list[i].id) == Some(i + 1)
  {
    hide Rank;
    RankIs(list, list[i].id);
  }

  function Fillers(n: nat): seq<Scored> {
    seq(n, i requires i >= 0 => Filler(i))
  }

  lemma FillersAreOthers(n: nat)
    ensures |Fillers(n)| == n && DistinctIds(Fillers(n))
    ensures forall i :: 0 <= i < n ==> Fillers(n)[i].id != "a" && Fillers(n)[i].id != "b"
  {
    var list := Fillers(n);
    assert "a"[0] == 'a' && "b"[0] == 'b';
    forall i | 0 <= i < n
      ensures |list[i].id| == i + 1 && list[i].id[0] == 'x'
    {
    }
  }

  // ---------------------------------------------------------------------------------------
  // Structural boost
  // ---------------------------------------------------------------------------------------

  const STRUCTURAL_BOOST: real := 0.01

  /** An import row: the importing file and the imported source. */
  datatype ImportRow = ImportRow(path: string, source: string)

  /** Some import of the file tokenizes to a query token. */
  ghost predicate ImportsMatch(imports: seq<ImportRow>, tokens: string -> set<string>, query: set<string>, path: string) {
    exists i :: 0 <= i < |imports| && imports[i].path == path && tokens(imports[i].source) * query != {}
  }

  /** Exactly the files with a matching import. */
  ghost predicate AreMatching(imports: seq<ImportRow>, tokens: string -> set<string>, query: set<string>, files: set<string>) {
    forall path :: path in files <==> ImportsMatch(imports, tokens, query, path)
  }

  function Boost(files: set<string>, h: Scored): Scored {
    match ParseChunkId(h.id)
    case Some(at) => if at.path in files then h.(score := h.score + STRUCTURAL_BOOST) else h
    case None => h
  }

  function BoostAll(files: set<string>, fused: seq<Scored>): seq<Scored> {
    seq(|fused|, i requires 0 <= i < |fused| => Boost(files, fused[i]))
  }

  /** Score descending, then id. */
  predicate BoostedBefore(a: Scored, b: Scored) {
    a.score > b.score || (a.score == b.score && Less(a.id, b.id))
  }

  lemma BoostOrderIsStrictTotal()
    ensures StrictTotal(BoostedBefore)
  {
    forall a: Scored, b: Scored
      ensures BoostedBefore(a, b) ==> !BoostedBefore(b, a)
      ensures a != b ==> BoostedBefore(a, b) || BoostedBefore(b, a)
    {
      LessIsStrict(a.id, b.id);
    }
    forall a: Scored, b: Scored, c: Scored | BoostedBefore(a, b) && BoostedBefore(b, c)
      ensures BoostedBefore(a, c)
    {
      if Less(a.id, b.id) && Less(b.id, c.id) {
        LessTransitive(a.id, b.id, c.id);
      }
    }
  }

  /** What the boost adds: 0.01 to an entry whose id is that of a range of a file with an import that shares a
      token with the query, and nothing to any other entry. */
  lemma BoostAdds(imports: seq<ImportRow>, tokens: string -> set<string>, query: set<string>, files: set<string>,
                  fused: seq<Scored>, i: nat, path: string, start: nat, end: nat)
    requires AreMatching(imports, tokens, query, files)
    requires i < |fused|
    ensures |BoostAll(files, fused)| == |fused| && BoostAll(files, fused)[i].id == fused[i].id
    ensures ParseChunkId(fused[i].id).None? ==> BoostAll(files, fused)[i].score == fused[i].score
    ensures fused[i].id == ChunkId(path, start, end) && start <= I64_MAX && end <= I64_MAX ==>
              BoostAll(files, fused)[i].score ==
              if exists n, t: string :: 0 <= n < |imports| && imports[n].path == path && t in tokens(imports[n].source) && t in query
              then fused[i].score + 0.01 else fused[i].score
  {
    hide ParseChunkId;
    ParseOfChunkId(path, start, end);
    if ImportsMatch(imports, tokens, query, path) {
      var n :| 0 <= n < |imports| && imports[n].path == path && tokens(imports[n].source) * query != {};
      var t :| t in tokens(imports[n].source) * query;
    }
    if n, t: string :| 0 <= n < |imports| && imports[n].path == path && t in tokens(imports[n].source) && t in query {
      assert t in tokens(imports[n].source) * query;
    }
  }

  ghost predicate DistinctIds(list: seq<Scored>) {
    forall i, j :: 0 <= i < j < |list| ==> list[i].id != list[j].id
  }

  /** `apply_structural_boost` */
  method ApplyStructuralBoost(imports: seq<ImportRow>, tokens: string -> set<string>, query: set<string>, fused: seq<Scored>)
    returns (out: seq<Scored>, ghost files: set<string>)
    ensures AreMatching(imports, tokens, query, files)
    ensures files == {} ==> out == fused
    ensures files != {} ==> Ordered(BoostedBefore, out)
    ensures multiset(out) == multiset(BoostAll(files, fused))
    ensures DistinctIds(fused) ==> DistinctIds(out) && (files != {} ==> Sorted(BoostedBefore, out))
  {
    var boosted: set<string> := {};
    for i := 0 to |imports|
      invariant forall p :: p in boosted <==> ImportsMatch(imports[..i], tokens, query, p)
    {
      ghost var before := boosted;
      if tokens(imports[i].source) * query != {} {
        boosted := boosted + {imports[i].path};
      }
      forall p
        ensures p in boosted <==> ImportsMatch(imports[..i + 1], tokens, query, p)
      {
        MatchNext(imports, tokens, query, p, i);
      }
    }
    assert imports[..|imports|] == imports;
    files := boosted;
    if boosted == {} {
      assert BoostAll(files, fused) == fused;
      return fused, files;
    }
    var scored := BoostAll(boosted, fused);
    out := Sort(BoostedBefore, scored);
    BoostOrderIsStrictTotal();
    SortOrdered(BoostedBefore, scored);
    SortMembers(BoostedBefore, scored);
    if DistinctIds(fused) {
      SameMembersDistinctIds(scored, out);
      OrderedIsSorted(BoostedBefore, out);
    }
  }

  lemma MatchNext(imports: seq<ImportRow>, tokens: string -> set<string>, query: set<string>, p: string, i: nat)
    requires i < |imports|
    ensures ImportsMatch(imports[..i + 1], tokens, query, p) <==>
            ImportsMatch(imports[..i], tokens, query, p)
            || (imports[i].path == p && tokens(imports[i].source) * query != {})
  {
    var a, b := imports[..i], imports[..i + 1];
    assert b[i] == imports[i];
    if ImportsMatch(a, tokens, query, p) {
      var j :| 0 <= j < i && a[j].path == p && tokens(a[j].source) * query != {};
      assert b[j] == a[j];
    }
    if ImportsMatch(b, tokens, query, p) {
      var j :| 0 <= j < i + 1 && b[j].path == p && tokens(b[j].source) * query != {};
      assert j < i ==> a[j] == b[j];
    }
  }

  lemma SameMembersDistinctIds(a: seq<Scored>, b: seq<Scored>)
    requires DistinctIds(a) && multiset(a) == multiset(b)
    ensures DistinctIds(b)
  {
    forall i, j | 0 <= i < j < |b|
      ensures b[i].id != b[j].id
    {
      assert b[i] in multiset(a) && b[j] in multiset(a);
      if b[i] == b[j] {
        TwiceIsTwo(b, i, j);
        DistinctIdsOnce(a, b[i]);
      }
    }
  }

  lemma TwiceIsTwo(s: seq<Scored>, i: nat, j: nat)
    requires i < j < |s| && s[i] == s[j]
    ensures multiset(s)[s[i]] >= 2
  {
    assert s == s[..j] + s[j..];
    assert s[i] in s[..j] && s[j] in s[j..];
  }

  lemma {:induction false} DistinctIdsOnce(s: seq<Scored>, x: Scored)
    requires DistinctIds(s)
    ensures multiset(s)[x] <= 1
  {
    if s != [] {
      DistinctIdsOnce(s[1..], x);
      assert s == [s[0]] + s[1..];
      if x == s[0] {
        assert x !in s[1..];
      }
    }
  }
}
