/** The two near-duplicate filters: overlapping ranges of one file, and similar content. */
module Dedup {
  import opened ChunkIds
  import opened Chunker
  import opened Fusion
  import opened Ordering

  function Max(a: int, b: int): int {
    if a >= b then a else b
  }

  function Min(a: int, b: int): int {
    if a <= b then a else b
  }

  /** `overlap_fraction(a, b) > 0.5`, in integers. */
  predicate OverlapsByHalf(a: Location, b: Location) {
    var lo := Max(a.start, b.start);
    var hi := Min(a.end, b.end);
    var shorter := Min(Max(a.end - a.start + 1, 0), Max(b.end - b.start + 1, 0));
    lo <= hi && shorter > 0 && 2 * (hi - lo + 1) > shorter
  }

  /** Two ids name ranges of one file that overlap by more than half of the shorter one. An id
      that does not parse overlaps nothing. */
  predicate SameFileOverlap(a: string, b: string) {
    match (ParseChunkId(a), ParseChunkId(b))
    case (Some(x), Some(y)) => x.path == y.path && OverlapsByHalf(x, y)
    case _ => false
  }

  predicate OverlapDuplicate(x: Scored, earlier: Scored) {
    SameFileOverlap(x.id, earlier.id)
  }

  lemma OverlapIsSymmetric(a: string, b: string)
    ensures SameFileOverlap(a, b) <==> SameFileOverlap(b, a)
  {
  }

  predicate Between(start: int, line: int, end: int) {
    start <= line <= end
  }

  /** The lines of a range; none when it ends before it starts. */
  ghost function LineSet(start: int, end: int): set<int> {
    set line | start <= line <= end && Between(start, line, end)
  }

  lemma {:induction false} LineCount(start: int, end: int)
    ensures |LineSet(start, end)| == if end < start then 0 else end - start + 1
    decreases end - start + 1
  {
    if end >= start {
      LineCount(start, end - 1);
      assert LineSet(start, end) == LineSet(start, end - 1) + {end};
    } else {
      assert LineSet(start, end) == {};
    }
  }

  /** Two ranges overlap by half when the lines they share are more than half of those of one of them. */
  lemma OverlapInLines(a: Location, b: Location)
    ensures var mine, yours := LineSet(a.start, a.end), LineSet(b.start, b.end);
            OverlapsByHalf(a, b) <==> 2 * |mine * yours| > |mine| || 2 * |mine * yours| > |yours|
  {
    var lo, hi := Max(a.start, b.start), Min(a.end, b.end);
    assert LineSet(a.start, a.end) * LineSet(b.start, b.end) == LineSet(lo, hi);
    LineCount(a.start, a.end);
    LineCount(b.start, b.end);
    LineCount(lo, hi);
  }

  /** The first filter takes two chunks for duplicates exactly when they are of one file and share more than
      half of the lines of one of them. */
  lemma OverlapOfChunks(path: string, start: nat, end: nat, path': string, start': nat, end': nat)
    requires start <= I64_MAX && end <= I64_MAX && start' <= I64_MAX && end' <= I64_MAX
    ensures var mine, yours := LineSet(start, end), LineSet(start', end');
            SameFileOverlap(ChunkId(path, start, end), ChunkId(path', start', end')) <==>
            path == path' && (2 * |mine * yours| > |mine| || 2 * |mine * yours| > |yours|)
  {
    hide ParseChunkId, ChunkId, OverlapsByHalf;
    ParseOfChunkId(path, start, end);
    ParseOfChunkId(path', start', end');
    OverlapInLines(Location(path, start, end), Location(path', start', end'));
  }

  lemma UnparsedOverlapsNothing(x: Scored, kept: seq<Scored>)
    ensures ParseChunkId(x.id).None? ==> !AnyDuplicate(OverlapDuplicate, x, kept)
  {
    hide ParseChunkId;
  }

  /** `dedup_overlapping` */
  method DedupOverlapping(fused: seq<Scored>) returns (kept: seq<Scored>)
    ensures kept == Greedy(OverlapDuplicate, fused, |fused|)
  {
    hide ParseChunkId, SameFileOverlap;
    kept := [];
    for n := 0 to |fused|
      invariant kept == Greedy(OverlapDuplicate, fused, n)
    {
      var duplicate := false;
      var at := ParseChunkId(fused[n].id);
      UnparsedOverlapsNothing(fused[n], kept);
      if at.Some? {
        duplicate := exists i :: 0 <= i < |kept| && OverlapDuplicate(fused[n], kept[i]);
      }
      if !duplicate {
        kept := kept + [fused[n]];
      }
    }
  }

  /** The survivors of `dedup_overlapping`: a sub-list in the same order, no two of one file
      overlapping by more than half of the shorter; a dropped entry overlaps a survivor before it,
      and an id that does not parse is always kept. */
  lemma OverlapSurvivors(fused: seq<Scored>) returns (at: seq<nat>)
    ensures var kept := Greedy(OverlapDuplicate, fused, |fused|);
            && PicksFrom(kept, fused, at)
            && (forall i, j :: 0 <= i < |kept| && 0 <= j < |kept| && i != j ==> !SameFileOverlap(kept[i].id, kept[j].id))
            && (forall k :: 0 <= k < |fused| && fused[k] !in kept ==>
                  exists h :: h in kept && SameFileOverlap(fused[k].id, h.id))
            && (forall k :: 0 <= k < |fused| && ParseChunkId(fused[k].id).None? ==> fused[k] in kept)
  {
    var kept := Greedy(OverlapDuplicate, fused, |fused|);
    at := GreedyPicks(OverlapDuplicate, fused, |fused|);
    forall i, j | 0 <= i < |kept| && 0 <= j < |kept| && i != j
      ensures !SameFileOverlap(kept[i].id, kept[j].id)
    {
      OverlapIsSymmetric(kept[i].id, kept[j].id);
      assert i < j ==> !OverlapDuplicate(kept[j], kept[i]);
      assert j < i ==> !OverlapDuplicate(kept[i], kept[j]);
    }
    forall k | 0 <= k < |fused| && fused[k] !in kept
      ensures exists h :: h in kept && SameFileOverlap(fused[k].id, h.id)
    {
      GreedyDrops(OverlapDuplicate, fused, |fused|, k);
      var before := Greedy(OverlapDuplicate, fused, k);
      var i :| 0 <= i < |before| && OverlapDuplicate(fused[k], before[i]);
      assert before[i] == kept[i];
    }
  }

  /** Whatever its place, an entry survives the first filter or overlaps a survivor that stood before it. */
  lemma OverlapKept(fused: seq<Scored>, k: nat) returns (j: nat, i: nat)
    requires k < |fused|
    ensures var kept := Greedy(OverlapDuplicate, fused, |fused|);
            && j < |kept| && i <= k && kept[j] == fused[i]
            && (i == k || SameFileOverlap(fused[k].id, kept[j].id))
  {
    hide SameFileOverlap;
    GreedyDrops(OverlapDuplicate, fused, |fused|, k);
    var kept := Greedy(OverlapDuplicate, fused, |fused|);
    var before := Greedy(OverlapDuplicate, fused, k);
    var at := GreedyPicks(OverlapDuplicate, fused, k);
    if fused[k] in kept {
      j :| 0 <= j < |kept| && kept[j] == fused[k];
      i := k;
    } else {
      j :| 0 <= j < |before| && OverlapDuplicate(fused[k], before[j]);
      assert kept[j] == before[j];
      i := at[j];
    }
  }

  /** What the filter leaves of two entries. */
  lemma GreedyOfTwo(x: Scored, y: Scored)
    ensures Greedy(OverlapDuplicate, [x, y], 2) == if SameFileOverlap(y.id, x.id) then [x] else [x, y]
  {
    assert Greedy(OverlapDuplicate, [x, y], 0) == [];
    assert !AnyDuplicate(OverlapDuplicate, x, []);
    assert Greedy(OverlapDuplicate, [x, y], 1) == [x];
    assert [x][0] == x;
    assert AnyDuplicate(OverlapDuplicate, y, [x]) <==> OverlapDuplicate(y, x);
  }

  /** Of two neighbouring windows of a file, in whichever order they are ranked, the filter keeps both
      exactly when the later one has at least 30 lines, and else the first. */
  lemma NeighbouringWindows(path: string, total: nat, k: nat, score: real, next: real)
    requires total <= I64_MAX && k + 1 < WindowCount(total)
    ensures var w := WindowRanges(total);
            var x := Scored(ChunkId(path, w[k].start, w[k].end), score);
            var y := Scored(ChunkId(path, w[k + 1].start, w[k + 1].end), next);
            var both := w[k + 1].end - w[k + 1].start + 1 >= 30;
            && Greedy(OverlapDuplicate, [x, y], 2) == (if both then [x, y] else [x])
            && Greedy(OverlapDuplicate, [y, x], 2) == (if both then [y, x] else [y])
  {
    var w := WindowRanges(total);
    var x := Scored(ChunkId(path, w[k].start, w[k].end), score);
    var y := Scored(ChunkId(path, w[k + 1].start, w[k + 1].end), next);
    NeighboursOverlap(path, total, k);
    OverlapIsSymmetric(x.id, y.id);
    GreedyOfTwo(x, y);
    GreedyOfTwo(y, x);
  }

  lemma NeighboursOverlap(path: string, total: nat, k: nat)
    requires total <= I64_MAX && k + 1 < WindowCount(total)
    ensures var w := WindowRanges(total);
            SameFileOverlap(ChunkId(path, w[k].start, w[k].end), ChunkId(path, w[k + 1].start, w[k + 1].end))
            <==> w[k + 1].end - w[k + 1].start + 1 < 30
  {
    var w := WindowRanges(total);
    WindowShape(total, k);
    WindowShape(total, k + 1);
    ParseOfChunkId(path, w[k].start, w[k].end);
    ParseOfChunkId(path, w[k + 1].start, w[k + 1].end);
  }

  // ---------------------------------------------------------------------------------------
  // Content
  // ---------------------------------------------------------------------------------------

  /** `jaccard(a, b) >= 0.9`, in integers; two empty sets are not similar. */
  predicate Similar(a: set<string>, b: set<string>) {
    !(a == {} && b == {}) && 10 * |a * b| >= 9 * |a + b|
  }

  /** Two fingerprints are similar exactly when the tokens they share are at least nine tenths of all theirs. */
  lemma SimilarIsJaccard(a: set<string>, b: set<string>)
    ensures a + b != {} ==> (Similar(a, b) <==> |a * b| as real / |a + b| as real >= 0.9)
    ensures a + b == {} ==> !Similar(a, b)
  {
    if a + b != {} {
      var all := |a + b| as real;
      assert |a + b| > 0 by {
        assert exists x :: x in a + b;
      }
      NineTenths(|a * b| as real, all);
    } else {
      assert forall x :: x in a || x in b ==> x in a + b;
    }
  }

  lemma NineTenths(x: real, y: real)
    requires y > 0.0
    ensures x / y >= 0.9 <==> 10.0 * x >= 9.0 * y
  {
    var q := x / y;
    assert q * y == x;
    if q >= 0.9 {
      assert (q - 0.9) * y >= 0.0;
    } else {
      assert (0.9 - q) * y > 0.0;
    }
  }

  lemma SimilarIsSymmetric(a: set<string>, b: set<string>)
    ensures Similar(a, b) <==> Similar(b, a)
  {
    assert a * b == b * a && a + b == b + a;
  }

  /** A hydrated hit, as far as ranking looks at it: its snippet and signature tokens are its
      content fingerprint. */
  datatype Hit = Hit(chunkId: string, fingerprint: set<string>, score: real)

  predicate ContentDuplicate(x: Hit, earlier: Hit) {
    Similar(x.fingerprint, earlier.fingerprint)
  }

  /** `dedup_content` */
  method DedupContent(hits: seq<Hit>) returns (kept: seq<Hit>)
    ensures kept == Greedy(ContentDuplicate, hits, |hits|)
  {
    kept := [];
    var prints: seq<set<string>> := [];
    for n := 0 to |hits|
      invariant kept == Greedy(ContentDuplicate, hits, n)
      invariant |prints| == |kept| && forall i :: 0 <= i < |kept| ==> prints[i] == kept[i].fingerprint
    {
      var fingerprint := hits[n].fingerprint;
      if !exists i :: 0 <= i < |prints| && Similar(fingerprint, prints[i]) {
        prints := prints + [fingerprint];
        kept := kept + [hits[n]];
      } else {
        ghost var i :| 0 <= i < |prints| && Similar(fingerprint, prints[i]);
        assert ContentDuplicate(hits[n], kept[i]);
      }
    }
  }

  /** Whatever its place, a hit survives the second filter or is similar to a survivor that stood before it. */
  lemma ContentKept(hits: seq<Hit>, k: nat) returns (j: nat, i: nat)
    requires k < |hits|
    ensures var kept := Greedy(ContentDuplicate, hits, |hits|);
            && j < |kept| && i <= k && kept[j] == hits[i]
            && (i == k || Similar(hits[k].fingerprint, kept[j].fingerprint))
  {
    GreedyDrops(ContentDuplicate, hits, |hits|, k);
    var kept := Greedy(ContentDuplicate, hits, |hits|);
    var before := Greedy(ContentDuplicate, hits, k);
    var at := GreedyPicks(ContentDuplicate, hits, k);
    if hits[k] in kept {
      j :| 0 <= j < |kept| && kept[j] == hits[k];
      i := k;
    } else {
      j :| 0 <= j < |before| && ContentDuplicate(hits[k], before[j]);
      assert kept[j] == before[j];
      i := at[j];
    }
  }

  /** No two survivors of `dedup_content` are similar, they keep their order, and a dropped hit is
      similar to a survivor. */
  lemma ContentSurvivors(hits: seq<Hit>) returns (at: seq<nat>)
    ensures var kept := Greedy(ContentDuplicate, hits, |hits|);
            && PicksFrom(kept, hits, at)
            && (forall i, j :: 0 <= i < |kept| && 0 <= j < |kept| && i != j ==>
                  !Similar(kept[i].fingerprint, kept[j].fingerprint))
            && (forall k :: 0 <= k < |hits| && hits[k] !in kept ==>
                  exists h :: h in kept && Similar(hits[k].fingerprint, h.fingerprint))
  {
    var kept := Greedy(ContentDuplicate, hits, |hits|);
    at := GreedyPicks(ContentDuplicate, hits, |hits|);
    forall i, j | 0 <= i < |kept| && 0 <= j < |kept| && i != j
      ensures !Similar(kept[i].fingerprint, kept[j].fingerprint)
    {
      SimilarIsSymmetric(kept[i].fingerprint, kept[j].fingerprint);
      assert i < j ==> !ContentDuplicate(kept[j], kept[i]);
      assert j < i ==> !ContentDuplicate(kept[i], kept[j]);
    }
    forall k | 0 <= k < |hits| && hits[k] !in kept
      ensures exists h :: h in kept && Similar(hits[k].fingerprint, h.fingerprint)
    {
      GreedyDrops(ContentDuplicate, hits, |hits|, k);
      var before := Greedy(ContentDuplicate, hits, k);
      var i :| 0 <= i < |before| && ContentDuplicate(hits[k], before[i]);
      assert before[i] == kept[i];
    }
  }
}
