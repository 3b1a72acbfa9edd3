/** The feature-hashing embedding: signed token counts in hashed buckets, scaled to unit length. */
module FeatureHash {
  import opened Tokens
  import opened Vectors

  /** The two parts of a token's hash that are used: a 32-bit word and one further bit. */
  datatype Hash = Hash(word: Text -> nat, bit: Text -> bool) {
    function Bucket(token: Text, dim: nat): nat
      requires dim > 0
    {
      word(token) % dim
    }

    function Sign(token: Text): int {
      if bit(token) then -1 else 1
    }
  }

  /** The non-empty pieces of the lowercased text. */
  function Words(a: Alphabet, text: Text): seq<Text> {
    NonEmpty(Pieces(a, a.lower(text)))
  }

  function NonEmpty(pieces: seq<Text>): seq<Text> {
    if pieces == [] then []
    else
      var n := |pieces| - 1;
      NonEmpty(pieces[..n]) + if pieces[n] == [] then [] else [pieces[n]]
  }

  /** What one token adds to bucket `b`. */
  function Weight(h: Hash, token: Text, dim: nat, b: nat): int
    requires dim > 0
  {
    if h.Bucket(token, dim) == b then h.Sign(token) else 0
  }

  /** The signed count of the tokens in bucket `b`. */
  function Tally(h: Hash, tokens: seq<Text>, dim: nat, b: nat): int
    requires dim > 0
  {
    if tokens == [] then 0
    else Tally(h, tokens[..|tokens| - 1], dim, b) + Weight(h, tokens[|tokens| - 1], dim, b)
  }

  // ---------------------------------------------------------------------------------------
  // The order of the tokens does not matter
  // ---------------------------------------------------------------------------------------

  lemma {:induction false} TallyConcat(h: Hash, s: seq<Text>, t: seq<Text>, dim: nat, b: nat)
    requires dim > 0
    ensures Tally(h, s + t, dim, b) == Tally(h, s, dim, b) + Tally(h, t, dim, b)
  {
    if t == [] {
      assert s + t == s;
    } else {
      TallyConcat(h, s, t[..|t| - 1], dim, b);
      assert (s + t)[..|s + t| - 1] == s + t[..|t| - 1];
    }
  }

  lemma TallyWithout(h: Hash, s: seq<Text>, j: nat, dim: nat, b: nat)
    requires dim > 0 && j < |s|
    ensures Tally(h, s, dim, b) == Tally(h, s[..j] + s[j + 1..], dim, b) + Weight(h, s[j], dim, b)
  {
    TallyConcat(h, s[..j], s[j + 1..], dim, b);
    TallyConcat(h, s[..j] + [s[j]], s[j + 1..], dim, b);
    assert (s[..j] + [s[j]])[..j] == s[..j] && s == s[..j] + [s[j]] + s[j + 1..];
  }

  /** The vector depends on the multiset of tokens only. */
  lemma {:induction false} TallyOfMultiset(h: Hash, s: seq<Text>, t: seq<Text>, dim: nat, b: nat)
    requires dim > 0 && multiset(s) == multiset(t)
    ensures Tally(h, s, dim, b) == Tally(h, t, dim, b)
  {
    hide Weight;
    if s == [] {
      assert |multiset(t)| == |t|;
    } else {
      var n := |s| - 1;
      var j := Matching(s, t);
      TallyOfMultiset(h, s[..n], t[..j] + t[j + 1..], dim, b);
      TallyWithout(h, t, j, dim, b);
    }
  }

  /** A position of `t` with the last element of `s`; without the two, the multisets still agree. */
  lemma Matching(s: seq<Text>, t: seq<Text>) returns (j: nat)
    requires s != [] && multiset(s) == multiset(t)
    ensures j < |t| && t[j] == s[|s| - 1]
    ensures multiset(s[..|s| - 1]) == multiset(t[..j] + t[j + 1..])
  {
    var n := |s| - 1;
    assert s == s[..n] + [s[n]];
    assert s[n] in multiset(t);
    j :| 0 <= j < |t| && t[j] == s[n];
    assert t == t[..j] + [s[n]] + t[j + 1..];
    assert multiset(s[..n]) == multiset(s) - multiset{s[n]};
    assert multiset(t[..j] + t[j + 1..]) == multiset(t) - multiset{s[n]};
  }

  // ---------------------------------------------------------------------------------------
  // What a bucket counts
  // ---------------------------------------------------------------------------------------

  /** The positions below `n` of the tokens whose word falls into bucket `b` and whose further bit is `bit`. */
  ghost function Hits(h: Hash, tokens: seq<Text>, dim: nat, b: nat, bit: bool, n: nat): set<nat>
    requires dim > 0 && n <= |tokens|
  {
    set i: nat | i < n && h.word(tokens[i]) % dim == b && h.bit(tokens[i]) == bit
  }

  lemma HitsNext(h: Hash, tokens: seq<Text>, dim: nat, b: nat, bit: bool, n: nat)
    requires dim > 0 && n < |tokens|
    ensures |Hits(h, tokens, dim, b, bit, n + 1)| == |Hits(h, tokens, dim, b, bit, n)|
            + if h.word(tokens[n]) % dim == b && h.bit(tokens[n]) == bit then 1 else 0
  {
    var next := h.word(tokens[n]) % dim == b && h.bit(tokens[n]) == bit;
    assert Hits(h, tokens, dim, b, bit, n + 1) == Hits(h, tokens, dim, b, bit, n) + if next then {n} else {};
  }

  /** A bucket holds the number of tokens whose 32-bit word is `b` modulo the width and whose further bit is
      clear, less the number of those whose bit is set. */
  lemma {:induction false} TallyCounts(h: Hash, tokens: seq<Text>, dim: nat, b: nat)
    requires dim > 0
    ensures Tally(h, tokens, dim, b)
            == |Hits(h, tokens, dim, b, false, |tokens|)| - |Hits(h, tokens, dim, b, true, |tokens|)|
  {
    hide Hits;
    TallyCountsUpTo(h, tokens, dim, b, |tokens|);
    assert tokens[..|tokens|] == tokens;
  }

  lemma {:induction false} TallyCountsUpTo(h: Hash, tokens: seq<Text>, dim: nat, b: nat, n: nat)
    requires dim > 0 && n <= |tokens|
    ensures Tally(h, tokens[..n], dim, b) == |Hits(h, tokens, dim, b, false, n)| - |Hits(h, tokens, dim, b, true, n)|
  {
    if n == 0 {
      assert Hits(h, tokens, dim, b, false, 0) == Hits(h, tokens, dim, b, true, 0) == {};
    } else {
      TallyCountsUpTo(h, tokens, dim, b, n - 1);
      HitsNext(h, tokens, dim, b, false, n - 1);
      HitsNext(h, tokens, dim, b, true, n - 1);
      assert tokens[..n][..n - 1] == tokens[..n - 1];
    }
  }

  // ---------------------------------------------------------------------------------------
  // Parity
  // ---------------------------------------------------------------------------------------

  function Abs(x: int): nat {
    if x < 0 then -x else x
  }

  /** The L1 norm of the first `n` buckets. */
  function L1(h: Hash, tokens: seq<Text>, dim: nat, n: nat): nat
    requires dim > 0
  {
    if n == 0 then 0 else L1(h, tokens, dim, n - 1) + Abs(Tally(h, tokens, dim, n - 1))
  }

  lemma {:induction false} OneTokenOneBucket(h: Hash, tokens: seq<Text>, dim: nat, n: nat)
    requires dim > 0 && tokens != []
    ensures var init, c := tokens[..|tokens| - 1], h.Bucket(tokens[|tokens| - 1], dim);
            && (c >= n ==> L1(h, tokens, dim, n) == L1(h, init, dim, n))
            && (c < n ==>
                  || L1(h, tokens, dim, n) == L1(h, init, dim, n) + 1
                  || L1(h, tokens, dim, n) == L1(h, init, dim, n) - 1)
  {
    if n > 0 {
      OneTokenOneBucket(h, tokens, dim, n - 1);
    }
  }

  /** The L1 norm is at most the number of tokens and has its parity. */
  lemma {:induction false} L1Parity(h: Hash, tokens: seq<Text>, dim: nat)
    requires dim > 0
    ensures L1(h, tokens, dim, dim) <= |tokens|
    ensures L1(h, tokens, dim, dim) % 2 == |tokens| % 2
  {
    if tokens == [] {
      L1OfNothing(h, dim, dim);
    } else {
      L1Parity(h, tokens[..|tokens| - 1], dim);
      OneTokenOneBucket(h, tokens, dim, dim);
    }
  }

  lemma {:induction false} L1OfNothing(h: Hash, dim: nat, n: nat)
    requires dim > 0
    ensures L1(h, [], dim, n) == 0
  {
    if n > 0 {
      L1OfNothing(h, dim, n - 1);
    }
  }

  lemma {:induction false} ZerosHaveNoNorm(h: Hash, tokens: seq<Text>, dim: nat, n: nat)
    requires dim > 0 && forall b: nat :: b < n ==> Tally(h, tokens, dim, b) == 0
    ensures L1(h, tokens, dim, n) == 0
  {
    if n > 0 {
      ZerosHaveNoNorm(h, tokens, dim, n - 1);
    }
  }

  /** Some bucket is not zero. */
  ghost predicate NonZero(h: Hash, tokens: seq<Text>, dim: nat)
    requires dim > 0
  {
    exists b: nat :: b < dim && Tally(h, tokens, dim, b) != 0
  }

  /** An odd number of tokens never cancels out. */
  lemma OddIsNonZero(h: Hash, tokens: seq<Text>, dim: nat)
    requires dim > 0 && |tokens| % 2 == 1
    ensures NonZero(h, tokens, dim)
  {
    L1Parity(h, tokens, dim);
    if !NonZero(h, tokens, dim) {
      ZerosHaveNoNorm(h, tokens, dim, dim);
    }
  }

  // ---------------------------------------------------------------------------------------
  // The embedding
  // ---------------------------------------------------------------------------------------

  /** `norm * v == c` */
  ghost predicate Scales(norm: real, v: Vector, c: Vector) {
    |v| == |c| && forall b :: 0 <= b < |v| ==> norm * v[b] == c[b]
  }

  function Tallies(h: Hash, tokens: seq<Text>, dim: nat): Vector
    requires dim > 0
  {
    seq(dim, b requires 0 <= b < dim => Tally(h, tokens, dim, b) as real)
  }

  /** `v` is the tallies divided by `norm`. */
  ghost predicate IsScaled(h: Hash, tokens: seq<Text>, dim: nat, v: Vector, norm: real)
    requires dim > 0
  {
    norm > 0.0 && Scales(norm, v, Tallies(h, tokens, dim))
  }

  predicate IsZero(v: Vector) {
    forall b :: 0 <= b < |v| ==> v[b] == 0.0
  }

  /** The vector is the tallies scaled to length one, or zero if they all are. */
  ghost predicate IsEmbedding(h: Hash, tokens: seq<Text>, dim: nat, v: Vector) {
    && |v| == dim
    && if dim == 0 || !NonZero(h, tokens, dim) then IsZero(v)
       else Dot(v, v) == 1.0 && exists norm :: IsScaled(h, tokens, dim, v, norm)
  }

  lemma {:induction false} ScaledDot(c: Vector, v: Vector, norm: real)
    requires Scales(norm, v, c)
    ensures |c| == |v| && Times(Times(norm, norm), Dot(v, v)) == Dot(c, c)
  {
    if v != [] {
      assert norm * v[0] == c[0];
      ScaledDot(c[1..], v[1..], norm);
      SquareOfProduct(norm, v[0], Dot(v[1..], v[1..]));
    }
  }

  lemma SquareOfProduct(norm: real, x: real, rest: real)
    ensures Times(Times(norm, norm), x * x + rest) == Times(norm * x, norm * x) + Times(Times(norm, norm), rest)
  {
  }

  lemma PositiveSquare(x: real)
    requires x != 0.0
    ensures Times(x, x) > 0.0
  {
    if x < 0.0 {
      ProductPositive(-x, -x);
      assert Times(-x, -x) == Times(x, x);
    } else {
      ProductPositive(x, x);
    }
  }

  lemma ProductPositive(x: real, y: real)
    requires x > 0.0 && y > 0.0
    ensures Times(x, y) > 0.0
  {
  }

  lemma {:induction false} NonZeroHasLength(c: Vector, b: nat)
    requires b < |c| && c[b] != 0.0
    ensures Dot(c, c) > 0.0
  {
    Heads(c, c, 0.0);
    DotSelfNonNegative(c[1..]);
    SquareNonNegative(c[0]);
    if b > 0 {
      NonZeroHasLength(c[1..], b - 1);
    } else {
      PositiveSquare(c[0]);
    }
  }

  lemma UnitLength(c: Vector, v: Vector, norm: real)
    requires Scales(norm, v, c) && norm > 0.0 && Times(norm, norm) == Dot(c, c)
    ensures Dot(v, v) == 1.0
  {
    hide Times, Dot, Scales;
    ScaledDot(c, v, norm);
    PositiveSquare(norm);
    OneFactor(Times(norm, norm), Dot(v, v));
  }

  lemma OneFactor(a: real, x: real)
    requires a > 0.0 && Times(a, x) == a
    ensures x == 1.0
  {
    assert a * (x - 1.0) == 0.0;
  }

  /** Adds one token after another to the buckets. */
  method Accumulate(h: Hash, tokens: seq<Text>, vec: array<real>)
    requires vec.Length > 0 && forall b :: 0 <= b < vec.Length ==> vec[b] == 0.0
    modifies vec
    ensures vec[..] == Tallies(h, tokens, vec.Length)
  {
    for k := 0 to |tokens|
      invariant forall b :: 0 <= b < vec.Length ==> vec[b] == Tally(h, tokens[..k], vec.Length, b) as real
    {
      var bucket := h.Bucket(tokens[k], vec.Length);
      var sign := h.Sign(tokens[k]);
      assert tokens[..k + 1][..k] == tokens[..k];
      vec[bucket] := vec[bucket] + sign as real;
    }
    assert tokens[..|tokens|] == tokens;
  }

  /** Divides every entry. */
  method DivideAll(vec: array<real>, norm: real)
    requires norm > 0.0
    modifies vec
    ensures Scales(norm, vec[..], old(vec[..]))
  {
    for i := 0 to vec.Length
      invariant forall b :: 0 <= b < i ==> norm * vec[b] == old(vec[b])
      invariant forall b :: i <= b < vec.Length ==> vec[b] == old(vec[b])
    {
      vec[i] := vec[i] / norm;
    }
  }

  /** `feature_hash_embed` */
  method FeatureHashEmbed(a: Alphabet, h: Hash, sqrt: real -> real, text: Text, dim: nat) returns (v: Vector)
    requires IsSquareRoot(sqrt) && (dim > 0 || Words(a, text) == [])
    ensures IsEmbedding(h, Words(a, text), dim, v)
  {
    hide Words, Dot;
    var vec := new real[dim](_ => 0.0);
    var tokens := Words(a, text);
    if tokens == [] {
      return vec[..];
    }
    Accumulate(h, tokens, vec);
    hide Tallies, Scales;
    var norm := sqrt(Dot(vec[..], vec[..]));
    ghost var counts := vec[..];
    if norm > 0.0 {
      DivideAll(vec, norm);
    }
    v := vec[..];
    NormalizedIsEmbedding(h, sqrt, tokens, counts, v, norm);
  }

  lemma NormalizedIsEmbedding(h: Hash, sqrt: real -> real, tokens: seq<Text>, counts: Vector, v: Vector, norm: real)
    requires |v| > 0 && counts == Tallies(h, tokens, |v|)
    requires IsSquareRoot(sqrt) && norm == sqrt(Dot(counts, counts))
    requires if norm > 0.0 then Scales(norm, v, counts) else v == counts
    ensures IsEmbedding(h, tokens, |v|, v)
  {
    hide Tally, Dot;
    if NonZero(h, tokens, |v|) {
      var b: nat :| b < |v| && Tally(h, tokens, |v|, b) != 0;
      NonZeroHasLength(counts, b);
      assert Times(norm, norm) == Dot(counts, counts);
      UnitLength(counts, v, norm);
      assert IsScaled(h, tokens, |v|, v, norm);
    } else if norm > 0.0 {
      forall b | 0 <= b < |v|
        ensures v[b] == 0.0
      {
        assert Tally(h, tokens, |v|, b) == 0 && norm * v[b] == counts[b];
        NoFactor(norm, v[b]);
      }
    }
  }

  lemma NoFactor(a: real, x: real)
    requires a > 0.0 && a * x == 0.0
    ensures x == 0.0
  {
  }

  // ---------------------------------------------------------------------------------------
  // What the vector does not depend on
  // ---------------------------------------------------------------------------------------

  /** Equal multisets of tokens have equal embeddings. */
  lemma EmbeddingOfMultiset(h: Hash, s: seq<Text>, t: seq<Text>, dim: nat, v: Vector)
    requires multiset(s) == multiset(t)
    ensures IsEmbedding(h, s, dim, v) == IsEmbedding(h, t, dim, v)
  {
    if dim > 0 {
      hide Tally;
      forall b: nat
        ensures Tally(h, s, dim, b) == Tally(h, t, dim, b)
      {
        TallyOfMultiset(h, s, t, dim, b);
      }
      assert NonZero(h, s, dim) == NonZero(h, t, dim);
      assert Tallies(h, s, dim) == Tallies(h, t, dim);
      hide Tallies, Scales, NonZero;
      if exists norm :: IsScaled(h, s, dim, v, norm) {
        var norm :| IsScaled(h, s, dim, v, norm);
        assert IsScaled(h, t, dim, v, norm);
      }
      if exists norm :: IsScaled(h, t, dim, v, norm) {
        var norm :| IsScaled(h, t, dim, v, norm);
        assert IsScaled(h, s, dim, v, norm);
      }
    }
  }

  /** An embedding is determined by the tokens. */
  lemma EmbeddingIsUnique(h: Hash, tokens: seq<Text>, dim: nat, u: Vector, v: Vector)
    requires IsEmbedding(h, tokens, dim, u) && IsEmbedding(h, tokens, dim, v)
    ensures u == v
  {
    hide Tally, Dot, Scales;
    if dim > 0 && NonZero(h, tokens, dim) {
      var m :| IsScaled(h, tokens, dim, u, m);
      var n :| IsScaled(h, tokens, dim, v, n);
      SameDirection(u, v, Tallies(h, tokens, dim), m, n);
    }
  }

  lemma SameDirection(u: Vector, v: Vector, c: Vector, m: real, n: real)
    requires Scales(m, u, c) && Scales(n, v, c) && m > 0.0 && n > 0.0
    requires Dot(u, u) == Dot(v, v) == 1.0
    ensures u == v
  {
    hide Dot, Times;
    ScaledDot(c, u, m);
    ScaledDot(c, v, n);
    SameSquare(m, n);
    forall b | 0 <= b < |u|
      ensures u[b] == v[b]
    {
      SameFactor(m, u[b], v[b]);
    }
  }

  lemma SameSquare(m: real, n: real)
    requires m > 0.0 && n > 0.0 && Times(Times(m, m), 1.0) == Times(Times(n, n), 1.0)
    ensures m == n
  {
    assert (m + n) * (m - n) == 0.0;
    NoFactor(m + n, m - n);
  }

  lemma SameFactor(a: real, x: real, y: real)
    requires a > 0.0 && a * x == a * y
    ensures x == y
  {
    assert a * (x - y) == 0.0;
    NoFactor(a, x - y);
  }

  /** The embedding of one token is 1 or -1, by its further bit, at its word modulo the width, and 0 elsewhere. */
  lemma OneToken(h: Hash, token: Text, dim: nat, v: Vector)
    requires dim > 0 && IsEmbedding(h, [token], dim, v)
    ensures |v| == dim
    ensures forall b :: 0 <= b < dim ==>
              v[b] == if b == h.word(token) % dim then (if h.bit(token) then -1.0 else 1.0) else 0.0
  {
    hide Dot, Tally;
    var at := h.word(token) % dim;
    var unit := if h.bit(token) then -1.0 else 1.0;
    forall b: nat
      ensures Tally(h, [token], dim, b) == if b == at then (if h.bit(token) then -1 else 1) else 0
    {
      TallyOfOne(h, token, dim, b);
    }
    assert Tally(h, [token], dim, at) != 0;
    var norm :| IsScaled(h, [token], dim, v, norm);
    var zeros := seq(dim, _ => 0.0);
    forall b | 0 <= b < dim && b != at
      ensures v[b] == 0.0
    {
      assert norm * v[b] == 0.0;
      NoFactor(norm, v[b]);
    }
    assert norm * v[at] == unit;
    assert v == zeros[at := v[at]];
    DotOfUpdate(zeros, v, at, v[at]);
    DotOfZeros(zeros, v);
    assert v[at] * v[at] == 1.0;
    UnitRoot(norm, v[at], unit);
  }

  lemma TallyOfOne(h: Hash, token: Text, dim: nat, b: nat)
    requires dim > 0
    ensures Tally(h, [token], dim, b) == if b == h.word(token) % dim then (if h.bit(token) then -1 else 1) else 0
  {
    assert [token][..0] == [] && Tally(h, [], dim, b) == 0;
  }

  lemma UnitRoot(norm: real, x: real, unit: real)
    requires norm > 0.0 && norm * x == unit && x * x == 1.0 && (unit == 1.0 || unit == -1.0)
    ensures x == unit
  {
    assert (x - 1.0) * (x + 1.0) == 0.0;
    assert x == 1.0 || x == -1.0;
  }

  /** The same words, of whatever casing, joined by underscores or by spaces have the same tokens, hence
      the same vector. */
  lemma SeparatorsDoNotMatter(a: Alphabet, words: seq<Text>, s: char, t: char)
    requires a.Standard() && IsAscii(s) && IsAscii(t) && !IsAlnum(s) && !IsAlnum(t)
    requires forall i :: 0 <= i < |words| ==> words[i] != [] && IsAsciiText(words[i]) && AllAlnum(a, words[i])
    ensures Words(a, Join(words, s)) == Words(a, Join(words, t)) == LowerAll(a, words)
  {
    WordsOfJoin(a, words, s);
    WordsOfJoin(a, words, t);
  }

  lemma WordsOfJoin(a: Alphabet, words: seq<Text>, sep: char)
    requires a.Standard() && IsAscii(sep) && !IsAlnum(sep)
    requires forall i :: 0 <= i < |words| ==> words[i] != [] && IsAsciiText(words[i]) && AllAlnum(a, words[i])
    ensures Words(a, Join(words, sep)) == LowerAll(a, words)
  {
    LowerOfJoin(a, words, sep);
    var lowered := LowerAll(a, words);
    forall i | 0 <= i < |words|
      ensures lowered[i] != [] && AllAlnum(a, lowered[i])
    {
      LoweredPartIsToken(a, words[i]);
    }
    if words != [] {
      PiecesOfJoin(a, lowered, sep);
      AllNonEmpty(lowered);
    } else {
      assert NonEmpty([[]]) == [];
    }
  }

  lemma {:induction false} AllNonEmpty(pieces: seq<Text>)
    requires forall i :: 0 <= i < |pieces| ==> pieces[i] != []
    ensures NonEmpty(pieces) == pieces
  {
    if pieces != [] {
      AllNonEmpty(pieces[..|pieces| - 1]);
    }
  }

  lemma LowerOfConcat(x: Text, y: Text)
    ensures Lower(x + y) == Lower(x) + Lower(y)
  {
  }

  /** Lowercasing goes through a join. */
  lemma LowerOfJoin(a: Alphabet, words: seq<Text>, sep: char)
    requires a.Standard() && IsAscii(sep) && !IsAlnum(sep)
    requires forall i :: 0 <= i < |words| ==> IsAsciiText(words[i])
    ensures a.lower(Join(words, sep)) == Join(LowerAll(a, words), sep)
  {
    LowerOfAsciiJoin(a, words, sep);
    assert a.lower(Join(words, sep)) == Lower(Join(words, sep));
  }

  lemma {:induction false} LowerOfAsciiJoin(a: Alphabet, words: seq<Text>, sep: char)
    requires a.Standard() && IsAscii(sep) && !IsAlnum(sep)
    requires forall i :: 0 <= i < |words| ==> IsAsciiText(words[i])
    ensures IsAsciiText(Join(words, sep)) && Lower(Join(words, sep)) == Join(LowerAll(a, words), sep)
  {
    var n := |words| - 1;
    if n >= 0 {
      assert a.lower(words[n]) == Lower(words[n]);
    }
    if n > 0 {
      LowerOfAsciiJoin(a, words[..n], sep);
      var init := Join(words[..n], sep);
      LowerOfConcat(init + [sep], words[n]);
      LowerOfConcat(init, [sep]);
      assert Lower([sep]) == [sep];
      assert LowerAll(a, words)[..n] == LowerAll(a, words[..n]);
    }
  }
}
