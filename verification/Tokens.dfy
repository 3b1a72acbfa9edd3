/** The code tokenizer shared by indexing and querying. */
module Tokens {
  import opened ChunkIds

  type Text = string

  /** What the tokenizer asks of Unicode: the character classes and the lowercasing of a text. */
  datatype Alphabet =
    Alphabet(isAlnum: char -> bool, isUpper: char -> bool, isLower: char -> bool, lower: Text -> Text)
  {
    /** On ASCII they are what they are there. */
    ghost predicate Standard() {
      && (forall c {:trigger isAlnum(c)} :: IsAscii(c) ==> isAlnum(c) == IsAlnum(c))
      && (forall c {:trigger isUpper(c)} :: IsAscii(c) ==> isUpper(c) == IsUpper(c))
      && (forall c {:trigger isLower(c)} :: IsAscii(c) ==> isLower(c) == IsLower(c))
      && (forall s {:trigger lower(s)} :: IsAsciiText(s) ==> lower(s) == Lower(s))
    }

    /** Lowercasing leaves something to index of every alphanumeric text. */
    ghost predicate KeepsLetters() {
      forall s {:trigger lower(s)} :: s != [] && (forall i :: 0 <= i < |s| ==> isAlnum(s[i])) ==>
        exists i :: 0 <= i < |lower(s)| && isAlnum(lower(s)[i])
    }
  }

  predicate IsAscii(c: char) {
    c as int < 128
  }

  predicate IsAsciiText(s: Text) {
    forall i :: 0 <= i < |s| ==> IsAscii(s[i])
  }

  predicate IsUpper(c: char) {
    'A' <= c <= 'Z'
  }

  predicate IsLower(c: char) {
    'a' <= c <= 'z'
  }

  predicate IsAlnum(c: char) {
    IsUpper(c) || IsLower(c) || IsDigit(c)
  }

  function LowerChar(c: char): char {
    if IsUpper(c) then (c as int + 32) as char else c
  }

  /** Lowercasing of ASCII text. */
  function Lower(s: Text): Text {
    seq(|s|, i requires 0 <= i < |s| => LowerChar(s[i]))
  }

  function LowerAll(a: Alphabet, parts: seq<Text>): seq<Text> {
    seq(|parts|, i requires 0 <= i < |parts| => a.lower(parts[i]))
  }

  /** `is_boundary`: a word starts before position `i`. */
  predicate IsBoundary(a: Alphabet, s: Text, i: nat)
    requires 1 <= i < |s|
  {
    && a.isUpper(s[i])
    && (|| a.isLower(s[i - 1]) || IsDigit(s[i - 1])
        || (a.isUpper(s[i - 1]) && i + 1 < |s| && a.isLower(s[i + 1])))
  }

  // ---------------------------------------------------------------------------------------
  // Cutting a segment
  // ---------------------------------------------------------------------------------------

  /** Where the part under way starts once the boundaries before position `i` are known. */
  function Start(a: Alphabet, s: Text, i: nat): (start: nat)
    requires i <= |s|
    ensures start <= i && (0 < i ==> start < i)
  {
    if i <= 1 then 0 else if IsBoundary(a, s, i - 1) then i - 1 else Start(a, s, i - 1)
  }

  /** The parts that end at a boundary before position `i`. */
  function Done(a: Alphabet, s: Text, i: nat): seq<Text>
    requires i <= |s|
  {
    if i <= 1 then []
    else Done(a, s, i - 1) + if IsBoundary(a, s, i - 1) then [s[Start(a, s, i - 1)..i - 1]] else []
  }

  function Parts(a: Alphabet, s: Text): seq<Text> {
    if s == [] then [] else Done(a, s, |s|) + [s[Start(a, s, |s|)..]]
  }

  function Concat(parts: seq<Text>): Text {
    if parts == [] then [] else Concat(parts[..|parts| - 1]) + parts[|parts| - 1]
  }

  /** `split_segment`: pushes the lowercased parts of a segment. */
  method SplitSegment(a: Alphabet, segment: Text, before: seq<Text>) returns (out: seq<Text>)
    ensures out == before + LowerAll(a, Parts(a, segment))
  {
    out := before;
    var n := |segment|;
    var start := 0;
    var i := 1;
    while i < n
      invariant 1 <= i && (n > 0 ==> i <= n)
      invariant n > 0 ==> start == Start(a, segment, i) && out == before + LowerAll(a, Done(a, segment, i))
      invariant n == 0 ==> start == 0 && out == before
    {
      if IsBoundary(a, segment, i) {
        LowerAllSnoc(a, Done(a, segment, i), segment[start..i]);
        out := out + [a.lower(segment[start..i])];
        start := i;
      } else {
        assert Done(a, segment, i + 1) == Done(a, segment, i);
      }
      i := i + 1;
    }
    if start < n {
      LowerAllSnoc(a, Done(a, segment, n), segment[start..n]);
      assert segment[start..n] == segment[start..];
      out := out + [a.lower(segment[start..n])];
    } else {
      assert Parts(a, segment) == [] && before + LowerAll(a, []) == before;
    }
  }

  lemma LowerAllSnoc(a: Alphabet, parts: seq<Text>, part: Text)
    ensures LowerAll(a, parts + [part]) == LowerAll(a, parts) + [a.lower(part)]
  {
  }

  /** The first position of part `k`. */
  function Offset(parts: seq<Text>, k: nat): nat
    requires k <= |parts|
  {
    if k == 0 then 0 else Offset(parts, k - 1) + |parts[k - 1]|
  }

  lemma {:induction false} OffsetOfPrefix(parts: seq<Text>, more: seq<Text>, k: nat)
    requires k <= |parts|
    ensures Offset(parts + more, k) == Offset(parts, k)
  {
    if k > 0 {
      OffsetOfPrefix(parts, more, k - 1);
    }
  }

  lemma {:induction false} OffsetOfPrefixes(parts: seq<Text>, more: seq<Text>)
    ensures forall k :: 0 <= k <= |parts| ==> Offset(parts + more, k) == Offset(parts, k)
  {
    forall k | 0 <= k <= |parts|
      ensures Offset(parts + more, k) == Offset(parts, k)
    {
      OffsetOfPrefix(parts, more, k);
    }
  }

  /** The finished parts are non-empty and fill the text up to the part under way. */
  lemma {:induction false} DoneFills(a: Alphabet, s: Text, i: nat)
    requires 1 <= i <= |s|
    ensures Concat(Done(a, s, i)) == s[..Start(a, s, i)]
    ensures forall k :: 0 <= k < |Done(a, s, i)| ==> Done(a, s, i)[k] != []
    ensures Offset(Done(a, s, i), |Done(a, s, i)|) == Start(a, s, i)
  {
    if i > 1 {
      DoneFills(a, s, i - 1);
      var done := Done(a, s, i - 1);
      if IsBoundary(a, s, i - 1) {
        var more := [s[Start(a, s, i - 1)..i - 1]];
        assert (done + more)[..|done|] == done;
        OffsetOfPrefixes(done, more);
      } else {
        assert Done(a, s, i) == done;
      }
    }
  }

  /** Every part ends at a boundary below `i`. */
  predicate EndAtBoundaries(a: Alphabet, s: Text, parts: seq<Text>, i: nat)
    requires i <= |s|
  {
    forall k :: 0 < k <= |parts| ==> 1 <= Offset(parts, k) < i && IsBoundary(a, s, Offset(parts, k))
  }

  lemma OneMoreEnd(a: Alphabet, s: Text, parts: seq<Text>, part: Text, i: nat)
    requires 1 < i <= |s| && EndAtBoundaries(a, s, parts, i - 1)
    requires Offset(parts, |parts|) + |part| == i - 1 && IsBoundary(a, s, i - 1)
    ensures EndAtBoundaries(a, s, parts + [part], i)
  {
    hide IsBoundary;
    OffsetOfPrefixes(parts, [part]);
  }

  /** Every offset is a boundary. */
  lemma {:induction false} CutsAreBoundaries(a: Alphabet, s: Text, i: nat)
    requires 1 <= i <= |s|
    ensures EndAtBoundaries(a, s, Done(a, s, i), i)
  {
    if i > 1 {
      CutsAreBoundaries(a, s, i - 1);
      DoneFills(a, s, i - 1);
      var done := Done(a, s, i - 1);
      if IsBoundary(a, s, i - 1) {
        OneMoreEnd(a, s, done, s[Start(a, s, i - 1)..i - 1], i);
      } else {
        assert Done(a, s, i) == done;
      }
    }
  }

  /** Every boundary is an offset. */
  lemma {:induction false} BoundariesAreCuts(a: Alphabet, s: Text, i: nat, j: nat)
    requires 1 <= j < i <= |s| && IsBoundary(a, s, j)
    ensures 0 < |Done(a, s, j + 1)| <= |Done(a, s, i)| && Offset(Done(a, s, i), |Done(a, s, j + 1)|) == j
  {
    if j == i - 1 {
      DoneFills(a, s, i);
    } else {
      BoundariesAreCuts(a, s, i - 1, j);
      var done := Done(a, s, i - 1);
      if IsBoundary(a, s, i - 1) {
        OffsetOfPrefixes(done, [s[Start(a, s, i - 1)..i - 1]]);
      } else {
        assert Done(a, s, i) == done;
      }
    }
  }

  /** Some part but the first starts at position `j`. */
  ghost predicate CutAt(parts: seq<Text>, j: nat) {
    exists k :: 0 < k < |parts| && Offset(parts, k) == j
  }

  /** The parts concatenate back to the segment, none is empty, and it is cut exactly at the
      boundaries. */
  lemma PartsAreExact(a: Alphabet, s: Text)
    requires s != []
    ensures Concat(Parts(a, s)) == s
    ensures forall k :: 0 <= k < |Parts(a, s)| ==> Parts(a, s)[k] != []
    ensures forall j :: 1 <= j < |s| ==> (IsBoundary(a, s, j) <==> CutAt(Parts(a, s), j))
  {
    hide IsBoundary, Start, Done;
    DoneFills(a, s, |s|);
    CutsAreBoundaries(a, s, |s|);
    var done, last := Done(a, s, |s|), [s[Start(a, s, |s|)..]];
    assert (done + last)[..|done|] == done;
    OffsetOfPrefixes(done, last);
    forall j | 1 <= j < |s| && IsBoundary(a, s, j)
      ensures CutAt(Parts(a, s), j)
    {
      BoundariesAreCuts(a, s, |s|, j);
      assert Offset(Parts(a, s), |Done(a, s, j + 1)|) == j;
    }
  }

  /** So a cut is exactly before each capital that follows a small letter or a digit, or that follows a capital
      and comes before a small letter. */
  lemma CutsOfSegment(a: Alphabet, s: Text, j: nat)
    requires 1 <= j < |s|
    ensures CutAt(Parts(a, s), j) <==>
            && a.isUpper(s[j])
            && (|| a.isLower(s[j - 1]) || '0' <= s[j - 1] <= '9'
                || (a.isUpper(s[j - 1]) && j + 1 < |s| && a.isLower(s[j + 1])))
  {
    hide Parts, CutAt;
    PartsAreExact(a, s);
    assert IsBoundary(a, s, j) <==> CutAt(Parts(a, s), j);
  }

  // ---------------------------------------------------------------------------------------
  // Whole texts
  // ---------------------------------------------------------------------------------------

  /** `split` on every character that is not alphanumeric. */
  function Pieces(a: Alphabet, s: Text): (pieces: seq<Text>)
    ensures pieces != []
  {
    if s == [] then [[]]
    else
      var n := |s| - 1;
      var before := Pieces(a, s[..n]);
      if a.isAlnum(s[n]) then ExtendLast(before, [s[n]]) else before + [[]]
  }

  function ExtendLast(pieces: seq<Text>, more: Text): (longer: seq<Text>)
    requires pieces != []
    ensures longer != []
  {
    pieces[..|pieces| - 1] + [pieces[|pieces| - 1] + more]
  }

  function TokensOf(a: Alphabet, pieces: seq<Text>): seq<Text> {
    if pieces == [] then []
    else TokensOf(a, pieces[..|pieces| - 1]) + LowerAll(a, Parts(a, pieces[|pieces| - 1]))
  }

  function CodeTokens(a: Alphabet, s: Text): seq<Text> {
    TokensOf(a, Pieces(a, s))
  }

  /** `code_tokens` */
  method Tokenize(a: Alphabet, s: Text) returns (out: seq<Text>)
    ensures out == CodeTokens(a, s)
  {
    out := [];
    var pieces := Pieces(a, s);
    for k := 0 to |pieces|
      invariant out == TokensOf(a, pieces[..k])
    {
      assert pieces[..k + 1][..k] == pieces[..k];
      if pieces[k] == [] {
        continue;
      }
      out := SplitSegment(a, pieces[k], out);
    }
    assert pieces[..|pieces|] == pieces;
  }

  /** `[Vec<String>]::join` with a one-character separator. */
  function Join(words: seq<Text>, sep: char): Text {
    if words == [] then []
    else if |words| == 1 then words[0]
    else Join(words[..|words| - 1], sep) + [sep] + words[|words| - 1]
  }

  predicate AllAlnum(a: Alphabet, s: Text) {
    forall i :: 0 <= i < |s| ==> a.isAlnum(s[i])
  }

  lemma PiecesSnoc(a: Alphabet, s: Text, c: char)
    ensures Pieces(a, s + [c]) == if a.isAlnum(c) then ExtendLast(Pieces(a, s), [c]) else Pieces(a, s) + [[]]
  {
    hide ExtendLast;
    assert (s + [c])[..|s|] == s;
  }

  lemma ExtendByNothing(pieces: seq<Text>)
    requires pieces != []
    ensures ExtendLast(pieces, []) == pieces
  {
    assert pieces[|pieces| - 1] + [] == pieces[|pieces| - 1];
  }

  lemma ExtendTwice(pieces: seq<Text>, x: Text, y: Text)
    requires pieces != []
    ensures ExtendLast(ExtendLast(pieces, x), y) == ExtendLast(pieces, x + y)
  {
    assert pieces[|pieces| - 1] + x + y == pieces[|pieces| - 1] + (x + y);
  }

  lemma ExtendEmpty(pieces: seq<Text>, word: Text)
    ensures ExtendLast(pieces + [[]], word) == pieces + [word]
  {
    assert [] + word == word;
  }

  lemma {:induction false} PiecesAppend(a: Alphabet, s: Text, word: Text)
    requires AllAlnum(a, word)
    ensures Pieces(a, s + word) == ExtendLast(Pieces(a, s), word)
  {
    hide Pieces, ExtendLast;
    if word == [] {
      assert s + word == s;
      ExtendByNothing(Pieces(a, s));
    } else {
      var n := |word| - 1;
      PiecesAppend(a, s, word[..n]);
      PiecesSnoc(a, s + word[..n], word[n]);
      ExtendTwice(Pieces(a, s), word[..n], [word[n]]);
      assert word == word[..n] + [word[n]];
      assert s + word[..n] + [word[n]] == s + word;
    }
  }

  lemma {:induction false} PiecesOfJoin(a: Alphabet, words: seq<Text>, sep: char)
    requires words != [] && !a.isAlnum(sep)
    requires forall i :: 0 <= i < |words| ==> AllAlnum(a, words[i])
    ensures Pieces(a, Join(words, sep)) == words
  {
    hide ExtendLast, AllAlnum;
    var n := |words| - 1;
    PieceOfWord(a, words[0]);
    hide Pieces;
    if n == 0 {
      assert words == [words[0]];
    } else {
      var init := Join(words[..n], sep);
      PiecesOfJoin(a, words[..n], sep);
      PiecesSnoc(a, init, sep);
      PiecesAppend(a, init + [sep], words[n]);
      ExtendEmpty(words[..n], words[n]);
      assert words[..n] + [words[n]] == words;
    }
  }

  lemma PieceOfWord(a: Alphabet, word: Text)
    requires AllAlnum(a, word)
    ensures Pieces(a, word) == [word]
  {
    PiecesAppend(a, [], word);
    ExtendEmpty([], word);
    assert [] + word == word;
    assert Pieces(a, []) == [] + [[]];
  }

  // ---------------------------------------------------------------------------------------
  // Tokenizing stored tokens
  // ---------------------------------------------------------------------------------------

  /** The tokens of several texts, one after another. */
  function TokensOfAll(a: Alphabet, texts: seq<Text>): seq<Text> {
    if texts == [] then [] else TokensOfAll(a, texts[..|texts| - 1]) + CodeTokens(a, texts[|texts| - 1])
  }

  lemma {:induction false} PiecesAcross(a: Alphabet, s: Text, sep: char, t: Text)
    requires !a.isAlnum(sep)
    ensures Pieces(a, s + [sep] + t) == Pieces(a, s) + Pieces(a, t)
  {
    hide Pieces, ExtendLast;
    if t == [] {
      assert s + [sep] + [] == s + [sep];
      PiecesSnoc(a, s, sep);
      PiecesOfNothing(a);
    } else {
      var n := |t| - 1;
      PiecesAcross(a, s, sep, t[..n]);
      PiecesSnoc(a, s + [sep] + t[..n], t[n]);
      PiecesSnoc(a, t[..n], t[n]);
      assert t == t[..n] + [t[n]];
      assert s + [sep] + t[..n] + [t[n]] == s + [sep] + t;
      ExtendAfter(Pieces(a, s), Pieces(a, t[..n]), [t[n]]);
    }
  }

  lemma PiecesOfNothing(a: Alphabet)
    ensures Pieces(a, []) == [[]]
  {
  }

  lemma ExtendAfter(before: seq<Text>, pieces: seq<Text>, more: Text)
    requires pieces != []
    ensures ExtendLast(before + pieces, more) == before + ExtendLast(pieces, more)
    ensures before + pieces + [[]] == before + (pieces + [[]])
  {
  }

  lemma {:induction false} TokensOfConcat(a: Alphabet, x: seq<Text>, y: seq<Text>)
    ensures TokensOf(a, x + y) == TokensOf(a, x) + TokensOf(a, y)
  {
    hide LowerAll, Parts;
    if y == [] {
      assert x + y == x;
    } else {
      var n := |y| - 1;
      TokensOfConcat(a, x, y[..n]);
      assert (x + y)[..|x| + n] == x + y[..n];
    }
  }

  /** Texts joined by any separator have the tokens of each in turn. */
  lemma {:induction false} TokensOfJoined(a: Alphabet, texts: seq<Text>, sep: char)
    requires !a.isAlnum(sep)
    ensures CodeTokens(a, Join(texts, sep)) == TokensOfAll(a, texts)
  {
    hide Pieces, TokensOf;
    if texts == [] {
      NothingHasNoTokens(a);
    } else {
      var n := |texts| - 1;
      TokensOfJoined(a, texts[..n], sep);
      if n == 0 {
        assert TokensOfAll(a, texts[..0]) == [];
      } else {
        PiecesAcross(a, Join(texts[..n], sep), sep, texts[n]);
        TokensOfConcat(a, Pieces(a, Join(texts[..n], sep)), Pieces(a, texts[n]));
      }
    }
  }

  lemma NothingHasNoTokens(a: Alphabet)
    ensures CodeTokens(a, []) == []
  {
    var none: Text := [];
    assert Pieces(a, none) == [none];
    assert LowerAll(a, Parts(a, none)) == [] && [none][..0] == [];
    assert TokensOf(a, [none]) == TokensOf(a, []) + LowerAll(a, Parts(a, none));
  }

  lemma {:induction false} LetterHasToken(a: Alphabet, s: Text, i: nat)
    requires i < |s| && a.isAlnum(s[i])
    ensures CodeTokens(a, s) != []
  {
    var n := |s| - 1;
    var before := Pieces(a, s[..n]);
    if a.isAlnum(s[n]) {
      var pieces := Pieces(a, s);
      assert Parts(a, pieces[|pieces| - 1]) != [];
    } else {
      LetterHasToken(a, s[..n], i);
      TokensOfConcat(a, before, [[]]);
    }
  }

  lemma {:induction false} PiecesAlnum(a: Alphabet, s: Text)
    ensures forall k :: 0 <= k < |Pieces(a, s)| ==> AllAlnum(a, Pieces(a, s)[k])
  {
    if s != [] {
      PiecesAlnum(a, s[..|s| - 1]);
    }
  }

  lemma {:induction false} PartsFrom(a: Alphabet, s: Text, i: nat)
    requires i <= |s|
    ensures forall k :: 0 <= k < |Done(a, s, i)| ==>
              Done(a, s, i)[k] != [] && forall j :: 0 <= j < |Done(a, s, i)[k]| ==> Done(a, s, i)[k][j] in s
  {
    if i > 1 {
      PartsFrom(a, s, i - 1);
    }
  }

  /** A token is the lowercase form of an alphanumeric part of the text. */
  ghost predicate FromPart(a: Alphabet, s: Text, token: Text) {
    exists part :: part != [] && AllAlnum(a, part) && (forall j :: 0 <= j < |part| ==> part[j] in s) && token == a.lower(part)
  }

  lemma PartTokens(a: Alphabet, piece: Text)
    requires AllAlnum(a, piece)
    ensures forall k :: 0 <= k < |LowerAll(a, Parts(a, piece))| ==> FromPart(a, piece, LowerAll(a, Parts(a, piece))[k])
  {
    PartsFrom(a, piece, |piece|);
    forall k | 0 <= k < |Parts(a, piece)|
      ensures FromPart(a, piece, a.lower(Parts(a, piece)[k]))
    {
      var part := Parts(a, piece)[k];
      assert forall j :: 0 <= j < |part| ==> part[j] in piece;
    }
  }

  lemma {:induction false} TokensAreLowered(a: Alphabet, s: Text, pieces: seq<Text>)
    requires forall k :: 0 <= k < |pieces| ==> AllAlnum(a, pieces[k]) && forall j :: 0 <= j < |pieces[k]| ==> pieces[k][j] in s
    ensures forall k :: 0 <= k < |TokensOf(a, pieces)| ==> FromPart(a, s, TokensOf(a, pieces)[k])
  {
    if pieces != [] {
      var n := |pieces| - 1;
      TokensAreLowered(a, s, pieces[..n]);
      PartTokens(a, pieces[n]);
      forall token | FromPart(a, pieces[n], token)
        ensures FromPart(a, s, token)
      {
        var part :| part != [] && AllAlnum(a, part) && (forall j :: 0 <= j < |part| ==> part[j] in pieces[n]) && token == a.lower(part);
        assert forall j :: 0 <= j < |part| ==> part[j] in s;
      }
    }
  }

  lemma {:induction false} PiecesFrom(a: Alphabet, s: Text)
    ensures forall k :: 0 <= k < |Pieces(a, s)| ==> forall j :: 0 <= j < |Pieces(a, s)[k]| ==> Pieces(a, s)[k][j] in s
  {
    if s != [] {
      PiecesFrom(a, s[..|s| - 1]);
    }
  }

  lemma TokensFromParts(a: Alphabet, s: Text)
    ensures forall k :: 0 <= k < |CodeTokens(a, s)| ==> FromPart(a, s, CodeTokens(a, s)[k])
  {
    PiecesAlnum(a, s);
    PiecesFrom(a, s);
    TokensAreLowered(a, s, Pieces(a, s));
  }

  /** The text is a token that tokenizes to itself. */
  predicate IsFixed(a: Alphabet, token: Text) {
    CodeTokens(a, token) == [token]
  }

  lemma {:induction false} AllFixedIff(a: Alphabet, tokens: seq<Text>)
    requires forall k :: 0 <= k < |tokens| ==> CodeTokens(a, tokens[k]) != []
    ensures |TokensOfAll(a, tokens)| >= |tokens|
    ensures TokensOfAll(a, tokens) == tokens <==> forall k :: 0 <= k < |tokens| ==> IsFixed(a, tokens[k])
  {
    hide CodeTokens;
    if tokens != [] {
      var n := |tokens| - 1;
      var init, last := tokens[..n], CodeTokens(a, tokens[n]);
      AllFixedIff(a, init);
      var all := TokensOfAll(a, init);
      if all + last == tokens {
        assert |all| == n && |last| == 1;
        assert all == (all + last)[..n] && last == (all + last)[n..];
        assert last == [tokens[n]];
      }
      assert tokens == init + [tokens[n]];
    }
  }

  /** The full-text column stores the tokens joined by spaces. Tokenizing it gives them back exactly
      when every token on its own tokenizes to itself. */
  lemma RetokenizingIff(a: Alphabet, s: Text)
    requires !a.isAlnum(' ') && a.KeepsLetters()
    ensures CodeTokens(a, Join(CodeTokens(a, s), ' ')) == CodeTokens(a, s) <==>
            forall k :: 0 <= k < |CodeTokens(a, s)| ==> IsFixed(a, CodeTokens(a, s)[k])
  {
    hide CodeTokens;
    var tokens := CodeTokens(a, s);
    TokensOfJoined(a, tokens, ' ');
    TokensFromParts(a, s);
    forall k | 0 <= k < |tokens|
      ensures CodeTokens(a, tokens[k]) != []
    {
      var part :| part != [] && AllAlnum(a, part) && tokens[k] == a.lower(part);
      var i :| 0 <= i < |tokens[k]| && a.isAlnum(tokens[k][i]);
      LetterHasToken(a, tokens[k], i);
    }
    AllFixedIff(a, tokens);
  }

  /** Lowercase letters and digits. */
  predicate IsToken(s: Text) {
    s != [] && forall i :: 0 <= i < |s| ==> IsLower(s[i]) || IsDigit(s[i])
  }

  lemma {:induction false} NoCapitalNoCut(a: Alphabet, s: Text, i: nat)
    requires i <= |s| && forall j :: 0 < j < |s| ==> !a.isUpper(s[j])
    ensures Done(a, s, i) == [] && Start(a, s, i) == 0
  {
    if i > 0 {
      NoCapitalNoCut(a, s, i - 1);
    }
  }

  /** An alphanumeric text without capitals that lowercasing leaves alone is a fixed token. */
  lemma PlainIsFixed(a: Alphabet, s: Text)
    requires s != [] && AllAlnum(a, s) && (forall j :: 0 < j < |s| ==> !a.isUpper(s[j])) && a.lower(s) == s
    ensures IsFixed(a, s)
  {
    NoCapitalNoCut(a, s, |s|);
    PieceOfWord(a, s);
    assert Parts(a, s) == [s] && LowerAll(a, [s]) == [s];
    assert TokensOf(a, [s]) == TokensOf(a, []) + LowerAll(a, Parts(a, s));
  }

  lemma TokenIsFixed(a: Alphabet, s: Text)
    requires a.Standard() && IsToken(s)
    ensures IsFixed(a, s)
  {
    assert Lower(s) == s;
    PlainIsFixed(a, s);
  }

  /** On ASCII text, tokenizing the stored column always gives the tokens back. */
  lemma RetokenizingIsIdentity(a: Alphabet, s: Text)
    requires a.Standard() && IsAsciiText(s)
    ensures CodeTokens(a, Join(CodeTokens(a, s), ' ')) == CodeTokens(a, s)
    ensures forall k :: 0 <= k < |CodeTokens(a, s)| ==> IsToken(CodeTokens(a, s)[k])
  {
    hide CodeTokens;
    var tokens := CodeTokens(a, s);
    TokensFromParts(a, s);
    forall k | 0 <= k < |tokens|
      ensures IsToken(tokens[k])
    {
      var part :| part != [] && AllAlnum(a, part) && (forall j :: 0 <= j < |part| ==> part[j] in s) && tokens[k] == a.lower(part);
      LoweredPartIsToken(a, part);
    }
    JoinedTokens(a, tokens, ' ');
  }

  lemma LoweredPartIsToken(a: Alphabet, part: Text)
    requires a.Standard() && part != [] && AllAlnum(a, part) && IsAsciiText(part)
    ensures IsToken(a.lower(part)) && a.lower(part) == Lower(part)
  {
  }

  /** Words joined by any separator tokenize to themselves. */
  lemma JoinedTokens(a: Alphabet, words: seq<Text>, sep: char)
    requires a.Standard() && !a.isAlnum(sep) && forall i :: 0 <= i < |words| ==> IsToken(words[i])
    ensures CodeTokens(a, Join(words, sep)) == words
  {
    hide CodeTokens, IsToken, Alphabet.Standard;
    TokensOfJoined(a, words, sep);
    forall k | 0 <= k < |words|
      ensures IsFixed(a, words[k])
    {
      TokenIsFixed(a, words[k]);
    }
    FixedTokens(a, words);
  }

  lemma {:induction false} FixedTokens(a: Alphabet, words: seq<Text>)
    requires forall k :: 0 <= k < |words| ==> IsFixed(a, words[k])
    ensures TokensOfAll(a, words) == words
  {
    hide CodeTokens;
    if words != [] {
      var n := |words| - 1;
      FixedTokens(a, words[..n]);
      assert words == words[..n] + [words[n]];
    }
  }

  const DOTTED_CAPITAL_I: char := '\U{0130}'
  const COMBINING_DOT: char := '\U{0307}'

  /** Beyond ASCII it can fail. In Unicode the Turkish capital I with a dot lowercases to an `i` and a
      combining dot, which is no letter: stored as one token, it comes back without the dot. */
  lemma DottedCapitalIsNotFixed(a: Alphabet)
    requires a.Standard()
    requires a.isAlnum(DOTTED_CAPITAL_I) && a.lower([DOTTED_CAPITAL_I]) == ['i', COMBINING_DOT]
    requires !a.isAlnum(COMBINING_DOT)
    ensures CodeTokens(a, [DOTTED_CAPITAL_I]) == [['i', COMBINING_DOT]]
    ensures CodeTokens(a, Join(CodeTokens(a, [DOTTED_CAPITAL_I]), ' ')) == [['i']]
  {
    var dotted, stored := [DOTTED_CAPITAL_I], ['i', COMBINING_DOT];
    PieceOfWord(a, dotted);
    NoCapitalNoCut(a, dotted, 1);
    assert Parts(a, dotted) == [dotted] && LowerAll(a, [dotted]) == [stored];
    assert TokensOf(a, [dotted]) == TokensOf(a, []) + LowerAll(a, Parts(a, dotted));
    assert Join([stored], ' ') == stored;
    assert stored == ['i'] + [COMBINING_DOT] + [];
    assert [['i'], []][..1] == [['i']];
    PiecesAcross(a, ['i'], COMBINING_DOT, []);
    TokenIsFixed(a, ['i']);
    NothingHasNoTokens(a);
    TokensOfConcat(a, Pieces(a, ['i']), Pieces(a, []));
  }

  // ---------------------------------------------------------------------------------------
  // Casings
  // ---------------------------------------------------------------------------------------

  /** Starts with a lowercase letter and goes on in lowercase letters and digits. */
  predicate IsWord(w: Text) {
    IsToken(w) && IsLower(w[0])
  }

  function Capitalize(w: Text): Text
    requires IsWord(w)
  {
    [(w[0] as int - 32) as char] + w[1..]
  }

  predicate AreWords(words: seq<Text>) {
    forall i :: 0 <= i < |words| ==> IsWord(words[i])
  }

  /** The words from `from` on capitalized, run together. */
  function Humps(words: seq<Text>, from: nat): Text
    requires AreWords(words)
  {
    if words == [] then []
    else
      var n := |words| - 1;
      Humps(words[..n], from) + if n < from then words[n] else Capitalize(words[n])
  }

  function SnakeCase(words: seq<Text>): Text {
    Join(words, '_')
  }

  function PascalCase(words: seq<Text>): Text
    requires AreWords(words)
  {
    Humps(words, 0)
  }

  function CamelCase(words: seq<Text>): Text
    requires AreWords(words)
  {
    Humps(words, 1)
  }

  /** In humps the cut before `w` is found: `v` ends in a small letter or digit, or `w` goes on in a
      small letter. */
  predicate Apart(v: Text, w: Text) {
    |v| >= 2 || (|w| >= 2 && IsLower(w[1]))
  }

  /** Appending a capitalized word leaves the earlier cuts as they are. */
  lemma {:induction false} CutsBeforeHump(a: Alphabet, s: Text, c: Text, i: nat)
    requires i <= |s| && c != [] && !a.isLower(c[0])
    ensures Done(a, s + c, i) == Done(a, s, i) && Start(a, s + c, i) == Start(a, s, i)
  {
    if i > 1 {
      CutsBeforeHump(a, s, c, i - 1);
      assert IsBoundary(a, s + c, i - 1) == IsBoundary(a, s, i - 1);
      assert (s + c)[Start(a, s, i - 1)..i - 1] == s[Start(a, s, i - 1)..i - 1];
    }
  }

  /** No cut inside a word. */
  lemma {:induction false} NoCutInHump(a: Alphabet, s: Text, c: Text, i: nat)
    requires s != [] && c != [] && |s| < i <= |s| + |c|
    requires forall j :: 0 < j < |c| ==> !a.isUpper(c[j])
    ensures Done(a, s + c, i) == Done(a, s + c, |s| + 1) && Start(a, s + c, i) == Start(a, s + c, |s| + 1)
  {
    if i > |s| + 1 {
      NoCutInHump(a, s, c, i - 1);
      assert (s + c)[i - 1] == c[i - 1 - |s|];
    }
  }

  lemma PartsOfHump(a: Alphabet, s: Text, w: Text)
    requires a.Standard() && s != [] && IsWord(w)
    ensures Parts(a, s) != []
    ensures var c := Capitalize(w);
            Parts(a, s + c) ==
            if IsBoundary(a, s + c, |s|) then Parts(a, s) + [c]
            else Parts(a, s)[..|Parts(a, s)| - 1] + [Parts(a, s)[|Parts(a, s)| - 1] + c]
  {
    var c := Capitalize(w);
    var t := s + c;
    CutsBeforeHump(a, s, c, |s|);
    NoCutInHump(a, s, c, |t|);
    DropAppended(s, c, Start(a, s, |s|));
  }

  lemma DropAppended(s: Text, c: Text, start: nat)
    requires start <= |s|
    ensures (s + c)[start..|s|] == s[start..] && (s + c)[|s|..] == c && (s + c)[start..] == s[start..] + c
  {
  }

  lemma LowerOfCapitalized(a: Alphabet, w: Text)
    requires a.Standard() && IsWord(w)
    ensures a.lower(Capitalize(w)) == w
  {
  }

  /** The last character of a run of humps is a capital only if the last word is one letter and was
      capitalized. */
  lemma HumpsEnd(words: seq<Text>, from: nat)
    requires AreWords(words) && words != []
    ensures var s, w := Humps(words, from), words[|words| - 1];
            && s != []
            && (IsUpper(s[|s| - 1]) <==> |words| > from && |w| == 1)
            && (IsUpper(s[|s| - 1]) || IsLower(s[|s| - 1]) || IsDigit(s[|s| - 1]))
  {
  }

  lemma HumpIsCut(a: Alphabet, words: seq<Text>, from: nat)
    requires a.Standard() && AreWords(words) && |words| >= 2 && from <= 1
    ensures var n := |words| - 1;
            var s, c := Humps(words[..n], from), Capitalize(words[n]);
            s != [] && (IsBoundary(a, s + c, |s|) <==> n - 1 < from || Apart(words[n - 1], words[n]))
  {
    var n := |words| - 1;
    HumpsEnd(words[..n], from);
    var s, c := Humps(words[..n], from), Capitalize(words[n]);
    assert (s + c)[|s|] == c[0] && (s + c)[|s| - 1] == s[|s| - 1];
    assert |c| >= 2 ==> (s + c)[|s| + 1] == words[n][1];
  }

  /** Every two neighbours that meet in a hump are apart. */
  predicate AllApart(words: seq<Text>, from: nat) {
    forall k :: from <= k < |words| - 1 ==> Apart(words[k], words[k + 1])
  }

  /** At most one part per word, and with as many parts as words they are the words. */
  lemma {:induction false} PartsOfHumps(a: Alphabet, words: seq<Text>, from: nat)
    requires a.Standard() && AreWords(words) && words != [] && from <= 1
    ensures |Parts(a, Humps(words, from))| <= |words|
    ensures |Parts(a, Humps(words, from))| == |words| <==> AllApart(words, from)
    ensures AllApart(words, from) ==> LowerAll(a, Parts(a, Humps(words, from))) == words
  {
    hide Parts, LowerAll, Humps, Apart, IsToken, Alphabet.Standard;
    if |words| == 1 {
      OneHump(a, words[0], from);
      assert words == [words[0]];
    } else {
      PartsOfHumps(a, words[..|words| - 1], from);
      NextHump(a, words, from);
    }
  }

  lemma NextHump(a: Alphabet, words: seq<Text>, from: nat)
    requires a.Standard() && AreWords(words) && |words| >= 2 && from <= 1
    requires var init := words[..|words| - 1];
             && |Parts(a, Humps(init, from))| <= |init|
             && (|Parts(a, Humps(init, from))| == |init| <==> AllApart(init, from))
             && (AllApart(init, from) ==> LowerAll(a, Parts(a, Humps(init, from))) == init)
    ensures |Parts(a, Humps(words, from))| <= |words|
    ensures |Parts(a, Humps(words, from))| == |words| <==> AllApart(words, from)
    ensures AllApart(words, from) ==> LowerAll(a, Parts(a, Humps(words, from))) == words
  {
    hide Parts, AllApart, Apart, LowerAll, Capitalize, IsBoundary, IsToken, Alphabet.Standard;
    var n := |words| - 1;
    var init := words[..n];
    var s, c := Humps(init, from), Capitalize(words[n]);
    HumpIsCut(a, words, from);
    PartsOfHump(a, s, words[n]);
    assert Humps(words, from) == s + c;
    hide Humps;
    AllApartSnoc(words, from);
    LowerOfCapitalized(a, words[n]);
    LowerAllSnoc(a, Parts(a, s), c);
    assert init + [words[n]] == words;
  }

  lemma AllApartSnoc(words: seq<Text>, from: nat)
    requires |words| >= 2
    ensures var n := |words| - 1;
            AllApart(words, from) <==> AllApart(words[..n], from) && (n - 1 < from || Apart(words[n - 1], words[n]))
  {
    var n := |words| - 1;
    if AllApart(words[..n], from) {
      forall k | from <= k < n - 1
        ensures Apart(words[k], words[k + 1])
      {
        assert Apart(words[..n][k], words[..n][k + 1]);
      }
    }
  }

  lemma OneHump(a: Alphabet, w: Text, from: nat)
    requires a.Standard() && IsWord(w)
    ensures AreWords([w]) && |Parts(a, Humps([w], from))| == 1 && LowerAll(a, Parts(a, Humps([w], from))) == [w]
  {
    HumpsOfOne([w], from);
    var s := Humps([w], from);
    PartsOfOne(a, w, s);
    LowerAllOne(a, s);
  }

  lemma LowerAllOne(a: Alphabet, part: Text)
    ensures LowerAll(a, [part]) == [a.lower(part)]
  {
  }

  lemma HumpsOfOne(words: seq<Text>, from: nat)
    requires AreWords(words) && |words| == 1
    ensures Humps(words, from) == if 0 < from then words[0] else Capitalize(words[0])
  {
    assert words[..0] == [] && Humps([], from) == [];
  }

  lemma PartsOfOne(a: Alphabet, w: Text, s: Text)
    requires a.Standard() && IsWord(w) && (s == w || s == Capitalize(w))
    ensures Parts(a, s) == [s] && a.lower(s) == w
  {
    NoCapitalNoCut(a, s, |s|);
    assert s[0..] == s;
  }

  lemma {:induction false} HumpsAlnum(a: Alphabet, words: seq<Text>, from: nat)
    requires a.Standard() && AreWords(words)
    ensures AllAlnum(a, Humps(words, from))
  {
    if words != [] {
      HumpsAlnum(a, words[..|words| - 1], from);
    }
  }

  lemma HumpsTokens(a: Alphabet, words: seq<Text>, from: nat)
    requires a.Standard() && AreWords(words) && words != [] && from <= 1
    ensures CodeTokens(a, Humps(words, from)) == words <==> AllApart(words, from)
  {
    var s := Humps(words, from);
    HumpsAlnum(a, words, from);
    PieceOfWord(a, s);
    assert TokensOf(a, [s]) == TokensOf(a, []) + LowerAll(a, Parts(a, s));
    PartsOfHumps(a, words, from);
  }

  /** snake_case always tokenizes to its words. PascalCase does exactly when every two neighbours are
      apart, and camelCase when all but the first two are; words of two characters or more are. */
  lemma CasingsAgree(a: Alphabet, words: seq<Text>)
    requires a.Standard() && AreWords(words) && words != []
    ensures CodeTokens(a, SnakeCase(words)) == words
    ensures CodeTokens(a, PascalCase(words)) == words <==> AllApart(words, 0)
    ensures CodeTokens(a, CamelCase(words)) == words <==> AllApart(words, 1)
    ensures (forall i :: 0 <= i < |words| ==> |words[i]| >= 2) ==> AllApart(words, 0) && AllApart(words, 1)
  {
    JoinedTokens(a, words, '_');
    HumpsTokens(a, words, 0);
    HumpsTokens(a, words, 1);
  }

  /** Capital letters only. */
  predicate IsAcronym(s: Text) {
    s != [] && forall i :: 0 <= i < |s| ==> IsUpper(s[i])
  }

  lemma {:induction false} NoCutInAcronym(a: Alphabet, s: Text, i: nat)
    requires a.Standard() && IsAcronym(s) && i <= |s|
    ensures Done(a, s, i) == [] && Start(a, s, i) == 0
  {
    if i > 0 {
      NoCutInAcronym(a, s, i - 1);
    }
  }

  lemma AcronymIsOnePart(a: Alphabet, s: Text)
    requires a.Standard() && IsAcronym(s)
    ensures Parts(a, s) == [s] && AllAlnum(a, s)
  {
    NoCutInAcronym(a, s, |s|);
    assert s[0..] == s;
  }

  lemma TokensOfOnePiece(a: Alphabet, s: Text)
    requires AllAlnum(a, s)
    ensures CodeTokens(a, s) == LowerAll(a, Parts(a, s))
  {
    PieceOfWord(a, s);
    assert TokensOf(a, [s]) == TokensOf(a, []) + LowerAll(a, Parts(a, s));
  }

  lemma AcronymIsCut(a: Alphabet, acronym: Text, w: Text)
    requires a.Standard() && IsAcronym(acronym) && IsWord(w) && |w| >= 2 && IsLower(w[1])
    ensures Parts(a, acronym + Capitalize(w)) == [acronym, Capitalize(w)]
  {
    hide Parts;
    var c := Capitalize(w);
    var s := acronym + c;
    AcronymIsOnePart(a, acronym);
    PartsOfHump(a, acronym, w);
    assert s[|acronym|] == c[0] && s[|acronym| - 1] == acronym[|acronym| - 1] && s[|acronym| + 1] == w[1];
    assert IsBoundary(a, s, |acronym|);
  }

  lemma AcronymAlnum(a: Alphabet, acronym: Text, w: Text)
    requires a.Standard() && IsAcronym(acronym) && IsWord(w)
    ensures AllAlnum(a, acronym + Capitalize(w))
  {
    var c := Capitalize(w);
    forall i | 0 <= i < |acronym + c|
      ensures a.isAlnum((acronym + c)[i])
    {
      assert i >= |acronym| ==> (acronym + c)[i] == c[i - |acronym|];
    }
  }

  /** An acronym before a capitalized word that goes on in a small letter is a token of its own. */
  lemma AcronymBeforeWord(a: Alphabet, acronym: Text, w: Text)
    requires a.Standard() && IsAcronym(acronym) && IsWord(w) && |w| >= 2 && IsLower(w[1])
    ensures CodeTokens(a, acronym + Capitalize(w)) == [Lower(acronym), w]
  {
    var c := Capitalize(w);
    AcronymIsCut(a, acronym, w);
    AcronymAlnum(a, acronym, w);
    LowerOfCapitalized(a, w);
    assert a.lower(acronym) == Lower(acronym);
    hide Parts, CodeTokens, Capitalize, IsAcronym, IsToken, Alphabet.Standard;
    TokensOfOnePiece(a, acronym + c);
    LowerAllOne(a, acronym);
    LowerAllSnoc(a, [acronym], c);
    assert [acronym, c] == [acronym] + [c];
  }

  /** SCREAMING_CASE, with any separator, gives the words in small letters. */
  lemma {:induction false} ScreamingTokens(a: Alphabet, words: seq<Text>, sep: char)
    requires a.Standard() && !a.isAlnum(sep) && forall i :: 0 <= i < |words| ==> IsAcronym(words[i])
    ensures CodeTokens(a, Join(words, sep)) == seq(|words|, i requires 0 <= i < |words| => Lower(words[i]))
  {
    hide CodeTokens, IsAcronym, Alphabet.Standard, Lower;
    TokensOfJoined(a, words, sep);
    if words == [] {
      assert TokensOfAll(a, words) == [];
    } else {
      var n := |words| - 1;
      ScreamingTokens(a, words[..n], sep);
      TokensOfJoined(a, words[..n], sep);
      TokensOfAcronym(a, words[n]);
    }
  }

  lemma TokensOfAcronym(a: Alphabet, s: Text)
    requires a.Standard() && IsAcronym(s)
    ensures CodeTokens(a, s) == [Lower(s)]
  {
    AcronymIsOnePart(a, s);
    TokensOfOnePiece(a, s);
    LowerAllOne(a, s);
    assert a.lower(s) == Lower(s);
  }

  lemma TwoLetters(words: seq<Text>)
    requires words == ["a", "b"]
    ensures AreWords(words) && Humps(words, 0) == "AB" && !AllApart(words, 0)
  {
    assert !Apart(words[0], words[1]);
    HumpsOfOne(words[..1], 0);
    assert words[..1] == ["a"] && Capitalize("a") == "A" && Capitalize("b") == "B";
  }

  /** Two one-letter words in PascalCase run into one token. */
  lemma OneLetterWordsMerge(a: Alphabet)
    requires a.Standard()
    ensures AreWords(["a", "b"]) && PascalCase(["a", "b"]) == "AB" && CodeTokens(a, "AB") != ["a", "b"]
  {
    var words: seq<Text> := ["a", "b"];
    TwoLetters(words);
    hide IsToken, Humps, CodeTokens, Alphabet.Standard;
    HumpsTokens(a, words, 0);
  }
}
