/** Strict orders, the sort the ranking code relies on, and the greedy filter behind both
    deduplication stages. */
module Ordering {

  /** Lexicographic comparison of strings by code point. */
  predicate Less(a: string, b: string) {
    b != [] && (a == [] || a[0] < b[0] || (a[0] == b[0] && Less(a[1..], b[1..])))
  }

  lemma {:induction false} LessIsStrict(a: string, b: string)
    ensures !(Less(a, b) && Less(b, a))
    ensures a != b ==> Less(a, b) || Less(b, a)
    ensures a == b ==> !Less(a, b)
  {
    if a != [] && b != [] && a[0] == b[0] {
      LessIsStrict(a[1..], b[1..]);
      assert a == [a[0]] + a[1..] && b == [b[0]] + b[1..];
    }
  }

  lemma {:induction false} LessTransitive(a: string, b: string, c: string)
    requires Less(a, b) && Less(b, c)
    ensures Less(a, c)
  {
    if a != [] && a[0] == b[0] == c[0] {
      LessTransitive(a[1..], b[1..], c[1..]);
    }
  }

  /** At the first place where two strings differ the smaller character decides, and a proper prefix comes
      first. */
  lemma {:induction false} LessIsLexicographic(a: string, b: string, i: nat)
    requires i <= |a| && i <= |b| && a[..i] == b[..i]
    ensures i < |a| && i < |b| && a[i] != b[i] ==> (Less(a, b) <==> a[i] < b[i])
    ensures i == |a| || i == |b| ==> (Less(a, b) <==> |a| < |b|)
  {
    if i > 0 {
      assert a[..i][0] == b[..i][0] && a[..i][1..] == b[..i][1..];
      assert a[..i][1..] == a[1..][..i - 1] && b[..i][1..] == b[1..][..i - 1];
      LessIsLexicographic(a[1..], b[1..], i - 1);
    }
  }

  /** `lt` is a strict total order. */
  ghost predicate StrictTotal<T(!new)>(lt: (T, T) -> bool) {
    && (forall a, b :: lt(a, b) ==> !lt(b, a))
    && (forall a, b :: a != b ==> lt(a, b) || lt(b, a))
    && (forall a, b, c :: lt(a, b) && lt(b, c) ==> lt(a, c))
  }

  ghost predicate Sorted<T>(lt: (T, T) -> bool, s: seq<T>) {
    forall i, j :: 0 <= i < j < |s| ==> lt(s[i], s[j])
  }

  ghost predicate Distinct<T>(s: seq<T>) {
    forall i, j :: 0 <= i < j < |s| ==> s[i] != s[j]
  }

  function Insert<T(==)>(lt: (T, T) -> bool, x: T, s: seq<T>): seq<T> {
    if s == [] || lt(x, s[0]) then [x] + s else [s[0]] + Insert(lt, x, s[1..])
  }

  /** The list in the order `lt` gives; for a strict total order no other result is possible. */
  function Sort<T(==)>(lt: (T, T) -> bool, s: seq<T>): seq<T> {
    if s == [] then [] else Insert(lt, s[0], Sort(lt, s[1..]))
  }

  lemma {:induction false} InsertMembers<T>(lt: (T, T) -> bool, x: T, s: seq<T>)
    ensures multiset(Insert(lt, x, s)) == multiset{x} + multiset(s)
  {
    if s != [] && !lt(x, s[0]) {
      InsertMembers(lt, x, s[1..]);
      assert s == [s[0]] + s[1..];
    }
  }

  lemma {:induction false} SortMembers<T>(lt: (T, T) -> bool, s: seq<T>)
    ensures multiset(Sort(lt, s)) == multiset(s)
  {
    if s != [] {
      SortMembers(lt, s[1..]);
      InsertMembers(lt, s[0], Sort(lt, s[1..]));
      assert s == [s[0]] + s[1..];
    }
  }

  lemma {:induction false} InsertSorted<T(!new)>(lt: (T, T) -> bool, x: T, s: seq<T>)
    requires StrictTotal(lt) && Sorted(lt, s) && x !in s
    ensures Sorted(lt, Insert(lt, x, s))
  {
    if s != [] && !lt(x, s[0]) {
      assert s[0] in s;
      InsertSorted(lt, x, s[1..]);
      InsertMembers(lt, x, s[1..]);
      var rest := Insert(lt, x, s[1..]);
      forall y | y in rest
        ensures lt(s[0], y)
      {
        assert y in multiset(rest);
      }
    }
  }

  lemma {:induction false} SortSorted<T(!new)>(lt: (T, T) -> bool, s: seq<T>)
    requires StrictTotal(lt) && Distinct(s)
    ensures Sorted(lt, Sort(lt, s))
  {
    if s != [] {
      SortSorted(lt, s[1..]);
      SortMembers(lt, s[1..]);
      assert s[0] !in multiset(s[1..]);
      InsertSorted(lt, s[0], Sort(lt, s[1..]));
    }
  }

  /** No element is before one that precedes it; equal elements may repeat. */
  ghost predicate Ordered<T>(lt: (T, T) -> bool, s: seq<T>) {
    forall i, j :: 0 <= i < j < |s| ==> !lt(s[j], s[i])
  }

  lemma {:induction false} InsertOrdered<T(!new)>(lt: (T, T) -> bool, x: T, s: seq<T>)
    requires StrictTotal(lt) && Ordered(lt, s)
    ensures Ordered(lt, Insert(lt, x, s))
  {
    if s != [] && !lt(x, s[0]) {
      InsertOrdered(lt, x, s[1..]);
      InsertMembers(lt, x, s[1..]);
      var rest := Insert(lt, x, s[1..]);
      forall y | y in rest
        ensures !lt(y, s[0])
      {
        assert y in multiset(rest);
      }
    }
  }

  lemma {:induction false} SortOrdered<T(!new)>(lt: (T, T) -> bool, s: seq<T>)
    requires StrictTotal(lt)
    ensures Ordered(lt, Sort(lt, s))
  {
    if s != [] {
      SortOrdered(lt, s[1..]);
      InsertOrdered(lt, s[0], Sort(lt, s[1..]));
    }
  }

  lemma OrderedIsSorted<T(!new)>(lt: (T, T) -> bool, s: seq<T>)
    requires StrictTotal(lt) && Ordered(lt, s) && Distinct(s)
    ensures Sorted(lt, s)
  {
  }

  lemma HeadIsLeast<T(!new)>(lt: (T, T) -> bool, s: seq<T>, x: T)
    requires Sorted(lt, s) && x in s
    ensures s[0] == x || lt(s[0], x)
  {
  }

  lemma SortedHeads<T(!new)>(lt: (T, T) -> bool, a: seq<T>, b: seq<T>)
    requires StrictTotal(lt) && Sorted(lt, a) && Sorted(lt, b) && a != [] && b != []
    requires a[0] in b && b[0] in a
    ensures a[0] == b[0]
  {
    HeadIsLeast(lt, a, b[0]);
    HeadIsLeast(lt, b, a[0]);
  }

  lemma WithoutHead<T>(s: seq<T>)
    requires s != []
    ensures multiset(s[1..]) == multiset(s) - multiset{s[0]}
    ensures forall x :: x in multiset(s) ==> x in s
  {
    assert s == [s[0]] + s[1..];
  }

  lemma SortedTail<T>(lt: (T, T) -> bool, s: seq<T>)
    requires Sorted(lt, s) && s != []
    ensures Sorted(lt, s[1..])
  {
  }

  /** Two sorted lists with the same members are the same list. */
  lemma {:induction false} SortedUnique<T(!new)>(lt: (T, T) -> bool, a: seq<T>, b: seq<T>)
    requires StrictTotal(lt) && Sorted(lt, a) && Sorted(lt, b)
    requires multiset(a) == multiset(b)
    ensures a == b
  {
    hide StrictTotal, Sorted;
    assert |multiset(a)| == |a| && |multiset(b)| == |b|;
    if a != [] {
      SortedTail(lt, a);
      SortedTail(lt, b);
      WithoutHead(a);
      WithoutHead(b);
      assert a[0] in multiset(a) && b[0] in multiset(b);
      SortedHeads(lt, a, b);
      SortedUnique(lt, a[1..], b[1..]);
      assert a == [a[0]] + a[1..] && b == [b[0]] + b[1..];
    }
  }

  // ---------------------------------------------------------------------------------------
  // Greedy filtering
  // ---------------------------------------------------------------------------------------

  predicate AnyDuplicate<T>(dup: (T, T) -> bool, x: T, kept: seq<T>) {
    exists i :: 0 <= i < |kept| && dup(x, kept[i])
  }

  /** Keeps each item of the first `n` that duplicates no item kept before it. */
  function Greedy<T>(dup: (T, T) -> bool, items: seq<T>, n: nat): seq<T>
    requires n <= |items|
  {
    if n == 0 then []
    else
      var kept := Greedy(dup, items, n - 1);
      if AnyDuplicate(dup, items[n - 1], kept) then kept else kept + [items[n - 1]]
  }

  /** Positions, in increasing order, that pick `sub` out of `items`. */
  ghost predicate PicksFrom<T>(sub: seq<T>, items: seq<T>, at: seq<nat>) {
    && |at| == |sub|
    && (forall i, j :: 0 <= i < j < |at| ==> at[i] < at[j])
    && (forall i :: 0 <= i < |at| ==> at[i] < |items| && items[at[i]] == sub[i])
  }

  lemma PicksOneMore<T>(sub: seq<T>, items: seq<T>, at: seq<nat>, k: nat)
    requires PicksFrom(sub, items, at) && k < |items| && forall i :: 0 <= i < |at| ==> at[i] < k
    ensures PicksFrom(sub + [items[k]], items, at + [k])
  {
  }

  /** The survivors keep their order and no survivor duplicates an earlier one. */
  lemma {:induction false} GreedyPicks<T>(dup: (T, T) -> bool, items: seq<T>, n: nat) returns (at: seq<nat>)
    requires n <= |items|
    ensures PicksFrom(Greedy(dup, items, n), items, at)
    ensures forall i :: 0 <= i < |at| ==> at[i] < n
    ensures NoDuplicates(dup, Greedy(dup, items, n))
  {
    at := [];
    if n > 0 {
      at := GreedyPicks(dup, items, n - 1);
      hide PicksFrom, NoDuplicates, AnyDuplicate;
      var kept := Greedy(dup, items, n - 1);
      if !AnyDuplicate(dup, items[n - 1], kept) {
        PicksOneMore(kept, items, at, n - 1);
        KeepOneMore(dup, kept, items[n - 1]);
        at := at + [n - 1];
      }
    }
  }

  /** No item duplicates an earlier one. */
  ghost predicate NoDuplicates<T>(dup: (T, T) -> bool, kept: seq<T>) {
    forall i, j :: 0 <= i < j < |kept| ==> !dup(kept[j], kept[i])
  }

  lemma KeepOneMore<T>(dup: (T, T) -> bool, kept: seq<T>, x: T)
    requires NoDuplicates(dup, kept) && !AnyDuplicate(dup, x, kept)
    ensures NoDuplicates(dup, kept + [x])
  {
  }

  /** Whatever is dropped duplicates a survivor that stood before it. */
  lemma {:induction false} GreedyDrops<T>(dup: (T, T) -> bool, items: seq<T>, n: nat, k: nat)
    requires k < n <= |items|
    ensures Greedy(dup, items, k) <= Greedy(dup, items, n)
    ensures items[k] in Greedy(dup, items, n) || AnyDuplicate(dup, items[k], Greedy(dup, items, k))
  {
    if k < n - 1 {
      GreedyDrops(dup, items, n - 1, k);
    }
    assert Greedy(dup, items, n - 1) <= Greedy(dup, items, n);
  }
}
