/** Order-preserving filtering of sequences (JavaScript's `Array.prototype.filter`),
    the subsequence relation that describes it, and its inverse: merging a new
    order for the selected elements back into their positions. */
module Seqs {

  /** `a` can be obtained from `b` by deleting elements, keeping the order of the rest. */
  predicate IsSubsequence<T(==)>(a: seq<T>, b: seq<T>)
    decreases |b|
  {
    |a| == 0 ||
    (|b| > 0 && ((a[0] == b[0] && IsSubsequence(a[1..], b[1..])) || IsSubsequence(a, b[1..])))
  }

  /** Sequence without repeated elements. */
  predicate NoDuplicates<T(==)>(s: seq<T>) {
    forall i, j :: 0 <= i < j < |s| ==> s[i] != s[j]
  }

  /** The elements of `s` satisfying `p`, in their original order. */
  function Filter<T(==,!new)>(p: T -> bool, s: seq<T>): (r: seq<T>)
    ensures |r| <= |s|
    decreases |s|
  {
    if |s| == 0 then []
    else if p(s[0]) then [s[0]] + Filter(p, s[1..])
    else Filter(p, s[1..])
  }

  /** The filter is a subsequence of its input: nothing is reordered. */
  lemma {:induction false} FilterIsSubsequence<T(!new)>(p: T -> bool, s: seq<T>)
    ensures IsSubsequence(Filter(p, s), s)
    decreases |s|
  {
    if |s| > 0 {
      var r := Filter(p, s);
      FilterIsSubsequence(p, s[1..]);
      if p(s[0]) {
        assert r[0] == s[0] && r[1..] == Filter(p, s[1..]);
      }
    }
  }

  /** The filter keeps every copy of each passing element and no copy of any
      other: together with `FilterIsSubsequence` this determines it completely. */
  lemma {:induction false} FilterCounts<T(!new)>(p: T -> bool, s: seq<T>)
    ensures forall x :: multiset(Filter(p, s))[x] == if p(x) then multiset(s)[x] else 0
    decreases |s|
  {
    if |s| > 0 {
      assert s == [s[0]] + s[1..];
      FilterCounts(p, s[1..]);
    }
  }

  /** Membership in the filter: exactly the passing elements of `s`. */
  lemma FilterMembers<T(!new)>(p: T -> bool, s: seq<T>)
    ensures forall x :: x in Filter(p, s) <==> x in s && p(x)
  {
    FilterCounts(p, s);
    forall x ensures x in Filter(p, s) <==> x in s && p(x) {
      assert x in Filter(p, s) <==> multiset(Filter(p, s))[x] > 0;
      assert x in s <==> multiset(s)[x] > 0;
    }
  }

  /** Filtering keeps everything exactly when every element passes. */
  lemma {:induction false} FilterKeepsAll<T(!new)>(p: T -> bool, s: seq<T>)
    requires forall x :: x in s ==> p(x)
    ensures Filter(p, s) == s
    decreases |s|
  {
    if |s| > 0 {
      assert s == [s[0]] + s[1..];
      FilterKeepsAll(p, s[1..]);
    }
  }

  /** Filtering twice with the same predicate is filtering once. */
  lemma FilterIdempotent<T(!new)>(p: T -> bool, s: seq<T>)
    ensures Filter(p, Filter(p, s)) == Filter(p, s)
  {
    FilterMembers(p, s);
    FilterKeepsAll(p, Filter(p, s));
  }

  /** Filtering depends only on the values a predicate takes on the sequence. */
  lemma {:induction false} FilterCongruent<T(!new)>(p: T -> bool, q: T -> bool, s: seq<T>)
    requires forall x :: x in s ==> p(x) == q(x)
    ensures Filter(p, s) == Filter(q, s)
    decreases |s|
  {
    if |s| > 0 {
      FilterCongruent(p, q, s[1..]);
    }
  }

  /** Filtering a prefix-extended sequence: one step of the definition, usable on
      any sequence of the shape `[x] + s`. */
  lemma FilterCons<T(!new)>(p: T -> bool, x: T, s: seq<T>)
    ensures Filter(p, [x] + s) == (if p(x) then [x] else []) + Filter(p, s)
  {
    assert ([x] + s)[1..] == s;
  }

  /** Filtering distributes over concatenation. */
  lemma {:induction false} FilterConcat<T(!new)>(p: T -> bool, a: seq<T>, b: seq<T>)
    ensures Filter(p, a + b) == Filter(p, a) + Filter(p, b)
    decreases |a|
  {
    if |a| == 0 {
      assert a + b == b;
    } else {
      var x, rest := a[0], a[1..];
      calc {
        Filter(p, a + b);
        { assert a + b == [x] + (rest + b); }
        Filter(p, [x] + (rest + b));
        { FilterCons(p, x, rest + b); }
        (if p(x) then [x] else []) + Filter(p, rest + b);
        { FilterConcat(p, rest, b); }
        (if p(x) then [x] else []) + (Filter(p, rest) + Filter(p, b));
        ((if p(x) then [x] else []) + Filter(p, rest)) + Filter(p, b);
        { FilterCons(p, x, rest); assert a == [x] + rest; }
        Filter(p, a) + Filter(p, b);
      }
    }
  }

  /** Filtering out the one element that fails `p` removes just that element. */
  lemma FilterDropsOne<T(!new)>(p: T -> bool, before: seq<T>, x: T, after: seq<T>)
    requires forall y :: y in before ==> p(y)
    requires forall y :: y in after ==> p(y)
    requires !p(x)
    ensures Filter(p, before + [x] + after) == before + after
  {
    FilterKeepsAll(p, before);
    FilterKeepsAll(p, after);
    FilterCons(p, x, after);
    assert before + [x] + after == before + ([x] + after);
    FilterConcat(p, before, [x] + after);
  }

  /** Extending a prefix by one element. */
  lemma PrefixExtend<T>(s: seq<T>, k: int)
    requires 0 <= k < |s|
    ensures s[..k + 1] == s[..k] + [s[k]]
  {
  }

  /** Occurrences of `y` in a sequence with `x` put in front. */
  lemma CountCons<T>(x: T, s: seq<T>, y: T)
    ensures multiset([x] + s)[y] == (if x == y then 1 else 0) + multiset(s)[y]
  {
  }

  /** A filter of a duplicate-free sequence is duplicate-free. */
  lemma FilterNoDuplicates<T(!new)>(p: T -> bool, s: seq<T>)
    requires NoDuplicates(s)
    ensures NoDuplicates(Filter(p, s))
  {
    var r := Filter(p, s);
    FilterCounts(p, s);
    forall i, j | 0 <= i < j < |r|
      ensures r[i] != r[j]
    {
      if r[i] == r[j] {
        var x := r[i];
        CountAtLeastTwo(r, i, j);
        assert multiset(s)[x] >= 2;
        CountAtMostOne(s, x);
      }
    }
  }

  /** Two equal entries at distinct positions count twice in the multiset. */
  lemma CountAtLeastTwo<T>(s: seq<T>, i: int, j: int)
    requires 0 <= i < j < |s| && s[i] == s[j]
    ensures multiset(s)[s[i]] >= 2
  {
    assert s == s[..i] + [s[i]] + s[i+1..j] + [s[j]] + s[j+1..];
  }

  /** In a duplicate-free sequence every value occurs at most once. */
  lemma {:induction false} CountAtMostOne<T>(s: seq<T>, x: T)
    requires NoDuplicates(s)
    ensures multiset(s)[x] <= 1
    decreases |s|
  {
    if |s| > 0 {
      assert s == [s[0]] + s[1..];
      CountAtMostOne(s[1..], x);
      if s[0] == x {
        assert x !in s[1..];
      }
    }
  }

  /** `s` with the elements satisfying `p` replaced, in order, by the elements
      of `data`; the others stay where they are. Once `data` runs out the
      remaining elements are kept. */
  function MergeInto<T(!new)>(p: T -> bool, s: seq<T>, data: seq<T>): (r: seq<T>)
    ensures |r| == |s|
    ensures forall i :: 0 <= i < |s| && !p(s[i]) ==> r[i] == s[i]
  {
    if |s| == 0 then []
    else if p(s[0]) && |data| > 0 then [data[0]] + MergeInto(p, s[1..], data[1..])
    else [s[0]] + MergeInto(p, s[1..], data)
  }

  /** When `data` fills every selected position with selected elements,
      filtering the merge gives back `data`. */
  lemma {:induction false} MergeIntoFilter<T(!new)>(p: T -> bool, s: seq<T>, data: seq<T>)
    requires |data| == |Filter(p, s)|
    requires forall d :: d in data ==> p(d)
    ensures Filter(p, MergeInto(p, s, data)) == data
  {
    if |s| > 0 {
      assert s == [s[0]] + s[1..];
      FilterCons(p, s[0], s[1..]);
      if p(s[0]) {
        var rest := MergeInto(p, s[1..], data[1..]);
        MergeIntoFilter(p, s[1..], data[1..]);
        FilterCons(p, data[0], rest);
        assert data == [data[0]] + data[1..];
      } else {
        var rest := MergeInto(p, s[1..], data);
        MergeIntoFilter(p, s[1..], data);
        FilterCons(p, s[0], rest);
      }
    }
  }

  /** Counting in a non-empty sequence: its head, then its tail. */
  lemma CountHead<T>(s: seq<T>, y: T)
    requires |s| > 0
    ensures multiset(s)[y] == (if s[0] == y then 1 else 0) + multiset(s[1..])[y]
  {
    assert s == [s[0]] + s[1..];
    CountCons(s[0], s[1..], y);
  }

  /** The counting step of `MergeIntoCounts` when the head of `s` is selected:
      its slot takes the head of `data`. */
  lemma MergeIntoCountsSelected<T(!new)>(p: T -> bool, s: seq<T>, data: seq<T>)
    requires |s| > 0 && p(s[0]) && |data| > 0
    requires forall y ::
      multiset(MergeInto(p, s[1..], data[1..]))[y] + multiset(Filter(p, s[1..]))[y]
      == multiset(s[1..])[y] + multiset(data[1..])[y]
    ensures forall y ::
      multiset(MergeInto(p, s, data))[y] + multiset(Filter(p, s))[y] == multiset(s)[y] + multiset(data)[y]
  {
    var rest := MergeInto(p, s[1..], data[1..]);
    assert MergeInto(p, s, data) == [data[0]] + rest;
    assert Filter(p, s) == [s[0]] + Filter(p, s[1..]);
    forall y
      ensures multiset([data[0]] + rest)[y] + multiset([s[0]] + Filter(p, s[1..]))[y]
        == multiset(s)[y] + multiset(data)[y]
    {
      CountCons(data[0], rest, y);
      CountCons(s[0], Filter(p, s[1..]), y);
      CountHead(s, y);
      CountHead(data, y);
    }
  }

  /** The counting step of `MergeIntoCounts` when the head of `s` keeps its slot. */
  lemma MergeIntoCountsKept<T(!new)>(p: T -> bool, s: seq<T>, data: seq<T>)
    requires |s| > 0 && !p(s[0])
    requires forall y ::
      multiset(MergeInto(p, s[1..], data))[y] + multiset(Filter(p, s[1..]))[y]
      == multiset(s[1..])[y] + multiset(data)[y]
    ensures forall y ::
      multiset(MergeInto(p, s, data))[y] + multiset(Filter(p, s))[y] == multiset(s)[y] + multiset(data)[y]
  {
    var rest := MergeInto(p, s[1..], data);
    assert MergeInto(p, s, data) == [s[0]] + rest;
    forall y
      ensures multiset([s[0]] + rest)[y] + multiset(Filter(p, s[1..]))[y] == multiset(s)[y] + multiset(data)[y]
    {
      CountCons(s[0], rest, y);
      CountHead(s, y);
    }
  }

  /** When `data` has one item per selected position, the merge swaps the
      selected elements of `s` for the items of `data`, counted element by
      element. */
  lemma {:induction false} MergeIntoCounts<T(!new)>(p: T -> bool, s: seq<T>, data: seq<T>)
    requires |data| == |Filter(p, s)|
    ensures forall y ::
      multiset(MergeInto(p, s, data))[y] + multiset(Filter(p, s))[y] == multiset(s)[y] + multiset(data)[y]
  {
    if |s| > 0 {
      if p(s[0]) {
        MergeIntoCounts(p, s[1..], data[1..]);
        MergeIntoCountsSelected(p, s, data);
      } else {
        MergeIntoCounts(p, s[1..], data);
        MergeIntoCountsKept(p, s, data);
      }
    }
  }

  /** Merging a sequence's own selected elements back leaves it unchanged. */
  lemma {:induction false} MergeIntoOwnFilter<T(!new)>(p: T -> bool, s: seq<T>)
    ensures MergeInto(p, s, Filter(p, s)) == s
  {
    if |s| > 0 {
      assert s == [s[0]] + s[1..];
      FilterCons(p, s[0], s[1..]);
      MergeIntoOwnFilter(p, s[1..]);
    }
  }
}
