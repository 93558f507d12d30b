/**
 * The three list filters of PLM.py — the comprehension remove_book assigns
 * back to the library, the loop search_library uses to collect results, and
 * the comprehension display_statistics counts — as one order-preserving
 * filter over a criterion, with its properties proved once.
 */
module Filters {
  import opened Wrappers
  import opened Text
  import opened Books

  /** What a filter keeps. */
  datatype Criterion =
    | TitleDiffers(title: string)              // remove_book keeps books whose title differs, ignoring case
    | FieldContains(key: string, term: string) // search_library keeps books whose field holds the term
    | IsRead                                   // display_statistics counts the books marked read

  predicate Accepts(c: Criterion, b: Book)
    ensures c.FieldContains? && c.key !in FieldNames ==> !Accepts(c, b)
  {
    match c
    case TitleDiffers(t) => Lower(b.title) != Lower(t)
    case FieldContains(key, term) =>
      (match Field(b, key)
       case None => false
       case Some(v) => Contains(term, Lower(v)))
    case IsRead => b.read
  }

  /** The books of s that c accepts, in their order in s. */
  function Filter(s: seq<Book>, c: Criterion): (r: seq<Book>)
    ensures |r| <= |s|
  {
    if s == [] then []
    else Filter(s[..|s| - 1], c) + (if Accepts(c, s[|s| - 1]) then [s[|s| - 1]] else [])
  }

  /** How many books of s the criterion turns away. */
  function Rejected(s: seq<Book>, c: Criterion): (n: nat)
    ensures n <= |s|
  {
    if s == [] then 0
    else Rejected(s[..|s| - 1], c) + (if Accepts(c, s[|s| - 1]) then 0 else 1)
  }

  /** idx lists, in strictly increasing order, positions of s whose books spell out r. */
  ghost predicate Embedding<T>(r: seq<T>, s: seq<T>, idx: seq<int>) {
    && |idx| == |r|
    && (forall k :: 0 <= k < |idx| ==> 0 <= idx[k] < |s| && s[idx[k]] == r[k])
    && (forall k, l :: 0 <= k < l < |idx| ==> idx[k] < idx[l])
  }

  /** r is s with some elements dropped and the rest in their original order. */
  ghost predicate IsSubsequence<T>(r: seq<T>, s: seq<T>) {
    exists idx :: Embedding(r, s, idx)
  }

  /** A book is kept exactly when it was in s and the criterion accepts it. */
  lemma {:induction false} FilterMembership(s: seq<Book>, c: Criterion, b: Book)
    ensures b in Filter(s, c) <==> b in s && Accepts(c, b)
  {
    if s != [] {
      var init := s[..|s| - 1];
      FilterMembership(init, c, b);
      assert s == init + [s[|s| - 1]];
    }
  }

  /** Every copy of an accepted book is kept and no copy of a turned-away book is. */
  lemma {:induction false} FilterMultiplicity(s: seq<Book>, c: Criterion, b: Book)
    ensures multiset(Filter(s, c))[b] == if Accepts(c, b) then multiset(s)[b] else 0
  {
    if s != [] {
      var init := s[..|s| - 1];
      FilterMultiplicity(init, c, b);
      assert s == init + [s[|s| - 1]];
      assert multiset(s) == multiset(init) + multiset{s[|s| - 1]};
    }
  }

  /** The kept books appear in s in the same relative order. */
  lemma {:induction false} FilterSubsequence(s: seq<Book>, c: Criterion)
    ensures IsSubsequence(Filter(s, c), s)
  {
    if s == [] {
      assert Embedding(Filter(s, c), s, []);
    } else {
      var init, last := s[..|s| - 1], s[|s| - 1];
      FilterSubsequence(init, c);
      var idx :| Embedding(Filter(init, c), init, idx);
      assert forall k :: 0 <= k < |idx| ==> s[idx[k]] == init[idx[k]];
      if Accepts(c, last) {
        EmbeddingExtend(Filter(init, c), init, idx, last);
        assert Filter(s, c) == Filter(init, c) + [last];
        assert s == init + [last];
        assert Embedding(Filter(s, c), s, idx + [|init|]);
      } else {
        assert Embedding(Filter(s, c), s, idx);
      }
    }
  }

  /** An embedding of r into s extends to one of r + [x] into s + [x]. */
  lemma EmbeddingExtend<T>(r: seq<T>, s: seq<T>, idx: seq<int>, x: T)
    requires Embedding(r, s, idx)
    ensures Embedding(r + [x], s + [x], idx + [|s|])
  {
  }

  /** Each book of s is either kept or turned away. */
  lemma {:induction false} FilterLength(s: seq<Book>, c: Criterion)
    ensures |Filter(s, c)| + Rejected(s, c) == |s|
  {
    if s != [] {
      FilterLength(s[..|s| - 1], c);
    }
  }

  /** Nothing is turned away exactly when the criterion accepts every book of s. */
  lemma {:induction false} RejectedNone(s: seq<Book>, c: Criterion)
    ensures Rejected(s, c) == 0 <==> forall i :: 0 <= i < |s| ==> Accepts(c, s[i])
  {
    if s != [] {
      var init := s[..|s| - 1];
      RejectedNone(init, c);
      assert forall i :: 0 <= i < |init| ==> init[i] == s[i];
    }
  }

  /** When the criterion accepts every book, the filter gives s back unchanged. */
  lemma {:induction false} FilterKeepsAll(s: seq<Book>, c: Criterion)
    requires forall i :: 0 <= i < |s| ==> Accepts(c, s[i])
    ensures Filter(s, c) == s
  {
    if s != [] {
      var init, last := s[..|s| - 1], s[|s| - 1];
      forall i | 0 <= i < |init|
        ensures Accepts(c, init[i])
      {
        assert init[i] == s[i];
      }
      FilterKeepsAll(init, c);
      assert Accepts(c, s[|s| - 1]);
      assert s == init + [last];
    }
  }

  /** When the criterion accepts no book, the filter is empty. */
  lemma {:induction false} FilterDropsAll(s: seq<Book>, c: Criterion)
    requires forall i :: 0 <= i < |s| ==> !Accepts(c, s[i])
    ensures Filter(s, c) == []
  {
    if s != [] {
      var init := s[..|s| - 1];
      forall i | 0 <= i < |init|
        ensures !Accepts(c, init[i])
      {
        assert init[i] == s[i];
      }
      FilterDropsAll(init, c);
      assert !Accepts(c, s[|s| - 1]);
    }
  }

  /** Filtering a sequence with one more book at its end filters the old part and then that book. */
  lemma FilterSnoc(s: seq<Book>, c: Criterion, b: Book)
    ensures Filter(s + [b], c) == Filter(s, c) + (if Accepts(c, b) then [b] else [])
  {
    assert (s + [b])[..|s|] == s;
  }

  /** A search on a key the record does not have finds nothing, whatever the term. */
  lemma SearchUnknownField(s: seq<Book>, key: string, term: string)
    requires key !in FieldNames
    ensures Filter(s, FieldContains(key, term)) == []
  {
    FilterDropsAll(s, FieldContains(key, term));
  }

  /** A search for the empty term on a key the record has finds every book. */
  lemma SearchEmptyTerm(s: seq<Book>, key: string)
    requires key in FieldNames
    ensures Filter(s, FieldContains(key, "")) == s
  {
    forall i | 0 <= i < |s|
      ensures Accepts(FieldContains(key, ""), s[i])
    {
      EmptyContainedEverywhere(Lower(Field(s[i], key).value));
    }
    FilterKeepsAll(s, FieldContains(key, ""));
  }
}
