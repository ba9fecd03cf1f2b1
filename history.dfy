/**
 * The history page's search (frontend/src/pages/HistoryPage.jsx): batches whose
 * lower-cased title contains the lower-cased search term, in the order received, and the
 * choice of empty-state message. `lower` stands for String.prototype.toLowerCase.
 */
module History {
  import opened JobBatchSchema

  /** `needle` occurs in `haystack` starting at position `i`. */
  predicate OccursAt(haystack: string, needle: string, i: int)
  {
    0 <= i && i + |needle| <= |haystack| && haystack[i..i + |needle|] == needle
  }

  /** `needle` occurs in `haystack` at some position (String.prototype.includes). */
  predicate Contains(haystack: string, needle: string)
  {
    exists i :: 0 <= i <= |haystack| && OccursAt(haystack, needle, i)
  }

  /** The filter's test for one batch. */
  predicate TitleMatches(b: JobBatch, term: string, lower: string -> string)
  {
    Contains(lower(b.jobTitle), lower(term))
  }

  /** filteredBatches: the batches whose title matches, in their original order. */
  function FilterBatches(bs: seq<JobBatch>, term: string, lower: string -> string): (r: seq<JobBatch>)
    ensures |r| <= |bs|
    ensures forall i :: 0 <= i < |r| ==> TitleMatches(r[i], term, lower)
  {
    if bs == [] then []
    else (if TitleMatches(bs[0], term, lower) then [bs[0]] else []) + FilterBatches(bs[1..], term, lower)
  }

  /** `idx` picks the elements of `sub` out of `s` at strictly increasing positions. */
  ghost predicate Embedding<T>(sub: seq<T>, s: seq<T>, idx: seq<nat>)
  {
    && |idx| == |sub|
    && (forall k :: 0 <= k < |idx| ==> idx[k] < |s| && sub[k] == s[idx[k]])
    && (forall k, l :: 0 <= k < l < |idx| ==> idx[k] < idx[l])
  }

  ghost predicate IsSubsequence<T>(sub: seq<T>, s: seq<T>)
  {
    exists idx :: Embedding(sub, s, idx)
  }

  function Shift(idx: seq<nat>): (r: seq<nat>)
    ensures |r| == |idx| && forall k :: 0 <= k < |idx| ==> r[k] == idx[k] + 1
  {
    if idx == [] then [] else [idx[0] + 1] + Shift(idx[1..])
  }

  /** An embedding into the tail of `s` extends to `s`, with or without its head in front. */
  lemma EmbeddingExtend<T>(sub: seq<T>, s: seq<T>, idx: seq<nat>)
    requires s != [] && Embedding(sub, s[1..], idx)
    ensures Embedding(sub, s, Shift(idx))
    ensures Embedding([s[0]] + sub, s, [0] + Shift(idx))
  {
    var shifted := Shift(idx);
    assert forall k :: 0 <= k < |idx| ==> s[1..][idx[k]] == s[shifted[k]];
    var sub', idx' := [s[0]] + sub, [0] + shifted;
    forall k | 0 <= k < |idx'|
      ensures idx'[k] < |s| && sub'[k] == s[idx'[k]]
    {
      if k > 0 {
        assert sub'[k] == sub[k - 1] && idx'[k] == shifted[k - 1];
      }
    }
  }

  /** Every position of `bs` whose title matches is among the positions `idx`. */
  ghost predicate MatchesIn(bs: seq<JobBatch>, term: string, lower: string -> string, idx: seq<nat>)
  {
    forall p :: 0 <= p < |bs| && TitleMatches(bs[p], term, lower) ==> p in idx
  }

  /** Positions of the tail, shifted by one, are positions of the whole list. */
  lemma MatchesInShift(bs: seq<JobBatch>, term: string, lower: string -> string, idx: seq<nat>, keep: bool)
    requires bs != [] && MatchesIn(bs[1..], term, lower, idx)
    requires keep == TitleMatches(bs[0], term, lower)
    ensures MatchesIn(bs, term, lower, if keep then [0] + Shift(idx) else Shift(idx))
  {
    var shifted := Shift(idx);
    forall p | 0 <= p < |bs| && TitleMatches(bs[p], term, lower)
      ensures p in (if keep then [0] + shifted else shifted)
    {
      if p > 0 {
        assert bs[1..][p - 1] == bs[p];
        var k :| 0 <= k < |idx| && idx[k] == p - 1;
        assert shifted[k] == p;
      }
    }
  }

  /**
   * The filtered list is a subsequence of all batches: nothing is added or reordered; and
   * the embedding takes every matching position, so every matching copy is kept.
   */
  lemma {:induction false} FilterIsSubsequence(bs: seq<JobBatch>, term: string, lower: string -> string)
    ensures IsSubsequence(FilterBatches(bs, term, lower), bs)
    ensures exists idx :: Embedding(FilterBatches(bs, term, lower), bs, idx) && MatchesIn(bs, term, lower, idx)
    decreases |bs|
  {
    var f := FilterBatches(bs, term, lower);
    if bs == [] {
      assert Embedding(f, bs, []) && MatchesIn(bs, term, lower, []);
    } else {
      var rest := FilterBatches(bs[1..], term, lower);
      FilterIsSubsequence(bs[1..], term, lower);
      var idx :| Embedding(rest, bs[1..], idx) && MatchesIn(bs[1..], term, lower, idx);
      EmbeddingExtend(rest, bs, idx);
      var keep := TitleMatches(bs[0], term, lower);
      MatchesInShift(bs, term, lower, idx, keep);
      assert f == (if keep then [bs[0]] else []) + rest;
      if keep {
        assert Embedding(f, bs, [0] + Shift(idx));
      } else {
        assert f == rest;
        assert Embedding(f, bs, Shift(idx));
      }
    }
  }

  /** A batch is kept exactly when it is one of the batches and its title matches. */
  lemma {:induction false} FilterMembership(bs: seq<JobBatch>, term: string, lower: string -> string, b: JobBatch)
    ensures b in FilterBatches(bs, term, lower) <==> b in bs && TitleMatches(b, term, lower)
    decreases |bs|
  {
    if bs != [] {
      FilterMembership(bs[1..], term, lower, b);
      assert bs == [bs[0]] + bs[1..];
    }
  }

  /** The empty string occurs in every string. */
  lemma ContainsEmpty(s: string)
    ensures Contains(s, "")
  {
    assert OccursAt(s, "", 0);
  }

  /** With an empty search term every batch is shown, provided lower-casing keeps "" empty. */
  lemma {:induction false} EmptyTermKeepsAll(bs: seq<JobBatch>, lower: string -> string)
    requires lower("") == ""
    ensures FilterBatches(bs, "", lower) == bs
    decreases |bs|
  {
    if bs != [] {
      ContainsEmpty(lower(bs[0].jobTitle));
      EmptyTermKeepsAll(bs[1..], lower);
    }
  }

  /** Two search terms that lower-case alike, such as "Dev" and "DEV", select the same batches. */
  lemma {:induction false} CaseOfTermIrrelevant(bs: seq<JobBatch>, t1: string, t2: string, lower: string -> string)
    requires lower(t1) == lower(t2)
    ensures FilterBatches(bs, t1, lower) == FilterBatches(bs, t2, lower)
    decreases |bs|
  {
    if bs != [] {
      CaseOfTermIrrelevant(bs[1..], t1, t2, lower);
    }
  }

  /** The filtered list is empty exactly when no batch matches. */
  lemma {:induction false} FilterEmpty(bs: seq<JobBatch>, term: string, lower: string -> string)
    ensures FilterBatches(bs, term, lower) == [] <==> forall i :: 0 <= i < |bs| ==> !TitleMatches(bs[i], term, lower)
    decreases |bs|
  {
    if bs != [] {
      FilterEmpty(bs[1..], term, lower);
      assert forall i :: 1 <= i < |bs| ==> bs[1..][i - 1] == bs[i];
    }
  }

  /** What the page body shows: the matching batches, or one of the two empty states. */
  datatype View = Listing(batches: seq<JobBatch>) | NoSavedAnalyses | NoMatches(term: string)

  /**
   * The empty-state choice: "no saved analyses" when there are no batches at all,
   * "no match" for the term when there are batches but none passes the filter.
   */
  function HistoryView(bs: seq<JobBatch>, term: string, lower: string -> string): (r: View)
    ensures r == NoSavedAnalyses <==> bs == []
    ensures r == NoMatches(term) <==> bs != [] && forall i :: 0 <= i < |bs| ==> !TitleMatches(bs[i], term, lower)
    ensures r.Listing? ==> r.batches == FilterBatches(bs, term, lower) && r.batches != []
  {
    FilterEmpty(bs, term, lower);
    var filtered := FilterBatches(bs, term, lower);
    if filtered == [] then
      if |bs| > 0 then NoMatches(term) else NoSavedAnalyses
    else Listing(filtered)
  }
}
