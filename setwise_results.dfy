/** How the setwise reranker writes its answer: the selected top documents first, in
    the order the sort left them, then every other document of the original list in
    its original order, all re-scored -1, -2, ... and stripped of their text. */
module SetwiseResults {
  import opened Prelude
  import opened UniversalRanker
  import opened SetwiseLabels
  import opened SetwiseHeap

  /** The output records for a list of ids, the t-th scored -(first + t), without text. */
  function Scored(ids: seq<string>, first: int): (r: seq<SearchResult>)
    ensures |r| == |ids|
    ensures forall t :: 0 <= t < |ids| ==> r[t] == SearchResult(ids[t], -(first + t), None)
  {
    if ids == [] then []
    else Scored(ids[..|ids| - 1], first) + [SearchResult(ids[|ids| - 1], -(first + |ids| - 1), None)]
  }

  /** The ids of the documents whose id is not in seen, in their order. */
  function Fresh(docs: seq<SearchResult>, seen: seq<string>): (r: seq<string>)
    ensures |r| <= |docs|
  {
    if docs == [] then []
    else
      var last := docs[|docs| - 1];
      Fresh(docs[..|docs| - 1], seen) + (if last.docid in seen then [] else [last.docid])
  }

  /** The reranked list: the top documents, then the rest of the original list. */
  function Assemble(top: seq<SearchResult>, original: seq<SearchResult>): seq<SearchResult> {
    var ids := Ids(top);
    Scored(ids + Fresh(original, ids), 1)
  }

  /** Fresh keeps exactly the ids outside seen. */
  lemma {:induction false} FreshMembers(docs: seq<SearchResult>, seen: seq<string>)
    ensures forall x :: x in Fresh(docs, seen) <==> x in Ids(docs) && x !in seen
  {
    if docs != [] {
      var init := docs[..|docs| - 1];
      FreshMembers(init, seen);
      assert Ids(docs) == Ids(init) + [docs[|docs| - 1].docid];
    }
  }

  /** Fresh of a list without repeated ids has no repeats. */
  lemma {:induction false} FreshDistinct(docs: seq<SearchResult>, seen: seq<string>)
    requires Distinct(Ids(docs))
    ensures Distinct(Fresh(docs, seen))
  {
    if docs != [] {
      var init := docs[..|docs| - 1];
      var last := docs[|docs| - 1];
      assert Ids(docs) == Ids(init) + [last.docid];
      assert Distinct(Ids(init)) by {
        forall i, j | 0 <= i < j < |init| ensures Ids(init)[i] != Ids(init)[j] {
          assert Ids(init)[i] == Ids(docs)[i] && Ids(init)[j] == Ids(docs)[j];
        }
      }
      FreshDistinct(init, seen);
      FreshMembers(init, seen);
      assert last.docid !in Ids(init) by {
        forall t | 0 <= t < |init| ensures Ids(init)[t] != last.docid {
          assert Ids(init)[t] == Ids(docs)[t] && last.docid == Ids(docs)[|docs| - 1];
        }
      }
    }
  }

  /** The layout of the answer: the top ids come first, in order; the rest are the
      original ids not among them; the scores are -1, -2, ..., strictly decreasing, and
      no record carries text. */
  lemma AssembleLayout(top: seq<SearchResult>, original: seq<SearchResult>)
    ensures var r := Assemble(top, original);
            |top| <= |r| <= |top| + |original|
            && (forall t :: 0 <= t < |top| ==> r[t].docid == top[t].docid)
            && (forall t :: |top| <= t < |r| ==>
                  r[t].docid in Ids(original) && r[t].docid !in Ids(top))
            && (forall t :: 0 <= t < |r| ==> r[t].score == -(t + 1) && r[t].text == None)
            && (forall p, q :: 0 <= p < q < |r| ==> r[p].score > r[q].score)
  {
    var ids := Ids(top);
    var rest := Fresh(original, ids);
    FreshMembers(original, ids);
    var r := Assemble(top, original);
    forall t | |top| <= t < |r|
      ensures r[t].docid in Ids(original) && r[t].docid !in Ids(top)
    {
      assert r[t].docid == rest[t - |top|];
    }
  }

  /** With distinct ids and a top drawn from the original list without repeats, the
      answer lists every original id exactly once. */
  lemma AssembleIsPermutation(top: seq<SearchResult>, original: seq<SearchResult>)
    requires Distinct(Ids(original)) && Distinct(Ids(top))
    requires forall t :: 0 <= t < |top| ==> top[t].docid in Ids(original)
    ensures var r := Assemble(top, original);
            Distinct(Ids(r)) && Members(Ids(r)) == Members(Ids(original)) && |r| == |original|
  {
    var ids := Ids(top);
    var rest := Fresh(original, ids);
    var all := ids + rest;
    FreshMembers(original, ids);
    FreshDistinct(original, ids);
    var r := Assemble(top, original);
    assert Ids(r) == all;
    forall i, j | 0 <= i < j < |all| ensures all[i] != all[j] {
      if j >= |ids| && i < |ids| {
        assert all[j] == rest[j - |ids|] && all[i] == ids[i];
      } else if i >= |ids| {
        assert all[i] == rest[i - |ids|] && all[j] == rest[j - |ids|];
      }
    }
    assert Members(all) == Members(Ids(original));
    DistinctSetSize(all);
    DistinctSetSize(Ids(original));
  }

  /** Scoring one more id appends its record, scored after the others. */
  lemma ScoredAppend(ids: seq<string>, x: string, first: int)
    ensures Scored(ids + [x], first) == Scored(ids, first) + [SearchResult(x, -(first + |ids|), None)]
  {
    assert (ids + [x])[..|ids|] == ids;
  }

  /** The first loop of rerank: each top document in turn, scored by a running rank
      from 1, its id added to the set of top ids. */
  method ListTop(top: seq<SearchResult>) returns (results: seq<SearchResult>, topIds: set<string>)
    ensures results == Scored(Ids(top), 1)
    ensures forall x :: x in topIds <==> x in Ids(top)
  {
    results, topIds := [], {};
    var rank := 1;
    ghost var ids: seq<string> := [];
    var t := 0;
    while t < |top|
      invariant 0 <= t <= |top| && rank == t + 1
      invariant ids == Ids(top)[..t] && results == Scored(ids, 1)
      invariant forall x :: x in topIds <==> x in ids
    {
      var id := top[t].docid;
      assert Ids(top)[..t + 1] == ids + [id];
      ScoredAppend(ids, id, 1);
      ids := ids + [id];
      topIds := topIds + {id};
      results := results + [SearchResult(id, -rank, None)];
      rank := rank + 1;
      t := t + 1;
    }
    assert Ids(top)[..t] == Ids(top);
  }

  /** The second loop of rerank: after the records for the ids in seen, each document
      of the original list whose id is not among them, the rank running on. */
  method ListRest(original: seq<SearchResult>, topIds: set<string>, ghost seen: seq<string>,
                  head: seq<SearchResult>)
    returns (results: seq<SearchResult>)
    requires forall x :: x in topIds <==> x in seen
    requires head == Scored(seen, 1)
    ensures results == Scored(seen + Fresh(original, seen), 1)
  {
    results := head;
    var rank := |head| + 1;
    ghost var rest := [];
    var t := 0;
    while t < |original|
      invariant 0 <= t <= |original| && rank == |seen| + |rest| + 1
      invariant rest == Fresh(original[..t], seen) && results == Scored(seen + rest, 1)
    {
      var id := original[t].docid;
      assert original[..t + 1][..t] == original[..t];
      assert Fresh(original[..t + 1], seen) == rest + (if id in seen then [] else [id]);
      if id !in topIds {
        ScoredAppend(seen + rest, id, 1);
        assert seen + rest + [id] == seen + (rest + [id]);
        rest := rest + [id];
        results := results + [SearchResult(id, -rank, None)];
        rank := rank + 1;
      }
      t := t + 1;
    }
    assert original[..t] == original;
  }

  // ---------------------------------------------------------------------------
  // From the sorted array to the answer

  /** An element that occurs at two positions occurs twice. */
  lemma CountAtTwoPositions<T>(s: seq<T>, p: nat, q: nat)
    requires p < q < |s| && s[p] == s[q]
    ensures multiset(s)[s[p]] >= 2
  {
    assert s == s[..q] + s[q..];
    assert s[p] in s[..q];
    assert s[q..][0] == s[q];
    assert s[q] in s[q..];
  }

  /** An element counted twice occurs at two positions. */
  lemma {:induction false} TwoPositionsOfCount<T>(s: seq<T>, x: T) returns (p: nat, q: nat)
    requires multiset(s)[x] >= 2
    ensures p < q < |s| && s[p] == x && s[q] == x
  {
    assert s == [s[0]] + s[1..];
    if s[0] == x {
      assert x in multiset(s[1..]);
      var t :| 0 <= t < |s[1..]| && s[1..][t] == x;
      p, q := 0, t + 1;
    } else {
      var p', q' := TwoPositionsOfCount(s[1..], x);
      p, q := p' + 1, q' + 1;
    }
  }

  /** Two positions of a rearrangement of a list with distinct ids hold different ids. */
  lemma ShuffledIdsDiffer(s: seq<SearchResult>, original: seq<SearchResult>, p: nat, q: nat)
    requires multiset(s) == multiset(original) && Distinct(Ids(original))
    requires p < q < |s|
    ensures s[p].docid != s[q].docid
  {
    if s[p] == s[q] {
      CountAtTwoPositions(s, p, q);
      var p', q' := TwoPositionsOfCount(original, s[p]);
    } else {
      assert s[p] in multiset(original) && s[q] in multiset(original);
      var p' :| 0 <= p' < |original| && original[p'] == s[p];
      var q' :| 0 <= q' < |original| && original[q'] == s[q];
    }
  }

  /** A rearrangement of a list without repeated ids has no repeated ids. */
  lemma DistinctIdsSurviveShuffle(s: seq<SearchResult>, original: seq<SearchResult>)
    requires multiset(s) == multiset(original) && Distinct(Ids(original))
    ensures Distinct(Ids(s))
  {
    forall p, q | 0 <= p < q < |s| ensures Ids(s)[p] != Ids(s)[q] {
      ShuffledIdsDiffer(s, original, p, q);
    }
  }

  /** When the sorted array is a rearrangement of an original list with distinct ids,
      the reranked answer lists every original id exactly once. */
  lemma RerankListsEveryIdOnce(s: seq<SearchResult>, original: seq<SearchResult>, k: int)
    requires multiset(s) == multiset(original) && Distinct(Ids(original))
    ensures var r := Assemble(Reverse(s)[..PrefixLen(k, |s|)], original);
            Distinct(Ids(r)) && Members(Ids(r)) == Members(Ids(original)) && |r| == |original|
  {
    var top := Reverse(s)[..PrefixLen(k, |s|)];
    DistinctIdsSurviveShuffle(s, original);
    assert Distinct(Ids(top)) by {
      forall i, j | 0 <= i < j < |top| ensures Ids(top)[i] != Ids(top)[j] {
        assert Ids(top)[i] == Ids(s)[|s| - 1 - i] && Ids(top)[j] == Ids(s)[|s| - 1 - j];
      }
    }
    forall t | 0 <= t < |top| ensures top[t].docid in Ids(original) {
      var x := top[t];
      assert x == s[|s| - 1 - t];
      assert x in multiset(original);
      var u :| 0 <= u < |original| && original[u] == x;
      assert Ids(original)[u] == x.docid;
    }
    AssembleIsPermutation(top, original);
  }

  /** The top documents are listed from most to least relevant, and each ranks at
      least as high as every document left out of the top. */
  ghost predicate RankedTop(top: seq<SearchResult>, rest: seq<SearchResult>, key: Relevance) {
    (forall p, q :: 0 <= p < q < |top| ==> key(top[q].text) <= key(top[p].text))
    && (forall p, u :: 0 <= p < |top| && 0 <= u < |rest| ==> key(rest[u].text) <= key(top[p].text))
  }

  /** If the sort left its last ExtractionCount(n, k) slots holding the largest
      documents in ascending order, the reversed list's first len(ranking[:k]) documents
      are the top of the ranking, most relevant first. */
  lemma SortedTailIsTop(s: seq<SearchResult>, key: Relevance, k: int)
    requires SortedFrom(s, key, |s| - ExtractionCount(|s|, k))
    ensures var r := Reverse(s);
            var m := PrefixLen(k, |s|);
            RankedTop(r[..m], r[m..], key)
  {
    var n := |s|;
    var r := Reverse(s);
    var m := PrefixLen(k, n);
    forall p, q | 0 <= p < q < m ensures key(r[..m][q].text) <= key(r[..m][p].text) {
      assert r[..m][q] == s[n - 1 - q] && r[..m][p] == s[n - 1 - p];
    }
    forall p, u | 0 <= p < m && 0 <= u < |r[m..]|
      ensures key(r[m..][u].text) <= key(r[..m][p].text)
    {
      assert r[m..][u] == s[n - 1 - m - u] && r[..m][p] == s[n - 1 - p];
    }
  }
}
